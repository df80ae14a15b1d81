/** `GET /available?date=` (index.js:108-130): every service with its `slots` replaced by the
    slots that no booking on that date holds for that treatment.

    The handler fetches all services and the bookings whose `date` equals the query value,
    then, per service, keeps the bookings whose `treatment` is the service's name, collects
    their `slot` fields, and filters the service's slots against that list. */
module Availability {
  import opened Wrappers
  import opened Documents
  import opened Sequences

  /** The query `{date: date}` on the bookings collection. */
  function OnDate(date: Option<string>): Booking -> bool {
    (b: Booking) => b.date == date
  }

  /** `book.treatment === service.name`. */
  function ForTreatment(name: string): Booking -> bool {
    (b: Booking) => b.treatment == Some(name)
  }

  /** `serviceBookings.map(book => book.slot)`. */
  function SlotsOf(bookings: seq<Booking>): (slots: seq<Option<string>>)
    ensures |slots| == |bookings|
    ensures forall i :: 0 <= i < |bookings| ==> slots[i] == bookings[i].slot
  {
    seq(|bookings|, i requires 0 <= i < |bookings| => bookings[i].slot)
  }

  /** `slot => !bookedSlots.includes(slot)`. */
  function NotBooked(booked: seq<Option<string>>): string -> bool {
    (slot: string) => Some(slot) !in booked
  }

  /** One iteration of the `forEach`: the service with its unbooked slots. */
  function WithFreeSlots(service: Service, bookingsOnDate: seq<Booking>): Service {
    var booked := SlotsOf(Filter(ForTreatment(service.name), bookingsOnDate));
    service.(slots := Filter(NotBooked(booked), service.slots))
  }

  /** Whether some booking in the store holds `slot` of treatment `name` on `date`. */
  predicate Taken(store: BookingStore, date: Option<string>, name: string, slot: string) {
    exists b :: b in store && b.date == date && b.treatment == Some(name) && b.slot == Some(slot)
  }

  /** The reply of `GET /available?date=`: `date` is the query parameter (absent when the
      request has none), `services` the services collection, `store` the bookings collection. */
  function Available(date: Option<string>, services: seq<Service>, store: BookingStore)
    : (r: seq<Service>)
    ensures |r| == |services|
    ensures forall i :: 0 <= i < |r| ==> r[i] == services[i].(slots := r[i].slots)
    ensures forall i :: 0 <= i < |r| ==> |r[i].slots| <= |services[i].slots|
    ensures forall i, x :: 0 <= i < |r| ==>
              (x in r[i].slots <==> x in services[i].slots && !Taken(store, date, services[i].name, x))
  {
    var bookingsOnDate := Filter(OnDate(date), store);
    var r := seq(|services|, i requires 0 <= i < |services| =>
                               WithFreeSlots(services[i], bookingsOnDate));
    assert forall i, x :: 0 <= i < |r| ==>
             (x in r[i].slots <==> x in services[i].slots && !Taken(store, date, services[i].name, x))
    by {
      forall i, x | 0 <= i < |r|
        ensures x in r[i].slots <==> x in services[i].slots && !Taken(store, date, services[i].name, x)
      {
        BookedIffTaken(store, date, services[i].name, x);
        var booked := SlotsOf(Filter(ForTreatment(services[i].name), bookingsOnDate));
        var keep := NotBooked(booked);
        if x in r[i].slots {
          var k :| 0 <= k < |r[i].slots| && r[i].slots[k] == x;
          assert keep(r[i].slots[k]);
        }
        if x in services[i].slots && keep(x) {
          var k :| 0 <= k < |services[i].slots| && services[i].slots[k] == x;
          assert keep(services[i].slots[k]);
        }
      }
    }
    r
  }

  /** A slot appears in the list the handler filters against exactly when some booking in
      the store holds it for that treatment on that date. */
  lemma BookedIffTaken(store: BookingStore, date: Option<string>, name: string, slot: string)
    ensures Some(slot) in SlotsOf(Filter(ForTreatment(name), Filter(OnDate(date), store)))
            <==> Taken(store, date, name, slot)
  {
  }

  /** Each service's free slots keep the order of its catalogue: they are a subsequence. */
  lemma AvailableKeepsOrder(date: Option<string>, services: seq<Service>, store: BookingStore, i: int)
    requires 0 <= i < |services|
    ensures IsSubseq(Available(date, services, store)[i].slots, services[i].slots)
  {
    var bookingsOnDate := Filter(OnDate(date), store);
    var booked := SlotsOf(Filter(ForTreatment(services[i].name), bookingsOnDate));
    FilterIsSubseq(NotBooked(booked), services[i].slots);
  }

  /** Each free slot keeps all its occurrences in the catalogue; each taken slot loses all
      of them. */
  lemma AvailableCount(date: Option<string>, services: seq<Service>, store: BookingStore, i: int,
                       x: string)
    requires 0 <= i < |services|
    ensures Count(Available(date, services, store)[i].slots, x)
            == if Taken(store, date, services[i].name, x) then 0 else Count(services[i].slots, x)
  {
    var bookingsOnDate := Filter(OnDate(date), store);
    var booked := SlotsOf(Filter(ForTreatment(services[i].name), bookingsOnDate));
    FilterCount(NotBooked(booked), services[i].slots, x);
    BookedIffTaken(store, date, services[i].name, x);
  }

  /** With no booking on the queried date, every service comes back unchanged. */
  lemma AvailableWithoutBookings(date: Option<string>, services: seq<Service>, store: BookingStore)
    requires forall k :: 0 <= k < |store| ==> store[k].date != date
    ensures Available(date, services, store) == services
  {
    var r := Available(date, services, store);
    forall i | 0 <= i < |services|
      ensures r[i] == services[i]
    {
      var bookingsOnDate := Filter(OnDate(date), store);
      assert bookingsOnDate == [];
      var booked := SlotsOf(Filter(ForTreatment(services[i].name), bookingsOnDate));
      assert booked == [];
      FilterAllKept(NotBooked(booked), services[i].slots);
    }
  }

  /** Recomputing availability over its own output with the same bookings changes nothing. */
  lemma AvailableIdempotent(date: Option<string>, services: seq<Service>, store: BookingStore)
    ensures Available(date, Available(date, services, store), store)
            == Available(date, services, store)
  {
    var r := Available(date, services, store);
    var bookingsOnDate := Filter(OnDate(date), store);
    forall i | 0 <= i < |services|
      ensures Available(date, r, store)[i] == r[i]
    {
      var booked := SlotsOf(Filter(ForTreatment(services[i].name), bookingsOnDate));
      FilterIdempotent(NotBooked(booked), services[i].slots);
    }
  }

  /** A booking on another date, or for another treatment, frees or takes no slot of the
      service: adding it to the store leaves that service's reply unchanged. */
  lemma UnrelatedBookingIgnored(date: Option<string>, services: seq<Service>, store: BookingStore,
                                b: Booking, i: int)
    requires 0 <= i < |services|
    requires b.date != date || b.treatment != Some(services[i].name)
    ensures Available(date, services, store + [b])[i] == Available(date, services, store)[i]
  {
    var name := services[i].name;
    FilterAppend(OnDate(date), store, [b]);
    var before := Filter(OnDate(date), store);
    var after := Filter(OnDate(date), store + [b]);
    FilterAppend(ForTreatment(name), before, Filter(OnDate(date), [b]));
    assert Filter(ForTreatment(name), Filter(OnDate(date), [b])) == [];
    assert Filter(ForTreatment(name), after) == Filter(ForTreatment(name), before);
  }

  /** A worked case: one booking of the 10am cleaning slot on a date leaves 9am and 11am. */
  lemma AvailableExample()
    ensures var cleaning := Service("Cleaning", ["9am", "10am", "11am"]);
            var booking := Booking(Some("Cleaning"), Some("2024-01-05"), Some("10am"),
                                   None, None, None, None);
            Available(Some("2024-01-05"), [cleaning], [booking])
              == [Service("Cleaning", ["9am", "11am"])]
  {
    var cleaning := Service("Cleaning", ["9am", "10am", "11am"]);
    var booking := Booking(Some("Cleaning"), Some("2024-01-05"), Some("10am"),
                           None, None, None, None);
    var bookingsOnDate := Filter(OnDate(Some("2024-01-05")), [booking]);
    assert bookingsOnDate == [booking];
    var booked := SlotsOf(Filter(ForTreatment("Cleaning"), bookingsOnDate));
    assert booked == [Some("10am")];
    var keep := NotBooked(booked);
    var slots := cleaning.slots;
    assert slots[1..] == ["10am", "11am"] && slots[1..][1..] == ["11am"];
    assert Filter(keep, ["11am"]) == ["11am"];
    assert Filter(keep, ["10am", "11am"]) == ["11am"];
    assert Filter(keep, slots) == ["9am", "11am"];
  }
}
