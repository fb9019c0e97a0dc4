/**
 * Slot generation and the in-memory booking store (src/lib/schedule.ts).
 *
 * Instants are whole LOCAL minutes counted from 1970-01-01 00:00 local time.
 * `Day(t)` is the local calendar day of `t` and `MinuteOfDay(t)` its minute
 * within that day; 1970-01-01 was a Thursday, which fixes the weekday of
 * every day index.
 */
module Schedule {
  import opened Base
  import opened Catalog

  const BusinessDays: seq<int> := [1, 2, 3, 4, 5, 6]  // Monday to Saturday; 0 is Sunday
  const OpenHour := 9
  const CloseHour := 18
  const SlotIntervalMinutes := 30
  const MinutesPerDay := 1440
  const DefaultDaysAhead := 21

  /** Number of slots the inner loop of `GenerateSlots` emits for one day. */
  const SlotsPerDay := 18

  // ---------------------------------------------------------------- calendar

  function Day(t: int): int
  {
    t / MinutesPerDay
  }

  function MinuteOfDay(t: int): int
  {
    t % MinutesPerDay
  }

  /** `getDay()` of a day index: 0 = Sunday, ..., 6 = Saturday. */
  function Weekday(day: int): int
  {
    (day + 4) % 7
  }

  predicate IsBusinessDay(day: int)
  {
    Weekday(day) in BusinessDays
  }

  /** Every weekday but Sunday is a business day. */
  lemma BusinessDayIffNotSunday(day: int)
    ensures 0 <= Weekday(day) < 7
    ensures IsBusinessDay(day) <==> Weekday(day) != 0
  {
  }

  /** Splitting an instant given as a day and a minute of that day. */
  lemma DayAndMinute(day: int, m: int)
    requires 0 <= m < MinutesPerDay
    ensures Day(day * MinutesPerDay + m) == day
    ensures MinuteOfDay(day * MinutesPerDay + m) == m
  {
  }

  lemma DayMinuteSplit(t: int)
    ensures t == Day(t) * MinutesPerDay + MinuteOfDay(t)
    ensures 0 <= MinuteOfDay(t) < MinutesPerDay
  {
  }

  // ---------------------------------------------------------------- slots

  datatype Slot = Slot(start: int, end: int)

  /** The slots the inner loop emits for one day: 09:00, 09:30, ..., 17:30. */
  function DaySlots(day: int): seq<Slot>
  {
    seq(SlotsPerDay, k requires 0 <= k < SlotsPerDay =>
      var start := day * MinutesPerDay + OpenHour * 60 + k * SlotIntervalMinutes;
      Slot(start, start + SlotIntervalMinutes))
  }

  /** The slots for `n` consecutive days starting with day index `first`. */
  function SlotsForDays(first: int, n: nat): seq<Slot>
  {
    if n == 0 then []
    else SlotsForDays(first, n - 1) + (if IsBusinessDay(first + n - 1) then DaySlots(first + n - 1) else [])
  }

  /** Number of days the outer loop visits: offsets 0..daysAhead inclusive. */
  function DaysCovered(daysAhead: int): nat
  {
    if daysAhead < 0 then 0 else daysAhead + 1
  }

  /** `generateSlots(daysAhead)` relative to the instant `now`. */
  method GenerateSlots(now: int, daysAhead: int) returns (slots: seq<Slot>)
    ensures slots == SlotsForDays(Day(now), DaysCovered(daysAhead))
  {
    slots := [];
    var today := Day(now) * MinutesPerDay;  // startOfDay(now)
    var dayOffset := 0;
    while dayOffset <= daysAhead
      invariant 0 <= dayOffset <= DaysCovered(daysAhead)
      invariant slots == SlotsForDays(Day(now), dayOffset)
    {
      var day := today + dayOffset * MinutesPerDay;  // addDays(today, dayOffset)
      DayAndMinute(Day(now) + dayOffset, 0);
      if IsBusinessDay(Day(day)) {
        var minutesFromOpen := 0;
        while minutesFromOpen <= (CloseHour - OpenHour) * 60 - SlotIntervalMinutes
          invariant 0 <= minutesFromOpen <= (CloseHour - OpenHour) * 60
          invariant minutesFromOpen % SlotIntervalMinutes == 0
          invariant slots == SlotsForDays(Day(now), dayOffset)
                             + DaySlots(Day(now) + dayOffset)[..minutesFromOpen / SlotIntervalMinutes]
        {
          var base := day + OpenHour * 60;
          var start := base + minutesFromOpen;
          var end := start + SlotIntervalMinutes;
          ghost var k := minutesFromOpen / SlotIntervalMinutes;
          assert DaySlots(Day(now) + dayOffset)[..k + 1]
              == DaySlots(Day(now) + dayOffset)[..k] + [Slot(start, end)];
          slots := slots + [Slot(start, end)];
          minutesFromOpen := minutesFromOpen + SlotIntervalMinutes;
        }
        assert DaySlots(Day(now) + dayOffset)[..SlotsPerDay] == DaySlots(Day(now) + dayOffset);
      }
      dayOffset := dayOffset + 1;
    }
  }

  /** Membership in one day's slots, stated by the slot's own calendar position. */
  lemma DaySlotsMembers(day: int, s: Slot)
    ensures s in DaySlots(day) <==>
      Day(s.start) == day
      && OpenHour * 60 <= MinuteOfDay(s.start) <= CloseHour * 60 - SlotIntervalMinutes
      && MinuteOfDay(s.start) % SlotIntervalMinutes == 0
      && s.end == s.start + SlotIntervalMinutes
  {
    if s in DaySlots(day) {
      var k :| 0 <= k < SlotsPerDay && DaySlots(day)[k] == s;
      DayAndMinute(day, OpenHour * 60 + k * SlotIntervalMinutes);
    }
    if Day(s.start) == day
      && OpenHour * 60 <= MinuteOfDay(s.start) <= CloseHour * 60 - SlotIntervalMinutes
      && MinuteOfDay(s.start) % SlotIntervalMinutes == 0
      && s.end == s.start + SlotIntervalMinutes
    {
      var k := (MinuteOfDay(s.start) - OpenHour * 60) / SlotIntervalMinutes;
      DayMinuteSplit(s.start);
      assert DaySlots(day)[k] == s;
    }
  }

  /**
   * A slot is generated exactly when its day is in the window and is a
   * business day, it starts on a half hour between 09:00 and 17:30, and it
   * lasts 30 minutes. In particular nothing is generated on a Sunday.
   */
  lemma {:induction false} SlotsForDaysMembers(first: int, n: nat, s: Slot)
    ensures s in SlotsForDays(first, n) <==>
      first <= Day(s.start) < first + n
      && IsBusinessDay(Day(s.start))
      && OpenHour * 60 <= MinuteOfDay(s.start) <= CloseHour * 60 - SlotIntervalMinutes
      && MinuteOfDay(s.start) % SlotIntervalMinutes == 0
      && s.end == s.start + SlotIntervalMinutes
  {
    if n > 0 {
      SlotsForDaysMembers(first, n - 1, s);
      DaySlotsMembers(first + n - 1, s);
    }
  }

  /** One business day is tiled by 18 back-to-back half-hour slots from 09:00 to 18:00. */
  lemma DaySlotsTile(day: int)
    ensures |DaySlots(day)| == SlotsPerDay
    ensures DaySlots(day)[0].start == day * MinutesPerDay + OpenHour * 60
    ensures DaySlots(day)[SlotsPerDay - 1].end == day * MinutesPerDay + CloseHour * 60
    ensures forall k :: 0 <= k < SlotsPerDay ==>
      DaySlots(day)[k].end == DaySlots(day)[k].start + SlotIntervalMinutes
    ensures forall k :: 0 <= k < SlotsPerDay - 1 ==> DaySlots(day)[k].end == DaySlots(day)[k + 1].start
  {
  }

  /** Slot starts are strictly increasing. */
  predicate Chronological(slots: seq<Slot>)
  {
    forall i, j :: 0 <= i < j < |slots| ==> slots[i].start < slots[j].start
  }

  /** Generated slots come out in strictly increasing start order, each ending before the next starts. */
  lemma {:induction false} SlotsForDaysOrdered(first: int, n: nat)
    ensures Chronological(SlotsForDays(first, n))
    ensures forall i, j :: 0 <= i < j < |SlotsForDays(first, n)| ==>
      SlotsForDays(first, n)[i].end <= SlotsForDays(first, n)[j].start
  {
    if n > 0 {
      SlotsForDaysOrdered(first, n - 1);
      var prev := SlotsForDays(first, n - 1);
      var day := first + n - 1;
      if IsBusinessDay(day) {
        var all := SlotsForDays(first, n);
        assert all == prev + DaySlots(day);
        forall i | 0 <= i < |prev|
          ensures prev[i].end < day * MinutesPerDay + OpenHour * 60
        {
          SlotsForDaysMembers(first, n - 1, prev[i]);
          DayMinuteSplit(prev[i].start);
        }
        forall i, j | 0 <= i < j < |all|
          ensures all[i].end <= all[j].start
        {
          if j >= |prev| && i < |prev| {
            assert all[i] == prev[i];
            assert all[j] == DaySlots(day)[j - |prev|];
          } else if i >= |prev| {
            assert all[i] == DaySlots(day)[i - |prev|];
            assert all[j] == DaySlots(day)[j - |prev|];
          } else {
            assert all[i] == prev[i] && all[j] == prev[j];
          }
        }
        forall i, j | 0 <= i < j < |all|
          ensures all[i].start < all[j].start
        {
          SlotsForDaysMembers(first, n, all[i]);
          assert all[i] in all;
        }
      }
    }
  }

  // ---------------------------------------------------------------- bookings and conflicts

  datatype Booking = Booking(
    id: string,
    clientName: string,
    email: string,
    phone: Option<string>,
    serviceId: string,
    startsAt: int,
    endsAt: int,
    notes: Option<string>)

  /** The interval a booking occupies. */
  function Interval(b: Booking): Slot
  {
    Slot(b.startsAt, b.endsAt)
  }

  /** `slotsOverlap`: half-open intervals `[start, end)` intersect. */
  predicate Overlaps(slot: Slot, b: Booking)
  {
    slot.start < b.endsAt && b.startsAt < slot.end
  }

  /** Minute `t` lies in both the slot and the booking. */
  predicate SharesMinute(slot: Slot, b: Booking, t: int)
  {
    slot.start <= t < slot.end && b.startsAt <= t < b.endsAt
  }

  /**
   * For non-empty intervals, overlap means sharing a minute; in particular a
   * booking that ends when the slot starts, or starts when it ends, does not
   * conflict with it.
   */
  lemma OverlapsIffSharedMinute(slot: Slot, b: Booking)
    requires slot.start < slot.end && b.startsAt < b.endsAt
    ensures Overlaps(slot, b) <==> exists t :: SharesMinute(slot, b, t)
    ensures slot.end == b.startsAt || b.endsAt == slot.start ==> !Overlaps(slot, b)
  {
    if Overlaps(slot, b) {
      var t := if slot.start < b.startsAt then b.startsAt else slot.start;
      assert SharesMinute(slot, b, t);
    }
  }

  /** `hasConflict`: some stored booking overlaps the candidate. */
  function Conflicts(bookings: seq<Booking>, slot: Slot): (r: bool)
    ensures r <==> exists i :: 0 <= i < |bookings| && Overlaps(slot, bookings[i])
  {
    if |bookings| == 0 then false
    else if Overlaps(slot, bookings[0]) then true
    else
      var r := Conflicts(bookings[1..], slot);
      assert forall i :: 1 <= i < |bookings| ==> bookings[i] == bookings[1..][i - 1];
      r
  }

  /** `slots.filter(slot => !hasConflict(slot))`. */
  function FreeSlots(slots: seq<Slot>, bookings: seq<Booking>): (r: seq<Slot>)
    ensures |r| <= |slots|
    ensures forall s :: s in r <==> s in slots && !Conflicts(bookings, s)
    ensures Chronological(slots) ==> Chronological(r)
  {
    if |slots| == 0 then []
    else
      var rest := FreeSlots(slots[1..], bookings);
      assert forall s :: s in slots <==> s == slots[0] || s in slots[1..];
      if Conflicts(bookings, slots[0]) then rest
      else
        assert Chronological(slots) ==> forall j :: 0 <= j < |rest| ==> slots[0].start < rest[j].start by {
          if Chronological(slots) {
            forall j | 0 <= j < |rest| ensures slots[0].start < rest[j].start {
              assert rest[j] in slots[1..];
              var m :| 0 <= m < |slots[1..]| && slots[1..][m] == rest[j];
              assert slots[m + 1] == rest[j];
            }
          }
        }
        [slots[0]] + rest
  }

  function Min(a: int, b: int): int
  {
    if a <= b then a else b
  }

  /** `.slice(0, count)` for a non-negative count. */
  function Take<T>(s: seq<T>, count: nat): seq<T>
  {
    s[..Min(count, |s|)]
  }

  /** Of a chronological sequence, `Take` keeps the earliest elements. */
  lemma TakeKeepsEarliest(xs: seq<Slot>, count: nat)
    requires Chronological(xs)
    ensures Chronological(Take(xs, count))
    ensures forall s :: s in xs && s !in Take(xs, count) ==>
      |Take(xs, count)| == count && forall x :: x in Take(xs, count) ==> x.start < s.start
  {
    var m := Min(count, |xs|);
    var r := xs[..m];
    forall s | s in xs && s !in r
      ensures |r| == count && forall x :: x in r ==> x.start < s.start
    {
      var k :| 0 <= k < |xs| && xs[k] == s;
      forall x | x in r ensures x.start < s.start {
        var i :| 0 <= i < m && r[i] == x;
        assert xs[i] == x;
      }
    }
  }

  /**
   * `r` is what `getNextAvailableSlots(count)` promises over `slots`: at most
   * `count` slots, in order, all generated and free, and a free slot left out
   * comes after every returned one and only because the count was reached.
   */
  predicate EarliestFree(r: seq<Slot>, slots: seq<Slot>, bookings: seq<Booking>, count: nat)
  {
    && |r| <= count
    && Chronological(r)
    && (forall s :: s in r ==> s in slots && !Conflicts(bookings, s))
    && (forall s :: s in slots && !Conflicts(bookings, s) && s !in r ==>
          |r| == count && forall x :: x in r ==> x.start < s.start)
  }

  /** Filtering the free slots and keeping the first `count` yields the earliest free slots. */
  lemma NextAvailableAreEarliest(slots: seq<Slot>, bookings: seq<Booking>, count: nat)
    requires Chronological(slots)
    ensures EarliestFree(Take(FreeSlots(slots, bookings), count), slots, bookings, count)
  {
    var free := FreeSlots(slots, bookings);
    TakeKeepsEarliest(free, count);
    var r := Take(free, count);
    forall s | s in r ensures s in free { }
  }

  // ---------------------------------------------------------------- reservations

  datatype ReservationPayload = ReservationPayload(
    clientName: string,
    email: string,
    phone: Option<string>,
    serviceId: string,
    startsAt: int,
    notes: Option<string>)

  datatype ReserveError = ServiceNotFound | BeforeOpening | AfterClosing | SlotConflict

  datatype ReserveResult = Reserved(booking: Booking) | Rejected(error: ReserveError)

  /** The opening and closing checks, read as minutes of the day. */
  lemma HourBoundaries(t: int, duration: int)
    ensures t < HourOfDay(t, OpenHour) <==> MinuteOfDay(t) < OpenHour * 60
    ensures t + duration > HourOfDay(t, CloseHour) <==> MinuteOfDay(t) + duration > CloseHour * 60
  {
    DayMinuteSplit(t);
  }

  /** The text returned with each rejection. */
  function ErrorMessage(e: ReserveError): string
  {
    match e
    case ServiceNotFound => "Service not found."
    case BeforeOpening => "Sasha starts at 9:00. Please choose a later time."
    case AfterClosing => "This service finishes after 18:00. Pick an earlier slot."
    case SlotConflict => "That slot just booked up. Let me know another time that works for you."
  }

  /** `setHours(setMinutes(t, 0), hour)`: the given hour on the day of `t`. */
  function HourOfDay(t: int, hour: int): int
  {
    Day(t) * MinutesPerDay + hour * 60
  }

  /** Duration of the catalog service with this id (which must exist). */
  function DurationOf(serviceId: string): int
    requires GetService(serviceId).Some?
  {
    GetService(serviceId).value.durationMinutes
  }

  /**
   * The outcome `reserveBooking` computes: checks run in the order service,
   * opening, closing, conflict, and the first failing one decides the error;
   * a success carries the payload's data and ends `durationMinutes` later.
   */
  function Decide(bookings: seq<Booking>, p: ReservationPayload, id: string): ReserveResult
  {
    var service := GetService(p.serviceId);
    if service.None? then Rejected(ServiceNotFound)
    else
      var serviceEnd := p.startsAt + service.value.durationMinutes;
      if p.startsAt < HourOfDay(p.startsAt, OpenHour) then Rejected(BeforeOpening)
      else if serviceEnd > HourOfDay(p.startsAt, CloseHour) then Rejected(AfterClosing)
      else if Conflicts(bookings, Slot(p.startsAt, serviceEnd)) then Rejected(SlotConflict)
      else Reserved(Booking(id, p.clientName, p.email, p.phone, service.value.id,
                            p.startsAt, serviceEnd, p.notes))
  }

  /**
   * Each error is reported exactly when its check is the first to fail, and
   * a success carries the payload's data and ends `durationMinutes` later.
   */
  lemma DecideOutcomes(bookings: seq<Booking>, p: ReservationPayload, id: string)
    ensures Decide(bookings, p, id) == Rejected(ServiceNotFound) <==> GetService(p.serviceId).None?
    ensures Decide(bookings, p, id) == Rejected(BeforeOpening) <==>
      GetService(p.serviceId).Some? && MinuteOfDay(p.startsAt) < OpenHour * 60
    ensures Decide(bookings, p, id) == Rejected(AfterClosing) <==>
      GetService(p.serviceId).Some? && MinuteOfDay(p.startsAt) >= OpenHour * 60
      && MinuteOfDay(p.startsAt) + DurationOf(p.serviceId) > CloseHour * 60
    ensures Decide(bookings, p, id) == Rejected(SlotConflict) <==>
      GetService(p.serviceId).Some? && MinuteOfDay(p.startsAt) >= OpenHour * 60
      && MinuteOfDay(p.startsAt) + DurationOf(p.serviceId) <= CloseHour * 60
      && Conflicts(bookings, Slot(p.startsAt, p.startsAt + DurationOf(p.serviceId)))
    ensures Decide(bookings, p, id).Reserved? ==>
      Decide(bookings, p, id).booking == Booking(id, p.clientName, p.email, p.phone, p.serviceId,
                           p.startsAt, p.startsAt + DurationOf(p.serviceId), p.notes)
  {
    if GetService(p.serviceId).Some? {
      HourBoundaries(p.startsAt, DurationOf(p.serviceId));
    }
  }

  /** A stored booking names a catalog service, lasts its duration and lies within 09:00-18:00 of its day. */
  predicate WellFormed(b: Booking)
  {
    && GetService(b.serviceId).Some?
    && b.endsAt == b.startsAt + DurationOf(b.serviceId)
    && MinuteOfDay(b.startsAt) >= OpenHour * 60
    && MinuteOfDay(b.startsAt) + DurationOf(b.serviceId) <= CloseHour * 60
  }

  /** No two stored bookings overlap. */
  predicate PairwiseDisjoint(bookings: seq<Booking>)
  {
    forall i, j :: 0 <= i < |bookings| && 0 <= j < |bookings| && i != j ==>
      !Overlaps(Interval(bookings[i]), bookings[j])
  }

  predicate Consistent(bookings: seq<Booking>)
  {
    (forall i :: 0 <= i < |bookings| ==> WellFormed(bookings[i])) && PairwiseDisjoint(bookings)
  }

  /** Appending a booking that overlaps no stored booking keeps the bookings pairwise disjoint. */
  lemma AppendDisjoint(bookings: seq<Booking>, b: Booking)
    requires PairwiseDisjoint(bookings)
    requires !Conflicts(bookings, Interval(b))
    ensures PairwiseDisjoint(bookings + [b])
  {
    var all := bookings + [b];
    forall i, j | 0 <= i < |all| && 0 <= j < |all| && i != j
      ensures !Overlaps(Interval(all[i]), all[j])
    {
      if i == |bookings| {
        assert !Overlaps(Interval(b), bookings[j]);
      } else if j == |bookings| {
        assert !Overlaps(Interval(b), bookings[i]);
      } else {
        assert all[i] == bookings[i] && all[j] == bookings[j];
      }
    }
  }

  /** A successful reservation keeps the store consistent: in particular, no two bookings overlap. */
  lemma ReserveKeepsConsistent(bookings: seq<Booking>, p: ReservationPayload, id: string, b: Booking)
    requires Consistent(bookings)
    requires Decide(bookings, p, id) == Reserved(b)
    ensures Consistent(bookings + [b])
  {
    DecideOutcomes(bookings, p, id);
    GetServiceDuration(p.serviceId);
    assert WellFormed(b);
    AppendDisjoint(bookings, b);
    var all := bookings + [b];
    forall i | 0 <= i < |all| ensures WellFormed(all[i]) {
      if i < |bookings| { assert all[i] == bookings[i]; }
    }
  }

  /** The module-level `inMemoryBookings` array and the operations on it. */
  class BookingStore {
    var bookings: seq<Booking>

    ghost predicate Valid()
      reads this
    {
      Consistent(bookings)
    }

    constructor ()
      ensures Valid() && bookings == []
    {
      bookings := [];
    }

    /** `listBookings`: a copy equal to the store; two calls without a reservation in between agree. */
    method ListBookings() returns (r: seq<Booking>)
      ensures r == bookings
    {
      r := bookings;
    }

    /** `reserveBooking`: the only mutator; appends exactly one booking on success and nothing otherwise. */
    method Reserve(p: ReservationPayload, id: string) returns (r: ReserveResult)
      requires Valid()
      modifies this
      ensures Valid()
      ensures r == Decide(old(bookings), p, id)
      ensures r.Reserved? ==> bookings == old(bookings) + [r.booking]
      ensures r.Rejected? ==> bookings == old(bookings)
    {
      r := Decide(bookings, p, id);
      if r.Reserved? {
        ReserveKeepsConsistent(bookings, p, id, r.booking);
        bookings := bookings + [r.booking];
      }
    }

    /**
     * `getNextAvailableSlots(count)` at instant `now`: the first `count`
     * generated slots (21 days ahead) that no stored booking overlaps.
     */
    method NextAvailableSlots(now: int, count: nat) returns (r: seq<Slot>)
      ensures EarliestFree(r, SlotsForDays(Day(now), DefaultDaysAhead + 1), bookings, count)
    {
      var slots := GenerateSlots(now, DefaultDaysAhead);
      SlotsForDaysOrdered(Day(now), DefaultDaysAhead + 1);
      NextAvailableAreEarliest(slots, bookings, count);
      var free := FreeSlots(slots, bookings);
      r := free[..Min(count, |free|)];
    }
  }
}
