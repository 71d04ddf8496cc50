/** The registry of a gym as values: members, classes and bookings in
    insertion order, the booking decision of one class, and the
    invariant every booking keeps. The imperative `GymMembershipSystem`
    keeps a ghost copy of this state up to date. */
module Registry {
  import opened Wrappers
  import opened Timestamps

  datatype Member = Member(name: string, memberId: int)

  /** What a `GymClass` object holds: its fixed schedule and capacity, and
      the counter of slots booked so far. */
  datatype ClassInfo = ClassInfo(className: string, startTime: Time, endTime: Time,
                                 maxCapacity: int, bookedSlots: int)
  {
    /** Spare capacity and a time in the half-open window [startTime, endTime). */
    predicate CanBook(bookingTime: Time) {
      bookedSlots < maxCapacity && LessEq(startTime, bookingTime) && Less(bookingTime, endTime)
    }

    /** Spare capacity, whatever the time. */
    predicate CanBookAnytime() {
      bookedSlots < maxCapacity
    }

    /** `GymClass.bookClass()`: takes one slot when one is free. */
    function Reserve(): (bool, ClassInfo) {
      if bookedSlots < maxCapacity then (true, this.(bookedSlots := bookedSlots + 1))
      else (false, this)
    }

    /** The counter lies between 0 and max(0, maxCapacity). */
    predicate Bounded() {
      0 <= bookedSlots && (bookedSlots <= maxCapacity || bookedSlots == 0)
    }

    /** Same class, with at least as many slots booked. */
    predicate GrowsInto(c: ClassInfo) {
      c.className == className && c.startTime == startTime && c.endTime == endTime &&
      c.maxCapacity == maxCapacity && bookedSlots <= c.bookedSlots
    }
  }

  /** A booking names its class by position in the registry, which stands
      for the identity of the `GymClass` object it refers to. */
  datatype BookingRecord = BookingRecord(member: Member, classIndex: nat, bookingTime: Time)

  datatype State = State(members: seq<Member>, classes: seq<ClassInfo>, bookings: seq<BookingRecord>)

  const Empty: State := State([], [], [])

  /** A class made by `scheduleClass` starts with no slot booked. */
  function NewClass(className: string, startTime: Time, endTime: Time, maxCapacity: int): (c: ClassInfo)
    ensures c.Bounded()
    ensures c.CanBookAnytime() <==> maxCapacity > 0
  {
    ClassInfo(className, startTime, endTime, maxCapacity, 0)
  }

  /** The bookedSlots counter of `GymClass.bookClass()`: it takes a slot
      exactly when one is free, moves by at most one and never leaves the
      range [0, max(0, maxCapacity)]. */
  lemma ReserveSpec(c: ClassInfo)
    ensures c.Reserve().0 <==> c.bookedSlots < c.maxCapacity
    ensures c.Reserve().1.bookedSlots == if c.Reserve().0 then c.bookedSlots + 1 else c.bookedSlots
    ensures c.GrowsInto(c.Reserve().1)
    ensures c.Bounded() ==> c.Reserve().1.Bounded()
  {
  }

  /** A class whose capacity is zero or negative can never be booked. */
  lemma NonPositiveCapacityNeverBooks(c: ClassInfo, t: Time)
    requires c.maxCapacity <= 0 && c.Bounded()
    ensures !c.CanBook(t) && !c.Reserve().0
  {
  }

  /** The window is half-open: its start can be booked, its end cannot. */
  lemma WindowBoundaries(c: ClassInfo)
    ensures !c.CanBook(c.endTime)
    ensures c.CanBook(c.startTime) <==> c.CanBookAnytime() && Less(c.startTime, c.endTime)
  {
    LessTotal(c.endTime, c.endTime);
    LessTotal(c.startTime, c.endTime);
  }

  /** The class after `k` calls of `bookClass()` in a row. */
  function ReserveTimes(c: ClassInfo, k: nat): ClassInfo
    decreases k
  {
    if k == 0 then c else ReserveTimes(c.Reserve().1, k - 1)
  }

  /** However many booking attempts are made, the counter only climbs to
      the capacity and stops there; it never goes down and never leaves
      [0, max(0, maxCapacity)]. */
  lemma {:induction false} ReserveTimesSpec(c: ClassInfo, k: nat)
    requires c.Bounded()
    ensures ReserveTimes(c, k).bookedSlots ==
            if c.bookedSlots + k <= c.maxCapacity then c.bookedSlots + k
            else if c.bookedSlots < c.maxCapacity then c.maxCapacity
            else c.bookedSlots
    ensures ReserveTimes(c, k).Bounded()
    ensures c.GrowsInto(ReserveTimes(c, k))
    decreases k
  {
    if k > 0 {
      ReserveSpec(c);
      ReserveTimesSpec(c.Reserve().1, k - 1);
    }
  }

  // ---------------------------------------------------------------------
  // Lookup

  /** The position of the first element satisfying `p`, if any. */
  function Find<T>(s: seq<T>, p: T -> bool): (r: Option<nat>)
    ensures r.Some? ==> r.value < |s| && p(s[r.value])
    ensures r.Some? ==> forall j :: 0 <= j < r.value ==> !p(s[j])
    ensures r.None? <==> forall j :: 0 <= j < |s| ==> !p(s[j])
  {
    if s == [] then None
    else if p(s[0]) then Some(0)
    else match Find(s[1..], p)
      case None => None
      case Some(k) => Some(k + 1)
  }

  /** `findMemberById`: the first member registered with that id. */
  function FindMember(members: seq<Member>, memberId: int): (r: Option<Member>)
    ensures r.Some? ==> r.value.memberId == memberId
    ensures r.Some? ==> exists i :: 0 <= i < |members| && members[i] == r.value &&
                                    (forall j :: 0 <= j < i ==> members[j].memberId != memberId)
    ensures r.None? <==> forall j :: 0 <= j < |members| ==> members[j].memberId != memberId
  {
    match Find(members, (m: Member) => m.memberId == memberId)
    case Some(i) => Some(members[i])
    case None => None
  }

  /** `findClassByName`: the position of the first class with that name. */
  function FindClass(classes: seq<ClassInfo>, className: string): (r: Option<nat>)
    ensures r.Some? ==> r.value < |classes| && classes[r.value].className == className
    ensures r.Some? ==> forall j :: 0 <= j < r.value ==> classes[j].className != className
    ensures r.None? <==> forall j :: 0 <= j < |classes| ==> classes[j].className != className
  {
    Find(classes, (c: ClassInfo) => c.className == className)
  }

  // ---------------------------------------------------------------------
  // Operations

  function RegisterMember(st: State, name: string, memberId: int): State {
    st.(members := st.members + [Member(name, memberId)])
  }

  function ScheduleClass(st: State, className: string, startTime: Time, endTime: Time,
                         maxCapacity: int): State {
    st.(classes := st.classes + [NewClass(className, startTime, endTime, maxCapacity)])
  }

  function BookedMessage(m: Member, c: ClassInfo, bookingTime: Time): string {
    m.name + " booked " + c.className + " at " + Format(bookingTime)
  }

  function AlreadyFullMessage(c: ClassInfo): string {
    "The class " + c.className + " is already full."
  }

  function FullMessage(c: ClassInfo): string {
    "The class " + c.className + " is full."
  }

  function InvalidTimeMessage(c: ClassInfo, bookingTime: Time): string {
    "Invalid booking time: " + Format(bookingTime) + ". The class " + c.className +
    " is scheduled from " + Format(c.startTime) + " to " + Format(c.endTime) + "."
  }

  /** `bookClass(member:gymClass:bookingTime:)` on the class at position i:
      it books exactly when `canBook` holds, taking one slot of that class
      and recording one booking; otherwise nothing changes, and the reason
      is capacity when the class is full, whatever the time, and the time
      window when there is capacity left. The "already full" answer is
      never given: `canBook` implies that the slot can be taken. */
  function BookAttempt(st: State, m: Member, i: nat, bookingTime: Time): (r: (State, string))
    requires i < |st.classes|
    ensures var c := st.classes[i];
      if c.CanBook(bookingTime) then
        r.0.members == st.members &&
        |r.0.classes| == |st.classes| &&
        r.0.classes[i] == c.(bookedSlots := c.bookedSlots + 1) &&
        (forall j :: 0 <= j < |st.classes| && j != i ==> r.0.classes[j] == st.classes[j]) &&
        r.0.bookings == st.bookings + [BookingRecord(m, i, bookingTime)] &&
        r.1 == BookedMessage(m, c, bookingTime)
      else
        r.0 == st &&
        r.1 == (if c.CanBookAnytime() then InvalidTimeMessage(c, bookingTime) else FullMessage(c))
  {
    var c := st.classes[i];
    if c.CanBook(bookingTime) then
      var (booked, c') := c.Reserve();
      if booked then
        (st.(classes := st.classes[i := c'], bookings := st.bookings + [BookingRecord(m, i, bookingTime)]),
         BookedMessage(m, c, bookingTime))
      else
        assert false; (st, AlreadyFullMessage(c))
    else if !c.CanBookAnytime() then
      (st, FullMessage(c))
    else
      (st, InvalidTimeMessage(c, bookingTime))
  }

  // ---------------------------------------------------------------------
  // Invariant

  /** How many of the bookings are for the class at position i. */
  function CountFor(bookings: seq<BookingRecord>, i: nat): nat
  {
    if bookings == [] then 0
    else (if bookings[0].classIndex == i then 1 else 0) + CountFor(bookings[1..], i)
  }

  /** Every booking names a registered member and an existing class, was
      made inside that class's window, and each class's counter is the
      number of its bookings and stays within [0, max(0, maxCapacity)]. */
  ghost predicate Consistent(st: State) {
    (forall k :: 0 <= k < |st.bookings| ==>
       st.bookings[k].member in st.members &&
       st.bookings[k].classIndex < |st.classes| &&
       LessEq(st.classes[st.bookings[k].classIndex].startTime, st.bookings[k].bookingTime) &&
       Less(st.bookings[k].bookingTime, st.classes[st.bookings[k].classIndex].endTime)) &&
    (forall i :: 0 <= i < |st.classes| ==>
       st.classes[i].Bounded() && st.classes[i].bookedSlots == CountFor(st.bookings, i))
  }

  /** The registry only grows: members and bookings are appended, classes
      are appended and keep their schedule, counters never go down. */
  ghost predicate Extends(st: State, st': State) {
    st.members <= st'.members &&
    st.bookings <= st'.bookings &&
    |st.classes| <= |st'.classes| &&
    forall i :: 0 <= i < |st.classes| ==> st.classes[i].GrowsInto(st'.classes[i])
  }

  lemma {:induction false} CountForSnoc(bookings: seq<BookingRecord>, b: BookingRecord, i: nat)
    ensures CountFor(bookings + [b], i) == CountFor(bookings, i) + (if b.classIndex == i then 1 else 0)
  {
    if bookings != [] {
      assert (bookings + [b])[1..] == bookings[1..] + [b];
      CountForSnoc(bookings[1..], b, i);
    } else {
      assert [b][1..] == [];
    }
  }

  lemma {:induction false} CountForNone(bookings: seq<BookingRecord>, i: nat)
    requires forall k :: 0 <= k < |bookings| ==> bookings[k].classIndex < i
    ensures CountFor(bookings, i) == 0
  {
    if bookings != [] {
      CountForNone(bookings[1..], i);
    }
  }

  lemma EmptyConsistent()
    ensures Consistent(Empty)
  {
  }

  lemma RegisterMemberPreserves(st: State, name: string, memberId: int)
    requires Consistent(st)
    ensures Consistent(RegisterMember(st, name, memberId))
    ensures Extends(st, RegisterMember(st, name, memberId))
  {
  }

  lemma ScheduleClassPreserves(st: State, className: string, startTime: Time, endTime: Time,
                               maxCapacity: int)
    requires Consistent(st)
    ensures Consistent(ScheduleClass(st, className, startTime, endTime, maxCapacity))
    ensures Extends(st, ScheduleClass(st, className, startTime, endTime, maxCapacity))
  {
    CountForNone(st.bookings, |st.classes|);
  }

  /** A booking attempt by a registered member keeps the invariant: in
      particular no class is ever booked beyond its capacity. */
  lemma BookAttemptPreserves(st: State, m: Member, i: nat, bookingTime: Time)
    requires Consistent(st) && i < |st.classes| && m in st.members
    ensures Consistent(BookAttempt(st, m, i, bookingTime).0)
    ensures Extends(st, BookAttempt(st, m, i, bookingTime).0)
  {
    var st' := BookAttempt(st, m, i, bookingTime).0;
    if st.classes[i].CanBook(bookingTime) {
      var b := BookingRecord(m, i, bookingTime);
      forall j | 0 <= j < |st.classes|
        ensures st'.classes[j].bookedSlots == CountFor(st'.bookings, j)
      {
        CountForSnoc(st.bookings, b, j);
      }
      forall k | 0 <= k < |st'.bookings|
        ensures st'.bookings[k].classIndex < |st'.classes|
        ensures LessEq(st'.classes[st'.bookings[k].classIndex].startTime, st'.bookings[k].bookingTime)
        ensures Less(st'.bookings[k].bookingTime, st'.classes[st'.bookings[k].classIndex].endTime)
      {
        if k < |st.bookings| {
          assert st'.bookings[k] == st.bookings[k];
        }
      }
    }
  }

  lemma ExtendsTransitive(a: State, b: State, c: State)
    requires Extends(a, b) && Extends(b, c)
    ensures Extends(a, c)
  {
  }
}
