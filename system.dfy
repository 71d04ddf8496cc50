/** The objects of the gym system as the program keeps them: a
    `GymClass` whose booked-slot counter is updated in place, and the
    `GymMembershipSystem` whose member, class and booking lists grow by
    appending. A ghost `model` holds the same registry as a value; every
    method states its effect on that value through the functions of the
    `Registry` and `Interpreter` modules. */
module GymSystem {
  import opened Wrappers
  import opened Text
  import opened Timestamps
  import opened Registry
  import opened Interpreter

  /** A scheduled class. Its schedule and capacity are fixed; only
      `bookedSlots` changes. A negative capacity is accepted as given. */
  class GymClass {
    const className: string
    const startTime: Time
    const endTime: Time
    const maxCapacity: int
    var bookedSlots: int

    /** The class as a value. */
    function Info(): ClassInfo
      reads this
    {
      ClassInfo(className, startTime, endTime, maxCapacity, bookedSlots)
    }

    constructor (className: string, startTime: Time, endTime: Time, maxCapacity: int)
      ensures Info() == NewClass(className, startTime, endTime, maxCapacity)
    {
      this.className := className;
      this.startTime := startTime;
      this.endTime := endTime;
      this.maxCapacity := maxCapacity;
      bookedSlots := 0;
    }

    predicate CanBook(bookingTime: Time)
      reads this
    {
      Info().CanBook(bookingTime)
    }

    predicate CanBookAnytime()
      reads this
    {
      Info().CanBookAnytime()
    }

    /** Takes one slot if one is free: succeeds exactly when
        `bookedSlots < maxCapacity`, and then the counter goes up by one;
        otherwise it stays as it was. */
    method BookClass() returns (booked: bool)
      modifies this
      ensures booked <==> old(bookedSlots) < maxCapacity
      ensures bookedSlots == if booked then old(bookedSlots) + 1 else old(bookedSlots)
      ensures (booked, Info()) == old(Info()).Reserve()
    {
      if bookedSlots < maxCapacity {
        bookedSlots := bookedSlots + 1;
        booked := true;
      } else {
        booked := false;
      }
    }
  }

  /** A confirmed booking refers to the class object it took a slot of. */
  datatype Booking = Booking(member: Member, gymClass: GymClass, bookingTime: Time)

  class GymMembershipSystem {
    var members: seq<Member>
    var classes: seq<GymClass>
    var bookings: seq<Booking>
    ghost var model: State

    /** The lists agree with the model, the class objects are distinct,
        every booking refers to the class at its recorded position, and
        the model keeps the registry invariant. */
    ghost predicate Valid()
      reads this, classes
    {
      (forall i, j :: 0 <= i < j < |classes| ==> classes[i] != classes[j]) &&
      model.members == members &&
      |model.classes| == |classes| &&
      (forall i :: 0 <= i < |classes| ==> model.classes[i] == classes[i].Info()) &&
      |model.bookings| == |bookings| &&
      (forall k :: 0 <= k < |bookings| ==>
         model.bookings[k].classIndex < |classes| &&
         classes[model.bookings[k].classIndex] == bookings[k].gymClass &&
         model.bookings[k].member == bookings[k].member &&
         model.bookings[k].bookingTime == bookings[k].bookingTime) &&
      Consistent(model)
    }

    constructor ()
      ensures Valid() && model == Empty
    {
      members := [];
      classes := [];
      bookings := [];
      model := Empty;
      EmptyConsistent();
    }

    /** Appends a member; duplicate ids and empty names are accepted. */
    method RegisterMember(name: string, memberId: int)
      requires Valid()
      modifies this
      ensures Valid()
      ensures model == Registry.RegisterMember(old(model), name, memberId)
      ensures members == old(members) + [Member(name, memberId)]
      ensures classes == old(classes) && bookings == old(bookings)
    {
      members := members + [Member(name, memberId)];
      RegisterMemberPreserves(model, name, memberId);
      model := Registry.RegisterMember(model, name, memberId);
    }

    /** Appends a new class with no slot booked; the window and the
        capacity are not checked. */
    method ScheduleClass(className: string, startTime: Time, endTime: Time, maxCapacity: int)
      requires Valid()
      modifies this
      ensures Valid()
      ensures model == Registry.ScheduleClass(old(model), className, startTime, endTime, maxCapacity)
      ensures |classes| == |old(classes)| + 1 && classes[..|old(classes)|] == old(classes)
      ensures fresh(classes[|old(classes)|])
      ensures members == old(members) && bookings == old(bookings)
    {
      var newClass := new GymClass(className, startTime, endTime, maxCapacity);
      classes := classes + [newClass];
      ScheduleClassPreserves(model, className, startTime, endTime, maxCapacity);
      model := Registry.ScheduleClass(model, className, startTime, endTime, maxCapacity);
    }

    /** The position of a class object in the list. */
    ghost function IndexOf(gymClass: GymClass): (i: nat)
      reads this
      requires gymClass in classes
      ensures i < |classes| && classes[i] == gymClass
    {
      Find(classes, (c: GymClass) => c == gymClass).value
    }

    /** The successful path of `bookClass`: the class's own check-and-take
        of a slot, then the booking record. */
    method Admit(member: Member, gymClass: GymClass, bookingTime: Time) returns (result: string)
      requires Valid() && member in members && gymClass in classes && gymClass.CanBook(bookingTime)
      modifies this, gymClass
      ensures Valid()
      ensures members == old(members) && classes == old(classes)
      ensures (model, result) == BookAttempt(old(model), member, old(IndexOf(gymClass)), bookingTime)
    {
      ghost var i := IndexOf(gymClass);
      ghost var attempt := BookAttempt(model, member, i, bookingTime);
      BookAttemptPreserves(model, member, i, bookingTime);
      var before := gymClass.Info();
      var booked := gymClass.BookClass();
      if booked {
        bookings := bookings + [Booking(member, gymClass, bookingTime)];
        result := BookedMessage(member, before, bookingTime);
        model := attempt.0;
      } else {
        assert false;
        result := AlreadyFullMessage(before);
      }
    }

    /** Books `member` into `gymClass` at `bookingTime`, or says why not:
        the effect and the message are those of `BookAttempt` on the
        class's position, and no other class object changes. */
    method BookClass(member: Member, gymClass: GymClass, bookingTime: Time) returns (result: string)
      requires Valid() && member in members && gymClass in classes
      modifies this, gymClass
      ensures Valid()
      ensures members == old(members) && classes == old(classes)
      ensures (model, result) == BookAttempt(old(model), member, old(IndexOf(gymClass)), bookingTime)
    {
      if gymClass.CanBook(bookingTime) {
        result := Admit(member, gymClass, bookingTime);
      } else if !gymClass.CanBookAnytime() {
        result := FullMessage(gymClass.Info());
      } else {
        result := InvalidTimeMessage(gymClass.Info(), bookingTime);
      }
    }

    /** `findMemberById`: the first member with that id, if any. */
    function FindMemberById(memberId: int): (r: Option<Member>)
      reads this
      ensures r.Some? ==> r.value in members && r.value.memberId == memberId
      ensures r.Some? ==> exists i :: 0 <= i < |members| && members[i] == r.value &&
                                      (forall j :: 0 <= j < i ==> members[j].memberId != memberId)
      ensures r.None? <==> forall j :: 0 <= j < |members| ==> members[j].memberId != memberId
    {
      match Find(members, (m: Member) => m.memberId == memberId)
      case Some(i) => Some(members[i])
      case None => None
    }

    /** `findClassByName`: the first class object with that name, if any. */
    function FindClassByName(className: string): (r: Option<GymClass>)
      reads this
      ensures r.Some? ==> r.value in classes && r.value.className == className
      ensures r.Some? ==> exists i :: 0 <= i < |classes| && classes[i] == r.value &&
                                      (forall j :: 0 <= j < i ==> classes[j].className != className)
      ensures r.None? <==> forall j :: 0 <= j < |classes| ==> classes[j].className != className
    {
      match Find(classes, (c: GymClass) => c.className == className)
      case Some(i) => Some(classes[i])
      case None => None
    }

    /** A well-formed `book` line: both lookups, then the booking. */
    method BookCommand(trimmedLine: string, memberId: int, className: string, bookingTime: Time)
      returns (output: Option<string>)
      requires Valid()
      modifies this, classes
      ensures Valid()
      ensures classes == old(classes)
      ensures (model, output) == Execute(old(model), trimmedLine, Book(memberId, className, bookingTime))
    {
      ghost var before := model;
      var member := FindMemberById(memberId);
      var gymClass := FindClassByName(className);
      if member.Some? && gymClass.Some? {
        ghost var i := FindClass(model.classes, className).value;
        assert classes[i] == gymClass.value;
        assert IndexOf(gymClass.value) == i;
        ghost var attempt := BookAttempt(before, member.value, i, bookingTime);
        BookLookupSuccess(before, trimmedLine, memberId, className, bookingTime, member.value, i);
        var result := BookClass(member.value, gymClass.value, bookingTime);
        output := Some(result);
        assert (model, output) == (attempt.0, Some(attempt.1));
      } else {
        assert FindMember(before.members, memberId).None? || FindClass(before.classes, className).None?;
        output := Some(LookupFailedMessage(trimmedLine));
      }
    }

    /** The dispatch in the loop of `processInputFile` for one parsed
        line: the registry changes and the output line (if any) are those
        of `Execute`. */
    method ExecuteCommand(trimmedLine: string, command: Command) returns (output: Option<string>)
      requires Valid()
      modifies this, classes
      ensures Valid()
      ensures forall i :: 0 <= i < |classes| ==> classes[i] in old(classes) || fresh(classes[i])
      ensures (model, output) == Execute(old(model), trimmedLine, command)
    {
      match command {
        case Register(name, memberId) =>
          RegisterMember(name, memberId);
          output := None;
        case Schedule(className, startTime, endTime, maxCapacity) =>
          ScheduleClass(className, startTime, endTime, maxCapacity);
          output := None;
        case Book(memberId, className, bookingTime) =>
          output := BookCommand(trimmedLine, memberId, className, bookingTime);
        case Rejected(message) =>
          output := Some(message);
      }
    }

    /** The body of the loop of `processInputFile`: one input line. */
    method ProcessLine(line: string) returns (output: Option<string>)
      requires Valid()
      modifies this, classes
      ensures Valid()
      ensures forall i :: 0 <= i < |classes| ==> classes[i] in old(classes) || fresh(classes[i])
      ensures (model, output) == Step(old(model), line)
    {
      var trimmedLine := Trim(line);
      output := ExecuteCommand(trimmedLine, ParseLine(trimmedLine));
    }

    /** One turn of the loop of `processInputFile`: the registry after the
        first `n + 1` lines is the one the run over them reaches. */
    method ProcessNext(lines: seq<string>, n: nat, ghost start: State, ghost emitted: seq<string>)
      returns (output: Option<string>)
      requires n < |lines|
      requires Valid()
      requires Run(start, lines[..n]) == (model, emitted)
      modifies this, classes
      ensures Valid()
      ensures forall i :: 0 <= i < |classes| ==> classes[i] in old(classes) || fresh(classes[i])
      ensures Run(start, lines[..n + 1]) == (model, emitted + Emitted(output))
    {
      ghost var before := model;
      output := ProcessLine(lines[n]);
      RunStep(start, lines, n, before, emitted, model, output);
    }

    /** The loop of `processInputFile` over the lines of the input: the
        output is the header and then the results, and the registry ends
        in the state the run over all lines reaches. */
    method ProcessLines(lines: seq<string>) returns (outputLines: seq<string>)
      requires Valid()
      modifies this, classes
      ensures Valid()
      ensures model == Run(old(model), lines).0
      ensures outputLines == Header + Run(old(model), lines).1
    {
      ghost var start := model;
      var results: seq<string> := [];
      var n := 0;
      while n < |lines|
        invariant 0 <= n <= |lines|
        invariant Valid()
        invariant forall i :: 0 <= i < |classes| ==> classes[i] in old(classes) || fresh(classes[i])
        invariant Run(start, lines[..n]) == (model, results)
      {
        var output := ProcessNext(lines, n, start, results);
        results := results + Emitted(output);
        n := n + 1;
      }
      assert lines[..n] == lines;
      outputLines := Header + results;
    }

    /** `processInputFile` on the text of the input file: splits it into
        lines at newlines and returns the text of the output file. */
    method ProcessInputFile(inputText: string) returns (outputText: string)
      requires Valid()
      modifies this, classes
      ensures Valid()
      ensures model == Run(old(model), Split(inputText, '\n')).0
      ensures outputText == ProcessInput(old(model), inputText)
    {
      var lines := Split(inputText, '\n');
      var outputLines := ProcessLines(lines);
      outputText := Join(outputLines, '\n');
    }
  }
}
