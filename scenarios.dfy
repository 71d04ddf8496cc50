/** Worked cases of the interpreter, one input line at a time, on the
    line written for a command: a first booking that succeeds, a second
    one on a full class, a booking at the end of the window, a booking
    for an unknown member, and a `register` line with too few fields.
    Names, ids and times are left arbitrary, so each case covers every
    instance of it. */
module Scenarios {
  import opened Wrappers
  import opened Text
  import opened Timestamps
  import opened Registry
  import opened Interpreter

  /** `register,<name>,<id>` from an empty registry records the member
      and prints nothing. */
  lemma RegisterScenario(name: string, memberId: int)
    requires Renderable(Register(name, memberId))
    ensures Step(Empty, Render(Register(name, memberId))) == (State([Member(name, memberId)], [], []), None)
  {
    StepRendered(Empty, Register(name, memberId));
    assert Empty.members + [Member(name, memberId)] == [Member(name, memberId)];
  }

  /** `schedule,...` then adds the class with no slot booked, silently. */
  lemma ScheduleScenario(m: Member, className: string, startTime: Time, endTime: Time, capacity: int)
    requires Renderable(Schedule(className, startTime, endTime, capacity))
    ensures Step(State([m], [], []), Render(Schedule(className, startTime, endTime, capacity))) ==
            (State([m], [ClassInfo(className, startTime, endTime, capacity, 0)], []), None)
  {
    StepRendered(State([m], [], []), Schedule(className, startTime, endTime, capacity));
    var c := NewClass(className, startTime, endTime, capacity);
    assert [] + [c] == [c];
  }

  /** The member books a one-place class inside its window: the booking is
      recorded, the place taken, and the confirmation names the member,
      the class and the time. */
  lemma BookingScenario(name: string, memberId: int, className: string, startTime: Time, endTime: Time,
                        t: Time)
    requires Renderable(Book(memberId, className, t))
    requires LessEq(startTime, t) && Less(t, endTime)
    ensures var m := Member(name, memberId);
      Step(State([m], [ClassInfo(className, startTime, endTime, 1, 0)], []), Render(Book(memberId, className, t))) ==
      (State([m], [ClassInfo(className, startTime, endTime, 1, 1)], [BookingRecord(m, 0, t)]),
       Some(name + " booked " + className + " at " + Format(t)))
  {
    var m := Member(name, memberId);
    var st := State([m], [ClassInfo(className, startTime, endTime, 1, 0)], []);
    StepRendered(st, Book(memberId, className, t));
    assert FindMember(st.members, memberId) == Some(m);
    assert FindClass(st.classes, className) == Some(0);
    var booked := ClassInfo(className, startTime, endTime, 1, 1);
    assert st.classes[0].CanBook(t);
    var attempt := BookAttempt(st, m, 0, t);
    assert |attempt.0.classes| == 1 && attempt.0.classes[0] == booked;
    assert attempt.0.classes == [booked];
    assert attempt.0.bookings == [BookingRecord(m, 0, t)];
    assert attempt.0 == State([m], [booked], [BookingRecord(m, 0, t)]);
  }

  /** A second booking of the now full class, at any time at all, inside
      the window or not, is refused as full and changes nothing. */
  lemma SecondBookingScenario(name: string, memberId: int, className: string, startTime: Time,
                              endTime: Time, first: Time, t: Time)
    requires Renderable(Book(memberId, className, t))
    ensures var m := Member(name, memberId);
      var st := State([m], [ClassInfo(className, startTime, endTime, 1, 1)], [BookingRecord(m, 0, first)]);
      Step(st, Render(Book(memberId, className, t))) == (st, Some("The class " + className + " is full."))
  {
    var m := Member(name, memberId);
    var st := State([m], [ClassInfo(className, startTime, endTime, 1, 1)], [BookingRecord(m, 0, first)]);
    StepRendered(st, Book(memberId, className, t));
    assert FindMember(st.members, memberId) == Some(m);
    assert FindClass(st.classes, className) == Some(0);
  }

  /** With a place left, the end of the window is refused as a bad time,
      and the message gives the time asked for and the window. */
  lemma EndTimeScenario(name: string, memberId: int, className: string, startTime: Time, endTime: Time)
    requires Renderable(Book(memberId, className, endTime))
    ensures var st := State([Member(name, memberId)], [ClassInfo(className, startTime, endTime, 1, 0)], []);
      Step(st, Render(Book(memberId, className, endTime))) ==
      (st, Some("Invalid booking time: " + Format(endTime) + ". The class " + className +
                " is scheduled from " + Format(startTime) + " to " + Format(endTime) + "."))
  {
    var st := State([Member(name, memberId)], [ClassInfo(className, startTime, endTime, 1, 0)], []);
    StepRendered(st, Book(memberId, className, endTime));
    assert FindMember(st.members, memberId) == Some(Member(name, memberId));
    assert FindClass(st.classes, className) == Some(0);
    LessTotal(endTime, endTime);
  }

  /** Booking for an id nobody registered reports the failed lookup with
      the line itself and changes nothing. */
  lemma UnknownMemberScenario(st: State, memberId: int, className: string, t: Time)
    requires Renderable(Book(memberId, className, t))
    requires forall j :: 0 <= j < |st.members| ==> st.members[j].memberId != memberId
    ensures Step(st, Render(Book(memberId, className, t))) ==
            (st, Some("Invalid member ID or class name: " + Render(Book(memberId, className, t))))
  {
    StepRendered(st, Book(memberId, className, t));
  }

  /** The line of the next case, written field by field, is `register,OnlyName`. */
  lemma OnlyNameLine()
    ensures Join(["register", "OnlyName"], ',') == "register,OnlyName"
  {
    assert Join(["OnlyName"], ',') == "OnlyName";
  }

  /** `register,OnlyName` has too few fields: it is reported with the line
      and the registry is left as it was. */
  lemma RegisterWithTooFewFields(st: State)
    ensures var line := Join(["register", "OnlyName"], ',');
      Step(st, line) == (st, Some("Invalid register command: " + line))
  {
    var parts := ["register", "OnlyName"];
    FieldsOfJoin(parts);
    var line := Join(parts, ',');
    assert ParseLine(line) == Rejected("Invalid register command: " + line);
  }
}
