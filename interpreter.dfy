/** The line command interpreter of `processInputFile`: each line is
    trimmed, split on commas into trimmed fields and dispatched on its
    first field to `register`, `schedule` or `book`; every malformed line
    adds one fixed error line that quotes the trimmed line. */
module Interpreter {
  import opened Wrappers
  import opened Text
  import opened Timestamps
  import opened Registry

  /** What a trimmed line asks for. Reading the fields depends on the line
      alone, so every check except the lookups of `book` ends here. */
  datatype Command =
    | Register(name: string, memberId: int)
    | Schedule(className: string, startTime: Time, endTime: Time, maxCapacity: int)
    | Book(memberId: int, className: string, bookingTime: Time)
    | Rejected(message: string)

  /** The four lines written before any result. */
  const Header: seq<string> := [
    "Output:",
    "------",
    "Format: <Member Name> booked <Class Name> at <Booking Time>",
    ""
  ]

  /** Each string trimmed, in order. */
  function TrimAll(raw: seq<string>): (parts: seq<string>)
    ensures |parts| == |raw|
    ensures forall k :: 0 <= k < |raw| ==> parts[k] == Trim(raw[k])
  {
    seq(|raw|, k requires 0 <= k < |raw| => Trim(raw[k]))
  }

  /** The comma-separated fields of a line, each trimmed. */
  function Fields(trimmedLine: string): (parts: seq<string>)
    ensures |parts| >= 1
  {
    TrimAll(Split(trimmedLine, ','))
  }

  lemma TrimAllTrimmed(parts: seq<string>)
    requires forall k :: 0 <= k < |parts| ==> PlainField(parts[k])
    ensures TrimAll(parts) == parts
  {
    forall k | 0 <= k < |parts| ensures TrimAll(parts)[k] == parts[k] {
      TrimOfTrimmed(parts[k]);
    }
  }

  /** The checks of one line, in the order the interpreter makes them:
      `register` needs three fields and an integer id; `schedule` needs
      five fields, then an integer capacity, then two times; `book` needs
      four fields, then an integer member id, then a time. */
  function ParseLine(trimmedLine: string): Command {
    var parts := Fields(trimmedLine);
    var command := parts[0];
    if command == "register" then
      if |parts| >= 3 then
        match ParseInt(parts[2])
        case Some(memberId) => Register(parts[1], memberId)
        case None => Rejected("Invalid member ID: " + trimmedLine)
      else Rejected("Invalid register command: " + trimmedLine)
    else if command == "schedule" then
      if |parts| >= 5 then
        match ParseInt(parts[4])
        case Some(maxCapacity) =>
          (match (Parse(parts[2]), Parse(parts[3]))
           case (Some(startTime), Some(endTime)) => Schedule(parts[1], startTime, endTime, maxCapacity)
           case _ => Rejected("Invalid schedule time format: " + trimmedLine))
        case None => Rejected("Invalid max capacity: " + trimmedLine)
      else Rejected("Invalid schedule command: " + trimmedLine)
    else if command == "book" then
      if |parts| >= 4 then
        match ParseInt(parts[1])
        case Some(memberId) =>
          (match Parse(parts[3])
           case Some(bookingTime) => Book(memberId, parts[2], bookingTime)
           case None => Rejected("Invalid booking time format: " + trimmedLine))
        case None => Rejected("Invalid member ID: " + trimmedLine)
      else Rejected("Invalid book command: " + trimmedLine)
    else Rejected("Invalid command: " + trimmedLine)
  }

  // ---------------------------------------------------------------------
  // Writing a command as a line

  /** A field that splitting on commas and trimming leave as it is. */
  predicate PlainField(f: string) {
    ',' !in f && (f == [] || (!IsBlank(f[0]) && !IsBlank(f[|f| - 1])))
  }

  /** A command that some input line expresses: its names are plain
      fields and its numbers fit in Swift's `Int`. */
  predicate Renderable(cmd: Command) {
    match cmd
    case Register(name, memberId) => PlainField(name) && InIntRange(memberId)
    case Schedule(className, _, _, maxCapacity) => PlainField(className) && InIntRange(maxCapacity)
    case Book(memberId, className, _) => PlainField(className) && InIntRange(memberId)
    case Rejected(_) => false
  }

  function RenderFields(cmd: Command): (parts: seq<string>)
    requires Renderable(cmd)
  {
    match cmd
    case Register(name, memberId) => ["register", name, FormatInt(memberId)]
    case Schedule(className, startTime, endTime, maxCapacity) =>
      ["schedule", className, Format(startTime), Format(endTime), FormatInt(maxCapacity)]
    case Book(memberId, className, bookingTime) =>
      ["book", FormatInt(memberId), className, Format(bookingTime)]
  }

  /** The input line for a command, fields joined by commas. */
  function Render(cmd: Command): string
    requires Renderable(cmd)
  {
    Join(RenderFields(cmd), ',')
  }

  lemma FormatIntPlain(n: int)
    ensures FormatInt(n) != [] && PlainField(FormatInt(n))
    ensures IsDigit(FormatInt(n)[|FormatInt(n)| - 1])
  {
    var s := FormatInt(n);
    var d := if n < 0 then Digits(-n) else Digits(n);
    assert forall k :: 0 <= k < |s| ==> s[k] == '-' || IsDigit(s[k]) by {
      if n < 0 {
        assert forall k :: 1 <= k < |s| ==> s[k] == d[k - 1];
      }
    }
    assert s[|s| - 1] == d[|d| - 1];
  }

  lemma FormatPlain(t: Time)
    ensures PlainField(Format(t))
    ensures IsDigit(Format(t)[0]) && IsDigit(Format(t)[15])
  {
    var s := Format(t);
    var y, mi := Pad4(t.year), Pad2(t.minute);
    assert s[0] == y[0];
    assert s[15] == mi[1];
    assert ',' !in y && ',' !in Pad2(t.month) && ',' !in Pad2(t.day) && ',' !in Pad2(t.hour) && ',' !in mi;
  }

  lemma {:induction false} JoinLast(parts: seq<string>, sep: char)
    requires |parts| >= 1 && parts[|parts| - 1] != []
    ensures var s := Join(parts, sep);
      s != [] && s[|s| - 1] == parts[|parts| - 1][|parts[|parts| - 1]| - 1]
    decreases |parts|
  {
    if |parts| > 1 {
      JoinLast(parts[1..], sep);
    }
  }

  /** Joining plain fields that start and end with a non-blank gives a
      trimmed line whose trimmed fields are those fields again. */
  lemma FieldsOfJoin(parts: seq<string>)
    requires |parts| >= 1 && parts[0] != [] && parts[|parts| - 1] != []
    requires forall k :: 0 <= k < |parts| ==> PlainField(parts[k])
    ensures Trim(Join(parts, ',')) == Join(parts, ',')
    ensures Fields(Join(parts, ',')) == parts
  {
    var line := Join(parts, ',');
    JoinLast(parts, ',');
    assert line[0] == parts[0][0] by {
      if |parts| > 1 {
        assert line == parts[0] + [','] + Join(parts[1..], ',');
      }
    }
    TrimOfTrimmed(line);
    SplitJoin(parts, ',');
    TrimAllTrimmed(parts);
    assert Fields(line) == TrimAll(Split(line, ',')) == TrimAll(parts);
  }

  lemma RenderParseRegister(name: string, memberId: int)
    requires Renderable(Register(name, memberId))
    ensures Trim(Render(Register(name, memberId))) == Render(Register(name, memberId))
    ensures ParseLine(Render(Register(name, memberId))) == Register(name, memberId)
  {
    var parts := RenderFields(Register(name, memberId));
    FormatIntPlain(memberId);
    FieldsOfJoin(parts);
    ParseFormatInt(memberId);
  }

  lemma RenderParseSchedule(className: string, startTime: Time, endTime: Time, maxCapacity: int)
    requires Renderable(Schedule(className, startTime, endTime, maxCapacity))
    ensures Trim(Render(Schedule(className, startTime, endTime, maxCapacity))) ==
            Render(Schedule(className, startTime, endTime, maxCapacity))
    ensures ParseLine(Render(Schedule(className, startTime, endTime, maxCapacity))) ==
            Schedule(className, startTime, endTime, maxCapacity)
  {
    var parts := RenderFields(Schedule(className, startTime, endTime, maxCapacity));
    assert parts == ["schedule", className, Format(startTime), Format(endTime), FormatInt(maxCapacity)];
    FormatPlain(startTime);
    FormatPlain(endTime);
    FormatIntPlain(maxCapacity);
    assert PlainField("schedule");
    FieldsOfJoin(parts);
    ParseFormat(startTime);
    ParseFormat(endTime);
    ParseFormatInt(maxCapacity);
    var line := Join(parts, ',');
    assert Fields(line) == parts;
  }

  lemma RenderParseBook(memberId: int, className: string, bookingTime: Time)
    requires Renderable(Book(memberId, className, bookingTime))
    ensures Trim(Render(Book(memberId, className, bookingTime))) == Render(Book(memberId, className, bookingTime))
    ensures ParseLine(Render(Book(memberId, className, bookingTime))) == Book(memberId, className, bookingTime)
  {
    var parts := RenderFields(Book(memberId, className, bookingTime));
    FormatIntPlain(memberId);
    FormatPlain(bookingTime);
    FieldsOfJoin(parts);
    ParseFormatInt(memberId);
    ParseFormat(bookingTime);
  }

  /** Parsing the line written for a command gives back that command: the
      field order, the separators and the number formats agree. */
  lemma RenderParse(cmd: Command)
    requires Renderable(cmd)
    ensures Trim(Render(cmd)) == Render(cmd)
    ensures ParseLine(Trim(Render(cmd))) == cmd
  {
    match cmd {
      case Register(name, memberId) => RenderParseRegister(name, memberId);
      case Schedule(className, startTime, endTime, maxCapacity) =>
        RenderParseSchedule(className, startTime, endTime, maxCapacity);
      case Book(memberId, className, bookingTime) => RenderParseBook(memberId, className, bookingTime);
    }
  }

  /** The line written for a command does what the command says. */
  lemma StepRendered(st: State, cmd: Command)
    requires Renderable(cmd)
    ensures Step(st, Render(cmd)) == Execute(st, Render(cmd), cmd)
  {
    RenderParse(cmd);
  }

  function LookupFailedMessage(trimmedLine: string): string {
    "Invalid member ID or class name: " + trimmedLine
  }

  /** Carries out a command: registering and scheduling always succeed and
      print nothing; a booking needs both lookups to succeed. */
  function Execute(st: State, trimmedLine: string, cmd: Command): (State, Option<string>) {
    match cmd
    case Register(name, memberId) => (RegisterMember(st, name, memberId), None)
    case Schedule(className, startTime, endTime, maxCapacity) =>
      (ScheduleClass(st, className, startTime, endTime, maxCapacity), None)
    case Book(memberId, className, bookingTime) =>
      (match (FindMember(st.members, memberId), FindClass(st.classes, className))
       case (Some(m), Some(i)) =>
         var attempt := BookAttempt(st, m, i, bookingTime);
         (attempt.0, Some(attempt.1))
       case _ => (st, Some(LookupFailedMessage(trimmedLine))))
    case Rejected(message) => (st, Some(message))
  }

  /** One input line: its new registry and the output line it adds, if any. */
  function Step(st: State, line: string): (State, Option<string>) {
    var trimmedLine := Trim(line);
    Execute(st, trimmedLine, ParseLine(trimmedLine))
  }

  function Emitted(o: Option<string>): seq<string> {
    match o
    case Some(s) => [s]
    case None => []
  }

  /** The loop over the lines: final registry and result lines, in input order. */
  function Run(st: State, lines: seq<string>): (State, seq<string>)
    decreases |lines|
  {
    if lines == [] then (st, [])
    else
      var previous := Run(st, lines[..|lines| - 1]);
      var last := Step(previous.0, lines[|lines| - 1]);
      (last.0, previous.1 + Emitted(last.1))
  }

  /** The text written to the output file for the given input text: the
      header, then the results, joined with newlines. */
  function ProcessInput(st: State, inputText: string): string {
    Join(Header + Run(st, Split(inputText, '\n')).1, '\n')
  }

  // ---------------------------------------------------------------------
  // What one line does

  /** A line that registers or schedules successfully is the only kind
      that prints nothing. */
  predicate Silent(line: string) {
    var cmd := ParseLine(Trim(line));
    cmd.Register? || cmd.Schedule?
  }

  /** A rejected line prints exactly its error and changes nothing. */
  lemma RejectedLineChangesNothing(st: State, line: string)
    requires ParseLine(Trim(line)).Rejected?
    ensures Step(st, line) == (st, Some(ParseLine(Trim(line)).message))
  {
    var trimmedLine := Trim(line);
    var cmd := ParseLine(trimmedLine);
    assert Step(st, line) == Execute(st, trimmedLine, cmd);
    assert Execute(st, trimmedLine, cmd) == (st, Some(cmd.message)) by {
      assert cmd == Rejected(cmd.message);
    }
  }

  /** A line prints one line unless it registers or schedules. */
  lemma StepEmits(st: State, line: string)
    ensures Step(st, line).1.Some? <==> !Silent(line)
  {
  }

  /** Splitting never yields an empty list, so a blank line is not skipped:
      its empty command is reported as unknown. */
  lemma BlankLineIsInvalidCommand(st: State, line: string)
    requires forall k :: 0 <= k < |line| ==> IsBlank(line[k])
    ensures Step(st, line) == (st, Some("Invalid command: "))
  {
    TrimBlank(line);
    assert Split([], ',') == [[]];
    var parts := Fields([]);
    assert parts[0] == Trim([]) == [];
    assert parts[0] != "register" && parts[0] != "schedule" && parts[0] != "book";
    assert ParseLine([]) == Rejected("Invalid command: " + []);
    assert "Invalid command: " + [] == "Invalid command: ";
  }

  /** Every error message is one of the fixed texts followed by the trimmed line. */
  lemma RejectionMessages(trimmedLine: string)
    requires ParseLine(trimmedLine).Rejected?
    ensures var m := ParseLine(trimmedLine).message;
      m == "Invalid register command: " + trimmedLine ||
      m == "Invalid member ID: " + trimmedLine ||
      m == "Invalid schedule command: " + trimmedLine ||
      m == "Invalid max capacity: " + trimmedLine ||
      m == "Invalid schedule time format: " + trimmedLine ||
      m == "Invalid book command: " + trimmedLine ||
      m == "Invalid booking time format: " + trimmedLine ||
      m == "Invalid command: " + trimmedLine
  {
    var parts := Fields(trimmedLine);
    if parts[0] == "register" {
    } else if parts[0] == "schedule" {
      if |parts| >= 5 && ParseInt(parts[4]).Some? {
        assert ParseLine(trimmedLine) == Rejected("Invalid schedule time format: " + trimmedLine);
      }
    } else if parts[0] == "book" {
      if |parts| >= 4 && ParseInt(parts[1]).Some? {
        assert ParseLine(trimmedLine) == Rejected("Invalid booking time format: " + trimmedLine);
      }
    }
  }

  /** `schedule` judges the capacity before the times: a bad capacity is
      reported as such even when the times are bad too. */
  lemma ScheduleChecksCapacityFirst(trimmedLine: string)
    requires Fields(trimmedLine)[0] == "schedule" && |Fields(trimmedLine)| >= 5
    requires ParseInt(Fields(trimmedLine)[4]).None?
    ensures ParseLine(trimmedLine) == Rejected("Invalid max capacity: " + trimmedLine)
  {
  }

  /** `book` judges the member id before the time. */
  lemma BookChecksMemberIdFirst(trimmedLine: string)
    requires Fields(trimmedLine)[0] == "book" && |Fields(trimmedLine)| >= 4
    requires ParseInt(Fields(trimmedLine)[1]).None?
    ensures ParseLine(trimmedLine) == Rejected("Invalid member ID: " + trimmedLine)
  {
  }

  /** `book` looks the member and the class up only for a well-formed
      line; if either is missing, that is reported and nothing changes. */
  lemma BookLookupFailure(st: State, trimmedLine: string)
    requires ParseLine(trimmedLine).Book?
    requires FindMember(st.members, ParseLine(trimmedLine).memberId).None? ||
             FindClass(st.classes, ParseLine(trimmedLine).className).None?
    ensures Execute(st, trimmedLine, ParseLine(trimmedLine)) == (st, Some(LookupFailedMessage(trimmedLine)))
  {
  }

  /** `book` with both lookups successful: the attempt on the class found. */
  lemma BookLookupSuccess(st: State, trimmedLine: string, memberId: int, className: string,
                          bookingTime: Time, m: Member, i: nat)
    requires FindMember(st.members, memberId) == Some(m)
    requires FindClass(st.classes, className) == Some(i)
    ensures Execute(st, trimmedLine, Book(memberId, className, bookingTime)) ==
            (BookAttempt(st, m, i, bookingTime).0, Some(BookAttempt(st, m, i, bookingTime).1))
  {
  }

  // ---------------------------------------------------------------------
  // What the loop does

  /** One more line of input: the run over the first `n + 1` lines is the
      run over the first `n` followed by one `Step`. */
  lemma RunStep(st: State, lines: seq<string>, n: nat, before: State, emitted: seq<string>,
                after: State, output: Option<string>)
    requires n < |lines|
    requires Run(st, lines[..n]) == (before, emitted)
    requires Step(before, lines[n]) == (after, output)
    ensures Run(st, lines[..n + 1]) == (after, emitted + Emitted(output))
  {
    assert lines[..n + 1][..n] == lines[..n];
  }

  function CountLoud(lines: seq<string>): nat
    decreases |lines|
  {
    if lines == [] then 0
    else CountLoud(lines[..|lines| - 1]) + (if Silent(lines[|lines| - 1]) then 0 else 1)
  }

  /** Each line adds at most one output line: exactly one unless it
      registers or schedules successfully. */
  lemma {:induction false} RunOutputCount(st: State, lines: seq<string>)
    ensures |Run(st, lines).1| == CountLoud(lines) <= |lines|
    decreases |lines|
  {
    if lines != [] {
      RunOutputCount(st, lines[..|lines| - 1]);
      StepEmits(Run(st, lines[..|lines| - 1]).0, lines[|lines| - 1]);
    }
  }

  /** Processing never stops early and keeps the input order: the lines
      `a + b` give the results of `a` followed by those of `b` run from
      the registry `a` left behind. */
  lemma {:induction false} RunAppend(st: State, a: seq<string>, b: seq<string>)
    ensures Run(st, a + b).0 == Run(Run(st, a).0, b).0
    ensures Run(st, a + b).1 == Run(st, a).1 + Run(Run(st, a).0, b).1
    decreases |b|
  {
    if b == [] {
      assert a + b == a;
    } else {
      var b' := b[..|b| - 1];
      assert (a + b)[..|a + b| - 1] == a + b';
      assert (a + b)[|a + b| - 1] == b[|b| - 1];
      RunAppend(st, a, b');
      var mid := Run(st, a);
      var previous := Run(st, a + b');
      var last := Step(previous.0, b[|b| - 1]);
      assert Run(st, a + b) == (last.0, previous.1 + Emitted(last.1));
      assert Run(mid.0, b) == (last.0, Run(mid.0, b').1 + Emitted(last.1));
      assert previous.1 + Emitted(last.1) == mid.1 + (Run(mid.0, b').1 + Emitted(last.1));
    }
  }

  /** Executing any command keeps the registry invariant and only grows
      the registry. */
  lemma ExecutePreserves(st: State, trimmedLine: string, cmd: Command)
    requires Consistent(st)
    ensures Consistent(Execute(st, trimmedLine, cmd).0)
    ensures Extends(st, Execute(st, trimmedLine, cmd).0)
  {
    match cmd
    case Register(name, memberId) => RegisterMemberPreserves(st, name, memberId);
    case Schedule(className, startTime, endTime, maxCapacity) =>
      ScheduleClassPreserves(st, className, startTime, endTime, maxCapacity);
    case Book(memberId, className, bookingTime) =>
      match (FindMember(st.members, memberId), FindClass(st.classes, className)) {
        case (Some(m), Some(i)) =>
          BookAttemptPreserves(st, m, i, bookingTime);
        case _ =>
          assert Execute(st, trimmedLine, cmd).0 == st;
      }
    case Rejected(_) =>
  }

  lemma StepPreserves(st: State, line: string)
    requires Consistent(st)
    ensures Consistent(Step(st, line).0)
    ensures Extends(st, Step(st, line).0)
  {
    var trimmedLine := Trim(line);
    ExecutePreserves(st, trimmedLine, ParseLine(trimmedLine));
  }

  /** Whatever lines are processed, the registry only grows, no counter
      goes down, and every class stays within its capacity. */
  lemma {:induction false} RunPreserves(st: State, lines: seq<string>)
    requires Consistent(st)
    ensures Consistent(Run(st, lines).0)
    ensures Extends(st, Run(st, lines).0)
    decreases |lines|
  {
    if lines != [] {
      var prefix := lines[..|lines| - 1];
      RunPreserves(st, prefix);
      StepPreserves(Run(st, prefix).0, lines[|lines| - 1]);
      ExtendsTransitive(st, Run(st, prefix).0, Run(st, lines).0);
    }
  }
}
