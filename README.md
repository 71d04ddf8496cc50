# Gym membership system, modelled in Dafny

The gym membership system keeps three insertion-ordered lists in memory: members, scheduled
classes and confirmed bookings. It reads an input file of comma-separated commands:

- `register,<name>,<id>` adds a member;
- `schedule,<class>,<start>,<end>,<capacity>` adds a class;
- `book,<id>,<class>,<time>` books a member into a class.

Times are written `yyyy-MM-dd'T'HH:mm`. The output file starts with a fixed four-line header and
then has one line per booking attempt or malformed line. Successful `register` and `schedule`
lines print nothing.

The project has these parts:

- `wrappers.dfy`: `Option`.
- `text.dfy`: splitting on a separator and joining. Trimming of blanks. Swift's `Int(String)`
  (an optional sign and decimal digits, within 64 bits) and its decimal rendering.
- `timestamps.dfy`: a booking time as a calendar minute with chronological order, and the
  `yyyy-MM-dd'T'HH:mm` text form, with both round trips proved.
- `registry.dfy`: the registry as a value (`State`). Also:
  - a class's counter-with-guard (`ClassInfo.Reserve`);
  - the first-match lookups;
  - the three-way booking decision `BookAttempt`;
  - the invariant `Consistent`: every booking names a registered member and an existing class and
    lies inside the class window, and every class counter equals its number of bookings and
    stays within `[0, max(0, maxCapacity)]`.
- `interpreter.dfy`: how a line is read. `ParseLine` makes the checks in the program's order and
  turns every malformed line into its fixed error text. `Execute` and `Step` carry out one line,
  and `Run` the loop over all lines. Lemmas cover the validation order, the output count, input
  order and preservation of the invariant.
- `system.dfy`: the program's own objects.
  - `GymClass` is a class whose `bookedSlots` field is updated in place.
  - `GymMembershipSystem` has `seq` fields that its methods reassign by appending, and a ghost
    `model` that `Valid()` ties to the objects.
  - Each method states its effect on `model` through the functions above. The loop of
    `processInputFile` is a `while` loop whose invariant is that the model and the results so
    far equal `Run` over the lines read.
- `scenarios.dfy`: worked single-line cases (register, schedule, a booking, a second booking of
  a full class, booking at the end time, an unknown member, a short `register` line).

Three behaviours of the code are worth noting:

- A booking attempt on a class that is already full gives `The class X is full.`, at any time.
  The `is already full.` answer is unreachable, because `canBook` implies that `bookClass()`
  succeeds.
- A negative `maxCapacity` is accepted. Such a class never takes a booking and its counter stays
  0, so the counter bound is `max(0, maxCapacity)`, not `maxCapacity`.
- A blank line is not skipped. Splitting always yields at least one field, so the emptiness guard
  never fires, and the line is reported as `Invalid command: ` (with the empty trimmed line).

## Model

| member | source | states |
|---|---|---|
| GymSystem.GymClass.constructor | GymMembershipSystem.swift:187-193 | a new class has the given schedule and capacity and no slot booked |
| Registry.NewClass | GymMembershipSystem.swift:187-193 | a new class satisfies the counter bound, and it has spare capacity exactly when its capacity is positive |
| GymSystem.GymClass.BookClass | GymMembershipSystem.swift:206-213 | returns true exactly when `bookedSlots < maxCapacity`; then the counter rises by one, otherwise it is unchanged |
| Registry.ReserveSpec | GymMembershipSystem.swift:206-213 | the guarded increment takes a slot exactly when one is free, moves the counter by at most one, keeps the schedule and keeps the counter bound |
| Registry.ReserveTimesSpec | GymMembershipSystem.swift:184-213 | after any number k of `bookClass()` calls the counter is min(booked + k, capacity) when it started below capacity, and unchanged otherwise; it never decreases and never leaves `[0, max(0, maxCapacity)]` |
| Registry.WindowBoundaries | GymMembershipSystem.swift:196-198 | the window is half-open: booking at the end time is refused; booking at the start time is allowed exactly when capacity remains and start < end |
| Registry.NonPositiveCapacityNeverBooks | GymMembershipSystem.swift:196-213 | a class with capacity zero or below can never be booked and `bookClass()` never succeeds on it |
| Registry.Find | GymMembershipSystem.swift:162-169 | `first { }`: the lowest position satisfying the predicate; None exactly when no element satisfies it |
| Registry.FindMember | GymMembershipSystem.swift:162-164 | the first member registered with the id; None exactly when no member has it |
| Registry.FindClass | GymMembershipSystem.swift:167-169 | the position of the first class with the name; None exactly when no class has it |
| GymSystem.GymMembershipSystem.FindMemberById | GymMembershipSystem.swift:162-164 | the first member in insertion order with the id; None exactly when no member has it |
| GymSystem.GymMembershipSystem.FindClassByName | GymMembershipSystem.swift:167-169 | the earliest class object with the name; None exactly when no class has it |
| Registry.BookAttempt | GymMembershipSystem.swift:35-63 | books exactly when `canBook` holds: that class's counter +1, the other classes and the members unchanged, one booking (member, class, time) appended, and the success message with the formatted time. Otherwise the state is unchanged, with `is full.` when no capacity remains (whatever the time) or the invalid-time message with the window |
| Registry.EmptyConsistent | GymMembershipSystem.swift:12-16 | the empty registry satisfies the invariant |
| Registry.RegisterMemberPreserves | GymMembershipSystem.swift:19-24 | registering keeps the invariant and only grows the registry |
| Registry.ScheduleClassPreserves | GymMembershipSystem.swift:27-32 | scheduling keeps the invariant: the new class has no bookings |
| Registry.BookAttemptPreserves | GymMembershipSystem.swift:35-63 | a booking attempt keeps the invariant: each counter equals its number of bookings, every booking lies inside its class window, and no class goes over capacity |
| GymSystem.GymMembershipSystem.constructor | GymMembershipSystem.swift:12-16 | the system starts with the empty registry |
| GymSystem.GymMembershipSystem.RegisterMember | GymMembershipSystem.swift:19-24 | the member list gains exactly the new member at the end; classes and bookings are unchanged; no validation |
| GymSystem.GymMembershipSystem.ScheduleClass | GymMembershipSystem.swift:27-32 | exactly one fresh class object is appended with no slot booked; the other lists are unchanged |
| GymSystem.GymMembershipSystem.Admit | GymMembershipSystem.swift:43-51 | when `canBook` holds, the class's own `bookClass()` succeeds, and the effect and message are the success case of `BookAttempt` |
| GymSystem.GymMembershipSystem.BookClass | GymMembershipSystem.swift:35-63 | the effect on the registry and the message are those of `BookAttempt` on the class's position; the member and class lists are unchanged |
| GymSystem.GymMembershipSystem.BookCommand | GymMembershipSystem.swift:131-137 | a well-formed `book` line looks up the member and the class; if both exist it books as `BookAttempt`, otherwise it reports the failed lookup and changes nothing |
| GymSystem.GymMembershipSystem.ExecuteCommand | GymMembershipSystem.swift:93-150 | the dispatch on the command changes the registry and emits as `Execute` does |
| GymSystem.GymMembershipSystem.ProcessLine | GymMembershipSystem.swift:85-150 | one line of input has the effect and output of `Step` |
| GymSystem.GymMembershipSystem.ProcessNext | GymMembershipSystem.swift:85-151 | after one more line, the registry and results are those of `Run` over one more line |
| GymSystem.GymMembershipSystem.ProcessLines | GymMembershipSystem.swift:72-151 | the output is the fixed header followed by the results of `Run` over the lines in input order, and the registry ends where `Run` does |
| GymSystem.GymMembershipSystem.ProcessInputFile | GymMembershipSystem.swift:66-159 | the text split at newlines is processed as `Run`, and the output text is the header and the results joined with newlines |
| Interpreter.TrimAll | GymMembershipSystem.swift:87 | each field trimmed, same number of fields, in order |
| Interpreter.Fields | GymMembershipSystem.swift:87-93 | a line always yields at least one field, so `parts[0]` exists |
| Interpreter.RenderParse | GymMembershipSystem.swift:93-131 | the line written for any command with plain fields and 64-bit numbers parses back to that command |
| Interpreter.StepRendered | GymMembershipSystem.swift:85-150 | processing the line written for a command carries out that command |
| Interpreter.RejectedLineChangesNothing | GymMembershipSystem.swift:95-150 | a malformed line emits exactly its error line and leaves the registry unchanged |
| Interpreter.StepEmits | GymMembershipSystem.swift:95-150 | a line emits an output line exactly when it is not a successful `register` or `schedule` |
| Interpreter.BlankLineIsInvalidCommand | GymMembershipSystem.swift:86-150 | a blank line is not skipped; it emits `Invalid command: ` and changes nothing |
| Interpreter.RejectionMessages | GymMembershipSystem.swift:95-150 | every error line is one of the eight fixed texts followed by the trimmed line |
| Interpreter.ScheduleChecksCapacityFirst | GymMembershipSystem.swift:107-123 | with enough fields, a bad capacity is reported before any bad time |
| Interpreter.BookChecksMemberIdFirst | GymMembershipSystem.swift:124-146 | with enough fields, a bad member id is reported before any bad time |
| Interpreter.BookLookupFailure | GymMembershipSystem.swift:131-137 | a well-formed `book` line with an unknown id or class emits the lookup error and changes nothing |
| Interpreter.BookLookupSuccess | GymMembershipSystem.swift:132-134 | with both lookups successful, the line does what `BookAttempt` does on the class found |
| Interpreter.RunStep | GymMembershipSystem.swift:85-151 | the run over n + 1 lines is the run over n lines followed by one more line |
| Interpreter.RunOutputCount | GymMembershipSystem.swift:85-151 | each line adds at most one output line, and exactly one unless it registers or schedules |
| Interpreter.RunAppend | GymMembershipSystem.swift:85-151 | the loop never stops early and keeps input order: lines a + b give the results of a followed by those of b from the registry a left |
| Interpreter.ExecutePreserves | GymMembershipSystem.swift:93-150 | every command keeps the invariant and only grows the registry |
| Interpreter.StepPreserves | GymMembershipSystem.swift:85-150 | every line keeps the invariant and only grows the registry |
| Interpreter.RunPreserves | GymMembershipSystem.swift:85-151 | over any input, no class is over capacity, no counter goes down, and every booking lies in its window |
| Text.SplitSpec | GymMembershipSystem.swift:87 | no field contains the separator, and joining the fields with it gives the line back |
| Text.SplitJoin | GymMembershipSystem.swift:87 | splitting fields joined with a separator that none contains gives the fields back |
| Text.TrimSpec | GymMembershipSystem.swift:86 | the trimmed text is a contiguous slice with only blanks before and after it |
| Text.Trim | GymMembershipSystem.swift:86 | the trimmed text neither starts nor ends with a blank |
| Text.TrimIdempotent | GymMembershipSystem.swift:86-87 | trimming twice is trimming once, so re-trimming a trimmed line changes nothing |
| Text.TrimBlank | GymMembershipSystem.swift:86 | a line of blanks trims to the empty string |
| Text.ParseInt | GymMembershipSystem.swift:99 | an accepted number is within Swift's 64-bit `Int`, ends with a digit and contains no blank |
| Text.ParseFormatInt | GymMembershipSystem.swift:99 | reading back the decimal form of any 64-bit integer gives that integer |
| Timestamps.LessTotal | GymMembershipSystem.swift:197 | the time order is strict and total |
| Timestamps.ParseFormat | GymMembershipSystem.swift:81-82 | parsing a formatted time gives the time back |
| Timestamps.FormatParse | GymMembershipSystem.swift:37-40 | formatting a parsed time gives the input text back, so a booking message repeats the time as written |
| Scenarios.RegisterScenario | GymMembershipSystem.swift:95-106 | `register,<name>,<id>` on an empty registry adds exactly that member and prints nothing |
| Scenarios.ScheduleScenario | GymMembershipSystem.swift:107-123 | `schedule,...` adds the class with no slot booked and prints nothing |
| Scenarios.BookingScenario | GymMembershipSystem.swift:124-146 | a booking inside the window of a class with a free place records it, counts one slot and prints `<name> booked <class> at <time>` |
| Scenarios.SecondBookingScenario | GymMembershipSystem.swift:43-58 | once a one-place class is taken, another booking at any time prints `The class X is full.` and changes nothing |
| Scenarios.EndTimeScenario | GymMembershipSystem.swift:56-61 | booking exactly at the end time, with a place left, prints the invalid-time message with the window |
| Scenarios.UnknownMemberScenario | GymMembershipSystem.swift:132-137 | booking for an unregistered id prints the lookup error with the line |
| Scenarios.RegisterWithTooFewFields | GymMembershipSystem.swift:97-106 | `register,OnlyName` prints `Invalid register command: ` with the line and changes nothing; `Scenarios.OnlyNameLine` shows that the joined fields are that literal line |

## Left out

- Reading the input file and writing the output file (lines 69 and 155), and the `catch` that prints the error (lines 156-157). `ProcessInputFile` takes the file's text and returns the output text.
- The top-level script (lines 224-226) only wires fixed file names into one call.
- `DateFormatter` (lines 37-40, 81-82) is a foreign library. It is modelled as a strict reader and writer of `yyyy-MM-dd'T'HH:mm`: sixteen characters, zero-padded, years 0000-9999, proleptic Gregorian calendar. The formatter's leniency, its locale and time zone, and its historical calendar are not modelled.
- `components(separatedBy: .newlines)` (line 71) is modelled as splitting on `\n` only. Carriage returns and other Unicode line separators are not treated as breaks.
- `trimmingCharacters(in: .whitespaces)` (lines 86-87) is modelled as trimming space and tab only. Other Unicode whitespace is not trimmed.
- Swift compares `String`s by Unicode canonical equivalence (lines 95, 107, 124, 168). The model compares them code point by code point, so two names that differ only in Unicode normalisation (a precomposed `é` against `e` followed by a combining accent) are told apart: such a class is not found by name, and a command word written that way is not recognised.
- Parsing a line happens before the registry is consulted. This changes nothing observable, because the only check that depends on the registry, the lookup in `book`, comes after every check on the text.
- GymSystem.GymMembershipSystem.BookClass: requires the member and the class object to be in the registry. The program only calls it with the results of its own lookups, so the case of an outside object is not modelled.
- GymSystem.GymMembershipSystem.Admit: requires `canBook` to hold at the call, because it models only the success branch (lines 43-51) of `bookClass`.
- The `Scenarios` lemmas each state one line on a symbolic registry rather than a whole input file. A multi-line run is covered by `RunAppend` and `RunStep`.
