/** The workout-log text parser of `workoutController` and the unused helper
    `parseWorkoutLine`.

    A log is a list of lines. `#Legs` names the current category; `-Squat`
    starts a fixed block of four lines (name, sets/reps, weight, duration);
    any other line the scan lands on aborts the parse. */
module WorkoutParser {
  import opened Wrappers
  import opened Text
  import opened JsNumbers
  import opened Calories
  import opened Workouts

  /** The four ways a parse fails; each one is answered with HTTP 400. */
  datatype ParseError =
    | MissingWorkoutString
    | IncompleteWorkout(category: string)
    | UnexpectedLineFormat(line: string)
    | NoValidWorkouts

  /** The text of the error response. */
  function Message(e: ParseError): string {
    match e
    case MissingWorkoutString => "Workout string is missing"
    case IncompleteWorkout(c) => "Incomplete workout details for category \"" + c + "\""
    case UnexpectedLineFormat(l) => "Unexpected line format: \"" + l + "\""
    case NoValidWorkouts => "No valid workouts found"
  }

  /** `prefix + x + "\""` determines x. */
  lemma QuotedInjective(prefix: string, x: string, y: string)
    requires prefix + x + "\"" == prefix + y + "\""
    ensures x == y
  {
    var s := prefix + x + "\"";
    assert |x| == |y|;
    assert s[|prefix|..|prefix| + |x|] == x;
    assert (prefix + y + "\"")[|prefix|..|prefix| + |y|] == y;
  }

  /** Distinct failures are reported with distinct texts: the message tells
      which check failed and names the category or line involved. */
  lemma MessageInjective(e1: ParseError, e2: ParseError)
    requires Message(e1) == Message(e2)
    ensures e1 == e2
  {
    var m := Message(e1);
    assert m[0] == Message(e2)[0];
    if e1.IncompleteWorkout? && e2.IncompleteWorkout? {
      QuotedInjective("Incomplete workout details for category \"", e1.category, e2.category);
    } else if e1.UnexpectedLineFormat? && e2.UnexpectedLineFormat? {
      QuotedInjective("Unexpected line format: \"", e1.line, e2.line);
    }
  }

  /** `f` applied to each element of `xs`, in order (`Array.prototype.map`). */
  function MapSeq<A, B>(f: A -> B, xs: seq<A>): (ys: seq<B>)
    ensures |ys| == |xs|
    ensures forall k :: 0 <= k < |xs| ==> ys[k] == f(xs[k])
  {
    seq(|xs|, k requires 0 <= k < |xs| => f(xs[k]))
  }

  lemma MapSeqAppend<A, B>(f: A -> B, xs: seq<A>, ys: seq<A>)
    ensures MapSeq(f, xs + ys) == MapSeq(f, xs) + MapSeq(f, ys)
  {
    var zs := xs + ys;
    assert forall k :: 0 <= k < |xs| ==> zs[k] == xs[k];
    assert forall k :: |xs| <= k < |zs| ==> zs[k] == ys[k - |xs|];
  }

  lemma MapSeqSnoc<A, B>(f: A -> B, xs: seq<A>, x: A)
    ensures MapSeq(f, xs + [x]) == MapSeq(f, xs) + [f(x)]
  {
    MapSeqAppend(f, xs, [x]);
  }

  /** `workoutString.split("\n").map((line) => line.trim())`. */
  function LinesOf(s: string): (ls: seq<string>)
    ensures |ls| >= 1
    ensures forall k :: 0 <= k < |ls| ==> Trimmed(ls[k])
  {
    MapSeq(Trim, SplitLines(s))
  }

  /** The entry branch trims its four lines again; they were trimmed when
      the body was split, so the second trim changes nothing. */
  lemma RetrimChangesNothing(s: string)
    ensures forall k :: 0 <= k < |LinesOf(s)| ==> Trim(LinesOf(s)[k]) == LinesOf(s)[k]
  {
    var pieces := SplitLines(s);
    forall k | 0 <= k < |LinesOf(s)| ensures Trim(LinesOf(s)[k]) == LinesOf(s)[k] {
      assert LinesOf(s)[k] == Trim(pieces[k]);
      TrimIdempotent(pieces[k]);
    }
  }

  /** Joining trimmed line-feed-free lines gives text whose lines are those. */
  lemma LinesOfJoin(pieces: seq<string>)
    requires |pieces| >= 1
    requires forall k :: 0 <= k < |pieces| ==> '\n' !in pieces[k] && Trim(pieces[k]) == pieces[k]
    ensures LinesOf(JoinLines(pieces)) == pieces
  {
    SplitJoin(pieces);
  }

  /** A line that names a category. */
  type CategoryLineText = l: string | StartsWith(l, '#') witness "#"

  /** The four lines of an entry: `-name`, sets/reps, weight, duration. */
  type Block = b: seq<string> | |b| == 4 && StartsWith(b[0], '-') witness ["-", "", "", ""]

  /** An entry block as the scan finds it, with the category then current. */
  datatype Entry = Entry(block: Block, category: string)

  /** The category named by a `#` line. */
  function CategoryName(line: CategoryLineText): (name: string)
    ensures Trimmed(name) && |name| < |line|
  {
    Trim(line[1..])
  }

  /** The category of "#" + padding + name + padding is the name. */
  lemma CategoryNamePadded(p: string, name: string, q: string)
    requires AllSpace(p) && AllSpace(q) && Trimmed(name)
    ensures CategoryName("#" + p + name + q) == name
  {
    var line: CategoryLineText := "#" + p + name + q;
    assert line[1..] == p + name + q;
    TrimPadded(p, name, q);
  }

  /** Sets: `parseInt` of the part of `setsReps` before the first `sep`. */
  function SetsOf(setsReps: string, sep: string): Option<int>
    requires sep != []
  {
    ParseInt(Trim(Before(setsReps, sep)))
  }

  /** Reps: `parseInt` of the part between the first `sep` and the first
      "reps" after it; without any `sep` the part is undefined, which parses
      as NaN. */
  function RepsOf(setsReps: string, sep: string): Option<int>
    requires sep != []
  {
    match Between(setsReps, sep)
    case None => None
    case Some(t) => ParseInt(Trim(Before(t, "reps")))
  }

  /** `parseFloat` of the part of `line` before the first `unit`. */
  function AmountOf(line: string, unit: string): Option<real>
    requires unit != []
  {
    ParseFloat(Trim(Before(line, unit)))
  }

  /** The record an entry block yields: every unparsable number becomes 0,
      and the calories are computed from the parsed duration and weight. */
  function EntryRecord(block: Block, category: string, user: UserId, now: Day): (r: WorkoutRecord)
    ensures r.user == user && r.category == category && r.date == now
    ensures r.workoutName == Trim(block[0][1..])
    ensures r.caloriesBurned == CaloriesBurnt(Some(r.duration), Some(r.weight))
  {
    var setsReps := Trim(block[1]);
    var weight := AmountOf(Trim(block[2]), "kg");
    var duration := AmountOf(Trim(block[3]), "min");
    CaloriesOfDefaults(duration, weight);
    WorkoutRecord(
      user, category, Trim(block[0][1..]),
      SetsOf(setsReps, "setsX").GetOr(0), RepsOf(setsReps, "setsX").GetOr(0),
      weight.GetOr(0.0), duration.GetOr(0.0),
      CaloriesBurnt(duration, weight), now)
  }

  /** One unfolding of `EntryRecord`, from the values its four lines parse to. */
  lemma EntryRecordFrom(block: Block, category: string, user: UserId, now: Day,
                        sets: Option<int>, reps: Option<int>, weight: Option<real>, duration: Option<real>)
    requires SetsOf(Trim(block[1]), "setsX") == sets && RepsOf(Trim(block[1]), "setsX") == reps
    requires AmountOf(Trim(block[2]), "kg") == weight && AmountOf(Trim(block[3]), "min") == duration
    ensures EntryRecord(block, category, user, now)
         == WorkoutRecord(user, category, Trim(block[0][1..]), sets.GetOr(0), reps.GetOr(0),
                          weight.GetOr(0.0), duration.GetOr(0.0), CaloriesBurnt(duration, weight), now)
  {
  }

  /** The records of a list of entries, in order. */
  function RecordsOf(entries: seq<Entry>, user: UserId, now: Day): (rs: seq<WorkoutRecord>)
    ensures |rs| == |entries|
  {
    MapSeq((e: Entry) => EntryRecord(e.block, e.category, user, now), entries)
  }

  /** What `parseWorkoutLine` returns: its five detail fields. */
  datatype WorkoutDetails = WorkoutDetails(workoutName: string, sets: int, reps: int, weight: real, duration: real)

  /** `parseWorkoutLine`, which no endpoint calls: parts 1 to 4 hold the name,
      "<sets>sets<reps>reps", the weight and the duration; fewer than five
      parts give null. Each `|| 0` turns NaN (and 0) into 0. */
  function ParseWorkoutLine(parts: seq<string>): (r: Option<WorkoutDetails>)
    ensures r.Some? <==> |parts| >= 5
  {
    if |parts| >= 5 then
      Some(WorkoutDetails(
        Trim(parts[1]),
        SetsOf(parts[2], "sets").GetOr(0), RepsOf(parts[2], "sets").GetOr(0),
        AmountOf(parts[3], "kg").GetOr(0.0), AmountOf(parts[4], "min").GetOr(0.0)))
    else None
  }

  /** One unfolding of `ParseWorkoutLine`, from the values its parts parse to. */
  lemma WorkoutLineFrom(parts: seq<string>, sets: Option<int>, reps: Option<int>, weight: Option<real>, duration: Option<real>)
    requires |parts| >= 5
    requires SetsOf(parts[2], "sets") == sets && RepsOf(parts[2], "sets") == reps
    requires AmountOf(parts[3], "kg") == weight && AmountOf(parts[4], "min") == duration
    ensures ParseWorkoutLine(parts)
         == Some(WorkoutDetails(Trim(parts[1]), sets.GetOr(0), reps.GetOr(0), weight.GetOr(0.0), duration.GetOr(0.0)))
  {
  }

  /** `acc` followed by the entries of `r`, or the error of `r`. */
  function Prepend(acc: seq<Entry>, r: Result<seq<Entry>, ParseError>): Result<seq<Entry>, ParseError> {
    match r
    case Ok(rest) => Ok(acc + rest)
    case Err(e) => Err(e)
  }

  /** The scan from the first of `lines` on, with `category` current: what
      the `for` loop does from a given index. */
  function Scan(lines: seq<string>, category: string): (r: Result<seq<Entry>, ParseError>)
    ensures r.Ok? ==> 4 * |r.value| <= |lines|
    decreases |lines|
  {
    if lines == [] then Ok([])
    else if StartsWith(lines[0], '#') then Scan(lines[1..], CategoryName(lines[0]))
    else if StartsWith(lines[0], '-') then
      if |lines| < 4 then Err(IncompleteWorkout(category))
      else Prepend([Entry(lines[..4], category)], Scan(lines[4..], category))
    else Err(UnexpectedLineFormat(lines[0]))
  }

  /** The check after the loop: a scan without entries is an error too. */
  function Finish(r: Result<seq<Entry>, ParseError>, user: UserId, now: Day): (f: Result<seq<WorkoutRecord>, ParseError>)
    ensures f.Ok? <==> r.Ok? && r.value != []
    ensures f.Ok? ==> |f.value| == |r.value| > 0
  {
    match r
    case Err(e) => Err(e)
    case Ok(entries) => if entries == [] then Err(NoValidWorkouts) else Ok(RecordsOf(entries, user, now))
  }

  /** What `workoutController` answers for a request body, before the records
      are stored: a missing or empty string, a failed scan, or no records at
      all is an error. */
  function ParseLog(workoutString: Option<string>, user: UserId, now: Day): (r: Result<seq<WorkoutRecord>, ParseError>)
    ensures workoutString.None? || workoutString == Some("") ==> r == Err(MissingWorkoutString)
    ensures r.Ok? ==> |r.value| > 0
  {
    if workoutString.None? || workoutString.value == "" then Err(MissingWorkoutString)
    else Finish(Scan(LinesOf(workoutString.value), ""), user, now)
  }

  lemma PrependNothing(r: Result<seq<Entry>, ParseError>)
    ensures Prepend([], r) == r
  {
    if r.Ok? { assert [] + r.value == r.value; }
  }

  lemma PrependAppend(a: seq<Entry>, b: seq<Entry>, r: Result<seq<Entry>, ParseError>)
    ensures Prepend(a, Prepend(b, r)) == Prepend(a + b, r)
  {
    if r.Ok? { assert a + (b + r.value) == (a + b) + r.value; }
  }

  lemma MapSeqSingle<A, B>(f: A -> B, x: A)
    ensures MapSeq(f, [x]) == [f(x)]
  {
  }

  /** The records of one entry are its one record. */
  lemma RecordsOfSingle(entry: Entry, user: UserId, now: Day)
    ensures RecordsOf([entry], user, now) == [EntryRecord(entry.block, entry.category, user, now)]
  {
    MapSeqSingle((e: Entry) => EntryRecord(e.block, e.category, user, now), entry);
  }

  lemma RecordsOfAppend(entries: seq<Entry>, more: seq<Entry>, user: UserId, now: Day)
    ensures RecordsOf(entries + more, user, now) == RecordsOf(entries, user, now) + RecordsOf(more, user, now)
  {
    MapSeqAppend((e: Entry) => EntryRecord(e.block, e.category, user, now), entries, more);
  }

  /** The scan at a `#` line: the category changes, the cursor moves one line. */
  lemma ScanCategoryStep(lines: seq<string>, i: nat, category: string)
    requires i < |lines| && StartsWith(lines[i], '#')
    ensures Scan(lines[i..], category) == Scan(lines[i + 1..], CategoryName(lines[i]))
  {
    assert lines[i..][0] == lines[i];
    assert lines[i..][1..] == lines[i + 1..];
  }

  /** The scan at a `-` line with three lines after it: one entry, the cursor
      moves four lines. */
  lemma ScanEntryStep(lines: seq<string>, i: nat, category: string)
    requires i + 4 <= |lines| && !StartsWith(lines[i], '#') && StartsWith(lines[i], '-')
    ensures Scan(lines[i..], category) == Prepend([Entry(lines[i..i + 4], category)], Scan(lines[i + 4..], category))
  {
    assert lines[i..][0] == lines[i];
    assert lines[i..][..4] == lines[i..i + 4];
    assert lines[i..][4..] == lines[i + 4..];
  }

  /** The scan at any other line stops with an error. */
  lemma ScanStopStep(lines: seq<string>, i: nat, category: string)
    requires i < |lines| && !StartsWith(lines[i], '#')
    requires !StartsWith(lines[i], '-') || i + 4 > |lines|
    ensures Scan(lines[i..], category)
         == Err(if StartsWith(lines[i], '-') then IncompleteWorkout(category) else UnexpectedLineFormat(lines[i]))
  {
    assert lines[i..][0] == lines[i];
  }

  /** The body of the entry branch: the fields of the block parsed into a
      record, stated as the one-element list of records of the entry. */
  method BuildRecord(entry: Entry, user: UserId, now: Day) returns (workout: WorkoutRecord)
    ensures [workout] == RecordsOf([entry], user, now)
  {
    workout := EntryRecord(entry.block, entry.category, user, now);
    RecordsOfSingle(entry, user, now);
  }

  /** The request handling of `workoutController` up to the insertion: the
      missing-string check, then the parse loop over the trimmed lines. */
  method ParseWorkoutLog(workoutString: Option<string>, user: UserId, now: Day)
    returns (r: Result<seq<WorkoutRecord>, ParseError>)
    ensures r == ParseLog(workoutString, user, now)
  {
    if workoutString.None? || workoutString.value == "" {
      return Err(MissingWorkoutString);
    }
    var eachWorkout := LinesOf(workoutString.value);
    r := ParseLines(eachWorkout, user, now);
  }

  lemma RecordsStep(entries: seq<Entry>, entry: Entry, parsed: seq<WorkoutRecord>, workout: WorkoutRecord, user: UserId, now: Day)
    requires parsed == RecordsOf(entries, user, now) && [workout] == RecordsOf([entry], user, now)
    ensures parsed + [workout] == RecordsOf(entries + [entry], user, now)
  {
    RecordsOfAppend(entries, [entry], user, now);
  }

  lemma PrependStep(entries: seq<Entry>, entry: Entry, whole: Result<seq<Entry>, ParseError>,
                    here: Result<seq<Entry>, ParseError>, next: Result<seq<Entry>, ParseError>)
    requires whole == Prepend(entries, here) && here == Prepend([entry], next)
    ensures whole == Prepend(entries + [entry], next)
  {
    PrependAppend(entries, [entry], next);
  }

  /** The loop invariant at a line the loop stops on: the whole scan fails
      with that line's error. */
  lemma StopInvariant(lines: seq<string>, i: nat, category: string, entries: seq<Entry>, user: UserId, now: Day)
    requires i < |lines| && !StartsWith(lines[i], '#')
    requires !StartsWith(lines[i], '-') || i + 4 > |lines|
    requires Scan(lines, "") == Prepend(entries, Scan(lines[i..], category))
    ensures Finish(Scan(lines, ""), user, now)
         == Err(if StartsWith(lines[i], '-') then IncompleteWorkout(category) else UnexpectedLineFormat(lines[i]))
  {
    ScanStopStep(lines, i, category);
  }

  /** The loop invariant once every line is consumed: the scan succeeds with
      the entries collected. */
  lemma EndInvariant(lines: seq<string>, category: string, entries: seq<Entry>)
    requires Scan(lines, "") == Prepend(entries, Scan(lines[|lines|..], category))
    ensures Scan(lines, "") == Ok(entries)
  {
    assert lines[|lines|..] == [];
    assert entries + [] == entries;
  }

  /** The parse loop of `workoutController`: a cursor over the trimmed lines,
      a current category and the records pushed so far; an entry line moves
      the cursor past its whole four-line block. */
  method ParseLines(eachWorkout: seq<string>, user: UserId, now: Day)
    returns (r: Result<seq<WorkoutRecord>, ParseError>)
    ensures r == Finish(Scan(eachWorkout, ""), user, now)
  {
    var parsedWorkouts: seq<WorkoutRecord> := [];
    ghost var entries: seq<Entry> := [];
    var currentCategory := "";
    var i := 0;
    ghost var whole := Scan(eachWorkout, "");
    assert eachWorkout[i..] == eachWorkout;
    PrependNothing(whole);
    while i < |eachWorkout|
      invariant 0 <= i <= |eachWorkout|
      invariant whole == Prepend(entries, Scan(eachWorkout[i..], currentCategory))
      invariant parsedWorkouts == RecordsOf(entries, user, now)
    {
      var line := eachWorkout[i];
      if StartsWith(line, '#') {
        ScanCategoryStep(eachWorkout, i, currentCategory);
        currentCategory := CategoryName(line);
      } else if StartsWith(line, '-') {
        var workoutDetails := eachWorkout[i..if i + 4 <= |eachWorkout| then i + 4 else |eachWorkout|];
        if |workoutDetails| < 4 {
          StopInvariant(eachWorkout, i, currentCategory, entries, user, now);
          return Err(IncompleteWorkout(currentCategory));
        }
        assert workoutDetails[0] == line;
        var entry := Entry(workoutDetails, currentCategory);
        var workout := BuildRecord(entry, user, now);
        ScanEntryStep(eachWorkout, i, currentCategory);
        PrependStep(entries, entry, whole, Scan(eachWorkout[i..], currentCategory),
                    Scan(eachWorkout[i + 4..], currentCategory));
        RecordsStep(entries, entry, parsedWorkouts, workout, user, now);
        parsedWorkouts := parsedWorkouts + [workout];
        entries := entries + [entry];
        i := i + 3;
      } else {
        StopInvariant(eachWorkout, i, currentCategory, entries, user, now);
        return Err(UnexpectedLineFormat(line));
      }
      i := i + 1;
    }
    EndInvariant(eachWorkout, currentCategory, entries);
    if |parsedWorkouts| == 0 {
      return Err(NoValidWorkouts);
    }
    return Ok(parsedWorkouts);
  }
}
