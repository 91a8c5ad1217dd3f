/** The line structure the workout-log scan accepts, stated independently of
    the scan: a log is a sequence of items, each a category line or a
    four-line entry block. The lemmas here connect the scan (and so the parse
    loop, which is proved equal to it) to this structure. */
module LogGrammar {
  import opened Wrappers
  import opened Text
  import opened Workouts
  import opened WorkoutParser

  /** One unit of an accepted log. */
  datatype Item = CategoryLine(line: CategoryLineText) | EntryBlock(block: Block)

  function ItemLines(it: Item): seq<string> {
    match it
    case CategoryLine(l) => [l]
    case EntryBlock(b) => b
  }

  /** The lines of a list of items, in order. */
  function Render(items: seq<Item>): seq<string>
    decreases |items|
  {
    if items == [] then [] else ItemLines(items[0]) + Render(items[1..])
  }

  /** The category in force after the items, starting from `category`. */
  function CategoryAfter(items: seq<Item>, category: string): string
    decreases |items|
  {
    if items == [] then category
    else
      match items[0]
      case CategoryLine(l) => CategoryAfter(items[1..], CategoryName(l))
      case EntryBlock(_) => CategoryAfter(items[1..], category)
  }

  /** The name of the last category line among the items, or `category`
      when there is none. */
  function LastCategory(items: seq<Item>, category: string): string
    decreases |items|
  {
    if items == [] then category
    else
      match items[|items| - 1]
      case CategoryLine(l) => CategoryName(l)
      case EntryBlock(_) => LastCategory(items[..|items| - 1], category)
  }

  /** The entry blocks of the items, each with the category in force at it. */
  function EntriesOf(items: seq<Item>, category: string): seq<Entry>
    decreases |items|
  {
    if items == [] then []
    else
      match items[0]
      case CategoryLine(l) => EntriesOf(items[1..], CategoryName(l))
      case EntryBlock(b) => [Entry(b, category)] + EntriesOf(items[1..], category)
  }

  /** The number of entry blocks among the items. */
  function CountEntries(items: seq<Item>): nat
    decreases |items|
  {
    if items == [] then 0
    else (if items[0].EntryBlock? then 1 else 0) + CountEntries(items[1..])
  }

  /** Lines on whose first line the scan stops with an error. */
  predicate Stuck(lines: seq<string>) {
    lines != [] && !StartsWith(lines[0], '#') && (!StartsWith(lines[0], '-') || |lines| < 4)
  }

  lemma RenderCons(it: Item, items: seq<Item>)
    ensures Render([it] + items) == ItemLines(it) + Render(items)
  {
    assert ([it] + items)[1..] == items;
  }

  /** Scanning a rendered log followed by more lines yields the entries of the
      items, each with its category, and then whatever the rest yields, with
      the category the items leave in force. */
  lemma {:induction false} ScanRender(items: seq<Item>, tail: seq<string>, category: string)
    ensures Scan(Render(items) + tail, category)
         == Prepend(EntriesOf(items, category), Scan(tail, CategoryAfter(items, category)))
    decreases |items|
  {
    if items == [] {
      assert Render(items) + tail == tail;
      PrependNothing(Scan(tail, category));
    } else {
      var rest := items[1..];
      var lines := Render(items) + tail;
      assert lines == ItemLines(items[0]) + (Render(rest) + tail);
      assert lines[0..] == lines;
      match items[0]
      case CategoryLine(l) =>
        assert lines[0] == l;
        assert lines[1..] == Render(rest) + tail;
        ScanCategoryStep(lines, 0, category);
        ScanRender(rest, tail, CategoryName(l));
        assert EntriesOf(items, category) == EntriesOf(rest, CategoryName(l));
        assert CategoryAfter(items, category) == CategoryAfter(rest, CategoryName(l));
      case EntryBlock(b) =>
        assert lines[0] == b[0];
        assert lines[0..4] == b;
        assert lines[4..] == Render(rest) + tail;
        ScanEntryStep(lines, 0, category);
        ScanRender(rest, tail, category);
        assert EntriesOf(items, category) == [Entry(b, category)] + EntriesOf(rest, category);
        assert CategoryAfter(items, category) == CategoryAfter(rest, category);
        PrependAppend([Entry(b, category)], EntriesOf(rest, category), Scan(tail, CategoryAfter(rest, category)));
    }
  }

  /** Every list of lines is a rendered log followed by nothing or by lines
      on which the scan is stuck. */
  lemma {:induction false} Decompose(lines: seq<string>) returns (items: seq<Item>, tail: seq<string>)
    ensures lines == Render(items) + tail
    ensures tail == [] || Stuck(tail)
    decreases |lines|
  {
    if lines == [] || Stuck(lines) {
      items, tail := [], lines;
      assert Render(items) + tail == lines;
    } else if StartsWith(lines[0], '#') {
      var more;
      more, tail := Decompose(lines[1..]);
      items := [CategoryLine(lines[0])] + more;
      RenderCons(CategoryLine(lines[0]), more);
      assert lines == [lines[0]] + lines[1..];
    } else {
      var more;
      more, tail := Decompose(lines[4..]);
      items := [EntryBlock(lines[..4])] + more;
      RenderCons(EntryBlock(lines[..4]), more);
      assert lines == lines[..4] + lines[4..];
    }
  }

  /** On stuck lines the scan fails, naming the first line or, for an entry
      line without three lines after it, the current category. */
  lemma ScanStuck(lines: seq<string>, category: string)
    requires Stuck(lines)
    ensures Scan(lines, category)
         == Err(if StartsWith(lines[0], '-') then IncompleteWorkout(category) else UnexpectedLineFormat(lines[0]))
  {
    ScanStopStep(lines, 0, category);
    assert lines[0..] == lines;
  }

  /** The scan succeeds exactly on the renderings of item lists. */
  lemma ScanSucceeds(lines: seq<string>, category: string)
    ensures Scan(lines, category).Ok? <==> exists items :: lines == Render(items)
  {
    var items, tail := Decompose(lines);
    ScanRender(items, tail, category);
    if tail == [] {
      assert lines == Render(items);
    } else {
      ScanStuck(tail, category);
      forall other: seq<Item>
        ensures lines != Render(other)
      {
        ScanRender(other, [], category);
        assert Render(other) + [] == Render(other);
      }
    }
  }

  /** Where the scan fails: at the first line after the longest rendered
      prefix, with the category the prefix leaves in force. */
  lemma ScanFails(items: seq<Item>, tail: seq<string>, category: string)
    requires Stuck(tail)
    ensures Scan(Render(items) + tail, category)
         == Err(if StartsWith(tail[0], '-') then IncompleteWorkout(CategoryAfter(items, category))
                else UnexpectedLineFormat(tail[0]))
  {
    ScanRender(items, tail, category);
    ScanStuck(tail, CategoryAfter(items, category));
  }

  lemma {:induction false} CountAppend(a: seq<Item>, b: seq<Item>)
    ensures CountEntries(a + b) == CountEntries(a) + CountEntries(b)
    decreases |a|
  {
    if a == [] {
      assert a + b == b;
    } else {
      assert (a + b)[0] == a[0];
      assert (a + b)[1..] == a[1..] + b;
      CountAppend(a[1..], b);
    }
  }

  lemma {:induction false} CategoryAfterAppend(a: seq<Item>, b: seq<Item>, category: string)
    ensures CategoryAfter(a + b, category) == CategoryAfter(b, CategoryAfter(a, category))
    decreases |a|
  {
    if a == [] {
      assert a + b == b;
    } else {
      assert (a + b)[0] == a[0];
      assert (a + b)[1..] == a[1..] + b;
      match a[0]
      case CategoryLine(l) => CategoryAfterAppend(a[1..], b, CategoryName(l));
      case EntryBlock(_) => CategoryAfterAppend(a[1..], b, category);
    }
  }

  lemma {:induction false} EntriesAppend(a: seq<Item>, b: seq<Item>, category: string)
    ensures EntriesOf(a + b, category) == EntriesOf(a, category) + EntriesOf(b, CategoryAfter(a, category))
    decreases |a|
  {
    if a == [] {
      assert a + b == b;
    } else {
      assert (a + b)[0] == a[0];
      assert (a + b)[1..] == a[1..] + b;
      match a[0]
      case CategoryLine(l) =>
        EntriesAppend(a[1..], b, CategoryName(l));
      case EntryBlock(e) =>
        EntriesAppend(a[1..], b, category);
        var rest := EntriesOf(a[1..], category);
        var more := EntriesOf(b, CategoryAfter(a[1..], category));
        assert [Entry(e, category)] + (rest + more) == ([Entry(e, category)] + rest) + more;
    }
  }

  /** The entries of a concatenation. */
  lemma EntriesOfAppend(a: seq<Item>, b: seq<Item>, category: string)
    ensures EntriesOf(a + b, category) == EntriesOf(a, category) + EntriesOf(b, CategoryAfter(a, category))
    ensures CategoryAfter(a + b, category) == CategoryAfter(b, CategoryAfter(a, category))
    ensures CountEntries(a + b) == CountEntries(a) + CountEntries(b)
  {
    EntriesAppend(a, b, category);
    CategoryAfterAppend(a, b, category);
    CountAppend(a, b);
  }

  /** One entry per entry block. */
  lemma {:induction false} EntriesCount(items: seq<Item>, category: string)
    ensures |EntriesOf(items, category)| == CountEntries(items)
    decreases |items|
  {
    if items != [] {
      match items[0]
      case CategoryLine(l) => EntriesCount(items[1..], CategoryName(l));
      case EntryBlock(_) => EntriesCount(items[1..], category);
    }
  }

  /** The category in force after some items is the name of the last
      category line among them, or the starting category when there is none. */
  lemma {:induction false} CategoryAfterIsLast(items: seq<Item>, category: string)
    ensures CategoryAfter(items, category) == LastCategory(items, category)
    decreases |items|
  {
    if items != [] {
      var init := items[..|items| - 1];
      var last := items[|items| - 1];
      assert items == init + [last];
      EntriesOfAppend(init, [last], category);
      CategoryAfterIsLast(init, category);
      assert [last][1..] == [];
    }
  }

  /** Each entry block of a log yields the entry at its position among the
      blocks, carrying the name of the last category line before it. */
  lemma EntryCategory(before: seq<Item>, b: Block, after: seq<Item>, category: string)
    ensures var entries := EntriesOf(before + [EntryBlock(b)] + after, category);
            CountEntries(before) < |entries|
            && entries[CountEntries(before)] == Entry(b, LastCategory(before, category))
  {
    var mid := [EntryBlock(b)] + after;
    assert before + [EntryBlock(b)] + after == before + mid;
    EntriesOfAppend(before, mid, category);
    EntriesCount(before, category);
    CategoryAfterIsLast(before, category);
    assert mid[0] == EntryBlock(b);
  }

  /** The whole request on a log whose lines are a rendering: the records of
      its entry blocks, all in the category of the last `#` line before each,
      or the no-workouts error when it has no entry block. */
  lemma ParseLogAccepts(workoutString: string, items: seq<Item>, user: UserId, now: Day)
    requires workoutString != "" && LinesOf(workoutString) == Render(items)
    ensures CountEntries(items) == 0 ==> ParseLog(Some(workoutString), user, now) == Err(NoValidWorkouts)
    ensures CountEntries(items) > 0 ==>
              ParseLog(Some(workoutString), user, now) == Ok(RecordsOf(EntriesOf(items, ""), user, now))
  {
    ScanRender(items, [], "");
    assert Render(items) + [] == Render(items);
    EntriesCount(items, "");
    assert Scan([], CategoryAfter(items, "")) == Ok([]);
    assert EntriesOf(items, "") + [] == EntriesOf(items, "");
  }

  /** The whole request on a log whose lines are a rendering followed by a
      line the scan cannot continue at: the error of that line. */
  lemma ParseLogRejects(workoutString: string, items: seq<Item>, tail: seq<string>, user: UserId, now: Day)
    requires workoutString != "" && LinesOf(workoutString) == Render(items) + tail && Stuck(tail)
    ensures ParseLog(Some(workoutString), user, now)
         == Err(if StartsWith(tail[0], '-') then IncompleteWorkout(LastCategory(items, ""))
                else UnexpectedLineFormat(tail[0]))
  {
    ScanFails(items, tail, "");
    CategoryAfterIsLast(items, "");
  }

  lemma LinesOfTrailingNewline(s: string)
    ensures LinesOf(s + "\n") == LinesOf(s) + [""]
  {
    SplitLinesTrailingNewline(s);
    MapSeqSnoc(Trim, SplitLines(s), "");
    TrimPadded([], [], []);
    assert [] + [] + [] == "";
  }

  /** A log the request accepts is rejected once a line feed is appended:
      the empty last line is scanned and has neither marker. */
  lemma TrailingLineFeedRejected(workoutString: string, user: UserId, now: Day)
    requires ParseLog(Some(workoutString), user, now).Ok?
    ensures ParseLog(Some(workoutString + "\n"), user, now) == Err(UnexpectedLineFormat(""))
  {
    var lines := LinesOf(workoutString);
    assert Scan(lines, "").Ok?;
    ScanSucceeds(lines, "");
    var items :| lines == Render(items);
    LinesOfTrailingNewline(workoutString);
    assert LinesOf(workoutString + "\n") == Render(items) + [""];
    ParseLogRejects(workoutString + "\n", items, [""], user, now);
  }

  /** The three lines after an entry line are taken as they are, even when
      they carry a marker of their own. */
  lemma FollowLinesUnchecked(category: string)
    ensures Scan(["-Squat", "#Legs", "-Bench", "20min"], category)
         == Ok([Entry(["-Squat", "#Legs", "-Bench", "20min"], category)])
  {
    var b: Block := ["-Squat", "#Legs", "-Bench", "20min"];
    ScanRender([EntryBlock(b)], [], category);
    RenderCons(EntryBlock(b), []);
    assert Render([EntryBlock(b)]) + [] == b;
    assert CategoryAfter([EntryBlock(b)], category) == category;
    assert EntriesOf([EntryBlock(b)], category) == [Entry(b, category)];
  }
}
