/** Whole request bodies in the format the parser intends: a category line
    and one entry of four lines, joined by line feeds. */
module WholeLogs {
  import opened Wrappers
  import opened Text
  import opened JsNumbers
  import opened Calories
  import opened Workouts
  import opened WorkoutParser
  import opened LogGrammar
  import opened EntryFields

  /** The five lines of a one-entry log. */
  function LogLines(category: string, name: string, a: nat, b: nat, w: Decimal, d: Decimal): (lines: seq<string>)
    ensures |lines| == 5
  {
    ["#" + category, "-" + name, SetsRepsLine(a, b, "setsX"), AmountLine(w, "kg"), AmountLine(d, "min")]
  }

  /** The body of a one-entry log: "#<category>\n-<name>\n<a>setsX<b>reps\n<w>kg\n<d>min". */
  function LogText(category: string, name: string, a: nat, b: nat, w: Decimal, d: Decimal): string {
    JoinLines(LogLines(category, name, a, b, w, d))
  }

  /** A name the log can carry: no white space at either end, no line feed. */
  ghost predicate PlainName(s: string) {
    Trimmed(s) && '\n' !in s
  }

  lemma MarkedTrimmed(marker: char, s: string)
    requires !IsJsSpace(marker) && Trimmed(s)
    ensures Trim([marker] + s) == [marker] + s
  {
    var t := [marker] + s;
    assert t[0] == marker;
    assert s != [] ==> t[|t| - 1] == s[|s| - 1];
    TrimOfTrimmed(t);
  }

  lemma NoLineFeeds(category: string, name: string, a: nat, b: nat, w: Decimal, d: Decimal)
    requires PlainName(category) && PlainName(name) && ValidDecimal(w) && ValidDecimal(d)
    ensures forall k :: 0 <= k < 5 ==> '\n' !in LogLines(category, name, a, b, w, d)[k]
  {
    NotADigit(NatToString(a), '\n');
    NotADigit(NatToString(b), '\n');
    NotInDecimal(w, '\n');
    NotInDecimal(d, '\n');
    assert '\n' !in "setsX" && '\n' !in "reps" && '\n' !in "kg" && '\n' !in "min";
  }

  lemma LogLinesTrimmed(category: string, name: string, a: nat, b: nat, w: Decimal, d: Decimal)
    requires PlainName(category) && PlainName(name) && ValidDecimal(w) && ValidDecimal(d)
    ensures forall k :: 0 <= k < 5 ==> Trim(LogLines(category, name, a, b, w, d)[k]) == LogLines(category, name, a, b, w, d)[k]
  {
    var lines := LogLines(category, name, a, b, w, d);
    forall k | 0 <= k < 5 ensures Trim(lines[k]) == lines[k] {
      if k == 0 {
        assert lines[0] == ['#'] + category;
        MarkedTrimmed('#', category);
      } else if k == 1 {
        assert lines[1] == ['-'] + name;
        MarkedTrimmed('-', name);
      } else if k == 2 {
        SetsRepsTrimmed(a, b, "setsX");
      } else if k == 3 {
        AmountTrimmed(w, "kg");
      } else {
        AmountTrimmed(d, "min");
      }
    }
  }

  /** Splitting and trimming the body gives back its five lines. */
  lemma LinesOfLog(category: string, name: string, a: nat, b: nat, w: Decimal, d: Decimal)
    requires PlainName(category) && PlainName(name) && ValidDecimal(w) && ValidDecimal(d)
    ensures LinesOf(LogText(category, name, a, b, w, d)) == LogLines(category, name, a, b, w, d)
  {
    NoLineFeeds(category, name, a, b, w, d);
    LogLinesTrimmed(category, name, a, b, w, d);
    LinesOfJoin(LogLines(category, name, a, b, w, d));
  }

  /** The five lines are a category line followed by one entry block. */
  lemma LogItems(category: string, name: string, a: nat, b: nat, w: Decimal, d: Decimal) returns (items: seq<Item>, block: Block)
    requires PlainName(category)
    ensures Render(items) == LogLines(category, name, a, b, w, d)
    ensures EntriesOf(items, "") == [Entry(block, category)]
    ensures CountEntries(items) == 1
    ensures block == LogLines(category, name, a, b, w, d)[1..]
  {
    var lines := LogLines(category, name, a, b, w, d);
    var header: CategoryLineText := lines[0];
    block := lines[1..];
    items := [CategoryLine(header), EntryBlock(block)];
    RenderCons(CategoryLine(header), [EntryBlock(block)]);
    RenderCons(EntryBlock(block), []);
    assert [EntryBlock(block)] + [] == [EntryBlock(block)];
    assert block + [] == block;
    assert lines == [header] + block;
    assert header[1..] == category;
    TrimOfTrimmed(category);
    assert items[1..] == [EntryBlock(block)];
    assert EntriesOf([EntryBlock(block)], category) == [Entry(block, category)];
    assert CountEntries([EntryBlock(block)]) == 1;
  }

  lemma NonEmptyText(pieces: seq<string>)
    requires |pieces| >= 2 && forall k :: 0 <= k < |pieces| ==> '\n' !in pieces[k]
    ensures JoinLines(pieces) != ""
  {
    SplitJoin(pieces);
  }

  /** The log of one entry parses to the record of its single block. */
  lemma LogParsesToEntry(category: string, name: string, a: nat, b: nat, w: Decimal, d: Decimal, user: UserId, now: Day)
    requires PlainName(category) && PlainName(name) && ValidDecimal(w) && ValidDecimal(d)
    ensures ParseLog(Some(LogText(category, name, a, b, w, d)), user, now)
         == Ok(RecordsOf([Entry(LogLines(category, name, a, b, w, d)[1..], category)], user, now))
  {
    var text := LogText(category, name, a, b, w, d);
    LinesOfLog(category, name, a, b, w, d);
    var items, block := LogItems(category, name, a, b, w, d);
    NoLineFeeds(category, name, a, b, w, d);
    NonEmptyText(LogLines(category, name, a, b, w, d));
    ParseLogAccepts(text, items, user, now);
  }

  lemma RecordOfBlock(category: string, name: string, a: nat, b: nat, w: Decimal, d: Decimal, user: UserId, now: Day)
    requires PlainName(name) && ValidDecimal(w) && ValidDecimal(d)
    ensures RecordsOf([Entry(LogLines(category, name, a, b, w, d)[1..], category)], user, now)
         == [WorkoutRecord(user, category, name, a, b, DecimalValue(w), DecimalValue(d),
                           CaloriesBurnt(Some(DecimalValue(d)), Some(DecimalValue(w))), now)]
  {
    var block: Block := LogLines(category, name, a, b, w, d)[1..];
    assert block[0] == "-" + name && block[1] == SetsRepsLine(a, b, "setsX");
    assert block[2] == AmountLine(w, "kg") && block[3] == AmountLine(d, "min");
    EntryCanonical(block, name, a, b, w, d, category, user, now);
    TrimOfTrimmed(name);
    RecordsOfSingle(Entry(block, category), user, now);
  }

  /** A well-formed one-entry log parses to exactly the record it describes:
      its category, its name, the counts and amounts written in it, and the
      calories for them. */
  lemma ParseOneEntryLog(category: string, name: string, a: nat, b: nat, w: Decimal, d: Decimal, user: UserId, now: Day)
    requires PlainName(category) && PlainName(name) && ValidDecimal(w) && ValidDecimal(d)
    ensures ParseLog(Some(LogText(category, name, a, b, w, d)), user, now)
         == Ok([WorkoutRecord(user, category, name, a, b, DecimalValue(w), DecimalValue(d),
                              CaloriesBurnt(Some(DecimalValue(d)), Some(DecimalValue(w))), now)])
  {
    LogParsesToEntry(category, name, a, b, w, d, user, now);
    RecordOfBlock(category, name, a, b, w, d, user, now);
  }

  lemma TruncatedLines(category: string, name: string, a: nat, b: nat)
    requires PlainName(category) && PlainName(name)
    ensures var lines := LogLines(category, name, a, b, Decimal(0, []), Decimal(0, []))[..3];
            LinesOf(JoinLines(lines)) == lines && JoinLines(lines) != ""
  {
    var lines := LogLines(category, name, a, b, Decimal(0, []), Decimal(0, []));
    NoLineFeeds(category, name, a, b, Decimal(0, []), Decimal(0, []));
    LogLinesTrimmed(category, name, a, b, Decimal(0, []), Decimal(0, []));
    var cut := lines[..3];
    assert forall k :: 0 <= k < 3 ==> cut[k] == lines[k];
    LinesOfJoin(cut);
    NonEmptyText(cut);
  }

  /** The same log cut off after its sets/reps line fails as incomplete for
      its category, returning no record. */
  lemma ParseTruncatedLog(category: string, name: string, a: nat, b: nat, user: UserId, now: Day)
    requires PlainName(category) && PlainName(name)
    ensures ParseLog(Some(JoinLines(LogLines(category, name, a, b, Decimal(0, []), Decimal(0, []))[..3])), user, now)
         == Err(IncompleteWorkout(category))
  {
    var lines := LogLines(category, name, a, b, Decimal(0, []), Decimal(0, []));
    TruncatedLines(category, name, a, b);
    var header: CategoryLineText := lines[0];
    var items := [CategoryLine(header)];
    RenderCons(CategoryLine(header), []);
    var tail := lines[1..3];
    assert lines[..3] == Render(items) + tail;
    assert header[1..] == category;
    TrimOfTrimmed(category);
    assert LastCategory(items, "") == category;
    ParseLogRejects(JoinLines(lines[..3]), items, tail, user, now);
  }
}
