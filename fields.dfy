/** What the number fields of an entry block parse to. The lines the format
    intends ("3setsX10reps", "50kg", "20min") are written out by rendering
    functions, and the field parsers are shown to read their numbers back;
    concrete lines show what the parsers do with other spellings. */
module EntryFields {
  import opened Wrappers
  import opened Text
  import opened JsNumbers
  import opened Calories
  import opened Workouts
  import opened WorkoutParser

  /** The sets/reps line as the format intends it: "<a><sep><b>reps". */
  function SetsRepsLine(a: nat, b: nat, sep: string): string {
    NatToString(a) + sep + NatToString(b) + "reps"
  }

  /** A weight or duration line as the format intends it: "<x><unit>", the
      amount whole ("50kg") or with a fraction ("62.5kg"). */
  function AmountLine(x: Decimal, unit: string): string {
    DecimalToString(x) + unit
  }

  /** A character that is no decimal digit is not in a digit string. */
  lemma NotADigit(s: string, c: char)
    requires forall k :: 0 <= k < |s| ==> DigitValue(s[k]) < 10
    requires DigitValue(c) >= 10
    ensures c !in s
  {
  }

  /** A line that starts with a digit and ends in no white space is left as
      it is by trim. */
  lemma LineTrimmed(s: string)
    requires s != [] && DigitValue(s[0]) < 10 && !IsJsSpace(s[|s| - 1])
    ensures Trim(s) == s
  {
    TrimOfTrimmed(s);
  }

  /** A character that is neither a digit nor a point is not in a decimal rendering. */
  lemma NotInDecimal(x: Decimal, c: char)
    requires ValidDecimal(x) && DigitValue(c) >= 10 && c != '.'
    ensures c !in DecimalToString(x)
  {
    NotADigit(NatToString(x.whole), c);
    NotADigit(x.fraction, c);
  }

  lemma DecimalTrimmed(x: Decimal)
    requires ValidDecimal(x)
    ensures Trim(DecimalToString(x)) == DecimalToString(x)
  {
    LineTrimmed(DecimalToString(x));
  }

  lemma DigitsTrimmed(n: nat)
    ensures Trim(NatToString(n)) == NatToString(n)
  {
    LineTrimmed(NatToString(n));
  }

  lemma SetsRepsTrimmed(a: nat, b: nat, sep: string)
    requires sep == "setsX" || sep == "sets"
    ensures Trim(SetsRepsLine(a, b, sep)) == SetsRepsLine(a, b, sep)
  {
    var s := SetsRepsLine(a, b, sep);
    assert s[0] == NatToString(a)[0];
    assert s[|s| - 1] == 's';
    LineTrimmed(s);
  }

  lemma AmountTrimmed(x: Decimal, unit: string)
    requires unit == "kg" || unit == "min"
    ensures Trim(AmountLine(x, unit)) == AmountLine(x, unit)
  {
    var s := AmountLine(x, unit);
    assert s[0] == DecimalToString(x)[0];
    assert s[|s| - 1] == unit[|unit| - 1];
    LineTrimmed(s);
  }

  lemma SetsRepsShape(a: nat, b: nat, sep: string)
    ensures SetsRepsLine(a, b, sep) == NatToString(a) + sep + (NatToString(b) + "reps")
  {
  }

  lemma NoTInReps(b: nat)
    ensures 't' !in NatToString(b) + "reps"
  {
    NotADigit(NatToString(b), 't');
    assert 't' !in "reps";
  }

  /** Sets: the part before the separator of an intended sets/reps line is the
      rendered sets count. */
  lemma SetsPart(a: nat, b: nat, sep: string)
    requires sep == "setsX" || sep == "sets"
    ensures Before(SetsRepsLine(a, b, sep), sep) == NatToString(a)
  {
    NotADigit(NatToString(a), 's');
    BeforeHead(NatToString(a), sep, NatToString(b) + "reps");
    SetsRepsShape(a, b, sep);
  }

  /** Reps: the part between the separator and the end of an intended
      sets/reps line is the rendered reps count with "reps". */
  lemma RepsPart(a: nat, b: nat, sep: string)
    requires sep == "setsX" || sep == "sets"
    ensures Between(SetsRepsLine(a, b, sep), sep) == Some(NatToString(b) + "reps")
  {
    var rest := NatToString(b) + "reps";
    NotADigit(NatToString(a), 's');
    NoTInReps(b);
    assert sep[2] == 't';
    NoOccurrence(rest, sep, 2);
    BetweenRest(NatToString(a), sep, rest);
    SetsRepsShape(a, b, sep);
  }

  lemma RepsWord(b: nat)
    ensures Before(NatToString(b) + "reps", "reps") == NatToString(b)
  {
    NotADigit(NatToString(b), 'r');
    BeforeHead(NatToString(b), "reps", []);
    assert NatToString(b) + "reps" + [] == NatToString(b) + "reps";
  }

  lemma ParsesBack(n: nat)
    ensures ParseInt(NatToString(n)) == Some(n)
  {
    ParseIntPrefix(n, []);
    assert NatToString(n) + [] == NatToString(n);
  }

  /** Both field parsers read back the counts of an intended sets/reps line,
      for both separators the source uses: "setsX" in the parse loop and
      "sets" in `parseWorkoutLine`. */
  lemma CountsCanonical(a: nat, b: nat, sep: string)
    requires sep == "setsX" || sep == "sets"
    ensures SetsOf(SetsRepsLine(a, b, sep), sep) == Some(a)
    ensures RepsOf(SetsRepsLine(a, b, sep), sep) == Some(b)
  {
    SetsPart(a, b, sep);
    RepsPart(a, b, sep);
    RepsWord(b);
    DigitsTrimmed(a);
    DigitsTrimmed(b);
    ParsesBack(a);
    ParsesBack(b);
  }

  /** The amount parser reads back the number of an intended weight or
      duration line: "50kg" gives 50, "62.5kg" gives 62.5, "20min" gives 20. */
  lemma AmountCanonical(x: Decimal, unit: string)
    requires ValidDecimal(x) && (unit == "kg" || unit == "min")
    ensures AmountOf(AmountLine(x, unit), unit) == Some(DecimalValue(x))
  {
    var t := DecimalToString(x);
    NotInDecimal(x, unit[0]);
    BeforeHead(t, unit, []);
    assert t + unit + [] == AmountLine(x, unit);
    DecimalTrimmed(x);
    ParseFloatDecimal(x);
  }

  /** The block the format intends yields exactly the numbers written in it,
      the name after the marker, and the calories for the weight and duration. */
  lemma EntryCanonical(block: Block, name: string, a: nat, b: nat, w: Decimal, d: Decimal,
                       category: string, user: UserId, now: Day)
    requires ValidDecimal(w) && ValidDecimal(d)
    requires block[0] == "-" + name && block[1] == SetsRepsLine(a, b, "setsX")
    requires block[2] == AmountLine(w, "kg") && block[3] == AmountLine(d, "min")
    ensures EntryRecord(block, category, user, now)
         == WorkoutRecord(user, category, Trim(name), a, b, DecimalValue(w), DecimalValue(d),
                          CaloriesBurnt(Some(DecimalValue(d)), Some(DecimalValue(w))), now)
  {
    SetsRepsTrimmed(a, b, "setsX");
    AmountTrimmed(w, "kg");
    AmountTrimmed(d, "min");
    assert block[0][1..] == name;
    CountsCanonical(a, b, "setsX");
    AmountCanonical(w, "kg");
    AmountCanonical(d, "min");
    EntryRecordFrom(block, category, user, now, Some(a), Some(b), Some(DecimalValue(w)), Some(DecimalValue(d)));
  }

  /** `parseWorkoutLine` on five or more parts in its own format returns
      the numbers written in them. */
  lemma WorkoutLineCanonical(parts: seq<string>, a: nat, b: nat, w: Decimal, d: Decimal)
    requires ValidDecimal(w) && ValidDecimal(d)
    requires |parts| >= 5 && parts[2] == SetsRepsLine(a, b, "sets")
    requires parts[3] == AmountLine(w, "kg") && parts[4] == AmountLine(d, "min")
    ensures ParseWorkoutLine(parts) == Some(WorkoutDetails(Trim(parts[1]), a, b, DecimalValue(w), DecimalValue(d)))
  {
    CountsCanonical(a, b, "sets");
    AmountCanonical(w, "kg");
    AmountCanonical(d, "min");
    WorkoutLineFrom(parts, Some(a), Some(b), Some(DecimalValue(w)), Some(DecimalValue(d)));
  }

  /** The loose spelling "<a>X<b>" of a sets/reps line. */
  function LooseLine(a: nat, b: nat): string {
    NatToString(a) + "X" + NatToString(b)
  }

  lemma LooseParts(a: nat, b: nat)
    ensures Trim(LooseLine(a, b)) == LooseLine(a, b)
    ensures Before(LooseLine(a, b), "setsX") == LooseLine(a, b)
    ensures Between(LooseLine(a, b), "setsX") == None
  {
    var s := LooseLine(a, b);
    NotADigit(NatToString(a), 's');
    NotADigit(NatToString(b), 's');
    assert 's' !in s;
    NoOccurrence(s, "setsX", 0);
    assert s[0] == NatToString(a)[0];
    assert s[|s| - 1] == NatToString(b)[|NatToString(b)| - 1];
    LineTrimmed(s);
  }

  lemma LooseCount(a: nat, b: nat)
    requires a > 0
    ensures ParseInt(LooseLine(a, b)) == Some(a)
  {
    ParseIntPrefix(a, "X" + NatToString(b));
    assert LooseLine(a, b) == NatToString(a) + ("X" + NatToString(b));
  }

  lemma LooseHexCount(b: nat)
    ensures ParseInt(LooseLine(0, b)) == Some(Value(NatToString(b), 16))
  {
    var z := NatToString(b);
    var t := LooseLine(0, b);
    assert NatToString(0) == "0";
    assert t[0] == '0' && t[1] == 'X' && t[2..] == z;
    DigitsAreNotSpace(t);
    assert TrimStart(t) == t;
    assert Unsigned(t) == t;
    DigitPrefixAll(z, [], 16);
    assert z + [] == z;
  }

  /** The loose form "<a>X<b>", as in "3X10", has no "setsX": parseInt reads
      the sets a from its digit prefix, and the reps part is undefined, so the
      reps are NaN. */
  lemma LooseSetsReps(a: nat, b: nat)
    requires a > 0
    ensures SetsOf(LooseLine(a, b), "setsX") == Some(a)
    ensures RepsOf(LooseLine(a, b), "setsX") == None
  {
    LooseParts(a, b);
    LooseCount(a, b);
  }

  /** An entry whose sets/reps line is "<a>X<b>" is stored with a sets and 0 reps. */
  lemma LooseEntry(block: Block, a: nat, b: nat, category: string, user: UserId, now: Day)
    requires a > 0 && block[1] == LooseLine(a, b)
    ensures EntryRecord(block, category, user, now).sets == a
    ensures EntryRecord(block, category, user, now).reps == 0
  {
    LooseSetsReps(a, b);
    LooseParts(a, b);
    EntryRecordFrom(block, category, user, now, Some(a), None,
                    AmountOf(Trim(block[2]), "kg"), AmountOf(Trim(block[3]), "min"));
  }

  /** With 0 sets the loose form starts "0X", which parseInt takes for a
      hexadecimal prefix: "0X10" gives 16 sets. */
  lemma LooseZeroIsHex(b: nat)
    ensures SetsOf(LooseLine(0, b), "setsX") == Some(Value(NatToString(b), 16))
    ensures RepsOf(LooseLine(0, b), "setsX") == None
  {
    LooseParts(0, b);
    LooseHexCount(b);
  }

  /** A line that starts with a letter other than a sign, a point or white
      space holds no number for parseInt or parseFloat. */
  lemma NoNumber(s: string)
    requires s != [] && DigitValue(s[0]) >= 10 && !IsJsSpace(s[0])
    requires s[0] != '-' && s[0] != '+' && s[0] != '.'
    ensures ParseInt(s) == None && ParseFloat(s) == None
  {
    assert TrimStart(s) == s;
    assert DigitPrefix(s, 10) == [];
    assert s[1..][..0] == [];
  }

  lemma Regroup(p: string, q: string, r: string, t: string, u: string)
    ensures p + (q + r) + t + u == p + q + (r + t + u)
  {
  }

  /** The loop's separator "setsX" is "sets" followed by "X". */
  lemma LoopLineAsStrict(a: nat, b: nat)
    ensures SetsRepsLine(a, b, "setsX") == NatToString(a) + "sets" + ("X" + NatToString(b) + "reps")
  {
    assert "setsX" == "sets" + "X";
    Regroup(NatToString(a), "sets", "X", NatToString(b), "reps");
  }

  /** `parseWorkoutLine` splits on "sets", so the reps part of a line in the
      loop's format is "X<b>reps". */
  lemma StrictRepsPart(a: nat, b: nat)
    ensures Between(SetsRepsLine(a, b, "setsX"), "sets") == Some("X" + NatToString(b) + "reps")
  {
    var rest := "X" + NatToString(b) + "reps";
    NotADigit(NatToString(a), 's');
    NotADigit(NatToString(b), 't');
    assert 't' !in rest;
    NoOccurrence(rest, "sets", 2);
    BetweenRest(NatToString(a), "sets", rest);
    LoopLineAsStrict(a, b);
  }

  lemma StrictRepsWord(b: nat)
    ensures Before("X" + NatToString(b) + "reps", "reps") == "X" + NatToString(b)
  {
    NotADigit(NatToString(b), 'r');
    BeforeHead("X" + NatToString(b), "reps", []);
    assert "X" + NatToString(b) + "reps" + [] == "X" + NatToString(b) + "reps";
  }

  lemma StrictRepsNumber(b: nat)
    ensures ParseInt(Trim("X" + NatToString(b))) == None
  {
    var t := "X" + NatToString(b);
    assert t[|t| - 1] == NatToString(b)[|NatToString(b)| - 1];
    TrimOfTrimmed(t);
    NoNumber(t);
  }

  lemma StrictSets(a: nat, b: nat)
    ensures SetsOf(SetsRepsLine(a, b, "setsX"), "sets") == Some(a)
  {
    NotADigit(NatToString(a), 's');
    BeforeHead(NatToString(a), "sets", "X" + NatToString(b) + "reps");
    LoopLineAsStrict(a, b);
    DigitsTrimmed(a);
    ParsesBack(a);
  }

  lemma StrictReps(a: nat, b: nat)
    ensures RepsOf(SetsRepsLine(a, b, "setsX"), "sets") == None
  {
    StrictRepsPart(a, b);
    StrictRepsWord(b);
    StrictRepsNumber(b);
  }

  /** The two vocabularies disagree on every line in the loop's format
      "<a>setsX<b>reps": the loop reads both counts, while the "sets" split
      of `parseWorkoutLine` reads the sets but leaves "X<b>" for the reps,
      which parseInt rejects, so those reps become 0. */
  lemma VocabulariesDisagree(a: nat, b: nat)
    ensures SetsOf(SetsRepsLine(a, b, "setsX"), "setsX") == Some(a)
    ensures RepsOf(SetsRepsLine(a, b, "setsX"), "setsX") == Some(b)
    ensures SetsOf(SetsRepsLine(a, b, "setsX"), "sets") == Some(a)
    ensures RepsOf(SetsRepsLine(a, b, "setsX"), "sets") == None
  {
    CountsCanonical(a, b, "setsX");
    StrictSets(a, b);
    StrictReps(a, b);
  }

  /** A number line that is a word: it starts with a letter that opens no
      number, ends in no white space, and does not hold the unit's first
      letter. */
  predicate WordLine(s: string, unit: string) {
    && unit != [] && unit[0] !in s && s != []
    && DigitValue(s[0]) >= 10 && !IsJsSpace(s[0]) && !IsJsSpace(s[|s| - 1])
    && s[0] != '-' && s[0] != '+' && s[0] != '.'
  }

  lemma WordLineParts(s: string, unit: string)
    requires WordLine(s, unit)
    ensures Trim(s) == s && Before(s, unit) == s && Between(s, unit) == None
  {
    TrimOfTrimmed(s);
    NoOccurrence(s, unit, 0);
  }

  /** An entry whose number lines hold words still yields a record, with
      every number 0. */
  lemma UnparsableFieldsAreZero(block: Block, category: string, user: UserId, now: Day)
    requires WordLine(block[1], "setsX") && WordLine(block[2], "kg") && WordLine(block[3], "min")
    ensures var r := EntryRecord(block, category, user, now);
            r.sets == 0 && r.reps == 0 && r.weight == 0.0 && r.duration == 0.0 && r.caloriesBurned == 0.0
  {
    WordLineParts(block[1], "setsX");
    WordLineParts(block[2], "kg");
    WordLineParts(block[3], "min");
    NoNumber(block[1]);
    NoNumber(block[2]);
    NoNumber(block[3]);
    EntryRecordFrom(block, category, user, now, None, None, None, None);
  }
}
