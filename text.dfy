/** The JavaScript string operations the workout parser uses: `trim`,
    `startsWith`, `split(separator)[0]`, `split(separator)[1]` and `split("\n")`. */
module Text {
  import opened Wrappers

  /** The code points `String.prototype.trim` removes: ECMAScript's WhiteSpace
      (tab, vertical tab, form feed, space, no-break space, byte order mark and
      the Zs category) and LineTerminator (line feed, carriage return, line and
      paragraph separators). */
  predicate IsJsSpace(c: char) {
    var n := c as int;
    n == 0x09 || n == 0x0A || n == 0x0B || n == 0x0C || n == 0x0D || n == 0x20
    || n == 0xA0 || n == 0x1680 || (0x2000 <= n <= 0x200A) || n == 0x2028
    || n == 0x2029 || n == 0x202F || n == 0x205F || n == 0x3000 || n == 0xFEFF
  }

  ghost predicate AllSpace(s: string) {
    forall j :: 0 <= j < |s| ==> IsJsSpace(s[j])
  }

  /** Neither end of `s` is white space. */
  ghost predicate Trimmed(s: string) {
    s == [] || (!IsJsSpace(s[0]) && !IsJsSpace(s[|s| - 1]))
  }

  /** The number of white-space characters `s` starts with. */
  function LeadingSpace(s: string): (n: nat)
    ensures n <= |s| && AllSpace(s[..n])
    ensures n < |s| ==> !IsJsSpace(s[n])
    decreases |s|
  {
    if s != [] && IsJsSpace(s[0]) then
      var m := LeadingSpace(s[1..]);
      assert s[..m + 1] == [s[0]] + s[1..][..m];
      m + 1
    else 0
  }

  /** The number of white-space characters `s` ends with. */
  function TrailingSpace(s: string): (n: nat)
    ensures n <= |s| && AllSpace(s[|s| - n..])
    ensures n < |s| ==> !IsJsSpace(s[|s| - n - 1])
    decreases |s|
  {
    if s != [] && IsJsSpace(s[|s| - 1]) then
      var m := TrailingSpace(s[..|s| - 1]);
      TrailingStep(s, m);
      m + 1
    else 0
  }

  /** One more white-space character at the end extends a white-space suffix. */
  lemma TrailingStep(s: string, m: nat)
    requires s != [] && IsJsSpace(s[|s| - 1]) && m <= |s| - 1
    requires AllSpace(s[..|s| - 1][|s| - 1 - m..])
    requires m < |s| - 1 ==> !IsJsSpace(s[..|s| - 1][|s| - 1 - m - 1])
    ensures AllSpace(s[|s| - (m + 1)..])
    ensures m + 1 < |s| ==> !IsJsSpace(s[|s| - (m + 1) - 1])
  {
    var p := s[..|s| - 1];
    assert s[|s| - (m + 1)..] == p[|s| - 1 - m..] + [s[|s| - 1]];
    if m + 1 < |s| {
      assert p[|s| - 1 - m - 1] == s[|s| - (m + 1) - 1];
    }
  }

  /** `s` without its leading white space (`String.prototype.trimStart`). */
  function TrimStart(s: string): string {
    s[LeadingSpace(s)..]
  }

  /** `String.prototype.trim`: the slice of `s` left once the white space at
      both ends is dropped. */
  function Trim(s: string): (r: string)
    ensures Trimmed(r)
  {
    var t := s[LeadingSpace(s)..];
    t[..|t| - TrailingSpace(t)]
  }

  lemma {:induction false} LeadingSpacePadded(p: string, t: string)
    requires AllSpace(p) && (t == [] || !IsJsSpace(t[0]))
    ensures LeadingSpace(p + t) == |p|
    decreases |p|
  {
    if p == [] {
      assert p + t == t;
    } else {
      assert (p + t)[1..] == p[1..] + t;
      LeadingSpacePadded(p[1..], t);
    }
  }

  lemma {:induction false} TrailingSpacePadded(t: string, q: string)
    requires AllSpace(q) && (t == [] || !IsJsSpace(t[|t| - 1]))
    ensures TrailingSpace(t + q) == |q|
    decreases |q|
  {
    if q == [] {
      assert t + q == t;
    } else {
      assert (t + q)[..|t + q| - 1] == t + q[..|q| - 1];
      TrailingSpacePadded(t, q[..|q| - 1]);
    }
  }

  /** trimStart undoes white-space padding in front of a string that does not
      itself start with white space. */
  lemma TrimStartPadded(p: string, t: string)
    requires AllSpace(p) && (t == [] || !IsJsSpace(t[0]))
    ensures TrimStart(p + t) == t
  {
    LeadingSpacePadded(p, t);
    assert (p + t)[|p|..] == t;
  }

  /** Trim undoes any white-space padding of a string that is itself trimmed. */
  lemma TrimPadded(p: string, m: string, q: string)
    requires AllSpace(p) && AllSpace(q) && Trimmed(m)
    ensures Trim(p + m + q) == m
  {
    var s := p + m + q;
    if m == [] {
      assert s == (p + q) + [];
      LeadingSpacePadded(p + q, []);
      assert s[|s|..] == [];
    } else {
      assert s == p + (m + q);
      LeadingSpacePadded(p, m + q);
      assert s[|p|..] == m + q;
      TrailingSpacePadded(m, q);
      assert (m + q)[..|m|] == m;
    }
  }

  /** Trim leaves a string with no white space at either end as it is. */
  lemma TrimOfTrimmed(s: string)
    requires Trimmed(s)
    ensures Trim(s) == s
  {
    TrimPadded([], s, []);
    assert [] + s + [] == s;
  }

  /** Trimming twice is trimming once. */
  lemma TrimIdempotent(s: string)
    ensures Trim(Trim(s)) == Trim(s)
  {
    TrimPadded([], Trim(s), []);
    assert [] + Trim(s) + [] == Trim(s);
  }

  /** `s.startsWith(c)` for a one-character prefix. */
  predicate StartsWith(s: string, c: char) {
    |s| > 0 && s[0] == c
  }

  ghost predicate OccursAt(s: string, sep: string, k: int) {
    0 <= k && k + |sep| <= |s| && s[k..k + |sep|] == sep
  }

  /** Position of the first occurrence of `sep` in `s` at or after `q`, the
      search `String.prototype.split` performs. */
  function FindFrom(s: string, sep: string, q: nat): (r: Option<nat>)
    requires |sep| > 0
    ensures r.Some? ==> q <= r.value && OccursAt(s, sep, r.value)
    ensures forall k :: q <= k && (r.None? || k < r.value) ==> !OccursAt(s, sep, k)
    decreases |s| - q
  {
    if q + |sep| > |s| then None
    else if s[q..q + |sep|] == sep then Some(q)
    else FindFrom(s, sep, q + 1)
  }

  /** Where `s.split(sep)[0]` ends: at the first occurrence of `sep`, or at
      the end of `s` when `sep` does not occur. */
  function FirstEnd(s: string, sep: string): (n: nat)
    requires |sep| > 0
    ensures n <= |s|
    ensures forall k :: 0 <= k < n ==> !OccursAt(s, sep, k)
    ensures n < |s| <==> OccursAt(s, sep, n)
  {
    match FindFrom(s, sep, 0)
    case None => |s|
    case Some(k) => k
  }

  /** Where a piece of `s.split(sep)` that starts at `a` ends: at the next
      occurrence of `sep`, or at the end of `s`. */
  function NextEnd(s: string, sep: string, a: nat): (n: nat)
    requires |sep| > 0 && a <= |s|
    ensures a <= n <= |s|
    ensures forall k :: a <= k < n ==> !OccursAt(s, sep, k)
    ensures n == |s| || OccursAt(s, sep, n)
  {
    match FindFrom(s, sep, a)
    case None => |s|
    case Some(k) => k
  }

  /** `s.split(sep)[0]`: the part of `s` before the first occurrence of
      `sep`, or all of `s` when `sep` does not occur. */
  function Before(s: string, sep: string): string
    requires |sep| > 0
  {
    s[..FirstEnd(s, sep)]
  }

  /** `s.split(sep)[1]`: the part between the first and the second occurrence
      of `sep` (or the end of `s`); None (JavaScript's undefined) when `sep`
      does not occur at all. */
  function Between(s: string, sep: string): (r: Option<string>)
    requires |sep| > 0
    ensures r.None? <==> forall k :: !OccursAt(s, sep, k)
  {
    var n := FirstEnd(s, sep);
    if n == |s| then None
    else
      var a := n + |sep|;
      Some(s[a..NextEnd(s, sep, a)])
  }

  /** When `sep` occurs, `s.split(sep)[1]` is the text that starts right
      after its first occurrence and runs, without another occurrence
      starting inside it, up to the next occurrence or the end of `s`. */
  lemma BetweenIsPiece(s: string, sep: string)
    requires |sep| > 0
    ensures Between(s, sep).Some? ==>
      var a := FirstEnd(s, sep) + |sep|;
      var e := a + |Between(s, sep).value|;
      && e <= |s| && Between(s, sep).value == s[a..e]
      && (forall k :: a <= k < e ==> !OccursAt(s, sep, k))
      && (e == |s| || OccursAt(s, sep, e))
  {
  }

  /** The inverse of `split("\n")`: the pieces glued back with line feeds. */
  function JoinLines(pieces: seq<string>): string
    requires |pieces| >= 1
  {
    if |pieces| == 1 then pieces[0] else pieces[0] + "\n" + JoinLines(pieces[1..])
  }

  /** `s.split("\n")`: the maximal line-feed-free pieces of `s`; an empty string
      gives one empty piece and a trailing line feed gives a last empty piece. */
  function SplitLines(s: string): (r: seq<string>)
    ensures |r| >= 1
    ensures forall k :: 0 <= k < |r| ==> '\n' !in r[k]
    ensures JoinLines(r) == s
    decreases |s|
  {
    if s == [] then [""]
    else
      var rest := SplitLines(s[1..]);
      assert s == [s[0]] + s[1..];
      if s[0] == '\n' then
        JoinAfterBreak(rest);
        [""] + rest
      else
        JoinAfterChar(s[0], rest);
        [[s[0]] + rest[0]] + rest[1..]
  }

  lemma JoinCons(x: string, more: seq<string>)
    requires |more| >= 1
    ensures JoinLines([x] + more) == x + "\n" + JoinLines(more)
  {
    assert ([x] + more)[1..] == more;
  }

  lemma JoinAfterBreak(rest: seq<string>)
    requires |rest| >= 1
    ensures JoinLines([""] + rest) == "\n" + JoinLines(rest)
  {
    JoinCons("", rest);
    assert "" + "\n" == "\n";
  }

  lemma JoinAfterChar(c: char, rest: seq<string>)
    requires |rest| >= 1
    ensures JoinLines([[c] + rest[0]] + rest[1..]) == [c] + JoinLines(rest)
  {
    if |rest| == 1 {
      assert [[c] + rest[0]] + rest[1..] == [[c] + rest[0]];
    } else {
      assert rest == [rest[0]] + rest[1..];
      JoinAfterCharCons(c, rest[0], rest[1..]);
    }
  }

  lemma JoinAfterCharCons(c: char, x: string, tail: seq<string>)
    requires |tail| >= 1
    ensures JoinLines([[c] + x] + tail) == [c] + JoinLines([x] + tail)
  {
    JoinCons([c] + x, tail);
    JoinCons(x, tail);
    LineFeedAssoc(c, x, JoinLines(tail));
  }

  lemma LineFeedAssoc(c: char, x: string, j: string)
    ensures ([c] + x) + "\n" + j == [c] + (x + "\n" + j)
  {
  }

  lemma {:induction false} SplitLinesPrefix(p: string, t: string)
    requires '\n' !in p
    ensures SplitLines(p + t) == [p + SplitLines(t)[0]] + SplitLines(t)[1..]
    decreases |p|
  {
    if p != [] {
      var r := SplitLines(t);
      assert (p + t)[1..] == p[1..] + t;
      SplitLinesPrefix(p[1..], t);
      var rest := SplitLines(p[1..] + t);
      assert (p + t)[0] == p[0] && p[0] != '\n';
      assert rest[0] == p[1..] + r[0] && rest[1..] == r[1..];
      assert [p[0]] + (p[1..] + r[0]) == p + r[0];
    } else {
      var r := SplitLines(t);
      assert p + t == t;
      assert r == [r[0]] + r[1..];
      assert p + r[0] == r[0];
    }
  }

  /** `split("\n")` undoes `JoinLines` on line-feed-free pieces. */
  lemma {:induction false} SplitJoin(pieces: seq<string>)
    requires |pieces| >= 1
    requires forall k :: 0 <= k < |pieces| ==> '\n' !in pieces[k]
    ensures SplitLines(JoinLines(pieces)) == pieces
    decreases |pieces|
  {
    if |pieces| == 1 {
      SplitLinesPrefix(pieces[0], []);
      assert pieces[0] + [] == pieces[0];
      assert pieces == [pieces[0]];
    } else {
      var rest := JoinLines(pieces[1..]);
      SplitJoin(pieces[1..]);
      assert ("\n" + rest)[1..] == rest;
      assert SplitLines("\n" + rest) == [""] + pieces[1..];
      SplitLinesPrefix(pieces[0], "\n" + rest);
      assert pieces[0] + ("\n" + rest) == pieces[0] + "\n" + rest;
      assert pieces[0] + "" == pieces[0];
      assert pieces == [pieces[0]] + pieces[1..];
    }
  }

  lemma {:induction false} JoinLinesSnoc(pieces: seq<string>, last: string)
    requires |pieces| >= 1
    ensures JoinLines(pieces + [last]) == JoinLines(pieces) + "\n" + last
    decreases |pieces|
  {
    if |pieces| > 1 {
      assert (pieces + [last])[1..] == pieces[1..] + [last];
      JoinLinesSnoc(pieces[1..], last);
    }
  }

  /** A trailing line feed adds one empty last line. */
  lemma SplitLinesTrailingNewline(s: string)
    ensures SplitLines(s + "\n") == SplitLines(s) + [""]
  {
    var ps := SplitLines(s);
    JoinLinesSnoc(ps, "");
    assert s + "\n" + "" == s + "\n";
    SplitJoin(ps + [""]);
  }

  /** A separator with a character that `s` lacks does not occur in `s`. */
  lemma NoOccurrence(s: string, sep: string, j: nat)
    requires j < |sep| && sep[j] !in s
    ensures forall k :: !OccursAt(s, sep, k)
  {
    forall k | 0 <= k && k + |sep| <= |s|
      ensures !OccursAt(s, sep, k)
    {
      assert s[k..k + |sep|][j] == s[k + j];
    }
  }

  /** The first `sep` in `head + sep + rest` is the one after `head` when the
      first character of `sep` is not in `head`. */
  lemma FirstEndHead(head: string, sep: string, rest: string)
    requires sep != [] && sep[0] !in head
    ensures FirstEnd(head + sep + rest, sep) == |head|
  {
    var s := head + sep + rest;
    assert s[|head|..|head| + |sep|] == sep;
    forall k | 0 <= k < |head|
      ensures !OccursAt(s, sep, k)
    {
      if k + |sep| <= |s| { assert s[k..k + |sep|][0] == head[k]; }
    }
    assert OccursAt(s, sep, |head|);
  }

  /** The part before `sep` is `head` when the first character of `sep` is not in `head`. */
  lemma BeforeHead(head: string, sep: string, rest: string)
    requires sep != [] && sep[0] !in head
    ensures Before(head + sep + rest, sep) == head
  {
    FirstEndHead(head, sep, rest);
    assert (head + sep + rest)[..|head|] == head;
  }

  /** `split(sep)[0]` is the longest prefix of `s` in which no occurrence of
      `sep` starts, and an occurrence starts right after it unless it is all
      of `s`. */
  lemma BeforeIsPrefix(s: string, sep: string)
    requires |sep| > 0
    ensures |Before(s, sep)| <= |s| && Before(s, sep) == s[..|Before(s, sep)|]
    ensures forall k :: 0 <= k < |Before(s, sep)| ==> !OccursAt(s, sep, k)
    ensures |Before(s, sep)| < |s| <==> OccursAt(s, sep, |Before(s, sep)|)
  {
  }

  /** A string starts with `c` exactly when it is `c` followed by the rest. */
  lemma StartsWithHead(s: string, c: char)
    ensures StartsWith(s, c) <==> |s| > 0 && s == [c] + s[1..]
  {
    if |s| > 0 && s == [c] + s[1..] {
      assert s[0] == ([c] + s[1..])[0];
    }
  }

  /** The part after the first `sep` is all of `rest` when `sep` occurs
      neither in `head` nor in `rest`. */
  lemma BetweenRest(head: string, sep: string, rest: string)
    requires sep != [] && sep[0] !in head
    requires forall k :: !OccursAt(rest, sep, k)
    ensures Between(head + sep + rest, sep) == Some(rest)
  {
    var s := head + sep + rest;
    var a := |head| + |sep|;
    FirstEndHead(head, sep, rest);
    forall k | a <= k
      ensures !OccursAt(s, sep, k)
    {
      if k + |sep| <= |s| {
        assert s[k..k + |sep|] == rest[k - a..k - a + |sep|];
        assert !OccursAt(rest, sep, k - a);
      }
    }
    assert NextEnd(s, sep, a) == |s|;
    assert s[a..|s|] == rest;
  }

  /** With a second separator, the part after the first `sep` stops there:
      `split(sep)[1]` of head + sep + mid + sep + rest is mid when neither
      head nor mid holds the first character of `sep`. */
  lemma BetweenMiddle(head: string, sep: string, mid: string, rest: string)
    requires sep != [] && sep[0] !in head && sep[0] !in mid
    ensures Between(head + sep + mid + sep + rest, sep) == Some(mid)
  {
    var s := head + sep + mid + sep + rest;
    var a := |head| + |sep|;
    MiddleSlices(head, sep, mid, rest);
    FirstEndHead(head, sep, mid + sep + rest);
    BetweenAfter(s, sep, a, mid);
  }

  /** `split(sep)[1]` is `mid` when `mid` follows the first occurrence, is
      followed by another, and holds no first character of `sep`. */
  lemma BetweenAfter(s: string, sep: string, a: nat, mid: string)
    requires |sep| > 0 && sep[0] !in mid
    requires FirstEnd(s, sep) < |s| && a == FirstEnd(s, sep) + |sep|
    requires a + |mid| + |sep| <= |s| && s[a..a + |mid|] == mid && s[a + |mid|..a + |mid| + |sep|] == sep
    ensures Between(s, sep) == Some(mid)
  {
    MidClear(s, sep, a, mid);
    BetweenFrom(s, sep, a, a + |mid|);
  }

  /** `split(sep)[1]` once the first occurrence and the next one are known. */
  lemma BetweenFrom(s: string, sep: string, a: nat, e: nat)
    requires |sep| > 0 && FirstEnd(s, sep) < |s| && a == FirstEnd(s, sep) + |sep|
    requires a <= e <= |s| && NextEnd(s, sep, a) == e
    ensures Between(s, sep) == Some(s[a..e])
  {
  }

  /** Where the pieces of head + sep + mid + sep + rest lie. */
  lemma MiddleSlices(head: string, sep: string, mid: string, rest: string)
    ensures var s, a := head + sep + mid + sep + rest, |head| + |sep|;
      && s == head + sep + (mid + sep + rest)
      && a + |mid| + |sep| <= |s|
      && s[a..a + |mid|] == mid
      && s[a + |mid|..a + |mid| + |sep|] == sep
  {
    var s, a := head + sep + mid + sep + rest, |head| + |sep|;
    assert s == head + sep + (mid + sep + rest);
    assert s[a..a + |mid|] == mid;
    assert s[a + |mid|..a + |mid| + |sep|] == sep;
  }

  /** In s = ... + mid + sep + ..., with mid starting at a and free of the
      first character of `sep`, the next separator from a is right after mid. */
  lemma MidClear(s: string, sep: string, a: nat, mid: string)
    requires sep != [] && sep[0] !in mid
    requires a + |mid| + |sep| <= |s| && s[a..a + |mid|] == mid && s[a + |mid|..a + |mid| + |sep|] == sep
    ensures NextEnd(s, sep, a) == a + |mid|
  {
    var m := a + |mid|;
    assert OccursAt(s, sep, m);
    forall k | a <= k < m
      ensures !OccursAt(s, sep, k)
    {
      assert s[k] == mid[k - a];
      if k + |sep| <= |s| { assert s[k..k + |sep|][0] == s[k]; }
    }
  }
}
