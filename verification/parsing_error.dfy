/**
 * The `ParsingError` class of src/error.ts: the line and index numbers it
 * derives from an offset into the source text, and its `toString` rendering.
 */
module ParsingErrors {
  import opened Wrappers
  import opened Decimal
  import opened JsStrings

  const ClassName: string := "ParsingError"
  const DefaultSourceName: string := "<anonymous>"

  predicate IsBreakChar(c: char) {
    c == '\r' || c == '\n'
  }

  /**
   * The number of matches of `/\r\n|\r|\n/g` in `t`: scanning from the left,
   * a `\r\n` pair is one match and any other `\r` or `\n` is one match.
   */
  function BreakCount(t: string): nat
    decreases |t|
  {
    if |t| == 0 then 0
    else if |t| >= 2 && t[0] == '\r' && t[1] == '\n' then 1 + BreakCount(t[2..])
    else if IsBreakChar(t[0]) then 1 + BreakCount(t[1..])
    else BreakCount(t[1..])
  }

  /** A line break ends at position `p` of `t`: a `\n`, or a `\r` not followed by `\n`. */
  predicate BreakEndsAt(t: string, p: nat)
    requires p < |t|
  {
    t[p] == '\n' || (t[p] == '\r' && (p + 1 == |t| || t[p + 1] != '\n'))
  }

  /** The number of positions of `t` where a line break ends, counted position by position. */
  function BreakEnds(t: string): nat
    decreases |t|
  {
    if |t| == 0 then 0
    else (if BreakEndsAt(t, 0) then 1 else 0) + BreakEnds(t[1..])
  }

  /** `s < t` in JavaScript's string order (character by character; a proper prefix is smaller). */
  predicate LexLess(s: string, t: string)
    decreases |s|
  {
    if |s| == 0 then |t| > 0
    else if |t| == 0 then false
    else if s[0] != t[0] then s[0] < t[0]
    else LexLess(s[1..], t[1..])
  }

  /**
   * `xs.sort()[0]` for a non-empty array of non-negative integers: the default
   * comparison of `sort` compares the decimal strings, so this is the element
   * whose decimal rendering is least in string order.
   */
  function SortFirst(xs: seq<nat>): (r: nat)
    requires |xs| > 0
    ensures r in xs
    ensures forall x :: x in xs ==> !LexLess(NatToString(x), NatToString(r))
    decreases |xs|
  {
    if |xs| == 1 then
      LexIrreflexive(NatToString(xs[0]));
      xs[0]
    else
      var m := SortFirst(xs[1..]);
      if LexLess(NatToString(m), NatToString(xs[0])) then
        LexAsymmetric(NatToString(m), NatToString(xs[0]));
        m
      else
        LexNotLessIsGreaterOrEqual(NatToString(xs[0]), NatToString(m));
        LexMinTransfers(xs[1..], NatToString(xs[0]), NatToString(m));
        LexIrreflexive(NatToString(xs[0]));
        assert forall x :: x in xs ==> x == xs[0] || x in xs[1..];
        xs[0]
  }

  /** `xs.filter(x => x >= 0)` */
  function NonNegative(xs: seq<int>): (r: seq<nat>)
    ensures forall x :: x in r <==> x in xs && x >= 0
    ensures forall x: nat :: multiset(r)[x] == multiset(xs)[x]
    decreases |xs|
  {
    if |xs| == 0 then []
    else
      assert xs == [xs[0]] + xs[1..];
      if xs[0] >= 0 then [xs[0] as nat] + NonNegative(xs[1..])
      else NonNegative(xs[1..])
  }

  /** The `lastIndexOf` candidates the constructor considers in the text before the offset. */
  function BreakCandidates(pre: string): seq<nat> {
    NonNegative([LastIndexOf(pre, "\r\n"), LastIndexOf(pre, "\r"), LastIndexOf(pre, "\n")])
  }

  /** The `line` the constructor computes: one less than the breaks after the offset, or 1 when there are none. */
  function LineOf(source: string, rawIndex: int): int {
    var k := BreakCount(SliceFrom(source, rawIndex));
    (if k == 0 then 2 else k) - 1
  }

  /** The `index` the constructor computes: 1 plus the string-least candidate, or 1 when there is none. */
  function ColumnOf(source: string, rawIndex: int): int {
    var found := BreakCandidates(SliceTo(source, rawIndex));
    1 + (if |found| == 0 then 0 else SortFirst(found))
  }

  datatype ParsingError = ParsingError(
    name: string,
    rawIndex: int,
    source: string,
    sourceName: string,
    index: int,
    line: int)

  /**
   * `new C(rawIndex, source, sourceName?, index?, line?)` for `C` the class
   * `className` (`ParsingError` itself, or a subclass): both numbers are kept
   * when both are supplied, otherwise both are derived from `rawIndex`.
   */
  function NewParsingError(className: string, rawIndex: int, source: string,
                           sourceName: Option<string>, index: Option<int>, line: Option<int>): (e: ParsingError)
    ensures e.name == className && e.rawIndex == rawIndex && e.source == source
    ensures sourceName.None? ==> e.sourceName == DefaultSourceName
    ensures sourceName.Some? ==> e.sourceName == sourceName.value
    ensures index.Some? && line.Some? ==> e.index == index.value && e.line == line.value
    ensures index.None? || line.None? ==> e.line == LineOf(source, rawIndex) && e.index == ColumnOf(source, rawIndex)
  {
    ParsingError(
      className, rawIndex, source, sourceName.GetOr(DefaultSourceName),
      if line.None? || index.None? then ColumnOf(source, rawIndex) else index.value,
      if line.None? || index.None? then LineOf(source, rawIndex) else line.value)
  }

  /** `toString()`: the name, then on a second line the location as `sourceName:line:index`. */
  function ToString(e: ParsingError): string {
    e.name + "\n    at " + e.sourceName + ":" + IntToString(e.line) + ":" + IntToString(e.index)
  }

  /** Splits `t` at its last two colons: the text before them and the two numbers after them, if both are numerals. */
  function RenderedPosition(t: string): Option<(string, int, int)> {
    var c2 := LastIndexOf(t, ":");
    if c2 < 0 then None
    else
      var c1 := LastIndexOf(t[..c2], ":");
      if c1 < 0 then None
      else
        var a, b := t[c1 + 1..c2], t[c2 + 1..];
        if IsNumeral(a) && IsNumeral(b) then Some((t[..c1], ParseInt(a), ParseInt(b))) else None
  }

  /** Reads `sourceName`, `line` and `index` back from the `toString` text of an error named `name`. */
  function ReadBack(t: string, name: string): Option<(string, int, int)> {
    var head := name + "\n    at ";
    match RenderedPosition(t)
    case None => None
    case Some((p, line, index)) => if head <= p then Some((p[|head|..], line, index)) else None
  }

  // ---- facts about string order used by SortFirst ----

  lemma {:induction false} LexIrreflexive(s: string)
    ensures !LexLess(s, s)
    decreases |s|
  {
    if |s| > 0 {
      LexIrreflexive(s[1..]);
    }
  }

  lemma {:induction false} LexTransitive(s: string, t: string, u: string)
    requires LexLess(s, t) && LexLess(t, u)
    ensures LexLess(s, u)
    decreases |s|
  {
    if |s| > 0 && |t| > 0 && |u| > 0 && s[0] == t[0] && t[0] == u[0] {
      LexTransitive(s[1..], t[1..], u[1..]);
    }
  }

  lemma {:induction false} LexTotal(s: string, t: string)
    requires s != t
    ensures LexLess(s, t) || LexLess(t, s)
    decreases |s|
  {
    if |s| > 0 && |t| > 0 && s[0] == t[0] {
      LexTotal(s[1..], t[1..]);
    }
  }

  lemma LexAsymmetric(s: string, t: string)
    requires LexLess(s, t)
    ensures !LexLess(t, s)
  {
    if LexLess(t, s) {
      LexTransitive(s, t, s);
      LexIrreflexive(s);
    }
  }

  lemma LexNotLessIsGreaterOrEqual(s: string, t: string)
    requires !LexLess(t, s)
    ensures s == t || LexLess(s, t)
  {
    if s != t {
      LexTotal(s, t);
    }
  }

  lemma LexMinTransfers(xs: seq<nat>, low: string, m: string)
    requires low == m || LexLess(low, m)
    requires forall x :: x in xs ==> !LexLess(NatToString(x), m)
    ensures forall x :: x in xs ==> !LexLess(NatToString(x), low)
  {
    forall x | x in xs
      ensures !LexLess(NatToString(x), low)
    {
      if LexLess(NatToString(x), low) && low != m {
        LexTransitive(NatToString(x), low, m);
      }
    }
  }
}
