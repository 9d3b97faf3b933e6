/**
 * What the `ParsingError` constructor and `toString` of src/error.ts promise,
 * stated against independent definitions.
 */
module ParsingErrorLaws {
  import opened Wrappers
  import opened Decimal
  import opened ParsingErrors
  import opened JsStrings

  /**
   * Counting the matches of `/\r\n|\r|\n/g` from the left agrees with counting,
   * position by position, the `\n`s and the `\r`s not followed by `\n`: a
   * `\r\n` pair is counted once.
   */
  lemma {:induction false} BreakCountIsBreakEnds(t: string)
    ensures BreakCount(t) == BreakEnds(t)
    decreases |t|
  {
    if |t| == 0 {
    } else if |t| >= 2 && t[0] == '\r' && t[1] == '\n' {
      BreakCountIsBreakEnds(t[2..]);
      assert !BreakEndsAt(t, 0);
      assert t[1..][1..] == t[2..];
      assert BreakEndsAt(t[1..], 0);
    } else {
      BreakCountIsBreakEnds(t[1..]);
      assert IsBreakChar(t[0]) <==> BreakEndsAt(t, 0);
    }
  }

  /** A text has no line-break match exactly when it holds no `\r` and no `\n`. */
  lemma {:induction false} NoBreaksIffZero(t: string)
    ensures BreakCount(t) == 0 <==> forall k :: 0 <= k < |t| ==> !IsBreakChar(t[k])
    decreases |t|
  {
    if |t| > 0 {
      if |t| >= 2 && t[0] == '\r' && t[1] == '\n' {
      } else {
        NoBreaksIffZero(t[1..]);
        assert forall k :: 1 <= k < |t| ==> t[k] == t[1..][k - 1];
      }
    }
  }

  /**
   * The computed `line`, from the breaks after the offset: 1 when there are
   * none, 0 when there is exactly one, and otherwise one less than their number.
   */
  lemma LineFromBreaksAfter(source: string, rawIndex: int)
    ensures var after := SliceFrom(source, rawIndex);
            && ((forall k :: 0 <= k < |after| ==> !IsBreakChar(after[k])) ==> LineOf(source, rawIndex) == 1)
            && (BreakEnds(after) == 1 ==> LineOf(source, rawIndex) == 0)
            && (BreakEnds(after) >= 1 ==> LineOf(source, rawIndex) == BreakEnds(after) - 1)
  {
    var after := SliceFrom(source, rawIndex);
    BreakCountIsBreakEnds(after);
    NoBreaksIffZero(after);
  }

  /** With no `\r` or `\n` before the offset, none of the three `lastIndexOf` searches succeeds and `index` is 1. */
  lemma ColumnWithoutBreaks(source: string, rawIndex: int)
    requires var pre := SliceTo(source, rawIndex);
             forall k :: 0 <= k < |pre| ==> !IsBreakChar(pre[k])
    ensures ColumnOf(source, rawIndex) == 1
  {
    var pre := SliceTo(source, rawIndex);
    NoOccurrence(pre, "\r\n");
    NoOccurrence(pre, "\r");
    NoOccurrence(pre, "\n");
  }

  lemma NoOccurrence(pre: string, n: string)
    requires |n| > 0 && IsBreakChar(n[0])
    requires forall k :: 0 <= k < |pre| ==> !IsBreakChar(pre[k])
    ensures LastIndexOf(pre, n) == -1
  {
  }

  /**
   * With a `\r` or `\n` before the offset, `index` is 1 plus one of the
   * non-negative `lastIndexOf` results, namely the one whose decimal string
   * comes first in string order, which need not be the numerically smallest.
   */
  lemma ColumnWithBreaks(source: string, rawIndex: int)
    requires var pre := SliceTo(source, rawIndex);
             exists k :: 0 <= k < |pre| && IsBreakChar(pre[k])
    ensures var cands := BreakCandidates(SliceTo(source, rawIndex));
            var c := ColumnOf(source, rawIndex) - 1;
            && c >= 0
            && c in cands
            && (forall x :: x in cands ==> !LexLess(NatToString(x), NatToString(c)))
  {
    var pre := SliceTo(source, rawIndex);
    var k :| 0 <= k < |pre| && IsBreakChar(pre[k]);
    assert pre[k..k + 1] == [pre[k]];
    if pre[k] == '\r' {
      assert OccursAt(pre, "\r", k);
      assert LastIndexOf(pre, "\r") in BreakCandidates(pre);
    } else {
      assert OccursAt(pre, "\n", k);
      assert LastIndexOf(pre, "\n") in BreakCandidates(pre);
    }
  }

  /** `filter` keeps the order of the elements it keeps: filtering a concatenation concatenates the filtered parts. */
  lemma {:induction false} NonNegativeAppend(a: seq<int>, b: seq<int>)
    ensures NonNegative(a + b) == NonNegative(a) + NonNegative(b)
    decreases |a|
  {
    if |a| > 0 {
      assert (a + b)[1..] == a[1..] + b;
      NonNegativeAppend(a[1..], b);
    } else {
      assert a + b == b;
    }
  }

  /** The element `sort()[0]` picks is the only one whose decimal string is least in string order. */
  lemma SortFirstUnique(xs: seq<nat>, c: nat)
    requires c in xs
    requires forall x :: x in xs ==> !LexLess(NatToString(x), NatToString(c))
    ensures c == SortFirst(xs)
  {
    var r := SortFirst(xs);
    if NatToString(c) != NatToString(r) {
      LexTotal(NatToString(c), NatToString(r));
    }
    NatRoundTrip(c);
    NatRoundTrip(r);
  }

  /**
   * `sort()` compares numbers as strings: of the positions 9, 9 and 10 the
   * string "10" comes first, so a `\r\n` ending at position 10 gives index 11.
   */
  lemma ColumnSortsAsStrings()
    ensures BreakCandidates("aaaaaaaaa\r\n") == [9, 9, 10]
    ensures ColumnOf("aaaaaaaaa\r\nb", 11) == 11
  {
    var pre := "aaaaaaaaa\r\n";
    assert SliceTo("aaaaaaaaa\r\nb", 11) == pre;
    assert LastIndexOf(pre, "\r\n") == 9 by { LastIs(pre, "\r\n", 9); }
    assert LastIndexOf(pre, "\r") == 9 by {
      forall q | 9 < q
        ensures !OccursAt(pre, "\r", q)
      {
        if q == 10 {
          assert pre[10..11] == "\n";
        }
      }
      assert pre[9..10] == "\r";
      LastIs(pre, "\r", 9);
    }
    assert LastIndexOf(pre, "\n") == 10 by { LastIs(pre, "\n", 10); }
    assert NatToString(10) == "10";
    assert NatToString(9) == "9";
    assert LexLess("10", "9");
    SortFirstUnique([9, 9, 10], 10);
  }

  /**
   * `new ParsingError(11, "aaaaaaaaa\r\nb")`: no break follows the offset, so
   * `line` is 1; `index` is 11 as above; the source name defaults, and
   * `toString` renders all three.
   */
  lemma DefaultedError()
    ensures var e := NewParsingError(ClassName, 11, "aaaaaaaaa\r\nb", None, None, None);
            && e == ParsingError(ClassName, 11, "aaaaaaaaa\r\nb", "<anonymous>", 11, 1)
            && ToString(e) == "ParsingError\n    at <anonymous>:1:11"
  {
    var src := "aaaaaaaaa\r\nb";
    assert ColumnOf(src, 11) == 11 by { ColumnSortsAsStrings(); }
    assert LineOf(src, 11) == 1 by {
      assert SliceFrom(src, 11) == "b";
      assert BreakCount("b") == 0;
    }
    var e := NewParsingError(ClassName, 11, src, None, None, None);
    assert e == ParsingError(ClassName, 11, src, "<anonymous>", 11, 1);
    RenderedDefault(e);
  }

  lemma RenderedDefault(e: ParsingError)
    requires e == ParsingError(ClassName, 11, "aaaaaaaaa\r\nb", "<anonymous>", 11, 1)
    ensures ToString(e) == "ParsingError\n    at <anonymous>:1:11"
  {
    assert IntToString(1) == "1";
    assert IntToString(11) == "11";
  }

  lemma LastIs(h: string, n: string, p: nat)
    requires OccursAt(h, n, p)
    requires forall q :: p < q ==> !OccursAt(h, n, q)
    ensures LastIndexOf(h, n) == p
  {
  }

  /** The `toString` text starts with the name, and the source name, line and index can all be read back from it. */
  lemma RenderRoundTrip(e: ParsingError)
    ensures e.name + "\n    at " <= ToString(e)
    ensures ReadBack(ToString(e), e.name) == Some((e.sourceName, e.line, e.index))
  {
    var head := e.name + "\n    at ";
    var p := head + e.sourceName;
    var a, b := IntToString(e.line), IntToString(e.index);
    assert ToString(e) == head + (e.sourceName + ":" + a + ":" + b);
    assert ToString(e) == p + ":" + a + ":" + b;
    IntRoundTrip(e.line);
    IntRoundTrip(e.index);
    PositionReadBack(p, a, b);
    assert head <= p && p[|head|..] == e.sourceName;
  }

  /** In `p:a:b` with numerals `a` and `b`, the last two colons are the ones before `a` and `b`, whatever `p` holds. */
  lemma PositionReadBack(p: string, a: string, b: string)
    requires IsNumeral(a) && IsNumeral(b)
    ensures RenderedPosition(p + ":" + a + ":" + b) == Some((p, ParseInt(a), ParseInt(b)))
  {
    var pa := p + ":" + a;
    var t := pa + ":" + b;
    LastColon(pa, b);
    assert t[..|pa|] == pa;
    LastColon(p, a);
    assert pa[..|p|] == p;
    assert t[..|p|] == p;
    assert t[|p| + 1..|pa|] == a;
    assert t[|pa| + 1..] == b;
  }

  lemma LastColon(p: string, x: string)
    requires forall k :: 0 <= k < |x| ==> x[k] != ':'
    ensures LastIndexOf(p + ":" + x, ":") == |p|
  {
    var t := p + ":" + x;
    assert OccursAt(t, ":", |p|);
    forall q | |p| < q
      ensures !OccursAt(t, ":", q)
    {
      if q < |t| {
        assert t[q..q + 1] == [x[q - |p| - 1]];
      }
    }
  }
}
