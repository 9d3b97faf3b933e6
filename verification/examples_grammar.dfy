/**
 * Small grammars run on concrete inputs: one-level flattening in `and`,
 * first-match-wins in `or`, recursion through `ref`, and the "space" tag.
 */
module GrammarExamples {
  import opened Wrappers
  import opened Values
  import opened Combinators
  import opened CombinatorLaws
  import opened JsStrings

  /** The longest prefix of `t` made of blanks: what `/\s+/` (restricted to spaces) matches. */
  function LeadingBlanks(t: string): (w: string)
    ensures w <= t
    ensures forall k :: 0 <= k < |w| ==> w[k] == ' '
    ensures |w| < |t| ==> t[|w|] != ' '
    decreases |t|
  {
    if |t| > 0 && t[0] == ' ' then [' '] + LeadingBlanks(t[1..]) else []
  }

  /** A blank-run engine for the pattern `\s+`; every other pattern never matches. */
  function BlankEngine(src: string, flags: string, input: string): Option<RegexHit> {
    if src == "\\s+" && LeadingBlanks(input) != [] then Some(RegexHit(LeadingBlanks(input), None)) else None
  }

  const Digit: Parser := Or([Lit("1"), Lit("2"), Lit("3")])

  /** `sum = or(and(digit, token("+"), ref(() => sum)), digit)` */
  const Sum: Parser := Or([And([Digit, Lit("+"), Ref("sum")]), Digit])

  const Demo: Env := Env(n => Sum, b => v => v, BlankEngine)

  /** `and` flattens its children's array values one level: `and(and(token("1")), token("2"))` gives `["1", "2"]`. */
  lemma FlattensOneLevel()
    ensures Run(Demo, And([And([Lit("1")]), Lit("2")]), 0, "12", 0) == Matched(2, Arr([Str("1"), Str("2")]), false)
  {
    var s := "12";
    TokenLiteral(Demo, "1", 0, s, 0);
    TokenLiteral(Demo, "2", 1, s, 0);
    Single(Demo, Lit("1"), 0, s, 0);
    Single(Demo, Lit("2"), 1, s, 0);
    assert Run(Demo, And([Lit("1")]), 0, s, 0) == Matched(1, Arr([Str("1")]), false);
    Cons(Demo, And([Lit("1")]), [Lit("2")], 0, s, 0);
    assert [And([Lit("1")]), Lit("2")] == [And([Lit("1")])] + [Lit("2")];
    assert RunSeq(Demo, [And([Lit("1")]), Lit("2")], 0, s, 0) == SeqDone(2, [Str("1"), Str("2")]);
  }

  lemma BlankAt(s: string)
    requires s == "Hello, world!"
    ensures Run(Demo, Space(Pat("\\s+", "")), 6, s, 0) == Matched(7, Null, true)
  {
    assert LeadingBlanks(s[6..]) == " " by {
      assert s[6..][1..] == "world!";
    }
  }

  lemma AndFromSeq(env: Env, ps: seq<Parser>, i: nat, s: string, fuel: nat)
    requires RunSeq(env, ps, i, s, fuel).SeqDone?
    ensures Run(env, And(ps), i, s, fuel) ==
            Matched(RunSeq(env, ps, i, s, fuel).end, Arr(RunSeq(env, ps, i, s, fuel).items), false)
  {
  }

  lemma Single(env: Env, p: Parser, i: nat, s: string, fuel: nat)
    requires Run(env, p, i, s, fuel).Matched?
    ensures var r := Run(env, p, i, s, fuel);
            RunSeq(env, [p], i, s, fuel) == SeqDone(r.end, Items(r.value, r.space))
  {
    assert [p][1..] == [];
  }

  lemma Cons(env: Env, p: Parser, ps: seq<Parser>, i: nat, s: string, fuel: nat)
    requires Run(env, p, i, s, fuel).Matched?
    ensures var r := Run(env, p, i, s, fuel);
            var t := RunSeq(env, ps, r.end, s, fuel);
            RunSeq(env, [p] + ps, i, s, fuel) == if t.SeqDone? then SeqDone(t.end, Items(r.value, r.space) + t.items) else t
  {
    assert ([p] + ps)[1..] == ps;
  }

  /** `or(token("a"), token("ab"))` on "ab" takes the first alternative, not the longest. */
  lemma FirstAlternativeWins()
    ensures Run(Demo, Or([Lit("a"), Lit("ab")]), 0, "ab", 0) == Matched(1, Str("a"), false)
  {
  }

  /** The self-referential `sum` parses "1+2+3" completely, its nested array flattened into one list. */
  lemma RecursiveSum()
    ensures Run(Demo, Sum, 0, "1+2+3", 2) ==
            Matched(5, Arr([Str("1"), Str("+"), Str("2"), Str("+"), Str("3")]), false)
  {
    var s := "1+2+3";
    SumLast(s);
    SumMiddle(s, 2, 1, Str("3"));
    assert [s[2]] == "2" && [s[0]] == "1";
    assert [Str("2"), Str("+")] + Items(Str("3"), false) == [Str("2"), Str("+"), Str("3")];
    SumMiddle(s, 0, 2, Arr([Str("2"), Str("+"), Str("3")]));
    assert [Str("1"), Str("+")] + Items(Arr([Str("2"), Str("+"), Str("3")]), false) ==
           [Str("1"), Str("+"), Str("2"), Str("+"), Str("3")];
  }

  /** At the last digit the first alternative stops at the missing `+` and the second one takes the digit. */
  lemma SumLast(s: string)
    requires s == "1+2+3"
    ensures Run(Demo, Sum, 4, s, 0) == Matched(5, Str("3"), false)
  {
    var parts := [Digit, Lit("+"), Ref("sum")];
    DigitAt(s, 4, 0);
    assert parts == [Digit] + [Lit("+"), Ref("sum")];
    Cons(Demo, Digit, [Lit("+"), Ref("sum")], 4, s, 0);
    TokenLiteral(Demo, "+", 5, s, 0);
    assert RunSeq(Demo, [Lit("+"), Ref("sum")], 5, s, 0) == SeqFail;
    assert Run(Demo, And(parts), 4, s, 0) == NoMatch;
    OrFirstWins(Demo, [And(parts), Digit], 1, 4, s, 0);
  }

  /** A digit, a `+` and a `sum` ending at 5 with value `rest`: the items of `rest` follow the digit and the `+`. */
  lemma SumMiddle(s: string, i: nat, fuel: nat, rest: Value)
    requires s == "1+2+3" && (i == 0 || i == 2) && fuel > 0
    requires Run(Demo, Sum, i + 2, s, fuel - 1) == Matched(5, rest, false)
    ensures Run(Demo, Sum, i, s, fuel) == Matched(5, Arr([Str([s[i]]), Str("+")] + Items(rest, false)), false)
  {
    var parts := [Digit, Lit("+"), Ref("sum")];
    PartsMiddle(s, i, fuel, rest);
    assert Run(Demo, And(parts), i, s, fuel) == Matched(5, Arr([Str([s[i]]), Str("+")] + Items(rest, false)), false);
    assert Sum == Or([And(parts), Digit]);
    OrFirstWins(Demo, [And(parts), Digit], 0, i, s, fuel);
  }

  lemma PartsMiddle(s: string, i: nat, fuel: nat, rest: Value)
    requires s == "1+2+3" && (i == 0 || i == 2) && fuel > 0
    requires Run(Demo, Sum, i + 2, s, fuel - 1) == Matched(5, rest, false)
    ensures RunSeq(Demo, [Digit, Lit("+"), Ref("sum")], i, s, fuel) ==
            SeqDone(5, [Str([s[i]]), Str("+")] + Items(rest, false))
  {
    DigitAt(s, i, fuel);
    PlusThenSum(s, i + 1, fuel, rest);
    assert [Digit, Lit("+"), Ref("sum")] == [Digit] + [Lit("+"), Ref("sum")];
    Cons(Demo, Digit, [Lit("+"), Ref("sum")], i, s, fuel);
    assert [Str([s[i]])] + ([Str("+")] + Items(rest, false)) == [Str([s[i]]), Str("+")] + Items(rest, false);
  }

  lemma PlusThenSum(s: string, i: nat, fuel: nat, rest: Value)
    requires s == "1+2+3" && (i == 1 || i == 3) && fuel > 0
    requires Run(Demo, Sum, i + 1, s, fuel - 1) == Matched(5, rest, false)
    ensures RunSeq(Demo, [Lit("+"), Ref("sum")], i, s, fuel) == SeqDone(5, [Str("+")] + Items(rest, false))
  {
    assert s[i..i + 1] == "+";
    TokenLiteral(Demo, "+", i, s, fuel);
    assert [Lit("+"), Ref("sum")] == [Lit("+")] + [Ref("sum")];
    Cons(Demo, Lit("+"), [Ref("sum")], i, s, fuel);
    RefUnfolds(Demo, "sum", i + 1, s, fuel - 1);
    Single(Demo, Ref("sum"), i + 1, s, fuel);
  }

  lemma DigitAt(s: string, i: nat, fuel: nat)
    requires i < |s| && s[i] in "123"
    ensures Run(Demo, Digit, i, s, fuel) == Matched(i + 1, Str([s[i]]), false)
  {
    assert s[i..i + 1] == [s[i]];
    TokenLiteral(Demo, "1", i, s, fuel);
    TokenLiteral(Demo, "2", i, s, fuel);
    TokenLiteral(Demo, "3", i, s, fuel);
    var k := if s[i] == '1' then 0 else if s[i] == '2' then 1 else 2;
    OrFirstWins(Demo, [Lit("1"), Lit("2"), Lit("3")], k, i, s, fuel);
  }

  /**
   * `and(token("Hello,"), space(token(/\s+/)), token("world!"))` on
   * "Hello, world!" ends at 13 with the two literals as written: the space
   * child contributes nothing.
   */
  lemma SpaceContributesNothing()
    ensures Run(Demo, And([Lit("Hello,"), Space(Pat("\\s+", "")), Lit("world!")]), 0, "Hello, world!", 0) ==
            Matched(13, Arr([Str("Hello,"), Str("world!")]), false)
  {
    var s := "Hello, world!";
    var ps := [Lit("Hello,"), Space(Pat("\\s+", "")), Lit("world!")];
    SpaceThenWorld(s);
    assert s[0..6] == "Hello,";
    TokenLiteral(Demo, "Hello,", 0, s, 0);
    assert ps == [Lit("Hello,")] + [Space(Pat("\\s+", "")), Lit("world!")];
    Cons(Demo, Lit("Hello,"), [Space(Pat("\\s+", "")), Lit("world!")], 0, s, 0);
    assert RunSeq(Demo, ps, 0, s, 0) == SeqDone(13, [Str("Hello,")] + [Str("world!")]);
    assert [Str("Hello,")] + [Str("world!")] == [Str("Hello,"), Str("world!")];
    AndFromSeq(Demo, ps, 0, s, 0);
    assert Run(Demo, And(ps), 0, s, 0) == Matched(13, Arr([Str("Hello,"), Str("world!")]), false);
  }

  lemma SpaceThenWorld(s: string)
    requires s == "Hello, world!"
    ensures RunSeq(Demo, [Space(Pat("\\s+", "")), Lit("world!")], 6, s, 0) == SeqDone(13, [Str("world!")])
  {
    BlankAt(s);
    assert s[7..13] == "world!";
    TokenLiteral(Demo, "world!", 7, s, 0);
    Single(Demo, Lit("world!"), 7, s, 0);
    assert [Space(Pat("\\s+", "")), Lit("world!")] == [Space(Pat("\\s+", ""))] + [Lit("world!")];
    Cons(Demo, Space(Pat("\\s+", "")), [Lit("world!")], 6, s, 0);
  }

  /**
   * The first line start at or after `k` where `src` occurs: index 0, or with
   * `multiline` also any index just after a line feed. This is where the
   * anchored pattern `^(?:src)` matches a literal `src`.
   */
  function LineStartAt(input: string, src: string, k: nat, multiline: bool): (r: Option<nat>)
    ensures r.Some? ==> k <= r.value <= |input| && src <= input[r.value..]
    ensures r.Some? ==> r.value == 0 || (multiline && input[r.value - 1] == '\n')
    decreases |input| - k
  {
    if k > |input| then None
    else if (k == 0 || (multiline && input[k - 1] == '\n')) && src <= input[k..] then Some(k)
    else LineStartAt(input, src, k + 1, multiline)
  }

  /**
   * An engine for a literal source that, under the `m` flag, lets `^` match
   * after a line feed. (JavaScript's `^` also matches after `\r`, U+2028 and
   * U+2029; one kind of break suffices for the example.)
   */
  function LineStartEngine(src: string, flags: string, input: string): Option<RegexHit> {
    if LineStartAt(input, src, 0, 'm' in flags).Some? then Some(RegexHit(src, None)) else None
  }

  const Multiline: Env := Env(n => Sum, b => v => v, LineStartEngine)

  /** The line-start engine meets the only assumption the laws make of an engine. */
  lemma LineStartEngineWellFormed()
    ensures WellFormedEnv(Multiline)
  {
    forall src, flags, input | LineStartEngine(src, flags, input).Some?
      ensures |src| <= |input|
    {
      var k := LineStartAt(input, src, 0, 'm' in flags).value;
      assert src <= input[k..];
    }
  }

  /**
   * With the `m` flag a pattern token can succeed although its text is not at
   * `i`: `token(/b/m)` at 0 on "a\nb" matches the "b" after the line break and
   * answers `[1, "b"]`, an end that lies before the text it matched.
   */
  lemma MultilineMatchesLater(s: string)
    requires s == "a\nb"
    ensures Run(Multiline, Pat("b", "m"), 0, s, 0) == Matched(1, Str("b"), false)
    ensures !StartsWith(s, "b", 0)
  {
    assert s[0..] == s;
    assert LineStartAt(s, "b", 2, true) == Some(2) by {
      assert s[2..] == "b";
    }
    assert LineStartAt(s, "b", 0, true) == Some(2) by {
      assert s[0..][0] == 'a' && s[1..][0] == '\n';
      assert !("b" <= s[0..]) && !("b" <= s[1..]);
    }
  }
}
