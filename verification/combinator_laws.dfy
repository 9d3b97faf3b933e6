/**
 * What each combinator of src/index.ts promises, stated about `Run`, and the
 * two global facts about the evaluator: successful parses never move backwards
 * or past the end, and fuel only decides whether an answer is reached, never
 * which answer.
 */
module CombinatorLaws {
  import opened Wrappers
  import opened Values
  import opened Combinators
  import opened JsStrings

  /**
   * The regular-expression engine returns pieces of its input: elements 0 and
   * 1 of a JavaScript match array are substrings of the string matched, so
   * neither is longer than it. Nothing more is assumed; in particular a match
   * need not start at the front of the input (with the `m` flag `^` also
   * matches after a line break).
   */
  ghost predicate WellFormedEnv(env: Env) {
    forall src, flags, input :: env.exec(src, flags, input).Some? ==>
      var h := env.exec(src, flags, input).value;
      |h.whole| <= |input| && (h.group1.Some? ==> |h.group1.value| <= |input|)
  }

  /** A string token matches exactly where `s` holds `t` at `i`, and then ends `|t|` further on with value `t`. */
  lemma TokenLiteral(env: Env, t: string, i: nat, s: string, fuel: nat)
    ensures Run(env, Lit(t), i, s, fuel).Matched? <==>
              (i + |t| <= |s| && s[i..i + |t|] == t) || (i > |s| && t == [])
    ensures Run(env, Lit(t), i, s, fuel).Matched? ==>
              Run(env, Lit(t), i, s, fuel) == Matched(i + |t|, Str(t), false)
    ensures !Run(env, Lit(t), i, s, fuel).Matched? ==> Run(env, Lit(t), i, s, fuel) == NoMatch
  {
    if i + |t| <= |s| && s[i..i + |t|] == t {
      assert s[i..][..|t|] == t;
    }
  }

  /**
   * A pattern token fails exactly when the engine reports no match; otherwise
   * its value is group 1 when present, else the whole match, and it advances
   * by the length of that value rather than by the span of the match.
   */
  lemma TokenPattern(env: Env, src: string, flags: string, i: nat, s: string, fuel: nat)
    ensures var o := Run(env, Pat(src, flags), i, s, fuel);
            var m := env.exec(src, flags, SliceFrom(s, i));
            && (o == NoMatch <==> m.None?)
            && (m.Some? && m.value.group1.Some? ==> o == Matched(i + |m.value.group1.value|, Str(m.value.group1.value), false))
            && (m.Some? && m.value.group1.None? ==> o == Matched(i + |m.value.whole|, Str(m.value.whole), false))
  {
  }

  /** `option` never fails: an inner failure yields `[i, null]`, an inner success its end and value without the space tag. */
  lemma OptionNeverFails(env: Env, q: Parser, i: nat, s: string, fuel: nat)
    ensures Run(env, Opt(q), i, s, fuel) != NoMatch
    ensures Run(env, q, i, s, fuel) == NoMatch ==> Run(env, Opt(q), i, s, fuel) == Matched(i, Null, false)
    ensures Run(env, q, i, s, fuel).Matched? ==>
              Run(env, Opt(q), i, s, fuel) ==
              Matched(Run(env, q, i, s, fuel).end, Run(env, q, i, s, fuel).value, false)
  {
  }

  /** `space(p)` succeeds exactly when `p` does, with `p`'s end, value `null` and the space tag. */
  lemma SpaceTags(env: Env, q: Parser, i: nat, s: string, fuel: nat)
    ensures Run(env, Space(q), i, s, fuel).Matched? <==> Run(env, q, i, s, fuel).Matched?
    ensures Run(env, Space(q), i, s, fuel) == NoMatch <==> Run(env, q, i, s, fuel) == NoMatch
    ensures Run(env, q, i, s, fuel).Matched? ==>
              Run(env, Space(q), i, s, fuel) == Matched(Run(env, q, i, s, fuel).end, Null, true)
  {
  }

  /** `or` returns, unchanged (space tag included), the outcome of the first child that does not fail. */
  lemma {:induction false} OrFirstWins(env: Env, ps: seq<Parser>, k: nat, i: nat, s: string, fuel: nat)
    requires k < |ps|
    requires forall j :: 0 <= j < k ==> Run(env, ps[j], i, s, fuel) == NoMatch
    requires Run(env, ps[k], i, s, fuel) != NoMatch
    ensures Run(env, Or(ps), i, s, fuel) == Run(env, ps[k], i, s, fuel)
    decreases k
  {
    if k > 0 {
      OrFirstWins(env, ps[1..], k - 1, i, s, fuel);
    }
  }

  /** `or` fails exactly when every child fails; in particular `or()` always fails. */
  lemma {:induction false} OrFailsIffAllFail(env: Env, ps: seq<Parser>, i: nat, s: string, fuel: nat)
    ensures Run(env, Or(ps), i, s, fuel) == NoMatch <==>
              forall j :: 0 <= j < |ps| ==> Run(env, ps[j], i, s, fuel) == NoMatch
    decreases |ps|
  {
    if |ps| > 0 {
      OrFailsIffAllFail(env, ps[1..], i, s, fuel);
      assert forall j :: 1 <= j < |ps| ==> ps[j] == ps[1..][j - 1];
    }
  }

  /** One iteration of the loop in `and`: run the next child from the current index and append its items. */
  function Step(env: Env, acc: SeqOutcome, q: Parser, s: string, fuel: nat): SeqOutcome {
    match acc
    case SeqDone(j, xs) =>
      (match Run(env, q, j, s, fuel)
       case Matched(k, v, sp) => SeqDone(k, xs + Items(v, sp))
       case NoMatch => SeqFail
       case OutOfFuel => SeqOutOfFuel)
    case other => other
  }

  /**
   * `and` threads the index from left to right: running `ps + [q]` is running
   * `ps`, then `q` from where `ps` ended, appending `q`'s items to the value.
   */
  lemma {:induction false} SeqSnoc(env: Env, ps: seq<Parser>, q: Parser, i: nat, s: string, fuel: nat)
    ensures RunSeq(env, ps + [q], i, s, fuel) == Step(env, RunSeq(env, ps, i, s, fuel), q, s, fuel)
    decreases |ps|
  {
    if |ps| == 0 {
      assert [q][1..] == [];
    } else {
      assert (ps + [q])[1..] == ps[1..] + [q];
      match Run(env, ps[0], i, s, fuel)
      case Matched(j, v, sp) =>
        SeqSnoc(env, ps[1..], q, j, s, fuel);
      case NoMatch =>
      case OutOfFuel =>
    }
  }

  /** `and()` with no children succeeds at `i` with an empty array. */
  lemma AndEmpty(env: Env, i: nat, s: string, fuel: nat)
    ensures Run(env, And([]), i, s, fuel) == Matched(i, Arr([]), false)
  {
  }

  /**
   * `and` fails exactly when some child fails at the index where all earlier
   * children, run in order, left off.
   */
  lemma {:induction false} AndFailsIff(env: Env, ps: seq<Parser>, i: nat, s: string, fuel: nat)
    ensures Run(env, And(ps), i, s, fuel) == NoMatch <==>
              exists k :: 0 <= k < |ps| && RunSeq(env, ps[..k], i, s, fuel).SeqDone? &&
                Run(env, ps[k], RunSeq(env, ps[..k], i, s, fuel).end, s, fuel) == NoMatch
    decreases |ps|
  {
    if |ps| > 0 {
      var r := Run(env, ps[0], i, s, fuel);
      assert ps[..1] == [ps[0]];
      assert RunSeq(env, ps[..0], i, s, fuel) == SeqDone(i, []) by { assert ps[..0] == []; }
      match r
      case Matched(j, v, sp) =>
        AndFailsIff(env, ps[1..], j, s, fuel);
        forall k | 1 <= k <= |ps|
          ensures RunSeq(env, ps[..k], i, s, fuel) ==
                  match RunSeq(env, ps[1..][..k - 1], j, s, fuel)
                  case SeqDone(e, rest) => SeqDone(e, Items(v, sp) + rest)
                  case other => other
        {
          assert ps[..k][1..] == ps[1..][..k - 1];
        }
        if Run(env, And(ps), i, s, fuel) == NoMatch {
          assert RunSeq(env, ps, i, s, fuel) == SeqFail;
          assert RunSeq(env, ps[1..], j, s, fuel) == SeqFail;
          assert Run(env, And(ps[1..]), j, s, fuel) == NoMatch;
          var k' :| 0 <= k' < |ps| - 1 && RunSeq(env, ps[1..][..k'], j, s, fuel).SeqDone? &&
                    Run(env, ps[1..][k'], RunSeq(env, ps[1..][..k'], j, s, fuel).end, s, fuel) == NoMatch;
          assert ps[k' + 1] == ps[1..][k'];
          assert RunSeq(env, ps[..k' + 1], i, s, fuel).end == RunSeq(env, ps[1..][..k'], j, s, fuel).end;
        }
        if exists k :: 0 <= k < |ps| && RunSeq(env, ps[..k], i, s, fuel).SeqDone? &&
                Run(env, ps[k], RunSeq(env, ps[..k], i, s, fuel).end, s, fuel) == NoMatch {
          var k :| 0 <= k < |ps| && RunSeq(env, ps[..k], i, s, fuel).SeqDone? &&
                Run(env, ps[k], RunSeq(env, ps[..k], i, s, fuel).end, s, fuel) == NoMatch;
          assert k > 0;
          assert ps[k] == ps[1..][k - 1];
        }
      case NoMatch =>
      case OutOfFuel =>
    }
  }

  /**
   * `tree` succeeds exactly when its inner parser succeeds and the builder,
   * given the inner value as an array, returns a truthy value; it keeps the
   * inner end index and drops any space tag. A falsy builder result, like an
   * inner failure, gives `null`.
   */
  lemma TreeBuilds(env: Env, q: Parser, b: nat, i: nat, s: string, fuel: nat)
    ensures var r := Run(env, q, i, s, fuel);
            Run(env, Tree(q, b), i, s, fuel).Matched? <==>
              r.Matched? && Truthy(env.build(b)(AsArray(r.value)))
    ensures var r := Run(env, q, i, s, fuel);
            r.Matched? && Truthy(env.build(b)(AsArray(r.value))) ==>
              Run(env, Tree(q, b), i, s, fuel) == Matched(r.end, env.build(b)(AsArray(r.value)), false)
    ensures var r := Run(env, q, i, s, fuel);
            r.Matched? && !Truthy(env.build(b)(AsArray(r.value))) ==> Run(env, Tree(q, b), i, s, fuel) == NoMatch
    ensures Run(env, q, i, s, fuel) == NoMatch ==> Run(env, Tree(q, b), i, s, fuel) == NoMatch
  {
  }

  /** `ref(f)` applied at `(i, s)` is `f()(i, s)`, with the thunk looked up afresh at every application. */
  lemma RefUnfolds(env: Env, n: string, i: nat, s: string, fuel: nat)
    ensures Run(env, Ref(n), i, s, fuel + 1) == Run(env, env.rules(n), i, s, fuel)
    ensures Run(env, Ref(n), i, s, 0) == OutOfFuel
  {
  }

  /** Every successful parse started inside the input ends no earlier than it started and no later than the end. */
  lemma {:induction false} Monotone(env: Env, p: Parser, i: nat, s: string, fuel: nat)
    requires WellFormedEnv(env)
    requires i <= |s|
    ensures Run(env, p, i, s, fuel).Matched? ==> i <= Run(env, p, i, s, fuel).end <= |s|
    decreases fuel, p
  {
    match p
    case Lit(t) =>
    case Pat(src, flags) =>
      var m := env.exec(src, flags, SliceFrom(s, i));
      if m.Some? {
        assert |Chosen(m.value)| <= |s[i..]|;
      }
    case Opt(q) => Monotone(env, q, i, s, fuel);
    case Space(q) => Monotone(env, q, i, s, fuel);
    case Or(ps) => MonotoneOr(env, ps, i, s, fuel);
    case And(ps) => MonotoneSeq(env, ps, i, s, fuel);
    case Tree(q, _) => Monotone(env, q, i, s, fuel);
    case Ref(n) =>
      if fuel > 0 {
        Monotone(env, env.rules(n), i, s, fuel - 1);
      }
  }

  lemma {:induction false} MonotoneOr(env: Env, ps: seq<Parser>, i: nat, s: string, fuel: nat)
    requires WellFormedEnv(env)
    requires i <= |s|
    ensures RunOr(env, ps, i, s, fuel).Matched? ==> i <= RunOr(env, ps, i, s, fuel).end <= |s|
    decreases fuel, ps
  {
    if |ps| > 0 {
      Monotone(env, ps[0], i, s, fuel);
      MonotoneOr(env, ps[1..], i, s, fuel);
    }
  }

  lemma {:induction false} MonotoneSeq(env: Env, ps: seq<Parser>, i: nat, s: string, fuel: nat)
    requires WellFormedEnv(env)
    requires i <= |s|
    ensures RunSeq(env, ps, i, s, fuel).SeqDone? ==> i <= RunSeq(env, ps, i, s, fuel).end <= |s|
    decreases fuel, ps
  {
    if |ps| > 0 {
      Monotone(env, ps[0], i, s, fuel);
      var r := Run(env, ps[0], i, s, fuel);
      if r.Matched? {
        MonotoneSeq(env, ps[1..], r.end, s, fuel);
      }
    }
  }

  /** More fuel never changes an outcome that was reached: fuel only bounds the depth of `ref` expansion. */
  lemma {:induction false} FuelAdequate(env: Env, p: Parser, i: nat, s: string, fuel: nat, more: nat)
    requires fuel <= more
    requires Run(env, p, i, s, fuel) != OutOfFuel
    ensures Run(env, p, i, s, more) == Run(env, p, i, s, fuel)
    decreases fuel, p
  {
    match p
    case Lit(_) =>
    case Pat(_, _) =>
    case Opt(q) => FuelAdequate(env, q, i, s, fuel, more);
    case Space(q) => FuelAdequate(env, q, i, s, fuel, more);
    case Or(ps) => FuelAdequateOr(env, ps, i, s, fuel, more);
    case And(ps) => FuelAdequateSeq(env, ps, i, s, fuel, more);
    case Tree(q, _) => FuelAdequate(env, q, i, s, fuel, more);
    case Ref(n) => FuelAdequate(env, env.rules(n), i, s, fuel - 1, more - 1);
  }

  lemma {:induction false} FuelAdequateOr(env: Env, ps: seq<Parser>, i: nat, s: string, fuel: nat, more: nat)
    requires fuel <= more
    requires RunOr(env, ps, i, s, fuel) != OutOfFuel
    ensures RunOr(env, ps, i, s, more) == RunOr(env, ps, i, s, fuel)
    decreases fuel, ps
  {
    if |ps| > 0 {
      FuelAdequate(env, ps[0], i, s, fuel, more);
      if Run(env, ps[0], i, s, fuel) == NoMatch {
        FuelAdequateOr(env, ps[1..], i, s, fuel, more);
      }
    }
  }

  lemma {:induction false} FuelAdequateSeq(env: Env, ps: seq<Parser>, i: nat, s: string, fuel: nat, more: nat)
    requires fuel <= more
    requires RunSeq(env, ps, i, s, fuel) != SeqOutOfFuel
    ensures RunSeq(env, ps, i, s, more) == RunSeq(env, ps, i, s, fuel)
    decreases fuel, ps
  {
    if |ps| > 0 {
      FuelAdequate(env, ps[0], i, s, fuel, more);
      var r := Run(env, ps[0], i, s, fuel);
      if r.Matched? {
        FuelAdequateSeq(env, ps[1..], r.end, s, fuel, more);
      }
    }
  }
}
