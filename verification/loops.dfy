/**
 * The `for` loops of `or` and `and` as the source writes them, proved to
 * compute what `Run` gives the combinators.
 */
module CombinatorLoops {
  import opened Values
  import opened Combinators
  import opened CombinatorLaws

  /** The loop of `or`: return the first child result that is not `null`, else `null`. */
  method OrLoop(env: Env, ps: seq<Parser>, i: nat, s: string, fuel: nat) returns (o: Outcome)
    ensures o == Run(env, Or(ps), i, s, fuel)
  {
    var k := 0;
    while k < |ps|
      invariant 0 <= k <= |ps|
      invariant RunOr(env, ps, i, s, fuel) == RunOr(env, ps[k..], i, s, fuel)
    {
      var r := Run(env, ps[k], i, s, fuel);
      if !r.NoMatch? {
        return r;
      }
      assert ps[k..][1..] == ps[k + 1..];
      k := k + 1;
    }
    return NoMatch;
  }

  /**
   * The loop of `and`: thread the index through the children, push the items
   * of each non-space child, and give up at the first child that fails.
   */
  method AndLoop(env: Env, ps: seq<Parser>, i: nat, s: string, fuel: nat) returns (o: Outcome)
    ensures o == Run(env, And(ps), i, s, fuel)
  {
    var res: seq<Value> := [];
    var at := i;
    var k := 0;
    while k < |ps|
      invariant 0 <= k <= |ps|
      invariant RunSeq(env, ps[..k], i, s, fuel) == SeqDone(at, res)
    {
      var r := Run(env, ps[k], at, s, fuel);
      SeqSnoc(env, ps[..k], ps[k], i, s, fuel);
      assert ps[..k + 1] == ps[..k] + [ps[k]];
      SeqPrefixStops(env, ps, k + 1, i, s, fuel);
      if r.NoMatch? {
        return NoMatch;
      } else if r.OutOfFuel? {
        return OutOfFuel;
      }
      at := r.end;
      res := res + Items(r.value, r.space);
      k := k + 1;
    }
    assert ps[..k] == ps;
    return Matched(at, Arr(res), false);
  }

  /** Once a prefix of the children fails (or runs out of fuel), so does the whole sequence. */
  lemma {:induction false} SeqPrefixStops(env: Env, ps: seq<Parser>, k: nat, i: nat, s: string, fuel: nat)
    requires k <= |ps|
    ensures RunSeq(env, ps[..k], i, s, fuel) == SeqFail ==> RunSeq(env, ps, i, s, fuel) == SeqFail
    ensures RunSeq(env, ps[..k], i, s, fuel) == SeqOutOfFuel ==> RunSeq(env, ps, i, s, fuel) == SeqOutOfFuel
    decreases |ps| - k
  {
    if k < |ps| {
      SeqSnoc(env, ps[..k], ps[k], i, s, fuel);
      assert ps[..k + 1] == ps[..k] + [ps[k]];
      SeqPrefixStops(env, ps, k + 1, i, s, fuel);
    } else {
      assert ps[..k] == ps;
    }
  }
}
