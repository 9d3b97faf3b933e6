/**
 * The parser-combinator runtime of src/index.ts. Every combinator of the
 * source is a function `(i, s) => [end, value] | [end, null, "space"] | null`;
 * here a combinator is a `Parser` value and `Run` gives it that meaning.
 */
module Combinators {
  import opened Wrappers
  import opened Values
  import opened JsStrings

  /** What the host regular-expression engine reports for `input.match(anchoredRegex)`: elements 0 and 1 of the match array. */
  datatype RegexHit = RegexHit(whole: string, group1: Option<string>)

  datatype Parser =
    | Lit(text: string)                     // token("...")
    | Pat(source: string, flags: string)    // token(/source/flags)
    | Opt(inner: Parser)                    // option(p)
    | Space(inner: Parser)                  // space(p)
    | Or(alts: seq<Parser>)                 // or(...ps)
    | And(parts: seq<Parser>)               // and(...ps)
    | Tree(inner: Parser, builder: nat)     // tree(p, builders[builder])
    | Ref(name: string)                     // ref(() => rules[name])

  /**
   * Everything a parser closes over that is not a parser: the thunks behind
   * `ref` (total, like a JavaScript closure), the `tree` builder callbacks, and
   * the regular-expression engine, which is an oracle taking the pattern's
   * source, its flags and the remaining input.
   */
  datatype Env = Env(
    rules: string -> Parser,
    build: nat -> Value -> Value,
    exec: (string, string, string) -> Option<RegexHit>)

  /**
   * The result of one application. `Matched` is the source's tuple, with
   * `space` standing for the trailing "space" tag; `NoMatch` is `null`.
   * `OutOfFuel` is not a source outcome: it stands for a `ref` chain deeper
   * than the fuel given (the source would recurse until the stack overflows).
   */
  datatype Outcome = Matched(end: nat, value: Value, space: bool) | NoMatch | OutOfFuel

  /** The outcome of running a sequence of children: their end index and flattened items. */
  datatype SeqOutcome = SeqDone(end: nat, items: seq<Value>) | SeqFail | SeqOutOfFuel

  /** `m[1] ?? m[0]`: the first group when the engine reports one, otherwise the whole match. */
  function Chosen(h: RegexHit): string {
    h.group1.GetOr(h.whole)
  }

  /** Applies parser `p` at index `i` of `s`; every `ref` expansion spends one unit of fuel. */
  function Run(env: Env, p: Parser, i: nat, s: string, fuel: nat): Outcome
    decreases fuel, p
  {
    match p
    case Lit(t) =>
      if StartsWith(s, t, i) then Matched(i + |t|, Str(t), false) else NoMatch
    case Pat(src, flags) =>
      (match env.exec(src, flags, SliceFrom(s, i))
       case None => NoMatch
       case Some(h) => Matched(i + |Chosen(h)|, Str(Chosen(h)), false))
    case Opt(q) =>
      (match Run(env, q, i, s, fuel)
       case Matched(j, v, _) => Matched(j, v, false)
       case NoMatch => Matched(i, Null, false)
       case OutOfFuel => OutOfFuel)
    case Space(q) =>
      (match Run(env, q, i, s, fuel)
       case Matched(j, _, _) => Matched(j, Null, true)
       case other => other)
    case Or(ps) =>
      RunOr(env, ps, i, s, fuel)
    case And(ps) =>
      (match RunSeq(env, ps, i, s, fuel)
       case SeqDone(j, xs) => Matched(j, Arr(xs), false)
       case SeqFail => NoMatch
       case SeqOutOfFuel => OutOfFuel)
    case Tree(q, b) =>
      (match Run(env, q, i, s, fuel)
       case Matched(j, v, _) =>
         var node := env.build(b)(AsArray(v));
         if Truthy(node) then Matched(j, node, false) else NoMatch
       case other => other)
    case Ref(n) =>
      if fuel == 0 then OutOfFuel else Run(env, env.rules(n), i, s, fuel - 1)
  }

  /** `or`: the first child outcome that is not `null`, returned as it is. */
  function RunOr(env: Env, ps: seq<Parser>, i: nat, s: string, fuel: nat): Outcome
    decreases fuel, ps
  {
    if |ps| == 0 then NoMatch
    else
      var r := Run(env, ps[0], i, s, fuel);
      if r.NoMatch? then RunOr(env, ps[1..], i, s, fuel) else r
  }

  /** The body of `and`: each child starts where the previous one ended. */
  function RunSeq(env: Env, ps: seq<Parser>, i: nat, s: string, fuel: nat): SeqOutcome
    decreases fuel, ps
  {
    if |ps| == 0 then SeqDone(i, [])
    else
      match Run(env, ps[0], i, s, fuel)
      case NoMatch => SeqFail
      case OutOfFuel => SeqOutOfFuel
      case Matched(j, v, sp) =>
        match RunSeq(env, ps[1..], j, s, fuel)
        case SeqDone(k, rest) => SeqDone(k, Items(v, sp) + rest)
        case other => other
  }
}
