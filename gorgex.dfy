/**
 * The pipeline the package's tests drive: `parse` the pattern, `toNfa` its
 * tokens, then `check` the input from the start state at position -1.
 */
module Gorgex {
  import opened Wrappers
  import opened Syntax
  import opened Automaton
  import opened ParseSpec
  import opened BuildSpec
  import opened BuildProperties
  import opened BuildShape
  import opened Matcher
  import opened MatchProperties

  /**
   * `toNfa(parse(re)).check(input, -1)` with a bound on the depth of the walk;
   * a panic of the parser or of `toNfa` is an `Err`.
   */
  function Matches(re: seq<Byte>, input: seq<Byte>, fuel: nat): (r: Result<Option<bool>, PatternError>)
    ensures r.Err? <==> Parse(re).Err? || |Parse(re).value.tokens| == 0 || !AllBuildable(Parse(re).value.tokens)
  {
    var c :- Parse(re);
    ToNfaPlaced(c.tokens);
    var nfa :- ToNfa(c.tokens);
    ToNfaShape(c.tokens);
    Ok(Check(nfa.states, nfa.start, input, -1, fuel))
  }

  /** The pattern parses, builds, and some run from the start state at position -1 accepts the input. */
  ghost predicate Language(re: seq<Byte>, input: seq<Byte>)
  {
    var c := Parse(re);
    && c.Ok?
    && var nfa := ToNfa(c.value.tokens);
       && nfa.Ok?
       && Accepts(nfa.value.states, input, Config(nfa.value.start, -1))
  }

  /** An answer of the pipeline is right, and a larger bound does not change it. */
  lemma MatchesCorrect(re: seq<Byte>, input: seq<Byte>, fuel: nat, more: nat)
    requires Matches(re, input, fuel).Ok? && Matches(re, input, fuel).value.Some? && fuel <= more
    ensures Matches(re, input, fuel).value.value <==> Language(re, input)
    ensures Matches(re, input, more) == Matches(re, input, fuel)
  {
    var c := Parse(re).value;
    ToNfaPlaced(c.tokens);
    ToNfaShape(c.tokens);
    var nfa := ToNfa(c.tokens).value;
    CheckCorrect(nfa.states, nfa.start, input, -1, fuel);
    CheckMonotone(nfa.states, nfa.start, input, -1, fuel, more);
  }
}
