/**
 * The walk of `check` along the chain of a literal pattern: each byte of the
 * input that agrees with the pattern moves the walk one fragment on, and the
 * walk accepts exactly at the end of an input equal to the pattern.
 */
module LiteralWalk {
  import opened Wrappers
  import opened Syntax
  import opened Automaton
  import opened ParseSpec
  import opened ParseProperties
  import opened BuildSpec
  import opened BuildProperties
  import opened Matcher
  import opened Gorgex
  import opened LiteralMatch

  /** `check` on a state whose only edge reads byte `b`: that edge or nothing. */
  lemma LiteralStep(a: seq<State>, s: nat, b: Byte, exit: nat, input: seq<Byte>, pos: int, fuel: nat)
    requires Closed(a) && s < |a| && exit < |a| && a[s] == LiteralState(b, exit) && b != Epsilon && fuel > 0
    ensures Check(a, s, input, pos, fuel) == if GetChar(input, pos) == b then Check(a, exit, input, pos + 1, fuel - 1) else Some(false)
  {
    assert Targets(a[s], Epsilon) == [];
  }

  /** `check` on a state whose only edge is an epsilon edge, away from the start of text. */
  lemma EpsilonStep(a: seq<State>, s: nat, next: nat, input: seq<Byte>, pos: int, fuel: nat)
    requires Closed(a) && s < |a| && next < |a| && a[s] == EpsilonState(next) && fuel > 0
    requires GetChar(input, pos) != Epsilon && GetChar(input, pos) != StartOfText
    ensures Check(a, s, input, pos, fuel) == Check(a, next, input, pos, fuel - 1)
  {
    var ch := GetChar(input, pos);
    assert Targets(a[s], ch) == [];
    assert Targets(a[s], Epsilon) == [next];
    assert CheckEpsilon(a, [], ch, input, pos, fuel - 1) == Some(false);
    assert [next][1..] == [];
  }

  /** `check` on the accepting state: true exactly at the end-of-text symbol. */
  lemma AcceptStep(a: seq<State>, s: nat, input: seq<Byte>, pos: int, fuel: nat)
    requires Closed(a) && s < |a| && a[s] == State(false, true, map[]) && fuel > 0
    ensures Check(a, s, input, pos, fuel) == Some(GetChar(input, pos) == EndOfText)
  {
    assert Targets(a[s], GetChar(input, pos)) == [] && Targets(a[s], Epsilon) == [];
  }

  /** The input has the pattern's length and agrees with it from position `i` on. */
  predicate SameFrom(input: seq<Byte>, re: seq<Byte>, i: nat)
  {
    |input| == |re| && forall j :: i <= j < |re| ==> input[j] == re[j]
  }

  /** From the entry of byte `i` at position `i`, the chain accepts exactly when the rest of the input is the rest of the pattern. */
  lemma {:induction false} CheckChain(a: seq<State>, re: seq<Byte>, input: seq<Byte>, i: nat, fuel: nat)
    requires Chained(a, re) && Closed(a) && Ordinary(re) && Ordinary(input)
    requires i < |re| && i <= |input| && fuel >= 2 * (|re| - i) + 1
    ensures Check(a, In(i), input, i, fuel) == Some(SameFrom(input, re, i))
    decreases |re| - i, 1
  {
    if i + 1 < |re| && i < |input| && input[i] == re[i] {
      ChainNext(a, re, input, i, fuel);
    } else {
      ChainStop(a, re, input, i, fuel);
    }
  }

  /** A matching byte other than the last: the answer is the one from the next entry. */
  lemma {:induction false} ChainNext(a: seq<State>, re: seq<Byte>, input: seq<Byte>, i: nat, fuel: nat)
    requires Chained(a, re) && Closed(a) && Ordinary(re) && Ordinary(input)
    requires i + 1 < |re| && i < |input| && input[i] == re[i] && fuel >= 2 * (|re| - i) + 1
    ensures Check(a, In(i), input, i, fuel) == Some(SameFrom(input, re, i))
    decreases |re| - i, 0
  {
    var rest := fuel - 2;
    CheckChain(a, re, input, i + 1, rest);
    assert Check(a, In(i + 1), input, i + 1, rest) == Some(SameFrom(input, re, i + 1));
    ChainInduct(a, re, input, i, fuel);
  }

  /** Where the induction stops: at a mismatch, or after the last byte. */
  lemma ChainStop(a: seq<State>, re: seq<Byte>, input: seq<Byte>, i: nat, fuel: nat)
    requires Chained(a, re) && Closed(a) && Ordinary(re) && Ordinary(input)
    requires i < |re| && i <= |input| && fuel >= 3
    requires !(i + 1 < |re| && i < |input| && input[i] == re[i])
    ensures Check(a, In(i), input, i, fuel) == Some(SameFrom(input, re, i))
  {
    if !(i < |input| && input[i] == re[i]) {
      ChainMismatch(a, re, input, i, fuel);
    } else {
      ChainFinal(a, re, input, fuel);
    }
  }

  /** The step of the induction: a matching byte passes the answer of the next entry back. */
  lemma ChainInduct(a: seq<State>, re: seq<Byte>, input: seq<Byte>, i: nat, fuel: nat)
    requires Chained(a, re) && Closed(a) && Ordinary(re) && Ordinary(input)
    requires i + 1 < |re| && i < |input| && input[i] == re[i] && fuel >= 5
    requires Check(a, In(i + 1), input, i + 1, fuel - 2) == Some(SameFrom(input, re, i + 1))
    ensures Check(a, In(i), input, i, fuel) == Some(SameFrom(input, re, i))
  {
    ChainAdvance(a, re, input, i, fuel);
    SameFromStep(input, re, i);
  }

  /** A matching byte other than the last takes the walk to the entry of the next byte. */
  lemma ChainAdvance(a: seq<State>, re: seq<Byte>, input: seq<Byte>, i: nat, fuel: nat)
    requires Chained(a, re) && Closed(a) && Ordinary(input)
    requires i + 1 < |re| && i < |input| && input[i] == re[i] && !Reserved(re[i]) && fuel >= 3
    ensures Check(a, In(i), input, i, fuel) == Check(a, In(i + 1), input, i + 1, fuel - 2)
  {
    ChainLiteral(a, re, input, i, fuel);
    ChainEpsilon(a, re, input, i, fuel - 1);
  }

  /** A matching byte takes the walk from the entry to the exit of its fragment. */
  lemma ChainLiteral(a: seq<State>, re: seq<Byte>, input: seq<Byte>, i: nat, fuel: nat)
    requires Chained(a, re) && Closed(a)
    requires i < |re| && i < |input| && input[i] == re[i] && !Reserved(re[i]) && fuel >= 1
    ensures Check(a, In(i), input, i, fuel) == Check(a, Out(i), input, i + 1, fuel - 1)
  {
    assert a[In(i)] == LiteralState(re[i], Out(i));
    LiteralStep(a, In(i), re[i], Out(i), input, i, fuel);
  }

  /** The exit of a fragment other than the last leads to the entry of the next. */
  lemma ChainEpsilon(a: seq<State>, re: seq<Byte>, input: seq<Byte>, i: nat, fuel: nat)
    requires Chained(a, re) && Closed(a) && Ordinary(input)
    requires i + 1 < |re| && i < |input| && fuel >= 1
    ensures Check(a, Out(i), input, i + 1, fuel) == Check(a, In(i + 1), input, i + 1, fuel - 1)
  {
    assert a[Out(i)] == EpsilonState(In(i + 1));
    EpsilonStep(a, Out(i), In(i + 1), input, i + 1, fuel);
  }

  /** A matching last byte: the walk accepts exactly when the input ends there. */
  lemma ChainFinal(a: seq<State>, re: seq<Byte>, input: seq<Byte>, fuel: nat)
    requires Chained(a, re) && Closed(a) && Ordinary(re) && Ordinary(input)
    requires |re| <= |input| && input[|re| - 1] == re[|re| - 1] && fuel >= 3
    ensures Check(a, In(|re| - 1), input, |re| - 1, fuel) == Some(SameFrom(input, re, |re| - 1))
  {
    ChainLiteral(a, re, input, |re| - 1, fuel);
    ChainLast(a, re, input, fuel - 1);
  }

  /** After the last fragment the walk accepts exactly at the end of the input. */
  lemma ChainLast(a: seq<State>, re: seq<Byte>, input: seq<Byte>, fuel: nat)
    requires Chained(a, re) && Closed(a) && Ordinary(input)
    requires |re| <= |input| && fuel >= 2
    ensures Check(a, Out(|re| - 1), input, |re|, fuel) == Some(|input| == |re|)
  {
    var n := |re|;
    assert a[Out(n - 1)] == EpsilonState(Out(n));
    EpsilonStep(a, Out(n - 1), Out(n), input, n, fuel);
    AcceptStep(a, Out(n), input, n, fuel - 1);
  }

  /** A byte other than the pattern's, or the end of the input, stops the walk. */
  lemma ChainMismatch(a: seq<State>, re: seq<Byte>, input: seq<Byte>, i: nat, fuel: nat)
    requires Chained(a, re) && Closed(a) && Ordinary(re)
    requires i < |re| && i <= |input| && !(i < |input| && input[i] == re[i]) && fuel >= 1
    ensures Check(a, In(i), input, i, fuel) == Some(false) && !SameFrom(input, re, i)
  {
    assert a[In(i)] == LiteralState(re[i], Out(i));
    LiteralStep(a, In(i), re[i], Out(i), input, i, fuel);
  }

  lemma SameFromStep(input: seq<Byte>, re: seq<Byte>, i: nat)
    requires i < |input| && i < |re| && input[i] == re[i]
    ensures SameFrom(input, re, i) <==> SameFrom(input, re, i + 1)
  {
  }

  /**
   * A nonempty pattern without metacharacters or reserved bytes accepts an
   * input without reserved bytes exactly when the input is the pattern itself.
   */
  lemma LiteralPattern(re: seq<Byte>, input: seq<Byte>, fuel: nat)
    requires |re| > 0 && Ordinary(re) && Ordinary(input)
    requires forall j :: 0 <= j < |re| ==> Plain(re[j])
    requires fuel >= 2 * |re| + 2
    ensures Matches(re, input, fuel) == Ok(Some(input == re))
  {
    ParsePlain(re);
    LiteralsNfa(re);
    var tokens := Literals(re);
    ToNfaPlaced(tokens);
    BuildShape.ToNfaShape(tokens);
    var a := Wrapped(Body(re, |re|), 0, Out(|re| - 1));
    assert Matches(re, input, fuel) == Ok(Check(a, In(|re|), input, -1, fuel));
    WrappedChain(re);
    StartSteps(a, re, input, fuel);
    assert SameFrom(input, re, 0) <==> input == re;
  }

  /**
   * From the start state at position -1 the first byte's literal edge fails on
   * the start-of-text symbol, and the epsilon edge taken one position on reaches
   * the entry of the first byte at position 0.
   */
  lemma StartStep(a: seq<State>, re: seq<Byte>, input: seq<Byte>, fuel: nat)
    requires Chained(a, re) && Closed(a) && !Reserved(re[0]) && fuel >= 3
    ensures Check(a, In(|re|), input, -1, fuel) == Check(a, In(0), input, 0, fuel - 1)
  {
    var n := |re|;
    assert a[In(0)] == LiteralState(re[0], Out(0));
    LiteralStep(a, In(0), re[0], Out(0), input, -1, fuel - 1);
    StartEdge(a, In(n), In(0), input, fuel);
  }

  /**
   * `check` on the start state at position -1, whose epsilon edge fails at
   * that position: the edge is taken again one position on.
   */
  lemma StartEdge(a: seq<State>, s: nat, next: nat, input: seq<Byte>, fuel: nat)
    requires Closed(a) && s < |a| && next < |a| && a[s] == State(true, false, map[Epsilon := [next]]) && fuel >= 2
    requires Check(a, next, input, -1, fuel - 1) == Some(false)
    ensures Check(a, s, input, -1, fuel) == Check(a, next, input, 0, fuel - 1)
  {
    var ts := Targets(a[s], Epsilon);
    assert ts == [next];
    assert Targets(a[s], StartOfText) == [];
    assert Check(a, s, input, -1, fuel) == CheckEpsilon(a, ts, StartOfText, input, -1, fuel - 1);
    assert CheckEpsilon(a, ts[1..], StartOfText, input, -1, fuel - 1) == Some(false);
  }

  /** The whole walk from the start state. */
  lemma StartSteps(a: seq<State>, re: seq<Byte>, input: seq<Byte>, fuel: nat)
    requires Chained(a, re) && Closed(a)
    requires Ordinary(re) && Ordinary(input) && fuel >= 2 * |re| + 2
    ensures Check(a, In(|re|), input, -1, fuel) == Some(SameFrom(input, re, 0))
  {
    var rest := fuel - 1;
    CheckChain(a, re, input, 0, rest);
    assert Check(a, In(0), input, 0, rest) == Some(SameFrom(input, re, 0));
    StartStep(a, re, input, fuel);
  }
}
