/**
 * A pattern of ordinary bytes matches exactly itself: its automaton is a chain
 * of one literal fragment per byte, and `check` walks that chain to the end of
 * the input. The tables of TestSimpleNfa in gorgex_test.go are instances.
 */
module LiteralMatch {
  import opened Wrappers
  import opened Syntax
  import opened Automaton
  import opened ParseSpec
  import opened ParseProperties
  import opened BuildSpec
  import opened BuildProperties
  import opened Matcher
  import opened Gorgex

  /** The bytes that collide with the epsilon symbol and the two text sentinels. */
  predicate Reserved(b: Byte)
  {
    b == Epsilon || b == StartOfText || b == EndOfText
  }

  predicate Ordinary(s: seq<Byte>)
  {
    forall i :: 0 <= i < |s| ==> !Reserved(s[i])
  }

  /** Where the fragment of the `i`-th byte starts and ends in the chain. */
  function In(i: nat): nat { 2 * i }
  function Out(i: nat): nat { 2 * i + 1 }

  function LiteralState(b: Byte, exit: nat): State
  {
    State(false, false, map[b := [exit]])
  }

  function EpsilonState(next: nat): State
  {
    State(false, false, map[Epsilon := [next]])
  }

  /**
   * The arena of a chain of literals: byte `i` leads from `In(i)` to `Out(i)`,
   * an epsilon edge from `Out(i)` to `In(i + 1)`, and `In(|re|)`, `Out(|re|)` are
   * the start and the accepting state.
   */
  predicate Chained(a: seq<State>, re: seq<Byte>)
  {
    && |re| > 0
    && |a| == Out(|re|) + 1
    && (forall i :: 0 <= i < |re| ==> a[In(i)] == LiteralState(re[i], Out(i)))
    && (forall i :: 0 <= i < |re| ==> a[Out(i)] == EpsilonState(if i + 1 < |re| then In(i + 1) else Out(|re|)))
    && a[In(|re|)] == State(true, false, map[Epsilon := [0]])
    && a[Out(|re|)] == State(false, true, map[])
  }

  /** The body `toNfa` has built after the first `i` literals. */
  function Body(re: seq<Byte>, i: nat): (s: seq<State>)
    requires 0 < i <= |re|
    ensures |s| == 2 * i
  {
    if i == 1 then [LiteralState(re[0], 1), Blank]
    else Body(re, i - 1)[Out(i - 2) := EpsilonState(In(i - 1))] + [LiteralState(re[i - 1], Out(i - 1)), Blank]
  }

  lemma {:induction false} BodyShape(re: seq<Byte>, i: nat)
    requires 0 < i <= |re|
    ensures forall k :: 0 <= k < i ==> Body(re, i)[In(k)] == LiteralState(re[k], Out(k))
    ensures forall k :: 0 <= k < i - 1 ==> Body(re, i)[Out(k)] == EpsilonState(In(k + 1))
    ensures Body(re, i)[Out(i - 1)] == Blank
  {
    if i > 1 {
      BodyShape(re, i - 1);
    }
  }

  /** The fragment of one literal: its entry reads the byte into its blank exit. */
  lemma LeafLiteral(a: seq<State>, b: Byte)
    ensures BuildLeaf(a, Literal(b)) == Fragment(a + [LiteralState(b, |a| + 1), Blank], |a|, |a| + 1)
  {
    var s := a + [Blank, Blank];
    assert s[|a|] == Blank;
    assert SetTargets(s, |a|, b, [|a| + 1]) == a + [LiteralState(b, |a| + 1), Blank];
  }

  /** Linking a blank exit to the next entry turns it into an epsilon state. */
  lemma LinkBlank(a: seq<State>, tail: seq<State>, k: nat, t: nat)
    requires k < |a| && a[k] == Blank
    ensures AppendTarget(a + tail, k, Epsilon, t) == a[k := EpsilonState(t)] + tail
  {
    assert (a + tail)[k] == Blank;
    assert [] + [t] == [t];
  }

  /** One round of the loop of `toNfa` over the literals. */
  lemma ChainStep(re: seq<Byte>, i: nat)
    requires 0 < i < |re|
    ensures Chain(Body(re, i), Literal(re[i]), Out(i - 1)) == Ok(Fragment(Body(re, i + 1), In(i), Out(i)))
  {
    var a := Body(re, i);
    BodyShape(re, i);
    LeafLiteral(a, re[i]);
    assert Build(a, Literal(re[i])) == Ok(BuildLeaf(a, Literal(re[i])));
    LinkBlank(a, [LiteralState(re[i], Out(i)), Blank], Out(i - 1), In(i));
  }

  lemma {:induction false} ChainLoop(re: seq<Byte>, i: nat)
    requires 0 < i <= |re|
    ensures BuildSeq(Body(re, i), Literals(re), i, 0, Out(i - 1)) == Ok(Fragment(Body(re, |re|), 0, Out(|re| - 1)))
    decreases |re| - i
  {
    if i < |re| {
      ChainStep(re, i);
      ChainLoop(re, i + 1);
    }
  }

  /** `Wrapped` keeps the body but for the last exit, and appends the start and the accepting state. */
  lemma WrappedKeeps(body: seq<State>, entry: nat, exit: nat)
    requires exit < |body|
    ensures var r := Wrapped(body, entry, exit);
            && (forall j :: 0 <= j < |body| && j != exit ==> r[j] == body[j])
            && r[|body|] == State(true, false, map[Epsilon := [entry]])
            && r[|body| + 1] == State(false, true, map[])
  {
  }

  /** A blank last exit gets one epsilon edge, to the accepting state. */
  lemma WrappedExit(body: seq<State>, entry: nat, exit: nat)
    requires exit < |body| && body[exit] == Blank
    ensures Wrapped(body, entry, exit)[exit] == EpsilonState(|body| + 1)
  {
    var s := body + [State(true, false, map[Epsilon := [entry]]), State(false, true, map[])];
    assert s[exit] == Blank;
    assert [] + [|body| + 1] == [|body| + 1];
  }

  /** The chain is what `toNfa` finishes from the body of all the literals. */
  lemma WrappedChain(re: seq<Byte>)
    requires |re| > 0
    ensures Chained(Wrapped(Body(re, |re|), 0, Out(|re| - 1)), re)
  {
    BodyShape(re, |re|);
    WrappedBody(Body(re, |re|), re);
  }

  /** `Wrapped` of any arena laid out as the body of the literals of `re`. */
  lemma WrappedBody(body: seq<State>, re: seq<Byte>)
    requires |re| > 0 && |body| == 2 * |re|
    requires forall k :: 0 <= k < |re| ==> body[In(k)] == LiteralState(re[k], Out(k))
    requires forall k :: 0 <= k < |re| - 1 ==> body[Out(k)] == EpsilonState(In(k + 1))
    requires body[Out(|re| - 1)] == Blank
    ensures Chained(Wrapped(body, 0, Out(|re| - 1)), re)
  {
    var n := |re|;
    var r := Wrapped(body, 0, Out(n - 1));
    WrappedKeeps(body, 0, Out(n - 1));
    WrappedExit(body, 0, Out(n - 1));
    forall i | 0 <= i < n
      ensures r[In(i)] == LiteralState(re[i], Out(i))
    {
      assert r[In(i)] == body[In(i)];
    }
    forall i | 0 <= i < n
      ensures r[Out(i)] == EpsilonState(if i + 1 < n then In(i + 1) else Out(n))
    {
      if i + 1 < n {
        assert r[Out(i)] == body[Out(i)];
      }
    }
  }

  /** `toNfa` of a literal sequence builds the chain. */
  lemma LiteralsNfa(re: seq<Byte>)
    requires |re| > 0
    ensures ToNfa(Literals(re)) == Ok(Nfa(Wrapped(Body(re, |re|), 0, Out(|re| - 1)), In(|re|)))
  {
    var tokens := Literals(re);
    var first := BuildLeaf([], tokens[0]);
    assert Build([], tokens[0]) == Ok(first);
    assert first.states == Body(re, 1);
    ChainLoop(re, 1);
  }
}
