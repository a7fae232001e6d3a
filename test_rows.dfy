/**
 * Rows of the package's test table, carried through the whole pipeline:
 * the tokens `parse` produces, the arena `toNfa` builds from them, and the
 * answer of `check` on the input, for `ab?c`, `ab+c` and `ab[cd]`.
 */
module TestRows {
  import opened Wrappers
  import opened Syntax
  import opened Automaton
  import opened ParseSpec
  import opened ParseProperties
  import opened BuildSpec
  import opened BuildShape
  import opened Matcher
  import opened Gorgex
  import opened LiteralMatch
  import opened LiteralWalk

  // Parsing, one byte at a time.

  /** One round of the loop of `parse`. */
  lemma LoopStep(re: seq<Byte>, c: Cursor, d: Cursor)
    requires c.pos < |re| && Process(re, c) == Ok(d)
    ensures ParseLoop(re, c) == ParseLoop(re, d.(pos := d.pos + 1))
  {
  }

  /** A byte that is no metacharacter becomes a literal token. */
  lemma LiteralByte(re: seq<Byte>, c: Cursor)
    requires c.pos < |re| && Plain(re[c.pos])
    ensures Process(re, c) == Ok(Cursor(c.pos, c.tokens + [Literal(re[c.pos])]))
  {
  }

  /** `a`, `b`, a postfix quantifier `q`, `c`: the quantifier wraps the `b`. */
  lemma ParseQuantified(q: Byte)
    requires q in {Star, Question, Plus}
    ensures var min := if q == Plus then 1 else 0;
            var max := if q == Question then 1 else RepeatInfinity;
            Parse([97, 98, q, 99]) == Ok(Cursor(4, [Literal(97), Repeat(min, max, Literal(98)), Literal(99)]))
  {
    var re: seq<Byte> := [97, 98, q, 99];
    var min := if q == Plus then 1 else 0;
    var max := if q == Question then 1 else RepeatInfinity;
    var r := Repeat(min, max, Literal(98));
    assert re[0] == 97 && re[1] == 98 && re[2] == q && re[3] == 99;
    LiteralByte(re, Cursor(0, []));
    assert [] + [Literal(97)] == [Literal(97)];
    LoopStep(re, Cursor(0, []), Cursor(0, [Literal(97)]));
    LiteralByte(re, Cursor(1, [Literal(97)]));
    assert [Literal(97)] + [Literal(98)] == [Literal(97), Literal(98)];
    LoopStep(re, Cursor(1, [Literal(97)]), Cursor(1, [Literal(97), Literal(98)]));
    PostfixQuantifier(re, Cursor(2, [Literal(97), Literal(98)]));
    assert [Literal(97), Literal(98)][..1] + [r] == [Literal(97), r];
    LoopStep(re, Cursor(2, [Literal(97), Literal(98)]), Cursor(2, [Literal(97), r]));
    LiteralByte(re, Cursor(3, [Literal(97), r]));
    assert [Literal(97), r] + [Literal(99)] == [Literal(97), r, Literal(99)];
    LoopStep(re, Cursor(3, [Literal(97), r]), Cursor(3, [Literal(97), r, Literal(99)]));
  }

  /** `ab[cd]`: two literals, then the bracket of `c` and `d`. */
  lemma ParseClass()
    ensures Parse([97, 98, LBracket, 99, 100, RBracket])
         == Ok(Cursor(6, [Literal(97), Literal(98), Bracket({99, 100})]))
  {
    var re: seq<Byte> := [97, 98, LBracket, 99, 100, RBracket];
    assert re[0] == 97 && re[1] == 98 && re[2] == LBracket && re[5] == RBracket;
    LiteralByte(re, Cursor(0, []));
    assert [] + [Literal(97)] == [Literal(97)];
    LoopStep(re, Cursor(0, []), Cursor(0, [Literal(97)]));
    LiteralByte(re, Cursor(1, [Literal(97)]));
    assert [Literal(97)] + [Literal(98)] == [Literal(97), Literal(98)];
    LoopStep(re, Cursor(1, [Literal(97)]), Cursor(1, [Literal(97), Literal(98)]));
    PlainBracket(re, Cursor(2, [Literal(97), Literal(98)]), 5);
    assert re[3..5] == [99, 100];
    assert ByteSet(re[3..5]) == {99, 100};
    var ts := [Literal(97), Literal(98), Bracket({99, 100})];
    assert [Literal(97), Literal(98)] + [Bracket({99, 100})] == ts;
    LoopStep(re, Cursor(2, [Literal(97), Literal(98)]), Cursor(5, ts));
  }

  // Building, one token at a time.

  /** Appending to a state with one epsilon edge gives it a second one. */
  lemma AppendEpsilon(a: seq<State>, k: nat, x: nat, y: nat)
    requires k < |a| && a[k] == EpsilonState(x)
    ensures AppendTarget(a, k, Epsilon, y) == a[k := State(false, false, map[Epsilon := [x, y]])]
  {
    assert [x] + [y] == [x, y];
    assert map[Epsilon := [x]][Epsilon := [x, y]] == map[Epsilon := [x, y]];
  }

  /** An edit of a state leaves the states after it alone. */
  lemma AppendBefore(a: seq<State>, tail: seq<State>, k: nat, t: nat)
    requires k < |a|
    ensures AppendTarget(a + tail, k, Epsilon, t) == AppendTarget(a, k, Epsilon, t) + tail
  {
    assert (a + tail)[k] == a[k];
  }

  /** A literal chained after `end`: `end` gets an epsilon edge to its entry. */
  lemma ChainLiteral(a: seq<State>, b: Byte, end: nat)
    requires end < |a|
    ensures Chain(a, Literal(b), end)
         == Ok(Fragment(AppendTarget(a, end, Epsilon, |a|) + [LiteralState(b, |a| + 1), Blank], |a|, |a| + 1))
  {
    LeafLiteral(a, b);
    AppendBefore(a, [LiteralState(b, |a| + 1), Blank], end, |a|);
  }

  /** `toNfa` of three tokens, from the fragment of each. */
  lemma ThreeTokens(t0: Token, t1: Token, t2: Token, f0: Fragment, f1: Fragment, f2: Fragment)
    requires Build([], t0) == Ok(f0)
    requires Chain(f0.states, t1, f0.exit) == Ok(f1)
    requires Chain(f1.states, t2, f1.exit) == Ok(f2)
    ensures ToNfa([t0, t1, t2]) == Ok(Nfa(Wrapped(f2.states, f0.entry, f2.exit), |f2.states|))
  {
    var ts := [t0, t1, t2];
    assert ts[0] == t0 && ts[1] == t1 && ts[2] == t2;
    assert BuildSeq(f2.states, ts, 3, f0.entry, f2.exit) == Ok(Fragment(f2.states, f0.entry, f2.exit));
    assert BuildSeq(f1.states, ts, 2, f0.entry, f1.exit) == Ok(Fragment(f2.states, f0.entry, f2.exit));
    assert BuildSeq(f0.states, ts, 1, f0.entry, f0.exit) == Ok(Fragment(f2.states, f0.entry, f2.exit));
  }

  /** The start state `toNfa` appends, with its epsilon edge to `entry`. */
  function StartState(entry: nat): State { State(true, false, map[Epsilon := [entry]]) }

  /** The accepting state `toNfa` appends. */
  const Accepting: State := State(false, true, map[])

  /** `Wrapped` on a body whose last exit is blank. */
  lemma WrapBlank(body: seq<State>, entry: nat, exit: nat)
    requires exit < |body| && body[exit] == Blank
    ensures Wrapped(body, entry, exit) == body[exit := EpsilonState(|body| + 1)] + [StartState(entry), Accepting]
  {
    LinkBlank(body, [StartState(entry), Accepting], exit, |body| + 1);
  }

  /** The first fragment of every row: the literal `a`. */
  lemma FirstLiteral()
    ensures Build([], Literal(97)) == Ok(Fragment([LiteralState(97, 1), Blank], 0, 1))
  {
    LeafLiteral([], 97);
    assert [] + [LiteralState(97, 1), Blank] == [LiteralState(97, 1), Blank];
  }

  /** The state that forks to `x` and then `y`. */
  function Fork(x: nat, y: nat): State { State(false, false, map[Epsilon := [x, y]]) }

  // `ab?c`

  /** The arena of `ab?c`: `b?` forks from 2 to its exit 3 and to the copy of `b` at 4. */
  function OptionalNfa(): seq<State>
  {
    [LiteralState(97, 1), EpsilonState(2), Fork(3, 4), EpsilonState(6),
     LiteralState(98, 5), EpsilonState(3), LiteralState(99, 7), EpsilonState(9), StartState(0), Accepting]
  }

  /** The arena before `toNfa` adds the start and the accepting state. */
  function OptionalBody(): seq<State>
  {
    [LiteralState(97, 1), EpsilonState(2), Fork(3, 4), EpsilonState(6),
     LiteralState(98, 5), EpsilonState(3), LiteralState(99, 7), Blank]
  }

  /** The edge a repeat with `min == 0` gives its fresh entry: straight to its exit. */
  lemma SkipEdge(a: seq<State>)
    ensures SetTargets(a + [Blank, Blank], |a|, Epsilon, [|a| + 1]) == a + [EpsilonState(|a| + 1), Blank]
  {
    LinkBlank(a + [Blank], [Blank], |a|, |a| + 1);
    assert (a + [Blank]) + [Blank] == a + [Blank, Blank];
    assert (a + [Blank])[|a| := EpsilonState(|a| + 1)] + [Blank] == a + [EpsilonState(|a| + 1), Blank];
  }

  /** The copy of `b` in `b?`, built after the entry and the exit of the repeat. */
  lemma OptionalCopy(a: seq<State>)
    requires |a| == 2
    ensures Build(a + [EpsilonState(3), Blank], Literal(98))
         == Ok(Fragment(a + [EpsilonState(3), Blank, LiteralState(98, 5), Blank], 4, 5))
  {
    var s := a + [EpsilonState(3), Blank];
    LeafLiteral(s, 98);
    assert s + [LiteralState(98, 5), Blank] == a + [EpsilonState(3), Blank, LiteralState(98, 5), Blank];
  }

  /** The first part of the repeat case of `b?`: the edge to the exit comes before the copy. */
  lemma OptionalHead(a: seq<State>)
    requires |a| == 2
    ensures RepeatHead(a, Repeat(0, 1, Literal(98)))
         == Ok(Fragment(a + [Fork(3, 4), Blank, LiteralState(98, 5), Blank], 4, 5))
  {
    SkipEdge(a);
    OptionalCopy(a);
    var f := a + [EpsilonState(3), Blank, LiteralState(98, 5), Blank];
    AppendEpsilon(f, 2, 3, 4);
    assert f[2 := Fork(3, 4)] == a + [Fork(3, 4), Blank, LiteralState(98, 5), Blank];
  }

  /** `b?` builds one copy, whose exit leads back to the exit of the repeat. */
  lemma OptionalRepeat(a: seq<State>)
    requires |a| == 2
    ensures Build(a, Repeat(0, 1, Literal(98)))
         == Ok(Fragment(a + [Fork(3, 4), Blank, LiteralState(98, 5), EpsilonState(3)], 2, 3))
  {
    var h := a + [Fork(3, 4), Blank, LiteralState(98, 5), Blank];
    OptionalHead(a);
    assert BuildCopies(h, Literal(98), 0, 3, 2, 1, 4, 5) == Ok(Fragment(h, 4, 5));
    LinkBlank(h, [], 5, 3);
    assert h + [] == h;
    assert h[5 := EpsilonState(3)] + [] == a + [Fork(3, 4), Blank, LiteralState(98, 5), EpsilonState(3)];
  }

  /** The literal `a`, then `b?` chained after it. */
  lemma OptionalSecond()
    ensures Chain([LiteralState(97, 1), Blank], Repeat(0, 1, Literal(98)), 1)
         == Ok(Fragment([LiteralState(97, 1), EpsilonState(2), Fork(3, 4), Blank, LiteralState(98, 5), EpsilonState(3)], 2, 3))
  {
    var a0 := [LiteralState(97, 1), Blank];
    OptionalRepeat(a0);
    var tail := [Fork(3, 4), Blank, LiteralState(98, 5), EpsilonState(3)];
    LinkBlank(a0, tail, 1, 2);
    assert a0[1 := EpsilonState(2)] + tail
        == [LiteralState(97, 1), EpsilonState(2), Fork(3, 4), Blank, LiteralState(98, 5), EpsilonState(3)];
  }

  /** Then `c`, chained after the exit of the repeat. */
  lemma OptionalThird()
    ensures Chain([LiteralState(97, 1), EpsilonState(2), Fork(3, 4), Blank, LiteralState(98, 5), EpsilonState(3)], Literal(99), 3)
         == Ok(Fragment(OptionalBody(), 6, 7))
  {
    var c1 := [LiteralState(97, 1), EpsilonState(2), Fork(3, 4), Blank, LiteralState(98, 5), EpsilonState(3)];
    assert |c1| == 6 && c1[3] == Blank;
    ChainLiteral(c1, 99, 3);
    LinkBlank(c1, [], 3, 6);
    assert c1 + [] == c1;
    assert AppendTarget(c1, 3, Epsilon, 6) == c1[3 := EpsilonState(6)];
    assert Chain(c1, Literal(99), 3) == Ok(Fragment(c1[3 := EpsilonState(6)] + [LiteralState(99, 7), Blank], 6, 7));
    assert c1[3 := EpsilonState(6)] + [LiteralState(99, 7), Blank] == OptionalBody();
  }

  /** `toNfa` of the tokens of `ab?c` builds the arena of `OptionalNfa`, with the start state at 8. */
  lemma OptionalBuild()
    ensures ToNfa([Literal(97), Repeat(0, 1, Literal(98)), Literal(99)]) == Ok(Nfa(OptionalNfa(), 8))
  {
    var a0 := [LiteralState(97, 1), Blank];
    var c1 := [LiteralState(97, 1), EpsilonState(2), Fork(3, 4), Blank, LiteralState(98, 5), EpsilonState(3)];
    var c2 := OptionalBody();
    FirstLiteral();
    OptionalSecond();
    OptionalThird();
    ThreeTokens(Literal(97), Repeat(0, 1, Literal(98)), Literal(99),
                Fragment(a0, 0, 1), Fragment(c1, 2, 3), Fragment(c2, 6, 7));
    WrapBlank(c2, 0, 7);
    assert c2[7 := EpsilonState(9)] + [StartState(0), Accepting] == OptionalNfa();
  }

  // Walking, one state at a time.

  /**
   * `check` on the start state at position -1: the walk from `entry` at -1,
   * and when that says no, the walk from `entry` at the first byte.
   */
  lemma StartStep(a: seq<State>, s: nat, entry: nat, input: seq<Byte>, fuel: nat)
    requires Closed(a) && s < |a| && entry < |a| && a[s] == StartState(entry) && fuel > 0
    ensures var here := Check(a, entry, input, -1, fuel - 1);
            Check(a, s, input, -1, fuel) == if here != Some(false) then here else Check(a, entry, input, 0, fuel - 1)
  {
    assert GetChar(input, -1) == StartOfText;
    assert Targets(a[s], StartOfText) == [];
    assert Targets(a[s], Epsilon) == [entry];
    assert [entry][1..] == [];
    assert CheckEpsilon(a, [], StartOfText, input, -1, fuel - 1) == Some(false);
  }

  /** `check` on a fork away from the start of text: the walk from `x`, then the walk from `y`. */
  lemma ForkStep(a: seq<State>, s: nat, x: nat, y: nat, input: seq<Byte>, pos: int, fuel: nat)
    requires Closed(a) && s < |a| && x < |a| && y < |a| && a[s] == Fork(x, y) && fuel > 0
    requires GetChar(input, pos) != Epsilon && GetChar(input, pos) != StartOfText
    ensures var here := Check(a, x, input, pos, fuel - 1);
            Check(a, s, input, pos, fuel) == if here != Some(false) then here else Check(a, y, input, pos, fuel - 1)
  {
    var ch := GetChar(input, pos);
    assert Targets(a[s], ch) == [];
    assert Targets(a[s], Epsilon) == [x, y];
    assert [x, y][1..] == [y];
    assert [y][1..] == [];
    assert CheckEpsilon(a, [], ch, input, pos, fuel - 1) == Some(false);
    assert CheckEpsilon(a, [y], ch, input, pos, fuel - 1) == Check(a, y, input, pos, fuel - 1);
  }

  /** `check` on the entry of a bracket that does not hold the epsilon symbol. */
  lemma BracketStep(a: seq<State>, s: nat, bytes: set<Byte>, exit: nat, input: seq<Byte>, pos: int, fuel: nat)
    requires Closed(a) && s < |a| && exit < |a| && a[s] == State(false, false, BracketMap(bytes, exit)) && fuel > 0
    requires Epsilon !in bytes
    ensures Check(a, s, input, pos, fuel)
         == if GetChar(input, pos) in bytes then Check(a, exit, input, pos + 1, fuel - 1) else Some(false)
  {
    assert Targets(a[s], Epsilon) == [];
  }

  /** The arena of `ab?c` is closed: `toNfa` builds only closed arenas. */
  lemma OptionalClosed()
    ensures Closed(OptionalNfa())
  {
    OptionalBuild();
    ToNfaShape([Literal(97), Repeat(0, 1, Literal(98)), Literal(99)]);
  }

  /**
   * Every row starts with `a`, built at 0 and 1: on an input that starts with
   * `a`, the walk from the start state comes to state 2 at the second byte.
   */
  lemma AfterFirst(a: seq<State>, start: nat, input: seq<Byte>, fuel: nat)
    requires Closed(a) && 2 < |a| && start < |a| && fuel >= 3
    requires a[start] == StartState(0) && a[0] == LiteralState(97, 1) && a[1] == EpsilonState(2)
    requires |input| > 0 && input[0] == 97 && GetChar(input, 1) != Epsilon && GetChar(input, 1) != StartOfText
    ensures Check(a, start, input, -1, fuel) == Check(a, 2, input, 1, fuel - 3)
  {
    EpsilonStep(a, 1, 2, input, 1, fuel - 2);
    LiteralStep(a, 0, 97, 1, input, 0, fuel - 1);
    LiteralStep(a, 0, 97, 1, input, -1, fuel - 1);
    StartStep(a, start, 0, input, fuel);
  }

  /** In the arena of `ab?c`, from the exit of `b?`, a last byte `c` is accepted. */
  lemma OptionalLast(input: seq<Byte>, pos: nat, fuel: nat)
    requires Closed(OptionalNfa()) && pos + 1 == |input| && input[pos] == 99 && fuel >= 4
    ensures Check(OptionalNfa(), 3, input, pos, fuel) == Some(true)
  {
    var a := OptionalNfa();
    AcceptStep(a, 9, input, pos + 1, fuel - 3);
    EpsilonStep(a, 7, 9, input, pos + 1, fuel - 2);
    LiteralStep(a, 6, 99, 7, input, pos, fuel - 1);
    EpsilonStep(a, 3, 6, input, pos, fuel);
  }

  /** `ab?c` on `ac`: from the fork at 2 the walk takes the edge past `b`. */
  lemma OptionalSkips(fuel: nat)
    requires fuel >= 12
    ensures Closed(OptionalNfa())
    ensures Check(OptionalNfa(), 8, [97, 99], -1, fuel) == Some(true)
  {
    var a, input := OptionalNfa(), [97, 99];
    OptionalClosed();
    OptionalLast(input, 1, fuel - 4);
    ForkStep(a, 2, 3, 4, input, 1, fuel - 3);
    AfterFirst(a, 8, input, fuel);
  }

  /** `ab?c` on `abc`: the edge past `b` leads nowhere, the copy of `b` reads it. */
  lemma OptionalTakes(fuel: nat)
    requires fuel >= 12
    ensures Closed(OptionalNfa())
    ensures Check(OptionalNfa(), 8, [97, 98, 99], -1, fuel) == Some(true)
  {
    var a, input := OptionalNfa(), [97, 98, 99];
    OptionalClosed();
    OptionalLast(input, 2, fuel - 6);
    EpsilonStep(a, 5, 3, input, 2, fuel - 5);
    LiteralStep(a, 4, 98, 5, input, 1, fuel - 4);
    LiteralStep(a, 6, 99, 7, input, 1, fuel - 5);
    EpsilonStep(a, 3, 6, input, 1, fuel - 4);
    ForkStep(a, 2, 3, 4, input, 1, fuel - 3);
    AfterFirst(a, 8, input, fuel);
  }

  /** The rows `ab?c` / `ac` and `ab?c` / `abc`: both match. */
  lemma OptionalRows(fuel: nat)
    requires fuel >= 12
    ensures Matches([97, 98, Question, 99], [97, 99], fuel) == Ok(Some(true))
    ensures Matches([97, 98, Question, 99], [97, 98, 99], fuel) == Ok(Some(true))
  {
    ParseQuantified(Question);
    OptionalBuild();
    OptionalSkips(fuel);
    OptionalTakes(fuel);
  }

  // `ab+c`

  /** The arena of `ab+c`: the exit 3 of `b+` forks back to the copy of `b` at 4, then on to `c` at 6. */
  function PlusNfa(): seq<State>
  {
    [LiteralState(97, 1), EpsilonState(2), EpsilonState(4), Fork(4, 6),
     LiteralState(98, 5), EpsilonState(3), LiteralState(99, 7), EpsilonState(9), StartState(0), Accepting]
  }

  function PlusBody(): seq<State>
  {
    [LiteralState(97, 1), EpsilonState(2), EpsilonState(4), Fork(4, 6),
     LiteralState(98, 5), EpsilonState(3), LiteralState(99, 7), Blank]
  }

  /** The first part of the repeat case of `b+`: no edge to the exit, since `min` is 1. */
  lemma PlusHead(a: seq<State>)
    requires |a| == 2
    ensures RepeatHead(a, Repeat(1, RepeatInfinity, Literal(98)))
         == Ok(Fragment(a + [EpsilonState(4), Blank, LiteralState(98, 5), Blank], 4, 5))
  {
    var a2 := a + [Blank, Blank];
    LeafLiteral(a2, 98);
    var f := a2 + [LiteralState(98, 5), Blank];
    assert Build(a2, Literal(98)) == Ok(Fragment(f, 4, 5));
    LinkBlank(a + [Blank], [Blank, LiteralState(98, 5), Blank], 2, 4);
    assert (a + [Blank]) + [Blank, LiteralState(98, 5), Blank] == f;
    assert (a + [Blank])[2 := EpsilonState(4)] + [Blank, LiteralState(98, 5), Blank]
        == a + [EpsilonState(4), Blank, LiteralState(98, 5), Blank];
  }

  /** The end of the repeat case of `b+`: the exit of the copy leads to 3, and 3 back to the copy. */
  lemma PlusTail(a: seq<State>)
    requires |a| == 2
    ensures RepeatTail(Fragment(a + [EpsilonState(4), Blank, LiteralState(98, 5), Blank], 4, 5), 3, true)
         == a + [EpsilonState(4), EpsilonState(4), LiteralState(98, 5), EpsilonState(3)]
  {
    var h := a + [EpsilonState(4), Blank, LiteralState(98, 5), Blank];
    LinkBlank(h, [], 5, 3);
    assert h + [] == h;
    var s1 := h[5 := EpsilonState(3)];
    assert s1 == a + [EpsilonState(4), Blank, LiteralState(98, 5), EpsilonState(3)];
    LinkBlank(s1, [], 3, 4);
    assert s1 + [] == s1;
    assert s1[3 := EpsilonState(4)] == a + [EpsilonState(4), EpsilonState(4), LiteralState(98, 5), EpsilonState(3)];
  }

  /** `b+` builds one copy; its exit leads to the exit of the repeat, which leads back to the copy. */
  lemma PlusRepeat(a: seq<State>)
    requires |a| == 2
    ensures Build(a, Repeat(1, RepeatInfinity, Literal(98)))
         == Ok(Fragment(a + [EpsilonState(4), EpsilonState(4), LiteralState(98, 5), EpsilonState(3)], 2, 3))
  {
    var h := a + [EpsilonState(4), Blank, LiteralState(98, 5), Blank];
    PlusHead(a);
    assert BuildCopies(h, Literal(98), 1, 3, 2, 1, 4, 5) == Ok(Fragment(h, 4, 5));
    PlusTail(a);
  }

  /** The literal `a`, then `b+` chained after it. */
  lemma PlusSecond()
    ensures Chain([LiteralState(97, 1), Blank], Repeat(1, RepeatInfinity, Literal(98)), 1)
         == Ok(Fragment([LiteralState(97, 1), EpsilonState(2), EpsilonState(4), EpsilonState(4), LiteralState(98, 5), EpsilonState(3)], 2, 3))
  {
    var a0 := [LiteralState(97, 1), Blank];
    PlusRepeat(a0);
    var tail := [EpsilonState(4), EpsilonState(4), LiteralState(98, 5), EpsilonState(3)];
    LinkBlank(a0, tail, 1, 2);
    assert a0[1 := EpsilonState(2)] + tail
        == [LiteralState(97, 1), EpsilonState(2), EpsilonState(4), EpsilonState(4), LiteralState(98, 5), EpsilonState(3)];
  }

  /** Then `c`: the exit of the repeat, which already leads back, gets a second epsilon edge. */
  lemma PlusThird()
    ensures Chain([LiteralState(97, 1), EpsilonState(2), EpsilonState(4), EpsilonState(4), LiteralState(98, 5), EpsilonState(3)], Literal(99), 3)
         == Ok(Fragment(PlusBody(), 6, 7))
  {
    var c1 := [LiteralState(97, 1), EpsilonState(2), EpsilonState(4), EpsilonState(4), LiteralState(98, 5), EpsilonState(3)];
    assert |c1| == 6 && c1[3] == EpsilonState(4);
    ChainLiteral(c1, 99, 3);
    AppendEpsilon(c1, 3, 4, 6);
    assert Chain(c1, Literal(99), 3) == Ok(Fragment(c1[3 := Fork(4, 6)] + [LiteralState(99, 7), Blank], 6, 7));
    assert c1[3 := Fork(4, 6)] + [LiteralState(99, 7), Blank] == PlusBody();
  }

  /** `toNfa` of the tokens of `ab+c` builds the arena of `PlusNfa`, with the start state at 8. */
  lemma PlusBuild()
    ensures ToNfa([Literal(97), Repeat(1, RepeatInfinity, Literal(98)), Literal(99)]) == Ok(Nfa(PlusNfa(), 8))
  {
    var a0 := [LiteralState(97, 1), Blank];
    var c1 := [LiteralState(97, 1), EpsilonState(2), EpsilonState(4), EpsilonState(4), LiteralState(98, 5), EpsilonState(3)];
    var c2 := PlusBody();
    FirstLiteral();
    PlusSecond();
    PlusThird();
    ThreeTokens(Literal(97), Repeat(1, RepeatInfinity, Literal(98)), Literal(99),
                Fragment(a0, 0, 1), Fragment(c1, 2, 3), Fragment(c2, 6, 7));
    WrapBlank(c2, 0, 7);
    assert c2[7 := EpsilonState(9)] + [StartState(0), Accepting] == PlusNfa();
  }

  lemma PlusClosed()
    ensures Closed(PlusNfa())
  {
    PlusBuild();
    ToNfaShape([Literal(97), Repeat(1, RepeatInfinity, Literal(98)), Literal(99)]);
  }

  /** In the arena of `ab+c`, from the exit of `b+`, a last byte `c` is accepted. */
  lemma PlusLast(input: seq<Byte>, pos: nat, fuel: nat)
    requires Closed(PlusNfa()) && pos + 1 == |input| && input[pos] == 99 && fuel >= 4
    ensures Check(PlusNfa(), 3, input, pos, fuel) == Some(true)
  {
    var a := PlusNfa();
    AcceptStep(a, 9, input, pos + 1, fuel - 3);
    EpsilonStep(a, 7, 9, input, pos + 1, fuel - 2);
    LiteralStep(a, 6, 99, 7, input, pos, fuel - 1);
    LiteralStep(a, 4, 98, 5, input, pos, fuel - 1);
    ForkStep(a, 3, 4, 6, input, pos, fuel);
  }

  /** `ab+c` on `ac`: the walk must read a `b` before it can leave the repeat. */
  lemma PlusNeedsOne(fuel: nat)
    requires fuel >= 13
    ensures Closed(PlusNfa())
    ensures Check(PlusNfa(), 8, [97, 99], -1, fuel) == Some(false)
  {
    var a, input := PlusNfa(), [97, 99];
    PlusClosed();
    LiteralStep(a, 4, 98, 5, input, 1, fuel - 4);
    EpsilonStep(a, 2, 4, input, 1, fuel - 3);
    AfterFirst(a, 8, input, fuel);
  }

  /** `ab+c` on `abc`: one round of the copy. */
  lemma PlusOnce(fuel: nat)
    requires fuel >= 13
    ensures Closed(PlusNfa())
    ensures Check(PlusNfa(), 8, [97, 98, 99], -1, fuel) == Some(true)
  {
    var a, input := PlusNfa(), [97, 98, 99];
    PlusClosed();
    PlusLast(input, 2, fuel - 6);
    EpsilonStep(a, 5, 3, input, 2, fuel - 5);
    LiteralStep(a, 4, 98, 5, input, 1, fuel - 4);
    EpsilonStep(a, 2, 4, input, 1, fuel - 3);
    AfterFirst(a, 8, input, fuel);
  }

  /** `ab+c` on `abbc`: the back-edge from 3 to 4 reads the second `b`. */
  lemma PlusTwice(fuel: nat)
    requires fuel >= 13
    ensures Closed(PlusNfa())
    ensures Check(PlusNfa(), 8, [97, 98, 98, 99], -1, fuel) == Some(true)
  {
    var a, input := PlusNfa(), [97, 98, 98, 99];
    PlusClosed();
    PlusLast(input, 3, fuel - 9);
    EpsilonStep(a, 5, 3, input, 3, fuel - 8);
    LiteralStep(a, 4, 98, 5, input, 2, fuel - 7);
    ForkStep(a, 3, 4, 6, input, 2, fuel - 6);
    EpsilonStep(a, 5, 3, input, 2, fuel - 5);
    LiteralStep(a, 4, 98, 5, input, 1, fuel - 4);
    EpsilonStep(a, 2, 4, input, 1, fuel - 3);
    AfterFirst(a, 8, input, fuel);
  }

  /** The rows of `ab+c`: `abc` and `abbc` match, `ac` does not. */
  lemma PlusRows(fuel: nat)
    requires fuel >= 13
    ensures Matches([97, 98, Plus, 99], [97, 98, 99], fuel) == Ok(Some(true))
    ensures Matches([97, 98, Plus, 99], [97, 99], fuel) == Ok(Some(false))
    ensures Matches([97, 98, Plus, 99], [97, 98, 98, 99], fuel) == Ok(Some(true))
  {
    ParseQuantified(Plus);
    PlusBuild();
    PlusNeedsOne(fuel);
    PlusOnce(fuel);
    PlusTwice(fuel);
  }

  // `ab[cd]`

  /** The entry of the bracket `[cd]`, whose exit is 5. */
  function ClassState(): State { State(false, false, BracketMap({99, 100}, 5)) }

  /** The arena of `ab[cd]`: `a` at 0, `b` at 2, the bracket at 4, the start state at 6. */
  function ClassNfa(): seq<State>
  {
    [LiteralState(97, 1), EpsilonState(2), LiteralState(98, 3), EpsilonState(4),
     ClassState(), EpsilonState(7), StartState(0), Accepting]
  }

  /** The literal `a`, then `b` chained after it. */
  lemma ClassSecond()
    ensures Chain([LiteralState(97, 1), Blank], Literal(98), 1)
         == Ok(Fragment([LiteralState(97, 1), EpsilonState(2), LiteralState(98, 3), Blank], 2, 3))
  {
    var c0 := [LiteralState(97, 1), Blank];
    assert |c0| == 2 && c0[1] == Blank;
    ChainLiteral(c0, 98, 1);
    LinkBlank(c0, [], 1, 2);
    assert c0 + [] == c0;
    assert AppendTarget(c0, 1, Epsilon, 2) == c0[1 := EpsilonState(2)];
    assert c0[1 := EpsilonState(2)] + [LiteralState(98, 3), Blank]
        == [LiteralState(97, 1), EpsilonState(2), LiteralState(98, 3), Blank];
  }

  /** Then the bracket `[cd]`, chained after `b`. */
  lemma ClassBracket()
    ensures Chain([LiteralState(97, 1), EpsilonState(2), LiteralState(98, 3), Blank], Bracket({99, 100}), 3)
         == Ok(Fragment([LiteralState(97, 1), EpsilonState(2), LiteralState(98, 3), EpsilonState(4), ClassState(), Blank], 4, 5))
  {
    var c1 := [LiteralState(97, 1), EpsilonState(2), LiteralState(98, 3), Blank];
    var leaf := (c1 + [Blank, Blank])[4 := ClassState()];
    assert leaf == c1 + [ClassState(), Blank];
    assert Build(c1, Bracket({99, 100})) == Ok(Fragment(leaf, 4, 5));
    LinkBlank(c1, [ClassState(), Blank], 3, 4);
    assert c1[3 := EpsilonState(4)] + [ClassState(), Blank]
        == [LiteralState(97, 1), EpsilonState(2), LiteralState(98, 3), EpsilonState(4), ClassState(), Blank];
  }

  /** `toNfa` of the tokens of `ab[cd]` builds the arena of `ClassNfa`, with the start state at 6. */
  lemma ClassBuild()
    ensures ToNfa([Literal(97), Literal(98), Bracket({99, 100})]) == Ok(Nfa(ClassNfa(), 6))
  {
    var c0 := [LiteralState(97, 1), Blank];
    var c1 := [LiteralState(97, 1), EpsilonState(2), LiteralState(98, 3), Blank];
    var c2 := [LiteralState(97, 1), EpsilonState(2), LiteralState(98, 3), EpsilonState(4), ClassState(), Blank];
    FirstLiteral();
    ClassSecond();
    ClassBracket();
    ThreeTokens(Literal(97), Literal(98), Bracket({99, 100}),
                Fragment(c0, 0, 1), Fragment(c1, 2, 3), Fragment(c2, 4, 5));
    WrapBlank(c2, 0, 5);
    assert c2[5 := EpsilonState(7)] + [StartState(0), Accepting] == ClassNfa();
  }

  lemma ClassClosed()
    ensures Closed(ClassNfa())
  {
    ClassBuild();
    ToNfaShape([Literal(97), Literal(98), Bracket({99, 100})]);
  }

  /** `ab[cd]` on `ab` and a third byte `x`: a match exactly when `x` is `c` or `d`. */
  lemma ClassWalk(x: Byte, fuel: nat)
    requires fuel >= 8 && !Reserved(x)
    ensures Closed(ClassNfa())
    ensures Check(ClassNfa(), 6, [97, 98, x], -1, fuel) == Some(x == 99 || x == 100)
  {
    var a, input := ClassNfa(), [97, 98, x];
    ClassClosed();
    AcceptStep(a, 7, input, 3, fuel - 7);
    EpsilonStep(a, 5, 7, input, 3, fuel - 6);
    BracketStep(a, 4, {99, 100}, 5, input, 2, fuel - 5);
    EpsilonStep(a, 3, 4, input, 2, fuel - 4);
    LiteralStep(a, 2, 98, 3, input, 1, fuel - 3);
    AfterFirst(a, 6, input, fuel);
  }

  /** The rows of `ab[cd]`: `abc` and `abd` match, `abr` does not. */
  lemma ClassRows(fuel: nat)
    requires fuel >= 8
    ensures Matches([97, 98, LBracket, 99, 100, RBracket], [97, 98, 99], fuel) == Ok(Some(true))
    ensures Matches([97, 98, LBracket, 99, 100, RBracket], [97, 98, 100], fuel) == Ok(Some(true))
    ensures Matches([97, 98, LBracket, 99, 100, RBracket], [97, 98, 114], fuel) == Ok(Some(false))
  {
    ParseClass();
    ClassBuild();
    ClassWalk(99, fuel);
    ClassWalk(100, fuel);
    ClassWalk(114, fuel);
  }
}
