/**
 * `tokenToNfa` and `toNfa` as the source runs them: states are allocated one
 * at a time into an arena and their transition lists are assigned or appended
 * to in place. Each method is proved to leave exactly the arena that the
 * function of BuildSpec with the same name describes.
 */
module Builder {
  import opened Wrappers
  import opened Syntax
  import opened Automaton
  import B = BuildSpec

  /** The outcome and the arena a method left agree with the result of a spec function. */
  ghost predicate Agrees(r: Result<B.Fragment, PatternError>, entry: nat, exit: nat, o: Outcome<PatternError>, states: seq<State>)
  {
    && (r.Ok? ==> o == Pass && states == r.value.states && entry == r.value.entry && exit == r.value.exit)
    && (r.Err? ==> o == Fail(r.error))
  }

  /** The states allocated so far. */
  class Arena {
    var states: seq<State>

    constructor ()
      ensures states == []
    {
      states := [];
    }

    /** Allocate state `s`; its index is the number of states before it. */
    method Add(s: State) returns (i: nat)
      modifies this
      ensures states == old(states) + [s] && i == |old(states)|
    {
      i := |states|;
      states := states + [s];
    }

    /** `transitions[sym] = ts` on state `i`. */
    method Set(i: nat, sym: Byte, ts: seq<nat>)
      requires i < |states|
      modifies this
      ensures states == SetTargets(old(states), i, sym, ts)
    {
      states := states[i := states[i].(transitions := states[i].transitions[sym := ts])];
    }

    /** `transitions[sym] = append(transitions[sym], t)` on state `i`. */
    method Append(i: nat, sym: Byte, t: nat)
      requires i < |states|
      modifies this
      ensures states == AppendTarget(old(states), i, sym, t)
    {
      var ts := if sym in states[i].transitions then states[i].transitions[sym] else [];
      states := states[i := states[i].(transitions := states[i].transitions[sym := ts + [t]])];
    }

    /** `tokenToNfa(t)`: the entry and the exit of the fragment built for `t`. */
    method TokenToNfa(t: Token) returns (entry: nat, exit: nat, o: Outcome<PatternError>)
      modifies this
      ensures Agrees(B.Build(old(states), t), entry, exit, o, states)
      decreases t, 1
    {
      ghost var a := states;
      entry := Add(Blank);
      exit := Add(Blank);
      assert states == a + [Blank, Blank];
      match t
      case Literal(ch) =>
        Set(entry, ch, [exit]);
        o := Pass;
        assert B.Build(a, t) == Ok(B.BuildLeaf(a, t));
      case Bracket(bytes) =>
        BracketEdges(entry, exit, bytes);
        o := Pass;
        assert B.Build(a, t) == Ok(B.BuildLeaf(a, t));
      case Or(left, right) =>
        assert B.Build(a, t) == B.BuildOr(a, t);
        var s1, e1, o1 := TokenToNfa(left);
        if o1.Fail? {
          o := o1;
          return;
        }
        var s2, e2, o2 := TokenToNfa(right);
        if o2.Fail? {
          o := o2;
          return;
        }
        Set(entry, Epsilon, [s1, s2]);
        Set(e1, Epsilon, [exit]);
        Set(e2, Epsilon, [exit]);
        o := Pass;
      case Group(items) =>
        assert B.Build(a, t) == B.BuildGroup(a + [Blank, Blank], items);
        entry, exit, o := Sequence(items);
      case GroupUncaptured(items) =>
        assert B.Build(a, t) == B.BuildGroup(a + [Blank, Blank], items);
        entry, exit, o := Sequence(items);
      case Repeat(min, max, inner) =>
        assert a == states[..entry];
        assert B.Build(a, t) == B.BuildRepeat(a, t);
        o := RepeatEdges(t, entry, exit);
    }

    /** The bracket case: an edge on each byte of the set from `entry` to `exit`, in any order. */
    method BracketEdges(entry: nat, exit: nat, bytes: set<Byte>)
      requires entry < |states| && states[entry] == Blank
      modifies this
      ensures states == old(states)[entry := State(false, false, B.BracketMap(bytes, exit))]
    {
      var rest := bytes;
      while rest != {}
        invariant rest <= bytes
        invariant states == old(states)[entry := State(false, false, B.BracketMap(bytes - rest, exit))]
        decreases rest
      {
        var l :| l in rest;
        ghost var before := B.BracketMap(bytes - rest, exit);
        Set(entry, l, [exit]);
        rest := rest - {l};
        assert before[l := [exit]] == B.BracketMap(bytes - rest, exit);
        assert states == old(states)[entry := State(false, false, before[l := [exit]])];
      }
      assert bytes - rest == bytes;
      assert B.BracketMap({}, exit) == map[];
    }

    /**
     * The loop shared by the group case and `toNfa`: build the first token, then
     * append the entry of each next fragment to the epsilon list of the exit so far.
     */
    method Sequence(items: seq<Token>) returns (entry: nat, exit: nat, o: Outcome<PatternError>)
      modifies this
      ensures Agrees(B.BuildGroup(old(states), items), entry, exit, o, states)
      decreases items, 1
    {
      if |items| == 0 {
        entry, exit := 0, 0;
        o := Fail(EmptySequence);
        return;
      }
      ghost var a := states;
      entry, exit, o := TokenToNfa(items[0]);
      if o.Fail? {
        return;
      }
      exit, o := ChainLoop(items, entry, exit);
      assert B.BuildGroup(a, items) == B.BuildSeq(B.Build(a, items[0]).value.states, items, 1, entry, B.Build(a, items[0]).value.exit);
    }

    /** The loop of `Sequence` over `items[1..]`; the result is the exit of the last fragment. */
    method ChainLoop(items: seq<Token>, entry: nat, exit: nat) returns (last: nat, o: Outcome<PatternError>)
      requires 1 <= |items| && entry < |states| && exit < |states|
      modifies this
      ensures Agrees(B.BuildSeq(old(states), items, 1, entry, exit), entry, last, o, states)
      decreases items, 0
    {
      last := exit;
      o := Pass;
      var i := 1;
      while i < |items|
        invariant 1 <= i <= |items| && entry < |states| && last < |states|
        invariant B.BuildSeq(states, items, i, entry, last) == B.BuildSeq(old(states), items, 1, entry, exit)
        decreases |items| - i
      {
        ghost var before := states;
        var next, nextExit, o1 := TokenToNfa(items[i]);
        if o1.Fail? {
          o := o1;
          assert B.BuildSeq(before, items, i, entry, last) == Err(o1.error);
          return;
        }
        Append(last, Epsilon, next);
        assert B.Chain(before, items[i], last) == Ok(B.Fragment(states, next, nextExit));
        last := nextExit;
        i := i + 1;
      }
    }

    /**
     * The repeat case once `entry` and `exit` are allocated: the skip edge when
     * `min == 0`, `max(copyCount, 1)` copies chained one after the other, an
     * edge from copy `i >= 2` to `exit` when `i > min`, and the back-edge from
     * `exit` to the last copy when `max` is infinite.
     */
    method RepeatEdges(t: Token, entry: nat, exit: nat) returns (o: Outcome<PatternError>)
      requires t.Repeat? && entry + 2 == exit + 1 == |states|
      requires states[entry] == Blank && states[exit] == Blank
      modifies this
      ensures var r := B.BuildRepeat(old(states[..entry]), t);
              && (r.Ok? ==> o == Pass && states == r.value.states)
              && (r.Err? ==> o == Fail(r.error))
      decreases t, 0
    {
      ghost var a := states[..entry];
      assert states == a + [Blank, Blank];
      if t.min == 0 {
        Set(entry, Epsilon, [exit]);
      }
      var copyCount: int;
      if t.max == RepeatInfinity {
        if t.min == 0 {
          copyCount := 1;
        } else {
          copyCount := t.min;
        }
      } else {
        copyCount := t.max;
      }
      var from: nat, to: nat;
      from, to, o := TokenToNfa(t.inner);
      if o.Fail? {
        return;
      }
      Append(entry, Epsilon, from);
      assert B.RepeatHead(a, t) == Ok(B.Fragment(states, from, to));
      ghost var head := states;
      from, to, o := CopyLoop(t.inner, t.min, exit, copyCount, from, to);
      if o.Fail? {
        return;
      }
      Append(to, Epsilon, exit);
      if t.max == RepeatInfinity {
        Append(exit, Epsilon, from);
      }
    }

    /**
     * The loop `for i := 2; i <= copyCount; i++`: each copy is chained after
     * the previous one and, when `i > min`, gets an edge to `exit`; the result
     * is the entry and the exit of the last copy.
     */
    method CopyLoop(inner: Token, min: int, exit: nat, copyCount: int, from: nat, to: nat)
      returns (last: nat, lastExit: nat, o: Outcome<PatternError>)
      requires exit < |states| && from < |states| && to < |states|
      modifies this
      ensures Agrees(B.BuildCopies(old(states), inner, min, exit, 2, copyCount, from, to), last, lastExit, o, states)
      decreases inner, 2
    {
      last, lastExit := from, to;
      o := Pass;
      var i := 2;
      while i <= copyCount
        invariant 2 <= i && exit < |states| && last < |states| && lastExit < |states|
        invariant B.BuildCopies(states, inner, min, exit, i, copyCount, last, lastExit)
                  == B.BuildCopies(old(states), inner, min, exit, 2, copyCount, from, to)
        decreases copyCount - i
      {
        ghost var before, previous := states, lastExit;
        var s, e, o1 := TokenToNfa(inner);
        if o1.Fail? {
          o := o1;
          assert B.BuildCopies(before, inner, min, exit, i, copyCount, last, lastExit) == Err(o1.error);
          return;
        }
        Append(lastExit, Epsilon, s);
        last := s;
        lastExit := e;
        if i > min {
          Append(s, Epsilon, exit);
        }
        assert B.AddCopy(before, inner, min, exit, i, previous) == Ok(B.Fragment(states, s, e));
        i := i + 1;
      }
    }
  }

  /**
   * `toNfa`: chain the fragments of the tokens in a new arena, then allocate the
   * start state, with an epsilon edge to the first entry, and the accepting
   * state, appended to the epsilon list of the last exit.
   */
  method ToNfa(tokens: seq<Token>) returns (arena: Arena, start: nat, o: Outcome<PatternError>)
    ensures fresh(arena)
    ensures var r := B.ToNfa(tokens);
            && (r.Ok? ==> o == Pass && arena.states == r.value.states && start == r.value.start)
            && (r.Err? ==> o == Fail(r.error))
  {
    arena := new Arena();
    var first, last;
    first, last, o := arena.Sequence(tokens);
    if o.Fail? {
      start := 0;
      return;
    }
    start := arena.Add(State(true, false, map[Epsilon := [first]]));
    var end := arena.Add(State(false, true, map[]));
    arena.Append(last, Epsilon, end);
  }
}
