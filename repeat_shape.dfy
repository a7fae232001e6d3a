/**
 * The edges of the `repeat` fragment: the entry has an epsilon edge to the
 * exit exactly when `min == 0`, each further copy's entry gets one when its
 * number exceeds `min`, and the exit has the back-edge to the last copy
 * exactly when `max` is the infinity sentinel. A bounded repeat of a literal
 * or a bracket therefore has no cycle.
 */
module RepeatShape {
  import opened Wrappers
  import opened Syntax
  import opened Automaton
  import opened BuildSpec
  import opened BuildProperties

  /** The entry of a repeat's first copy. */
  function FirstEntry(a: seq<State>, t: Token): nat
    requires t.Repeat? && Buildable(t.inner)
  {
    |a| + 2 + EntryOffset(t.inner)
  }

  /** The entry of a repeat's last copy: `Copies - 1` copies further on. */
  function LastEntry(a: seq<State>, t: Token): nat
    requires t.Repeat? && Buildable(t.inner)
  {
    FirstEntry(a, t) + Times(Copies(t.min, t.max) - 1, Size(t.inner))
  }

  /** After the first copy: the entry's epsilon list is `[exit]` when `min == 0`, then the copy's entry; the exit is still blank. */
  lemma HeadEdges(a: seq<State>, t: Token)
    requires t.Repeat? && Buildable(t.inner)
    ensures RepeatHead(a, t).Ok?
    ensures var h := RepeatHead(a, t).value;
            && h.entry == FirstEntry(a, t)
            && h.states[|a|].transitions == (if t.min == 0 then map[Epsilon := [|a| + 1, h.entry]] else map[Epsilon := [h.entry]])
            && !h.states[|a|].start && !h.states[|a|].terminal
            && h.states[|a| + 1] == Blank
  {
    var a2 := a + [Blank, Blank];
    var s := if t.min == 0 then SetTargets(a2, |a|, Epsilon, [|a| + 1]) else a2;
    BuildPlaced(s, t.inner);
    var f := Build(s, t.inner).value;
    var r := AppendTarget(f.states, |a|, Epsilon, f.entry);
    assert RepeatHead(a, t) == Ok(Fragment(r, f.entry, f.exit));
    assert f.states[|a|] == s[|a|] && f.states[|a| + 1] == Blank;
    var m := s[|a|].transitions;
    assert r[|a|] == State(false, false, m[Epsilon := Targets(s[|a|], Epsilon) + [f.entry]]);
    if t.min == 0 {
      assert m == map[Epsilon := [|a| + 1]];
      assert [|a| + 1] + [f.entry] == [|a| + 1, f.entry];
    } else {
      assert m == map[];
      assert [] + [f.entry] == [f.entry];
    }
  }

  /** The copy loop leaves the repeat's entry and exit alone and ends on the last copy. */
  lemma LastCopy(a: seq<State>, t: Token)
    requires t.Repeat? && Buildable(t.inner)
    ensures RepeatHead(a, t).Ok?
    ensures var h := RepeatHead(a, t).value;
            var r := BuildCopies(h.states, t.inner, t.min, |a| + 1, 2, CopyCount(t.min, t.max), h.entry, h.exit);
            && r.Ok?
            && r.value.entry == LastEntry(a, t)
            && r.value.exit == LastEntry(a, t) - EntryOffset(t.inner) + ExitOffset(t.inner)
            && |a| + 2 <= r.value.exit < |r.value.states|
            && r.value.states[|a|] == h.states[|a|] && r.value.states[|a| + 1] == h.states[|a| + 1]
  {
    var base, size, entry, exit := |a| + 2, Size(t.inner), EntryOffset(t.inner), ExitOffset(t.inner);
    assert LastEntry(a, t) == base + entry + Times(Copies(t.min, t.max) - 1, size);
    HeadPlaced(a, t);
    var h := RepeatHead(a, t).value;
    var count := CopyCount(t.min, t.max);
    CopiesPlaced(h.states, t.inner, t.min, |a| + 1, 2, count, h.entry, h.exit);
    var r := BuildCopies(h.states, t.inner, t.min, |a| + 1, 2, count, h.entry, h.exit).value;
    LoopEnd(h, r, base, size, entry, exit, t.min, t.max);
  }

  /** The arithmetic of `LastCopy`: the copies after the first one, laid end to end. */
  lemma LoopEnd(h: Fragment, r: Fragment, base: nat, size: nat, entry: nat, exit: nat, min: int, max: int)
    requires base >= 2 && entry < size && exit < size
    requires |h.states| == base + size && h.entry == base + entry && h.exit == base + exit
    requires var count := CopyCount(min, max);
             var n := if 2 <= count then count - 1 else 0;
             && |r.states| == |h.states| + Times(n, size)
             && KeepsBut(h.states, r.states, h.exit, h.exit)
             && (n == 0 ==> r == h)
             && (n > 0 ==> r.entry == |h.states| + Times(n - 1, size) + entry && r.exit == |h.states| + Times(n - 1, size) + exit)
    ensures r.entry == base + entry + Times(Copies(min, max) - 1, size)
    ensures r.exit == base + exit + Times(Copies(min, max) - 1, size)
    ensures base <= r.exit < |r.states|
    ensures r.states[base - 2] == h.states[base - 2] && r.states[base - 1] == h.states[base - 1]
  {
    CopyOffsets(base, min, max, size);
  }

  /** Where the loop's last copy starts: the first copy's start when it builds none, else `n - 1` copies past the first copy's end. */
  lemma CopyOffsets(base: nat, min: int, max: int, size: nat)
    ensures var count := CopyCount(min, max);
            var n := if 2 <= count then count - 1 else 0;
            && (n == 0 ==> Times(Copies(min, max) - 1, size) == 0)
            && (n > 0 ==> base + size + Times(n - 1, size) == base + Times(Copies(min, max) - 1, size))
  {
    var count := CopyCount(min, max);
    if 2 <= count {
      assert Times(count - 1, size) == size + Times(count - 2, size);
    }
  }

  /**
   * The ends of a repeat: an epsilon edge from entry to exit exactly when
   * `min == 0`, always one to the first copy; the exit's only edge is the
   * back-edge to the last copy when `max` is infinite, and none otherwise.
   */
  lemma RepeatEnds(a: seq<State>, t: Token)
    requires t.Repeat? && Buildable(t)
    ensures BuildRepeat(a, t).Ok?
    ensures var f := BuildRepeat(a, t).value;
            && f.entry == |a| && f.exit == |a| + 1
            && f.states[f.entry].transitions
               == (if t.min == 0 then map[Epsilon := [f.exit, FirstEntry(a, t)]] else map[Epsilon := [FirstEntry(a, t)]])
            && f.states[f.exit].transitions
               == (if t.max == RepeatInfinity then map[Epsilon := [LastEntry(a, t)]] else map[])
  {
    HeadEdges(a, t);
    LastCopy(a, t);
    var h := RepeatHead(a, t).value;
    var exit := |a| + 1;
    var last := BuildCopies(h.states, t.inner, t.min, exit, 2, CopyCount(t.min, t.max), h.entry, h.exit).value;
    var s := AppendTarget(last.states, last.exit, Epsilon, exit);
    assert s[|a|] == h.states[|a|] && s[exit] == Blank;
    assert BuildRepeat(a, t) == Ok(Fragment(RepeatTail(last, exit, t.max == RepeatInfinity), |a|, exit));
    if t.max == RepeatInfinity {
      var r := AppendTarget(s, exit, Epsilon, last.entry);
      assert r[|a|] == h.states[|a|];
      assert r[exit] == State(false, false, map[][Epsilon := [] + [last.entry]]);
      assert [] + [last.entry] == [last.entry];
    }
  }

  /**
   * One round of the copy loop: the previous exit `to` gets an epsilon edge to
   * the new copy's entry, which gets one to `exit` exactly when `i > min`;
   * the copy's other lists are as built.
   */
  lemma AddCopyEdges(a: seq<State>, inner: Token, min: int, exit: nat, i: int, to: nat)
    requires exit < |a| && to < |a| && Buildable(inner)
    ensures AddCopy(a, inner, min, exit, i, to).Ok?
    ensures var f := Build(a, inner).value;
            var r := AddCopy(a, inner, min, exit, i, to).value;
            && r.entry == f.entry && r.exit == f.exit
            && Targets(r.states[to], Epsilon) == Targets(a[to], Epsilon) + [r.entry]
            && Targets(r.states[r.entry], Epsilon) == Targets(f.states[r.entry], Epsilon) + (if i > min then [exit] else [])
            && (forall sym :: sym != Epsilon ==> Targets(r.states[r.entry], sym) == Targets(f.states[r.entry], sym))
  {
    AddCopyPlaced(a, inner, min, exit, i, to);
    BuildPlaced(a, inner);
    var f := Build(a, inner).value;
    var s := AppendTarget(f.states, to, Epsilon, f.entry);
    AppendTargetEffect(f.states, to, Epsilon, f.entry);
    assert s[f.entry] == f.states[f.entry];
    if i > min {
      AppendTargetEffect(s, f.entry, Epsilon, exit);
    }
  }

  /**
   * A strict order on states in which `top` comes after every other state:
   * every edge of a bounded repeat of a literal or bracket goes forward in it.
   */
  predicate Before(x: nat, y: nat, top: nat)
  {
    x != top && (y == top || x < y)
  }

  lemma BeforeTransitive(x: nat, y: nat, z: nat, top: nat)
    requires Before(x, y, top) && Before(y, z, top)
    ensures Before(x, z, top)
  {
  }

  /** Every edge out of states `lo` onward goes forward. */
  predicate Ranked(s: seq<State>, lo: nat, top: nat)
  {
    forall j, sym, k :: lo <= j < |s| && 0 <= k < |Targets(s[j], sym)| ==> Before(j, Targets(s[j], sym)[k], top)
  }

  lemma RankedAppend(s: seq<State>, i: nat, t: nat, lo: nat, top: nat)
    requires Ranked(s, lo, top) && lo <= i < |s| && Before(i, t, top)
    ensures Ranked(AppendTarget(s, i, Epsilon, t), lo, top)
  {
    var r := AppendTarget(s, i, Epsilon, t);
    AppendTargetEffect(s, i, Epsilon, t);
    forall j, sym, k | lo <= j < |r| && 0 <= k < |Targets(r[j], sym)|
      ensures Before(j, Targets(r[j], sym)[k], top)
    {
      if j == i && !(sym == Epsilon && k == |Targets(r[j], sym)| - 1) {
        assert Targets(r[j], sym)[k] == Targets(s[j], sym)[k];
      }
    }
  }

  /** A literal or bracket fragment on top of a ranked arena keeps it ranked. */
  lemma RankedLeaf(a: seq<State>, t: Token, lo: nat, top: nat)
    requires t.Literal? || t.Bracket?
    requires Ranked(a, lo, top) && top < |a|
    ensures Ranked(BuildLeaf(a, t).states, lo, top)
  {
    var r := BuildLeaf(a, t).states;
    var s := a + [Blank, Blank];
    if t.Literal? {
      SetTargetsEffect(s, |a|, t.ch, [|a| + 1]);
    }
    forall j, sym, k | lo <= j < |r| && 0 <= k < |Targets(r[j], sym)|
      ensures Before(j, Targets(r[j], sym)[k], top)
    {
      if j < |a| {
        assert r[j] == a[j];
      }
    }
  }

  lemma {:induction false} RankedCopies(a: seq<State>, inner: Token, min: int, exit: nat, i: int, count: int, from: nat, to: nat, lo: nat)
    requires inner.Literal? || inner.Bracket?
    requires exit < |a| && from < |a| && to < |a| && to != exit
    requires Ranked(a, lo, exit) && lo <= to
    ensures var r := BuildCopies(a, inner, min, exit, i, count, from, to);
            r.Ok? && Ranked(r.value.states, lo, exit) && r.value.exit != exit
    decreases if i <= count then count - i + 1 else 0, 1
  {
    if i <= count {
      RankedNext(a, inner, min, exit, i, count, from, to, lo);
    }
  }

  lemma {:induction false} RankedNext(a: seq<State>, inner: Token, min: int, exit: nat, i: int, count: int, from: nat, to: nat, lo: nat)
    requires inner.Literal? || inner.Bracket?
    requires exit < |a| && from < |a| && to < |a| && to != exit
    requires Ranked(a, lo, exit) && lo <= to && i <= count
    ensures var r := BuildCopies(a, inner, min, exit, i, count, from, to);
            r.Ok? && Ranked(r.value.states, lo, exit) && r.value.exit != exit
    decreases count - i + 1, 0
  {
    RankedCopy(a, inner, min, exit, i, to, lo);
    var c := AddCopy(a, inner, min, exit, i, to).value;
    var j := i + 1;
    RankedCopies(c.states, inner, min, exit, j, count, c.entry, c.exit, lo);
    assert BuildCopies(a, inner, min, exit, i, count, from, to) == BuildCopies(c.states, inner, min, exit, j, count, c.entry, c.exit);
  }

  /** One copy of a literal or bracket only adds forward edges, and its exit is new. */
  lemma RankedCopy(a: seq<State>, inner: Token, min: int, exit: nat, i: int, to: nat, lo: nat)
    requires inner.Literal? || inner.Bracket?
    requires exit < |a| && to < |a| && to != exit
    requires Ranked(a, lo, exit) && lo <= to
    ensures var r := AddCopy(a, inner, min, exit, i, to);
            && r.Ok? && Ranked(r.value.states, lo, exit)
            && exit < |r.value.states| && r.value.entry < |r.value.states|
            && lo <= r.value.exit < |r.value.states| && r.value.exit != exit
  {
    var f := BuildLeaf(a, inner);
    assert Build(a, inner) == Ok(f);
    RankedLeaf(a, inner, lo, exit);
    var s := AppendTarget(f.states, to, Epsilon, f.entry);
    RankedAppend(f.states, to, f.entry, lo, exit);
    if i > min {
      RankedAppend(s, f.entry, exit, lo, exit);
    }
  }

  /** The first copy of a repeat of a literal or bracket only adds forward edges. */
  lemma RankedHead(a: seq<State>, t: Token)
    requires t.Repeat? && (t.inner.Literal? || t.inner.Bracket?)
    ensures RepeatHead(a, t).Ok?
    ensures Ranked(RepeatHead(a, t).value.states, |a|, |a| + 1)
  {
    var exit := |a| + 1;
    var a2 := a + [Blank, Blank];
    assert Ranked(a2, |a|, exit);
    var s := if t.min == 0 then SetTargets(a2, |a|, Epsilon, [exit]) else a2;
    if t.min == 0 {
      assert Targets(a2[|a|], Epsilon) + [exit] == [exit];
      RankedAppend(a2, |a|, exit, |a|, exit);
    }
    var f := BuildLeaf(s, t.inner);
    assert Build(s, t.inner) == Ok(f);
    RankedLeaf(s, t.inner, |a|, exit);
    RankedAppend(f.states, |a|, f.entry, |a|, exit);
    assert RepeatHead(a, t) == Ok(Fragment(AppendTarget(f.states, |a|, Epsilon, f.entry), f.entry, f.exit));
  }

  /** Every edge of a bounded repeat of a literal or bracket goes forward, towards the repeat's exit. */
  lemma BoundedRepeatRanked(a: seq<State>, t: Token)
    requires t.Repeat? && t.max != RepeatInfinity && (t.inner.Literal? || t.inner.Bracket?)
    ensures BuildRepeat(a, t).Ok?
    ensures Ranked(BuildRepeat(a, t).value.states, |a|, |a| + 1)
  {
    var exit := |a| + 1;
    RankedHead(a, t);
    LastCopy(a, t);
    var h := RepeatHead(a, t).value;
    RankedCopies(h.states, t.inner, t.min, exit, 2, CopyCount(t.min, t.max), h.entry, h.exit, |a|);
    var last := BuildCopies(h.states, t.inner, t.min, exit, 2, CopyCount(t.min, t.max), h.entry, h.exit).value;
    RankedAppend(last.states, last.exit, exit, |a|, exit);
    assert BuildRepeat(a, t) == Ok(Fragment(RepeatTail(last, exit, false), |a|, exit));
  }

  /** A walk through the arena: `syms[i]` takes `p[i]` to `p[i + 1]`. */
  predicate Walk(s: seq<State>, p: seq<nat>, syms: seq<Byte>)
  {
    && |p| == |syms| + 1
    && forall i :: 0 <= i < |syms| ==> p[i] < |s| && p[i + 1] in Targets(s[p[i]], syms[i])
  }

  /** In a ranked arena a walk of at least one step goes forward. */
  lemma {:induction false} WalkForward(s: seq<State>, p: seq<nat>, syms: seq<Byte>, lo: nat, top: nat)
    requires Ranked(s, lo, top) && lo <= top && Walk(s, p, syms) && |syms| > 0 && lo <= p[0]
    ensures Before(p[0], p[|p| - 1], top)
    decreases |syms|
  {
    var n := |syms|;
    if n > 1 {
      WalkForward(s, p[..n], syms[..n - 1], lo, top);
      assert p[..n][n - 1] == p[n - 1];
    }
    var k :| 0 <= k < |Targets(s[p[n - 1]], syms[n - 1])| && Targets(s[p[n - 1]], syms[n - 1])[k] == p[n];
    if n > 1 {
      BeforeTransitive(p[0], p[n - 1], p[n], top);
    }
  }

  /** No walk of at least one step through a bounded repeat of a literal or bracket returns to where it began. */
  lemma BoundedRepeatAcyclic(a: seq<State>, t: Token, p: seq<nat>, syms: seq<Byte>)
    requires t.Repeat? && t.max != RepeatInfinity && (t.inner.Literal? || t.inner.Bracket?)
    requires BuildRepeat(a, t).Ok? && Walk(BuildRepeat(a, t).value.states, p, syms)
    requires |syms| > 0 && |a| <= p[0]
    ensures p[0] != p[|p| - 1]
  {
    BoundedRepeatRanked(a, t);
    WalkForward(BuildRepeat(a, t).value.states, p, syms, |a|, |a| + 1);
  }
}
