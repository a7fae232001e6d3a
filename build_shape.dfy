/**
 * The shape of what `tokenToNfa` and `toNfa` build: the states of a fragment
 * are unmarked, point only at states of the same fragment, and hold exactly
 * one target for every symbol other than epsilon. For the automaton this
 * gives a closed arena whose only start-marked state is the start state and
 * whose only accepting state is fresh and has no transitions.
 */
module BuildShape {
  import opened Wrappers
  import opened Syntax
  import opened Automaton
  import opened BuildSpec
  import opened BuildProperties

  lemma SoundWiden(st: State, lo: nat, hi: nat, lo': nat, hi': nat)
    requires Sound(st, lo, hi) && lo' <= lo && hi <= hi'
    ensures Sound(st, lo', hi')
  {
  }

  /** Two adjacent sound regions make one. */
  lemma RegionJoin(s: seq<State>, lo: nat, mid: nat, hi: nat)
    requires Region(s, lo, mid) && Region(s, mid, hi)
    ensures Region(s, lo, hi)
  {
    forall j | lo <= j < hi
      ensures Sound(s[j], lo, hi)
    {
      if j < mid {
        SoundWiden(s[j], lo, mid, lo, hi);
      } else {
        SoundWiden(s[j], mid, hi, lo, hi);
      }
    }
  }

  /** A region survives any change outside it. */
  lemma RegionKept(a: seq<State>, s: seq<State>, lo: nat, hi: nat, x: nat, y: nat)
    requires Region(a, lo, hi) && KeepsBut(a, s, x, y)
    requires !(lo <= x < hi) && !(lo <= y < hi)
    ensures Region(s, lo, hi)
  {
  }

  /** Two fresh states are a sound region. */
  lemma BlankRegion(a: seq<State>)
    ensures Region(a + [Blank, Blank], |a|, |a| + 2)
  {
  }

  /** Setting a list inside a region to targets inside it keeps the region sound. */
  lemma SetSound(s: seq<State>, i: nat, sym: Byte, ts: seq<nat>, lo: nat, hi: nat)
    requires Region(s, lo, hi) && lo <= i < hi
    requires forall k :: 0 <= k < |ts| ==> lo <= ts[k] < hi
    requires sym == Epsilon || |ts| == 1
    ensures Region(SetTargets(s, i, sym, ts), lo, hi)
  {
    var r := SetTargets(s, i, sym, ts);
    SetTargetsEffect(s, i, sym, ts);
    assert Sound(r[i], lo, hi) by {
      forall other, k | 0 <= k < |Targets(r[i], other)|
        ensures lo <= Targets(r[i], other)[k] < hi
      {
        if other != sym {
          assert Targets(r[i], other) == Targets(s[i], other);
        }
      }
      forall other | other != Epsilon && other in r[i].transitions
        ensures |r[i].transitions[other]| == 1
      {
        if other != sym {
          assert Targets(r[i], other) == Targets(s[i], other);
        }
      }
    }
  }

  /** Appending an epsilon target inside a region keeps the region sound. */
  lemma AppendSound(s: seq<State>, i: nat, t: nat, lo: nat, hi: nat)
    requires Region(s, lo, hi) && lo <= i < hi && lo <= t < hi
    ensures Region(AppendTarget(s, i, Epsilon, t), lo, hi)
  {
    var ts := Targets(s[i], Epsilon) + [t];
    assert forall k :: 0 <= k < |ts| ==> lo <= ts[k] < hi by {
      forall k | 0 <= k < |ts|
        ensures lo <= ts[k] < hi
      {
        if k < |ts| - 1 {
          assert ts[k] == Targets(s[i], Epsilon)[k];
        }
      }
    }
    SetSound(s, i, Epsilon, ts, lo, hi);
  }

  /** The states of the fragment of a buildable `t` form a sound region. */
  lemma {:induction false} BuildRegion(a: seq<State>, t: Token)
    requires Buildable(t)
    ensures Build(a, t).Ok? && Region(Build(a, t).value.states, |a|, |Build(a, t).value.states|)
    decreases t, 2
  {
    BuildPlaced(a, t);
    match t
    case Literal(_) => LeafRegion(a, t);
    case Bracket(_) => LeafRegion(a, t);
    case Or(_, _) => OrRegion(a, t);
    case Group(items) => GroupRegion(a + [Blank, Blank], items, |a|);
    case GroupUncaptured(items) => GroupRegion(a + [Blank, Blank], items, |a|);
    case Repeat(_, _, _) => RepeatRegion(a, t);
  }

  lemma LeafRegion(a: seq<State>, t: Token)
    requires t.Literal? || t.Bracket?
    ensures Region(BuildLeaf(a, t).states, |a|, |a| + 2)
  {
    BlankRegion(a);
    if t.Literal? {
      SetSound(a + [Blank, Blank], |a|, t.ch, [|a| + 1], |a|, |a| + 2);
    } else {
      var st := State(false, false, BracketMap(t.bytes, |a| + 1));
      assert Sound(st, |a|, |a| + 2) by {
        forall sym, k | 0 <= k < |Targets(st, sym)|
          ensures |a| <= Targets(st, sym)[k] < |a| + 2
        {
        }
      }
    }
  }

  lemma {:induction false} OrRegion(a: seq<State>, t: Token)
    requires t.Or? && Buildable(t)
    ensures BuildOr(a, t).Ok? && Region(BuildOr(a, t).value.states, |a|, |BuildOr(a, t).value.states|)
    decreases t, 1
  {
    var a2 := a + [Blank, Blank];
    BuildPlaced(a2, t.left);
    BuildRegion(a2, t.left);
    var f1 := Build(a2, t.left).value;
    BuildPlaced(f1.states, t.right);
    BuildRegion(f1.states, t.right);
    var f2 := Build(f1.states, t.right).value;
    var hi := |f2.states|;
    BlankRegion(a);
    RegionKept(a2, f1.states, |a|, |a| + 2, |a| + 2, |a| + 2);
    RegionJoin(f1.states, |a|, |a| + 2, |f1.states|);
    RegionKept(f1.states, f2.states, |a|, |f1.states|, |f1.states|, |f1.states|);
    RegionJoin(f2.states, |a|, |f1.states|, hi);
    var s1 := SetTargets(f2.states, |a|, Epsilon, [f1.entry, f2.entry]);
    SetSound(f2.states, |a|, Epsilon, [f1.entry, f2.entry], |a|, hi);
    var s2 := SetTargets(s1, f1.exit, Epsilon, [|a| + 1]);
    SetSound(s1, f1.exit, Epsilon, [|a| + 1], |a|, hi);
    SetSound(s2, f2.exit, Epsilon, [|a| + 1], |a|, hi);
  }

  lemma {:induction false} RepeatRegion(a: seq<State>, t: Token)
    requires t.Repeat? && Buildable(t)
    ensures BuildRepeat(a, t).Ok? && Region(BuildRepeat(a, t).value.states, |a|, |BuildRepeat(a, t).value.states|)
    decreases t, 1
  {
    HeadPlaced(a, t);
    HeadRegion(a, t);
    var h := RepeatHead(a, t).value;
    var exit := |a| + 1;
    var count := CopyCount(t.min, t.max);
    CopiesPlaced(h.states, t.inner, t.min, exit, 2, count, h.entry, h.exit);
    CopiesRegion(h.states, t.inner, t.min, exit, 2, count, h.entry, h.exit, |a|);
    var last := BuildCopies(h.states, t.inner, t.min, exit, 2, count, h.entry, h.exit).value;
    TailRegion(last, exit, t.max == RepeatInfinity, |a|);
  }

  /** The closing edges of a repeat stay inside its region. */
  lemma TailRegion(last: Fragment, exit: nat, infinite: bool, lo: nat)
    requires Region(last.states, lo, |last.states|)
    requires lo <= exit < |last.states| && lo <= last.entry < |last.states| && lo <= last.exit < |last.states|
    ensures Region(RepeatTail(last, exit, infinite), lo, |last.states|)
  {
    var hi := |last.states|;
    var s := AppendTarget(last.states, last.exit, Epsilon, exit);
    AppendSound(last.states, last.exit, exit, lo, hi);
    if infinite {
      AppendSound(s, exit, last.entry, lo, hi);
    }
  }

  lemma {:induction false} HeadRegion(a: seq<State>, t: Token)
    requires t.Repeat? && Buildable(t.inner)
    ensures RepeatHead(a, t).Ok? && Region(RepeatHead(a, t).value.states, |a|, |RepeatHead(a, t).value.states|)
    decreases t, 0
  {
    var a2 := a + [Blank, Blank];
    BlankRegion(a);
    var s := if t.min == 0 then SetTargets(a2, |a|, Epsilon, [|a| + 1]) else a2;
    if t.min == 0 {
      SetSound(a2, |a|, Epsilon, [|a| + 1], |a|, |a| + 2);
    }
    assert RepeatHead(a, t) == Chain(s, t.inner, |a|);
    ChainRegion(s, t.inner, |a|, |a|);
  }

  lemma {:induction false} CopiesRegion(a: seq<State>, inner: Token, min: int, exit: nat, i: int, count: int, from: nat, to: nat, lo: nat)
    requires exit < |a| && from < |a| && to < |a| && Buildable(inner)
    requires Region(a, lo, |a|) && lo <= exit && lo <= to
    ensures var r := BuildCopies(a, inner, min, exit, i, count, from, to);
            r.Ok? && Region(r.value.states, lo, |r.value.states|)
    decreases inner, 4, if i <= count then count - i + 1 else 0
  {
    CopiesPlaced(a, inner, min, exit, i, count, from, to);
    if i <= count {
      AddCopyPlaced(a, inner, min, exit, i, to);
      AddCopyRegion(a, inner, min, exit, i, to, lo);
      var c := AddCopy(a, inner, min, exit, i, to).value;
      CopiesRegion(c.states, inner, min, exit, i + 1, count, c.entry, c.exit, lo);
    }
  }

  lemma {:induction false} AddCopyRegion(a: seq<State>, inner: Token, min: int, exit: nat, i: int, to: nat, lo: nat)
    requires exit < |a| && to < |a| && Buildable(inner)
    requires Region(a, lo, |a|) && lo <= exit && lo <= to
    ensures AddCopy(a, inner, min, exit, i, to).Ok?
    ensures Region(AddCopy(a, inner, min, exit, i, to).value.states, lo, |AddCopy(a, inner, min, exit, i, to).value.states|)
    decreases inner, 3
  {
    BuildPlaced(a, inner);
    BuildRegion(a, inner);
    var f := Build(a, inner).value;
    var hi := |f.states|;
    RegionKept(a, f.states, lo, |a|, |a|, |a|);
    RegionJoin(f.states, lo, |a|, hi);
    var s := AppendTarget(f.states, to, Epsilon, f.entry);
    AppendSound(f.states, to, f.entry, lo, hi);
    if i > min {
      AppendSound(s, f.entry, exit, lo, hi);
    }
  }

  lemma {:induction false} GroupRegion(a: seq<State>, items: seq<Token>, lo: nat)
    requires |items| > 0 && AllBuildable(items)
    requires Region(a, lo, |a|)
    ensures BuildGroup(a, items).Ok? && Region(BuildGroup(a, items).value.states, lo, |BuildGroup(a, items).value.states|)
    decreases items, 2
  {
    GroupPlaced(a, items);
    BuildPlaced(a, items[0]);
    BuildRegion(a, items[0]);
    var f := Build(a, items[0]).value;
    RegionKept(a, f.states, lo, |a|, |a|, |a|);
    RegionJoin(f.states, lo, |a|, |f.states|);
    SeqRegion(f.states, items, 1, f.entry, f.exit, lo);
  }

  lemma {:induction false} SeqRegion(a: seq<State>, items: seq<Token>, i: nat, entry: nat, end: nat, lo: nat)
    requires i <= |items| && entry < |a| && end < |a| && AllBuildable(items)
    requires Region(a, lo, |a|) && lo <= end
    ensures BuildSeq(a, items, i, entry, end).Ok?
    ensures Region(BuildSeq(a, items, i, entry, end).value.states, lo, |BuildSeq(a, items, i, entry, end).value.states|)
    decreases items, 1, |items| - i
  {
    SeqPlaced(a, items, i, entry, end);
    if i < |items| {
      ChainPlaced(a, items[i], end);
      ChainRegion(a, items[i], end, lo);
      var n := Chain(a, items[i], end).value;
      SeqRegion(n.states, items, i + 1, entry, n.exit, lo);
    }
  }

  lemma {:induction false} ChainRegion(a: seq<State>, t: Token, end: nat, lo: nat)
    requires end < |a| && Buildable(t)
    requires Region(a, lo, |a|) && lo <= end
    ensures Chain(a, t, end).Ok? && Region(Chain(a, t, end).value.states, lo, |Chain(a, t, end).value.states|)
    decreases t, 3
  {
    BuildPlaced(a, t);
    BuildRegion(a, t);
    var f := Build(a, t).value;
    RegionKept(a, f.states, lo, |a|, |a|, |a|);
    RegionJoin(f.states, lo, |a|, |f.states|);
    AppendSound(f.states, end, f.entry, lo, |f.states|);
  }

  /** Wrapping a sound body gives a closed arena with single targets. */
  lemma WrappedClosed(body: seq<State>, entry: nat, exit: nat)
    requires Region(body, 0, |body|) && entry < |body| && exit < |body|
    ensures Closed(Wrapped(body, entry, exit)) && SingleTarget(Wrapped(body, entry, exit))
  {
    var n := |body|;
    var s := body + [State(true, false, map[Epsilon := [entry]]), State(false, true, map[])];
    var r := AppendTarget(s, exit, Epsilon, n + 1);
    assert r == Wrapped(body, entry, exit);
    AppendTargetEffect(s, exit, Epsilon, n + 1);
    forall i, sym, k | 0 <= i < |r| && 0 <= k < |Targets(r[i], sym)|
      ensures Targets(r[i], sym)[k] < |r|
    {
      if i == exit {
        if sym == Epsilon && k == |Targets(r[i], sym)| - 1 {
        } else {
          assert Sound(body[i], 0, n);
          assert Targets(r[i], sym)[k] == Targets(s[i], sym)[k];
        }
      } else if i < n {
        assert Sound(body[i], 0, n);
      }
    }
    forall i, sym | 0 <= i < |r| && sym != Epsilon && sym in r[i].transitions
      ensures |r[i].transitions[sym]| == 1
    {
      if i < n {
        assert Sound(body[i], 0, n);
        assert Targets(r[i], sym) == Targets(s[i], sym);
      }
    }
  }

  /** Wrapping a sound body marks only the two new states. */
  lemma WrappedMarks(body: seq<State>, entry: nat, exit: nat)
    requires Region(body, 0, |body|) && exit < |body|
    ensures var r := Wrapped(body, entry, exit);
            && (forall j :: 0 <= j < |r| ==> (r[j].start <==> j == |body|))
            && (forall j :: 0 <= j < |r| ==> (r[j].terminal <==> j == |body| + 1))
            && r[|body|].transitions == map[Epsilon := [entry]]
            && r[|body| + 1].transitions == map[]
  {
    var n := |body|;
    var s := body + [State(true, false, map[Epsilon := [entry]]), State(false, true, map[])];
    AppendTargetEffect(s, exit, Epsilon, n + 1);
    assert Sound(body[exit], 0, n);
  }

  /**
   * The automaton `toNfa` builds is closed, has one target per list of every
   * symbol other than epsilon, marks only its start state as start and only
   * its last state as accepting; the start state has one epsilon edge, to the
   * entry of the first token, and the accepting state has no transitions.
   */
  lemma ToNfaShape(tokens: seq<Token>)
    requires |tokens| > 0 && AllBuildable(tokens)
    ensures ToNfa(tokens).Ok?
    ensures var nfa := ToNfa(tokens).value;
            var s := nfa.states;
            && Closed(s) && SingleTarget(s)
            && (forall j :: 0 <= j < |s| ==> (s[j].start <==> j == nfa.start))
            && (forall j :: 0 <= j < |s| ==> (s[j].terminal <==> j == nfa.start + 1))
            && s[nfa.start].transitions == map[Epsilon := [EntryOffset(tokens[0])]]
            && s[nfa.start + 1].transitions == map[]
  {
    GroupPlaced([], tokens);
    GroupRegion([], tokens, 0);
    var body := BuildGroup([], tokens).value;
    WrappedClosed(body.states, body.entry, body.exit);
    WrappedMarks(body.states, body.entry, body.exit);
  }

  /** The three assignments that finish an `or`, on distinct states. */
  lemma OrEdits(s: seq<State>, entry: nat, e1: nat, e2: nat, x1: nat, x2: nat, exit: nat)
    requires entry < |s| && x1 < |s| && x2 < |s| && entry != x1 && entry != x2 && x1 != x2
    ensures var r := SetTargets(SetTargets(SetTargets(s, entry, Epsilon, [e1, e2]), x1, Epsilon, [exit]), x2, Epsilon, [exit]);
            && Targets(r[entry], Epsilon) == [e1, e2]
            && Targets(r[x1], Epsilon) == [exit]
            && Targets(r[x2], Epsilon) == [exit]
  {
    var s1 := SetTargets(s, entry, Epsilon, [e1, e2]);
    var s2 := SetTargets(s1, x1, Epsilon, [exit]);
    SetTargetsEffect(s, entry, Epsilon, [e1, e2]);
    SetTargetsEffect(s1, x1, Epsilon, [exit]);
    SetTargetsEffect(s2, x2, Epsilon, [exit]);
  }

  /**
   * The ends of an `or`: the entry's epsilon list is the two branch entries,
   * and each branch exit's epsilon list is set to just the exit, whatever the
   * branch had put there, so an edge the branch's last token left on it is gone.
   */
  lemma OrEnds(a: seq<State>, t: Token)
    requires t.Or? && Buildable(t)
    ensures BuildOr(a, t).Ok?
    ensures var f := BuildOr(a, t).value;
            var x1 := |a| + 2 + ExitOffset(t.left);
            var x2 := |a| + 2 + Size(t.left) + ExitOffset(t.right);
            && f.entry == |a| && f.exit == |a| + 1 && |f.states| == |a| + Size(t)
            && |Targets(f.states[f.entry], Epsilon)| == 2
            && Targets(f.states[f.entry], Epsilon)[0] == |a| + 2 + EntryOffset(t.left)
            && Targets(f.states[f.entry], Epsilon)[1] == |a| + 2 + Size(t.left) + EntryOffset(t.right)
            && Targets(f.states[x1], Epsilon) == [f.exit]
            && Targets(f.states[x2], Epsilon) == [f.exit]
  {
    OrPlaced(a, t);
    var a2 := a + [Blank, Blank];
    BuildPlaced(a2, t.left);
    var f1 := Build(a2, t.left).value;
    BuildPlaced(f1.states, t.right);
    var f2 := Build(f1.states, t.right).value;
    var r := SetTargets(SetTargets(SetTargets(f2.states, |a|, Epsilon, [f1.entry, f2.entry]), f1.exit, Epsilon, [|a| + 1]), f2.exit, Epsilon, [|a| + 1]);
    assert BuildOr(a, t) == Ok(Fragment(r, |a|, |a| + 1));
    OrEdits(f2.states, |a|, f1.entry, f2.entry, f1.exit, f2.exit, |a| + 1);
    assert Placed(a2, t.left, f1) && Placed(f1.states, t.right, f2);
    assert f1.entry == |a| + 2 + EntryOffset(t.left);
    assert f2.entry == |a| + 2 + Size(t.left) + EntryOffset(t.right);
  }
}
