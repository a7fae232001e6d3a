/**
 * What the construction promises: it fails exactly on an empty group, every
 * fragment takes `Size(t)` fresh states with entry and exit at fixed offsets,
 * and the shapes that `check` relies on.
 */
module BuildProperties {
  import opened Wrappers
  import opened Syntax
  import opened Automaton
  import opened BuildSpec

  /** The first copy and the further `CopyCount - 1` make `Copies` copies. */
  lemma RepeatSize(min: int, max: int, size: nat)
    ensures Times(Copies(min, max), size) == size + Times(if 2 <= CopyCount(min, max) then CopyCount(min, max) - 1 else 0, size)
  {
    if CopyCount(min, max) < 2 {
      assert Times(1, size) == size + Times(0, size);
    }
  }

  /**
   * `tokenToNfa` fails exactly when some group in `t` is empty; otherwise it
   * appends `Size(t)` states, leaves every earlier state as it was, and puts
   * entry and exit at `EntryOffset(t)` and `ExitOffset(t)` past the old end.
   */
  lemma {:induction false} BuildPlaced(a: seq<State>, t: Token)
    ensures Build(a, t).Ok? <==> Buildable(t)
    ensures Build(a, t).Ok? ==> Placed(a, t, Build(a, t).value)
    decreases t, 2
  {
    match t
    case Literal(_) => LeafPlaced(a, t);
    case Bracket(_) => LeafPlaced(a, t);
    case Or(_, _) => OrPlaced(a, t);
    case Group(items) => GroupPlaced(a + [Blank, Blank], items);
    case GroupUncaptured(items) => GroupPlaced(a + [Blank, Blank], items);
    case Repeat(_, _, _) => RepeatPlaced(a, t);
  }

  lemma LeafPlaced(a: seq<State>, t: Token)
    requires t.Literal? || t.Bracket?
    ensures Placed(a, t, BuildLeaf(a, t))
  {
  }

  lemma {:induction false} OrPlaced(a: seq<State>, t: Token)
    requires t.Or?
    ensures BuildOr(a, t).Ok? <==> Buildable(t)
    ensures BuildOr(a, t).Ok? ==> Placed(a, t, BuildOr(a, t).value)
    decreases t, 1
  {
    var a2 := a + [Blank, Blank];
    BuildPlaced(a2, t.left);
    if Build(a2, t.left).Ok? {
      BuildPlaced(Build(a2, t.left).value.states, t.right);
    }
  }

  lemma {:induction false} RepeatPlaced(a: seq<State>, t: Token)
    requires t.Repeat?
    ensures BuildRepeat(a, t).Ok? <==> Buildable(t)
    ensures BuildRepeat(a, t).Ok? ==> Placed(a, t, BuildRepeat(a, t).value)
    decreases t, 1
  {
    HeadPlaced(a, t);
    var head := RepeatHead(a, t);
    if head.Ok? {
      var h := head.value;
      var exit := |a| + 1;
      var count := CopyCount(t.min, t.max);
      CopiesPlaced(h.states, t.inner, t.min, exit, 2, count, h.entry, h.exit);
      var last := BuildCopies(h.states, t.inner, t.min, exit, 2, count, h.entry, h.exit).value;
      var n := if 2 <= count then count - 1 else 0;
      assert |last.states| == |a| + 2 + Size(t.inner) + Times(n, Size(t.inner));
      RepeatSize(t.min, t.max, Size(t.inner));
      assert Keeps(a, last.states) && |a| <= last.exit;
      var s := RepeatTail(last, exit, t.max == RepeatInfinity);
      assert BuildRepeat(a, t) == Ok(Fragment(s, |a|, exit));
      assert |s| == |a| + Size(t);
      assert Keeps(a, s);
    }
  }

  lemma {:induction false} HeadPlaced(a: seq<State>, t: Token)
    requires t.Repeat?
    ensures RepeatHead(a, t).Ok? <==> Buildable(t.inner)
    ensures RepeatHead(a, t).Ok? ==> && |RepeatHead(a, t).value.states| == |a| + 2 + Size(t.inner)
                                     && Keeps(a, RepeatHead(a, t).value.states)
                                     && RepeatHead(a, t).value.entry == |a| + 2 + EntryOffset(t.inner)
                                     && RepeatHead(a, t).value.exit == |a| + 2 + ExitOffset(t.inner)
    decreases t, 0
  {
    var a2 := a + [Blank, Blank];
    var s := if t.min == 0 then SetTargets(a2, |a|, Epsilon, [|a| + 1]) else a2;
    BuildPlaced(s, t.inner);
  }

  /** The copy loop from round `i`: `n` more copies of `Size(inner)` states each. */
  lemma {:induction false} CopiesPlaced(a: seq<State>, inner: Token, min: int, exit: nat, i: int, count: int, from: nat, to: nat)
    requires exit < |a| && from < |a| && to < |a|
    ensures var r := BuildCopies(a, inner, min, exit, i, count, from, to);
            && (r.Ok? <==> i > count || Buildable(inner))
            && (r.Ok? ==> var n := if i <= count then count - i + 1 else 0;
                          && |r.value.states| == |a| + Times(n, Size(inner))
                          && KeepsBut(a, r.value.states, to, to)
                          && (n == 0 ==> r.value == Fragment(a, from, to))
                          && (n > 0 ==> && r.value.entry == |a| + Times(n - 1, Size(inner)) + EntryOffset(inner)
                                        && r.value.exit == |a| + Times(n - 1, Size(inner)) + ExitOffset(inner)))
    decreases inner, 4, if i <= count then count - i + 1 else 0, 1
  {
    if i <= count {
      AddCopyPlaced(a, inner, min, exit, i, to);
      if Buildable(inner) {
        CopiesNext(a, inner, min, exit, i, count, from, to);
      }
    }
  }

  /** A round that builds its copy, then the rounds after it. */
  lemma {:induction false} CopiesNext(a: seq<State>, inner: Token, min: int, exit: nat, i: int, count: int, from: nat, to: nat)
    requires exit < |a| && from < |a| && to < |a|
    requires i <= count && Buildable(inner)
    ensures var r := BuildCopies(a, inner, min, exit, i, count, from, to);
            var n := count - i + 1;
            && r.Ok?
            && |r.value.states| == |a| + Times(n, Size(inner))
            && KeepsBut(a, r.value.states, to, to)
            && r.value.entry == |a| + Times(n - 1, Size(inner)) + EntryOffset(inner)
            && r.value.exit == |a| + Times(n - 1, Size(inner)) + ExitOffset(inner)
    decreases inner, 4, count - i + 1, 0
  {
    AddCopyPlaced(a, inner, min, exit, i, to);
    var c := AddCopy(a, inner, min, exit, i, to).value;
    var j := i + 1;
    CopiesPlaced(c.states, inner, min, exit, j, count, c.entry, c.exit);
    var r := BuildCopies(c.states, inner, min, exit, j, count, c.entry, c.exit);
    assert BuildCopies(a, inner, min, exit, i, count, from, to) == r;
    CopiesJoin(a, c, r.value, Size(inner), EntryOffset(inner), ExitOffset(inner), count - i + 1, to);
  }

  /** Copy `i` followed by the copies after it: the offsets add up. */
  lemma CopiesJoin(a: seq<State>, c: Fragment, r: Fragment, size: nat, entry: nat, exit: nat, n: nat, to: nat)
    requires n >= 1 && to < |a|
    requires |c.states| == |a| + size && KeepsBut(a, c.states, to, to)
    requires c.entry == |a| + entry && c.exit == |a| + exit
    requires |r.states| == |c.states| + Times(n - 1, size) && KeepsBut(c.states, r.states, c.exit, c.exit)
    requires n == 1 ==> r == c
    requires n > 1 ==> r.entry == |c.states| + Times(n - 2, size) + entry && r.exit == |c.states| + Times(n - 2, size) + exit
    ensures |r.states| == |a| + Times(n, size) && KeepsBut(a, r.states, to, to)
    ensures r.entry == |a| + Times(n - 1, size) + entry && r.exit == |a| + Times(n - 1, size) + exit
  {
    assert Times(n, size) == size + Times(n - 1, size);
    if n > 1 {
      assert Times(n - 1, size) == size + Times(n - 2, size);
    }
  }

  lemma {:induction false} AddCopyPlaced(a: seq<State>, inner: Token, min: int, exit: nat, i: int, to: nat)
    requires exit < |a| && to < |a|
    ensures var r := AddCopy(a, inner, min, exit, i, to);
            && (r.Ok? <==> Buildable(inner))
            && (r.Ok? ==> && |r.value.states| == |a| + Size(inner)
                          && KeepsBut(a, r.value.states, to, to)
                          && r.value.entry == |a| + EntryOffset(inner)
                          && r.value.exit == |a| + ExitOffset(inner))
    decreases inner, 3
  {
    BuildPlaced(a, inner);
  }

  /** A group body: the tokens' fragments one after the other. */
  lemma {:induction false} GroupPlaced(a: seq<State>, items: seq<Token>)
    ensures var r := BuildGroup(a, items);
            && (r.Ok? <==> |items| > 0 && AllBuildable(items))
            && (r.Ok? ==> && |r.value.states| == |a| + SizeSeq(items)
                          && Keeps(a, r.value.states)
                          && r.value.entry == |a| + EntryOffset(items[0])
                          && r.value.exit == |a| + LastExitOffset(items))
    decreases items, 2
  {
    if |items| > 0 {
      BuildPlaced(a, items[0]);
      var first := Build(a, items[0]);
      if first.Ok? {
        var f := first.value;
        SeqPlaced(f.states, items, 1, f.entry, f.exit);
        assert items[1..] == items[0..][1..];
        assert AllBuildable(items) <==> Buildable(items[0]) && AllBuildable(items[1..]);
      } else {
        assert !AllBuildable(items);
      }
    }
  }

  lemma {:induction false} SeqPlaced(a: seq<State>, items: seq<Token>, i: nat, entry: nat, end: nat)
    requires i <= |items| && entry < |a| && end < |a|
    ensures var r := BuildSeq(a, items, i, entry, end);
            && (r.Ok? <==> AllBuildable(items[i..]))
            && (r.Ok? ==> && |r.value.states| == |a| + SizeSeq(items[i..])
                          && KeepsBut(a, r.value.states, end, end)
                          && r.value.entry == entry
                          && r.value.exit == if i == |items| then end else |a| + LastExitOffset(items[i..]))
    decreases items, 1, |items| - i
  {
    if i < |items| {
      ChainPlaced(a, items[i], end);
      var next := Chain(a, items[i], end);
      assert items[i..][1..] == items[i + 1..];
      assert AllBuildable(items[i..]) <==> Buildable(items[i]) && AllBuildable(items[i + 1..]);
      if next.Ok? {
        var n := next.value;
        SeqPlaced(n.states, items, i + 1, entry, n.exit);
      }
    }
  }

  lemma {:induction false} ChainPlaced(a: seq<State>, t: Token, end: nat)
    requires end < |a|
    ensures var r := Chain(a, t, end);
            && (r.Ok? <==> Buildable(t))
            && (r.Ok? ==> && |r.value.states| == |a| + Size(t)
                          && KeepsBut(a, r.value.states, end, end)
                          && r.value.entry == |a| + EntryOffset(t)
                          && r.value.exit == |a| + ExitOffset(t))
    decreases t, 3
  {
    BuildPlaced(a, t);
  }

  /**
   * `toNfa` fails exactly on an empty token list or an empty group; otherwise
   * the start state and the accepting state are the last two states allocated.
   */
  lemma ToNfaPlaced(tokens: seq<Token>)
    ensures ToNfa(tokens).Ok? <==> |tokens| > 0 && AllBuildable(tokens)
    ensures ToNfa(tokens).Ok? ==> |ToNfa(tokens).value.states| == SizeSeq(tokens) + 2
                                  && ToNfa(tokens).value.start == SizeSeq(tokens)
  {
    GroupPlaced([], tokens);
  }
}
