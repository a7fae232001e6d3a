/**
 * The states of the automaton. The source links states by pointer; here the
 * states live in one arena, a sequence indexed by allocation order, and a
 * transition list holds arena indexes.
 */
module Automaton {
  import opened Syntax

  /** The symbol of an epsilon move: byte 0, the same symbol as a pattern or input byte 0. */
  const Epsilon: Byte := 0

  /** A state: whether it is the start or an accepting state, and its lists of targets per symbol. */
  datatype State = State(start: bool, terminal: bool, transitions: map<Byte, seq<nat>>)

  /** A freshly allocated state: unmarked and without transitions. */
  const Blank: State := State(false, false, map[])

  /** The target list of `s` for `sym`; a missing key reads as the empty list, as in a Go map. */
  function Targets(s: State, sym: Byte): seq<nat>
  {
    if sym in s.transitions then s.transitions[sym] else []
  }

  /** `s.transitions[sym] = ts` on state `i` of the arena. */
  function SetTargets(a: seq<State>, i: nat, sym: Byte, ts: seq<nat>): (r: seq<State>)
    requires i < |a|
    ensures |r| == |a|
    ensures forall j :: 0 <= j < |a| && j != i ==> r[j] == a[j]
  {
    a[i := a[i].(transitions := a[i].transitions[sym := ts])]
  }

  /** `s.transitions[sym] = append(s.transitions[sym], t)` on state `i` of the arena. */
  function AppendTarget(a: seq<State>, i: nat, sym: Byte, t: nat): (r: seq<State>)
    requires i < |a|
    ensures |r| == |a|
    ensures forall j :: 0 <= j < |a| && j != i ==> r[j] == a[j]
  {
    SetTargets(a, i, sym, Targets(a[i], sym) + [t])
  }

  /** What `SetTargets` does to state `i`: list `sym` is `ts`, the flags and the other lists stay. */
  lemma SetTargetsEffect(a: seq<State>, i: nat, sym: Byte, ts: seq<nat>)
    requires i < |a|
    ensures var r := SetTargets(a, i, sym, ts);
            && r[i].start == a[i].start && r[i].terminal == a[i].terminal
            && Targets(r[i], sym) == ts
            && (forall other :: other != sym ==> Targets(r[i], other) == Targets(a[i], other))
            && r[i].transitions.Keys == a[i].transitions.Keys + {sym}
  {
  }

  /** What `AppendTarget` does to state `i`: `t` joins the end of list `sym`, the rest stays. */
  lemma AppendTargetEffect(a: seq<State>, i: nat, sym: Byte, t: nat)
    requires i < |a|
    ensures var r := AppendTarget(a, i, sym, t);
            && r[i].start == a[i].start && r[i].terminal == a[i].terminal
            && Targets(r[i], sym) == Targets(a[i], sym) + [t]
            && (forall other :: other != sym ==> Targets(r[i], other) == Targets(a[i], other))
            && r[i].transitions.Keys == a[i].transitions.Keys + {sym}
  {
    SetTargetsEffect(a, i, sym, Targets(a[i], sym) + [t]);
  }

  /** Every target of every state is a state of the arena. */
  predicate Closed(a: seq<State>)
  {
    forall i, sym, k :: 0 <= i < |a| && 0 <= k < |Targets(a[i], sym)| ==> Targets(a[i], sym)[k] < |a|
  }

  /** Every list of a symbol other than epsilon has exactly one target. */
  predicate SingleTarget(a: seq<State>)
  {
    forall i, sym :: 0 <= i < |a| && sym != Epsilon && sym in a[i].transitions ==> |a[i].transitions[sym]| == 1
  }

  /**
   * State `s` is unmarked, its targets lie in `[lo, hi)`, and its lists for
   * symbols other than epsilon have exactly one target.
   */
  predicate Sound(s: State, lo: nat, hi: nat)
  {
    && !s.start && !s.terminal
    && (forall sym, k :: 0 <= k < |Targets(s, sym)| ==> lo <= Targets(s, sym)[k] < hi)
    && (forall sym :: sym != Epsilon && sym in s.transitions ==> |s.transitions[sym]| == 1)
  }

  /** The states `[lo, hi)` of the arena are sound and only point among themselves. */
  predicate Region(a: seq<State>, lo: nat, hi: nat)
  {
    lo <= hi <= |a| && forall j :: lo <= j < hi ==> Sound(a[j], lo, hi)
  }
}
