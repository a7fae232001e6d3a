/**
 * What `check` answers: an answer, once reached, stays the same with a larger
 * depth bound; true exactly when some run of moves from the starting point
 * ends in an accepting state at the end-of-text symbol; and, on an input
 * without the reserved byte 2, only after the whole input.
 */
module MatchProperties {
  import opened Wrappers
  import opened Syntax
  import opened Automaton
  import opened Matcher

  /** A larger depth bound gives the same answer once there is one. */
  lemma {:induction false} CheckMonotone(a: seq<State>, s: nat, input: seq<Byte>, pos: int, fuel: nat, more: nat)
    requires Closed(a) && s < |a| && fuel <= more
    requires Check(a, s, input, pos, fuel).Some?
    ensures Check(a, s, input, pos, more) == Check(a, s, input, pos, fuel)
    decreases fuel, 0
  {
    var ch := GetChar(input, pos);
    if !(ch == EndOfText && a[s].terminal) {
      var next := Targets(a[s], ch);
      if |next| > 0 {
        CheckMonotone(a, next[0], input, pos + 1, fuel - 1, more - 1);
      }
      var consumed := if |next| > 0 then Check(a, next[0], input, pos + 1, fuel - 1) else Some(false);
      if consumed == Some(false) {
        CheckEpsilonMonotone(a, Targets(a[s], Epsilon), ch, input, pos, fuel - 1, more - 1);
      }
    }
  }

  lemma {:induction false} CheckEpsilonMonotone(a: seq<State>, ts: seq<nat>, ch: Byte, input: seq<Byte>, pos: int, fuel: nat, more: nat)
    requires Closed(a) && (forall k :: 0 <= k < |ts| ==> ts[k] < |a|) && fuel <= more
    requires CheckEpsilon(a, ts, ch, input, pos, fuel).Some?
    ensures CheckEpsilon(a, ts, ch, input, pos, more) == CheckEpsilon(a, ts, ch, input, pos, fuel)
    decreases fuel, 1, |ts|
  {
    if |ts| > 0 {
      CheckMonotone(a, ts[0], input, pos, fuel, more);
      if Check(a, ts[0], input, pos, fuel) == Some(false) {
        if ch == StartOfText {
          CheckMonotone(a, ts[0], input, pos + 1, fuel, more);
        }
        var skip := if ch == StartOfText then Check(a, ts[0], input, pos + 1, fuel) else Some(false);
        if skip == Some(false) {
          CheckEpsilonMonotone(a, ts[1..], ch, input, pos, fuel, more);
        }
      }
    }
  }

  /** When `check` answers true, here is the run it found. */
  lemma {:induction false} CheckSound(a: seq<State>, s: nat, input: seq<Byte>, pos: int, fuel: nat) returns (p: seq<Config>)
    requires Closed(a) && s < |a|
    requires Check(a, s, input, pos, fuel) == Some(true)
    ensures Run(a, input, p) && p[0] == Config(s, pos)
    decreases fuel, 0
  {
    var ch := GetChar(input, pos);
    if ch == EndOfText && a[s].terminal {
      return [Config(s, pos)];
    }
    var next := Targets(a[s], ch);
    var consumed := if |next| > 0 then Check(a, next[0], input, pos + 1, fuel - 1) else Some(false);
    var q;
    if consumed == Some(true) {
      q := CheckSound(a, next[0], input, pos + 1, fuel - 1);
    } else {
      var k;
      k, q := CheckEpsilonSound(a, Targets(a[s], Epsilon), ch, input, pos, fuel - 1);
    }
    p := [Config(s, pos)] + q;
    assert Move(a, input, p[0], p[1]);
    assert forall i :: 1 <= i < |p| - 1 ==> p[i] == q[i - 1] && p[i + 1] == q[i];
  }

  lemma {:induction false} CheckEpsilonSound(a: seq<State>, ts: seq<nat>, ch: Byte, input: seq<Byte>, pos: int, fuel: nat)
    returns (k: nat, p: seq<Config>)
    requires Closed(a) && forall k :: 0 <= k < |ts| ==> ts[k] < |a|
    requires CheckEpsilon(a, ts, ch, input, pos, fuel) == Some(true)
    ensures k < |ts| && Run(a, input, p) && p[0].state == ts[k]
    ensures p[0].pos == pos || (ch == StartOfText && p[0].pos == pos + 1)
    decreases fuel, 1, |ts|
  {
    if Check(a, ts[0], input, pos, fuel) == Some(true) {
      k := 0;
      p := CheckSound(a, ts[0], input, pos, fuel);
    } else if ch == StartOfText && Check(a, ts[0], input, pos + 1, fuel) == Some(true) {
      k := 0;
      p := CheckSound(a, ts[0], input, pos + 1, fuel);
    } else {
      var j;
      j, p := CheckEpsilonSound(a, ts[1..], ch, input, pos, fuel);
      k := j + 1;
    }
  }

  /** When some run starts at `(s, pos)`, `check` does not answer false: it finds a run or walks deeper than the bound. */
  lemma {:induction false} CheckComplete(a: seq<State>, s: nat, input: seq<Byte>, pos: int, fuel: nat, p: seq<Config>)
    requires Closed(a) && s < |a|
    requires Run(a, input, p) && p[0] == Config(s, pos)
    ensures Check(a, s, input, pos, fuel) != Some(false)
    decreases |p|, 1
  {
    if fuel > 0 {
      var ch := GetChar(input, pos);
      if !(ch == EndOfText && a[s].terminal) {
        assert |p| > 1;
        var q := p[1..];
        forall i | 0 <= i < |q| - 1
          ensures Move(a, input, q[i], q[i + 1])
        {
          assert q[i] == p[i + 1] && q[i + 1] == p[i + 2];
        }
        var next := Targets(a[s], ch);
        var consumed := if |next| > 0 then Check(a, next[0], input, pos + 1, fuel - 1) else Some(false);
        assert Move(a, input, p[0], p[1]);
        if |next| > 0 && p[1] == Config(next[0], pos + 1) {
          CheckComplete(a, next[0], input, pos + 1, fuel - 1, q);
        } else if consumed == Some(false) {
          var ts := Targets(a[s], Epsilon);
          var k :| 0 <= k < |ts| && ts[k] == p[1].state;
          CheckEpsilonComplete(a, ts, k, ch, input, pos, fuel - 1, q);
        }
      }
    }
  }

  lemma {:induction false} CheckEpsilonComplete(a: seq<State>, ts: seq<nat>, k: nat, ch: Byte, input: seq<Byte>, pos: int, fuel: nat, p: seq<Config>)
    requires Closed(a) && (forall k :: 0 <= k < |ts| ==> ts[k] < |a|) && k < |ts|
    requires Run(a, input, p) && p[0].state == ts[k]
    requires p[0].pos == pos || (ch == StartOfText && p[0].pos == pos + 1)
    ensures CheckEpsilon(a, ts, ch, input, pos, fuel) != Some(false)
    decreases |p|, 2, k
  {
    var here := Check(a, ts[0], input, pos, fuel);
    var skip := if ch == StartOfText then Check(a, ts[0], input, pos + 1, fuel) else Some(false);
    if k == 0 {
      CheckComplete(a, ts[0], input, p[0].pos, fuel, p);
    } else if here == Some(false) && skip == Some(false) {
      CheckEpsilonComplete(a, ts[1..], k - 1, ch, input, pos, fuel, p);
    }
  }

  /** Whatever answer `check` reaches is right: true exactly when some run starts at `(s, pos)`. */
  lemma CheckCorrect(a: seq<State>, s: nat, input: seq<Byte>, pos: int, fuel: nat)
    requires Closed(a) && s < |a|
    requires Check(a, s, input, pos, fuel).Some?
    ensures Check(a, s, input, pos, fuel).value <==> Accepts(a, input, Config(s, pos))
  {
    if Check(a, s, input, pos, fuel).value {
      var p := CheckSound(a, s, input, pos, fuel);
    } else if Accepts(a, input, Config(s, pos)) {
      var p :| Run(a, input, p) && p[0] == Config(s, pos);
      CheckComplete(a, s, input, pos, fuel, p);
    }
  }

  /** Every move keeps the cursor or advances it by one. */
  lemma MoveAdvances(a: seq<State>, input: seq<Byte>, c: Config, d: Config)
    requires Move(a, input, c, d)
    ensures c.pos <= d.pos <= c.pos + 1
  {
  }

  /** Along a run the cursor never goes back and ends at least `|p| - 1` positions on at most. */
  lemma {:induction false} RunAdvances(a: seq<State>, input: seq<Byte>, p: seq<Config>, i: nat)
    requires Run(a, input, p) && i < |p|
    ensures p[0].pos <= p[i].pos <= p[0].pos + i
  {
    if i > 0 {
      RunAdvances(a, input, p, i - 1);
      MoveAdvances(a, input, p[i - 1], p[i]);
    }
  }

  /**
   * Acceptance is of the whole input: on an input without the byte
   * `EndOfText`, a run ends past the last byte, so every run from `pos = -1`
   * that `check` finds covers the input.
   */
  lemma AcceptsWholeInput(a: seq<State>, s: nat, input: seq<Byte>, fuel: nat)
    requires Closed(a) && s < |a|
    requires forall i :: 0 <= i < |input| ==> input[i] != EndOfText
    requires Check(a, s, input, -1, fuel) == Some(true)
    ensures exists p: seq<Config> :: Run(a, input, p) && p[0] == Config(s, -1) && p[|p| - 1].pos >= |input|
  {
    var p := CheckSound(a, s, input, -1, fuel);
    var last := p[|p| - 1];
    assert GetChar(input, last.pos) == EndOfText;
  }
}
