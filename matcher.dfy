/**
 * The matcher of gorgex.go:371-412: `getChar` reads the input with two
 * sentinel symbols around it, and `check` walks the automaton depth first,
 * trying the first target of the symbol under the cursor, then every epsilon
 * target, in order.
 *
 * `check` need not terminate (an epsilon cycle is walked forever), so `Check`
 * carries a bound on the depth of the walk and answers `None` when the walk
 * would go deeper; `Some(b)` is the answer of the source's `check`.
 */
module Matcher {
  import opened Wrappers
  import opened Syntax
  import opened Automaton

  /** The symbol read before the first byte of the input. */
  const StartOfText: Byte := 1
  /** The symbol read at and past the end of the input. */
  const EndOfText: Byte := 2

  /** `getChar`: the end test comes first, then the start test, then the byte itself. */
  function GetChar(input: seq<Byte>, pos: int): (c: Byte)
    ensures pos >= |input| ==> c == EndOfText
    ensures pos < 0 ==> c == StartOfText
    ensures 0 <= pos < |input| ==> c == input[pos]
  {
    if pos >= |input| then EndOfText
    else if pos < 0 then StartOfText
    else input[pos]
  }

  /**
   * `s.check(input, pos)` with at most `fuel` nested calls: `None` when the walk
   * needs more, `Some(b)` when the source's `check` returns `b`.
   */
  function Check(a: seq<State>, s: nat, input: seq<Byte>, pos: int, fuel: nat): Option<bool>
    requires Closed(a) && s < |a|
    decreases fuel, 0
  {
    if fuel == 0 then None
    else
      var ch := GetChar(input, pos);
      if ch == EndOfText && a[s].terminal then Some(true)
      else
        var next := Targets(a[s], ch);
        var consumed := if |next| > 0 then Check(a, next[0], input, pos + 1, fuel - 1) else Some(false);
        if consumed != Some(false) then consumed
        else CheckEpsilon(a, Targets(a[s], Epsilon), ch, input, pos, fuel - 1)
  }

  /** The loop over the epsilon targets `ts` of a state, `ch` being the symbol under the cursor. */
  function CheckEpsilon(a: seq<State>, ts: seq<nat>, ch: Byte, input: seq<Byte>, pos: int, fuel: nat): Option<bool>
    requires Closed(a) && forall k :: 0 <= k < |ts| ==> ts[k] < |a|
    decreases fuel, 1, |ts|
  {
    if |ts| == 0 then Some(false)
    else
      var here := Check(a, ts[0], input, pos, fuel);
      if here != Some(false) then here
      else
        var skip := if ch == StartOfText then Check(a, ts[0], input, pos + 1, fuel) else Some(false);
        if skip != Some(false) then skip
        else CheckEpsilon(a, ts[1..], ch, input, pos, fuel)
  }

  /** A point of the walk: a state and a cursor position. */
  datatype Config = Config(state: nat, pos: int)

  /**
   * The moves `check` tries from `c`: the first target of the symbol under the
   * cursor, one position on; any epsilon target at the same position; and any
   * epsilon target one position on when the symbol is `StartOfText`.
   */
  predicate Move(a: seq<State>, input: seq<Byte>, c: Config, d: Config)
  {
    && c.state < |a|
    && var ch := GetChar(input, c.pos);
       || (|Targets(a[c.state], ch)| > 0 && d == Config(Targets(a[c.state], ch)[0], c.pos + 1))
       || (d.state in Targets(a[c.state], Epsilon) && (d.pos == c.pos || (ch == StartOfText && d.pos == c.pos + 1)))
  }

  /** Where `check` answers true: an accepting state at the end-of-text symbol. */
  predicate Accepting(a: seq<State>, input: seq<Byte>, c: Config)
  {
    c.state < |a| && GetChar(input, c.pos) == EndOfText && a[c.state].terminal
  }

  /** A sequence of moves ending where `check` accepts. */
  predicate Run(a: seq<State>, input: seq<Byte>, p: seq<Config>)
  {
    && |p| > 0
    && (forall i :: 0 <= i < |p| - 1 ==> Move(a, input, p[i], p[i + 1]))
    && Accepting(a, input, p[|p| - 1])
  }

  /** Some run starts at `c`. */
  ghost predicate Accepts(a: seq<State>, input: seq<Byte>, c: Config)
  {
    exists p :: Run(a, input, p) && p[0] == c
  }
}
