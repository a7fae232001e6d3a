/** What the parser promises, stated over the functions of ParseSpec. */
module ParseProperties {
  import opened Wrappers
  import opened Syntax
  import opened StrConv
  import opened ParseSpec

  /**
   * `*`, `?` and `+` replace the last token `t` of the scope by
   * `Repeat(0, -1, t)`, `Repeat(0, 1, t)` and `Repeat(1, -1, t)`; the cursor,
   * the token count and every earlier token stay; an empty scope fails.
   */
  lemma PostfixQuantifier(re: seq<Byte>, c: Cursor)
    requires c.pos < |re| && re[c.pos] in {Star, Question, Plus}
    ensures var n := |c.tokens|;
            var min := if re[c.pos] == Plus then 1 else 0;
            var max := if re[c.pos] == Question then 1 else RepeatInfinity;
            Process(re, c) == if n == 0 then Err(EmptyScope)
                              else Ok(Cursor(c.pos, c.tokens[..n - 1] + [Repeat(min, max, c.tokens[n - 1])]))
  {
    var n := |c.tokens|;
    if n > 0 {
      var t := c.tokens[n - 1];
      var b := QuantifierBounds(re[c.pos]);
      assert c.tokens[n - 1 := Repeat(b.0, b.1, t)] == c.tokens[..n - 1] + [Repeat(b.0, b.1, t)];
    }
  }

  /** A `{...}` body without a comma is one field `n`, giving `(n, n)`. */
  lemma BoundsOneField(body: seq<Byte>)
    requires Comma !in body
    ensures ParseBounds(body) == match Atoi(body)
                                 case None => Err(MalformedNumber)
                                 case Some(n) => Ok((n, n))
  {
    SplitJoin([body], Comma);
    assert Join([body], Comma) == body;
  }

  /** `m,` gives `(m, -1)` and `m,n` gives `(m, n)`; a field that is not an integer fails. */
  lemma BoundsTwoFields(m: seq<Byte>, n: seq<Byte>)
    requires Comma !in m && Comma !in n
    ensures ParseBounds(m + [Comma] + n) == match Atoi(m)
                                            case None => Err(MalformedNumber)
                                            case Some(lo) =>
                                              if n == [] then Ok((lo, RepeatInfinity))
                                              else match Atoi(n)
                                                   case None => Err(MalformedNumber)
                                                   case Some(hi) => Ok((lo, hi))
  {
    SplitJoin([m, n], Comma);
    assert Join([m, n], Comma) == m + [Comma] + Join([n], Comma);
  }

  /** More than one comma is a wrong field count, whatever the fields hold. */
  lemma BoundsTooManyFields(body: seq<Byte>)
    requires Count(body, Comma) >= 2
    ensures ParseBounds(body) == Err(WrongFieldCount)
  {
  }

  /**
   * `{` wraps the last token with the bounds of the body up to the first `}`,
   * leaving the cursor on that `}`; a malformed body fails before the scope is looked at.
   */
  lemma BoundedQuantifier(re: seq<Byte>, c: Cursor, close: nat)
    requires c.pos < close < |re| && re[c.pos] == LBrace && re[close] == RBrace
    requires forall j :: c.pos < j < close ==> re[j] != RBrace
    ensures Process(re, c) == match ParseBounds(re[c.pos + 1..close])
                              case Err(e) => Err(e)
                              case Ok(b) => WrapLast(Cursor(close, c.tokens), b.0, b.1)
  {
    IndexFromIs(re, c.pos, close, RBrace);
    assert Process(re, c) == ParseRepeatSpecified(re, c);
  }

  /** Without a `}` after it, `{` runs off the end of the pattern. */
  lemma UnterminatedBrace(re: seq<Byte>, c: Cursor)
    requires c.pos < |re| && re[c.pos] == LBrace
    requires forall j :: c.pos < j < |re| ==> re[j] != RBrace
    ensures Process(re, c) == Err(OutOfPattern)
  {
  }

  /** A single byte in a bracket covers itself when it is ASCII, and nothing otherwise. */
  lemma SingleByteEntry(ch: Byte)
    ensures ch < 0x80 ==> CoverSet(Sprintf([ch])) == {ch}
    ensures ch >= 0x80 ==> CoverSet(Sprintf([ch])) == {}
  {
    var l := Sprintf([ch]);
    assert l == Utf8(ch) + Sprintf([]);
    if ch < 0x80 {
      assert l == [ch];
      forall b: Byte ensures b in CoverSet(l) <==> b == ch {
      }
    } else {
      assert l[0] > l[|l| - 1];
      forall b: Byte ensures b !in CoverSet(l) {
      }
    }
  }

  /** An ASCII range `x-y` covers the bytes from `x` to `y`, none when `x > y`. */
  lemma RangeEntry(x: Byte, y: Byte)
    requires x < 0x80 && y < 0x80
    ensures forall b: Byte :: b in CoverSet(Sprintf([x, y])) <==> x <= b <= y
    ensures x > y ==> CoverSet(Sprintf([x, y])) == {}
  {
    var l := Sprintf([x, y]);
    assert l == Utf8(x) + Sprintf([y]);
    assert Sprintf([y]) == Utf8(y) + Sprintf([]);
    assert l == [x, y];
    if x > y {
      forall b: Byte ensures b !in CoverSet(l) {
      }
    }
  }

  /** The one-byte entries of the bytes of `s`, in order. */
  function Singles(s: seq<Byte>): (r: seq<seq<Byte>>)
    ensures |r| == |s| && forall i :: 0 <= i < |s| ==> r[i] == [s[i]]
  {
    seq(|s|, i requires 0 <= i < |s| => [s[i]])
  }

  lemma {:induction false} ScanPlain(re: seq<Byte>, p: nat, close: nat, literals: seq<seq<Byte>>)
    requires 0 < p <= close < |re| && re[close] == RBracket && Entries(literals)
    requires forall j :: p <= j < close ==> re[j] != RBracket && re[j] != Dash && re[j] < 0x80
    ensures Entries(literals + Singles(re[p..close]))
    ensures BracketScan(re, p, literals) == Ok((close, literals + Singles(re[p..close])))
    decreases close - p
  {
    if p == close {
      assert literals + Singles(re[p..close]) == literals;
    } else {
      var q := p + 1;
      var more := literals + [[re[p]]];
      ScanSingle(re, p, literals);
      ScanPlain(re, q, close, more);
      SinglesSplit(re, p, close, literals);
    }
  }

  /** A plain ASCII byte in a bracket adds its one-byte entry. */
  lemma ScanSingle(re: seq<Byte>, p: nat, literals: seq<seq<Byte>>)
    requires 0 < p < |re| && re[p] != RBracket && re[p] != Dash && re[p] < 0x80 && Entries(literals)
    ensures Entries(literals + [[re[p]]])
    ensures BracketScan(re, p, literals) == BracketScan(re, p + 1, literals + [[re[p]]])
  {
    assert Sprintf([re[p]]) == Utf8(re[p]) + Sprintf([]);
    assert Sprintf([re[p]]) == [re[p]];
  }

  lemma SinglesSplit(re: seq<Byte>, p: nat, close: nat, literals: seq<seq<Byte>>)
    requires p < close <= |re|
    ensures literals + [[re[p]]] + Singles(re[p + 1..close]) == literals + Singles(re[p..close])
  {
  }

  /** The bytes occurring in `s`. */
  function ByteSet(s: seq<Byte>): set<Byte>
  {
    set b | b in s
  }

  /** The one-byte entries of ASCII bytes cover exactly those bytes. */
  lemma SinglesCover(s: seq<Byte>)
    requires forall j :: 0 <= j < |s| ==> s[j] < 0x80
    ensures Entries(Singles(s))
    ensures LiteralsSet(Singles(s)) == ByteSet(s)
  {
    var ls := Singles(s);
    forall b: Byte
      ensures Covered(ls, b) <==> b in s
    {
      if Covered(ls, b) {
        var i :| 0 <= i < |ls| && Covers(ls[i], b);
        assert b == s[i];
      }
      if b in s {
        var j :| 0 <= j < |s| && s[j] == b;
        assert Covers(ls[j], b);
      }
    }
  }

  lemma ParseBracketPlain(re: seq<Byte>, c: Cursor, close: nat)
    requires c.pos < close < |re| && re[c.pos] == LBracket && re[close] == RBracket
    requires forall j :: c.pos < j < close ==> re[j] != RBracket && re[j] != Dash && re[j] < 0x80
    ensures Entries(Singles(re[c.pos + 1..close]))
    ensures ParseBracket(re, c) == Ok(Cursor(close, c.tokens + [Bracket(LiteralsSet(Singles(re[c.pos + 1..close])))]))
  {
    var body := re[c.pos + 1..close];
    SinglesCover(body);
    ScanPlain(re, c.pos + 1, close, []);
    assert [] + Singles(body) == Singles(body);
  }

  /**
   * A bracket of ASCII bytes with no `-` denotes exactly those bytes, and the
   * cursor is left on the closing `]`.
   */
  lemma PlainBracket(re: seq<Byte>, c: Cursor, close: nat)
    requires c.pos < close < |re| && re[c.pos] == LBracket && re[close] == RBracket
    requires forall j :: c.pos < j < close ==> re[j] != RBracket && re[j] != Dash && re[j] < 0x80
    ensures Process(re, c) == Ok(Cursor(close, c.tokens + [Bracket(ByteSet(re[c.pos + 1..close]))]))
  {
    ParseBracketPlain(re, c, close);
    SinglesCover(re[c.pos + 1..close]);
    assert Process(re, c) == ParseBracket(re, c);
  }

  predicate InSpan(lo: int, hi: int, b: Byte) { lo <= b <= hi }

  /** The bytes from `lo` to `hi`, both included. */
  function Span(lo: int, hi: int): (r: set<Byte>)
    ensures forall b: Byte :: b in r <==> lo <= b <= hi
  {
    set b: Byte | InSpan(lo, hi, b)
  }

  /** The set a one-entry bracket denotes is the set its entry covers. */
  lemma OneEntrySet(l: seq<Byte>)
    requires Entry(l)
    ensures LiteralsSet([l]) == CoverSet(l)
  {
    LiteralsSetSnoc([], l);
    assert [] + [l] == [l];
    forall b: Byte ensures !Covered([], b) {
    }
  }

  /** `[` followed by the entries that the scan from `p` collects, up to `]`. */
  lemma BracketOf(re: seq<Byte>, c: Cursor, close: nat, l: seq<Byte>)
    requires c.pos < |re| && re[c.pos] == LBracket && Entry(l)
    requires BracketScan(re, c.pos + 1, []) == Ok((close, [l]))
    ensures Process(re, c) == Ok(Cursor(close, c.tokens + [Bracket(CoverSet(l))]))
  {
    OneEntrySet(l);
    assert Process(re, c) == ParseBracket(re, c);
  }

  /**
   * A bracket `[x-y]` of ASCII bytes denotes the bytes from `x` to `y`, none
   * when `x > y`. The byte after `-` is taken as the range end whatever it is,
   * so `[a-]]` is the range from `a` to `]`.
   */
  lemma RangeBracket(re: seq<Byte>, c: Cursor, x: Byte, y: Byte)
    requires c.pos + 4 < |re| && re[c.pos..c.pos + 5] == [LBracket, x, Dash, y, RBracket]
    requires x < 0x80 && y < 0x80 && x != RBracket && x != Dash
    ensures Process(re, c) == Ok(Cursor(c.pos + 4, c.tokens + [Bracket(Span(x, y))]))
  {
    var p := c.pos;
    assert re[p] == LBracket && re[p + 1] == x && re[p + 2] == Dash && re[p + 3] == y && re[p + 4] == RBracket;
    OpenRange(re, p, x, y);
    var l := Sprintf([x, y]);
    RangeEntry(x, y);
    assert BracketScan(re, p + 4, [l]) == Ok((p + 4, [l]));
    BracketOf(re, c, p + 4, l);
    assert CoverSet(l) == Span(x, y);
  }

  /**
   * A second `-` replaces the last entry again, by the range from the byte
   * before it: `[x-y-z]` denotes the bytes from `y` to `z`, and the range from
   * `x` to `y` is lost.
   */
  lemma ChainedRange(re: seq<Byte>, c: Cursor, x: Byte, y: Byte, z: Byte)
    requires c.pos + 6 < |re| && re[c.pos..c.pos + 7] == [LBracket, x, Dash, y, Dash, z, RBracket]
    requires x < 0x80 && y < 0x80 && z < 0x80 && x != RBracket && x != Dash
    ensures Process(re, c) == Ok(Cursor(c.pos + 6, c.tokens + [Bracket(Span(y, z))]))
  {
    var p := c.pos;
    assert re[p] == LBracket;
    ChainedScan(re, p, x, y, z);
    var m := Sprintf([y, z]);
    RangeEntry(y, z);
    BracketOf(re, c, p + 6, m);
    assert CoverSet(m) == Span(y, z);
  }

  /** The scan of `[x-y-z]`: the second range replaces the first. */
  lemma ChainedScan(re: seq<Byte>, p: nat, x: Byte, y: Byte, z: Byte)
    requires p + 6 < |re| && re[p..p + 7] == [LBracket, x, Dash, y, Dash, z, RBracket]
    requires x < 0x80 && y < 0x80 && z < 0x80 && x != RBracket && x != Dash
    ensures Entry(Sprintf([y, z]))
    ensures BracketScan(re, p + 1, []) == Ok((p + 6, [Sprintf([y, z])]))
  {
    assert re[p + 1] == x && re[p + 2] == Dash && re[p + 3] == y;
    OpenRange(re, p, x, y);
    assert re[p + 4] == Dash && re[p + 5] == z && re[p + 6] == RBracket;
    var l, m := Sprintf([x, y]), Sprintf([y, z]);
    RangeEntry(y, z);
    assert BracketScan(re, p + 6, [m]) == Ok((p + 6, [m]));
    ScanRangeStep(re, p + 4, [l]);
    assert [l][0 := m] == [m];
  }

  /** The first entry of a bracket `[x-y...`: the range from `x` to `y`, the scan going on after `y`. */
  lemma OpenRange(re: seq<Byte>, p: nat, x: Byte, y: Byte)
    requires p + 4 <= |re| && re[p + 1] == x && re[p + 2] == Dash && re[p + 3] == y
    requires x < 0x80 && y < 0x80 && x != RBracket && x != Dash
    ensures Entry(Sprintf([x, y]))
    ensures BracketScan(re, p + 1, []) == BracketScan(re, p + 4, [Sprintf([x, y])])
  {
    var l := Sprintf([x, y]);
    RangeEntry(x, y);
    ScanRangeStep(re, p + 2, [[x]]);
    assert [[x]][0 := l] == [l];
    ScanSingle(re, p + 1, []);
    assert [] + [[x]] == [[x]];
  }

  /**
   * A range whose upper end `y` is 0x80 or more ends on the last UTF-8 byte of
   * `y`, `0x80 + y % 64`, so it covers from `x` up to that byte.
   */
  lemma HighRangeEnd(x: Byte, y: Byte)
    requires x < 0x80 && y >= 0x80
    ensures CoverSet(Sprintf([x, y])) == Span(x, 0x80 + y % 64)
  {
    var l := Sprintf([x, y]);
    assert l == Utf8(x) + Sprintf([y]);
    assert Sprintf([y]) == Utf8(y) + Sprintf([]);
    assert l == [x, 0xC0 + y / 64, 0x80 + y % 64];
  }

  /** Without a `]` after it, `[` fails. */
  lemma UnterminatedBracket(re: seq<Byte>, c: Cursor)
    requires c.pos < |re| && re[c.pos] == LBracket
    requires forall j :: c.pos < j < |re| ==> re[j] != RBracket
    ensures Process(re, c).Err?
  {
  }

  /** A `-` right after `[` has no entry to turn into a range and fails on the empty list. */
  lemma LeadingDash(re: seq<Byte>, c: Cursor)
    requires c.pos + 2 < |re| && re[c.pos] == LBracket && re[c.pos + 1] == Dash
    ensures Process(re, c) == Err(EmptyScope)
  {
  }

  /**
   * `|` replaces the whole scope by one `Or` token: the left branch holds the
   * tokens parsed before it, the right one those parsed from the rest of the
   * pattern up to its end or a `)`, and the cursor moves to where that scan stopped.
   * The `)` it stops at is one the scan reaches as a byte of its own: a `)`
   * inside a bracket or a group of the right-hand side is consumed with it
   * (`BracketHidesParen`), so "the first `)`" holds only for plain bytes
   * (`AlternationStopsAtFirstParen`).
   */
  lemma Alternation(re: seq<Byte>, c: Cursor)
    requires c.pos < |re| && re[c.pos] == Pipe
    ensures var o := OrLoop(re, Cursor(c.pos + 1, []));
            if o.Err? then Process(re, c) == Err(o.error)
            else
              && Process(re, c) == Ok(Cursor(o.value.pos, [Or(GroupUncaptured(c.tokens), GroupUncaptured(o.value.tokens))]))
              && c.pos < o.value.pos
              && (o.value.pos >= |re| || re[o.value.pos] == RParen)
  {
  }

  /** A byte that is neither `(`, `[`, `{`, `|` nor a postfix quantifier. */
  predicate Plain(b: Byte)
  {
    b != LParen && b != LBracket && b != LBrace && b != Pipe && b != Star && b != Question && b != Plus
  }

  lemma {:induction false} OrLoopPlain(re: seq<Byte>, c: Cursor)
    requires c.pos <= |re|
    requires forall j :: c.pos <= j < |re| ==> Plain(re[j])
    ensures var r := OrLoop(re, c);
            r.Ok? && (r.value.pos == |re| || (r.value.pos < |re| && re[r.value.pos] == RParen))
            && forall j :: c.pos <= j < r.value.pos ==> re[j] != RParen
    decreases |re| - c.pos
  {
    if c.pos < |re| && re[c.pos] != RParen {
      assert Process(re, c) == Ok(Cursor(c.pos, c.tokens + [Literal(re[c.pos])]));
      OrLoopPlain(re, Cursor(c.pos + 1, c.tokens + [Literal(re[c.pos])]));
    }
  }

  /** `|[)]` at the end of the pattern: the bracket takes the `)`, and the scan runs to the end. */
  lemma BracketHidesParen(re: seq<Byte>, c: Cursor)
    requires c.pos + 4 == |re| && re[c.pos..] == [Pipe, LBracket, RParen, RBracket]
    ensures Process(re, c) == Ok(Cursor(|re|, [Or(GroupUncaptured(c.tokens), GroupUncaptured([Bracket({RParen})]))]))
  {
    var p := c.pos;
    assert re[p] == Pipe && re[p + 1] == LBracket && re[p + 2] == RParen && re[p + 3] == RBracket;
    PlainBracket(re, Cursor(p + 1, []), p + 3);
    assert re[p + 2..p + 3] == [RParen];
    assert ByteSet(re[p + 2..p + 3]) == {RParen};
    assert [] + [Bracket({RParen})] == [Bracket({RParen})];
    assert OrLoop(re, Cursor(p + 4, [Bracket({RParen})])) == Ok(Cursor(p + 4, [Bracket({RParen})]));
    assert OrLoop(re, Cursor(p + 1, [])) == Ok(Cursor(p + 4, [Bracket({RParen})]));
    Alternation(re, c);
  }

  /**
   * When the rest of the pattern holds no `(`, `[`, `{`, `|` or quantifier, the
   * right-hand scan of `|` stops at the first `)` or at the end.
   */
  lemma AlternationStopsAtFirstParen(re: seq<Byte>, c: Cursor)
    requires c.pos < |re| && re[c.pos] == Pipe
    requires forall j :: c.pos < j < |re| ==> Plain(re[j])
    ensures var r := Process(re, c);
            r.Ok? && r.value.pos > c.pos && (r.value.pos == |re| || (r.value.pos < |re| && re[r.value.pos] == RParen))
            && forall j :: c.pos < j < r.value.pos ==> re[j] != RParen
  {
    OrLoopPlain(re, Cursor(c.pos + 1, []));
  }

  /**
   * `(` appends one `Group` of the tokens scanned up to its `)`, and the cursor
   * of the scope stays on the `(`: the parent scans the group's bytes again.
   */
  lemma GroupKeepsCursor(re: seq<Byte>, c: Cursor)
    requires c.pos < |re| && re[c.pos] == LParen
    ensures var g := GroupLoop(re, Cursor(c.pos + 1, []));
            if g.Err? then Process(re, c) == Err(g.error)
            else Process(re, c) == Ok(Cursor(c.pos, c.tokens + [Group(g.value.tokens)]))
  {
  }

  /** Without a `)` after it, `(` fails. */
  lemma UnterminatedGroup(re: seq<Byte>, c: Cursor)
    requires c.pos < |re| && re[c.pos] == LParen
    requires forall j :: c.pos < j < |re| ==> re[j] != RParen
    ensures Process(re, c).Err?
  {
  }

  /** One `Literal` per byte. */
  function Literals(s: seq<Byte>): (r: seq<Token>)
    ensures |r| == |s| && forall i :: 0 <= i < |s| ==> r[i] == Literal(s[i])
  {
    seq(|s|, i requires 0 <= i < |s| => Literal(s[i]))
  }

  lemma {:induction false} ParseLoopPlain(re: seq<Byte>, k: nat)
    requires k <= |re| && forall j :: 0 <= j < |re| ==> Plain(re[j])
    ensures ParseLoop(re, Cursor(k, Literals(re[..k]))) == Ok(Cursor(|re|, Literals(re)))
    decreases |re| - k
  {
    if k == |re| {
      assert re[..k] == re;
    } else {
      assert Literals(re[..k]) + [Literal(re[k])] == Literals(re[..k + 1]);
      ParseLoopPlain(re, k + 1);
    }
  }

  /** A pattern of plain bytes parses to one literal per byte. */
  lemma ParsePlain(re: seq<Byte>)
    requires forall j :: 0 <= j < |re| ==> Plain(re[j])
    ensures Parse(re) == Ok(Cursor(|re|, Literals(re)))
  {
    ParseLoopPlain(re, 0);
    assert Literals(re[..0]) == [];
  }
}
