/**
 * The parser of gorgex.go:26-229 as the source writes it: functions that move
 * the cursor of a shared `parseContext` and append to or overwrite its token
 * list inside loops. Each method is proved to leave the context exactly as the
 * corresponding function of ParseSpec computes, and to fail exactly when it does.
 */
module Parser {
  import opened Wrappers
  import opened Syntax
  import opened StrConv
  import S = ParseSpec

  /** `parseContext`: the cursor into the pattern and the tokens of one scope. */
  class ParseContext {
    var pos: nat
    var tokens: seq<Token>

    constructor (pos: nat)
      ensures this.pos == pos && tokens == []
    {
      this.pos := pos;
      tokens := [];
    }

    /** The context as a value. */
    function Cursor(): S.Cursor
      reads this
    {
      S.Cursor(pos, tokens)
    }
  }

  /** A method's outcome and final context agree with the result `r` of its specification. */
  ghost predicate Agrees(r: Result<S.Cursor, PatternError>, o: Outcome<PatternError>, c: S.Cursor)
  {
    match r
    case Ok(v) => o == Pass && c == v
    case Err(e) => o == Fail(e)
  }

  /** `parse` (gorgex.go:37-51). */
  method Parse(re: seq<Byte>) returns (ctx: ParseContext, o: Outcome<PatternError>)
    ensures fresh(ctx)
    ensures Agrees(S.Parse(re), o, ctx.Cursor())
  {
    ctx := new ParseContext(0);
    while ctx.pos < |re|
      invariant S.ParseLoop(re, ctx.Cursor()) == S.Parse(re)
      decreases |re| - ctx.pos
    {
      o := Process(re, ctx);
      if o.Fail? {
        return;
      }
      ctx.pos := ctx.pos + 1;
    }
    o := Pass;
  }

  /** `process` (gorgex.go:53-85). */
  method Process(re: seq<Byte>, ctx: ParseContext) returns (o: Outcome<PatternError>)
    requires ctx.pos < |re|
    modifies ctx
    ensures Agrees(S.Process(re, old(ctx.Cursor())), o, ctx.Cursor())
    decreases |re| + 1 - ctx.pos, 3
  {
    var ch := re[ctx.pos];
    if ch == LParen {
      var groupCtx := new ParseContext(ctx.pos);
      o := ParseGroup(re, groupCtx);
      if o.Pass? {
        ctx.tokens := ctx.tokens + [Group(groupCtx.tokens)];
      }
    } else if ch == LBracket {
      o := ParseBracket(re, ctx);
    } else if ch == Pipe {
      o := ParseOr(re, ctx);
    } else if ch == Star || ch == Question || ch == Plus {
      o := ParseRepeat(re, ctx);
    } else if ch == LBrace {
      o := ParseRepeatSpecified(re, ctx);
    } else {
      ctx.tokens := ctx.tokens + [Literal(ch)];
      o := Pass;
    }
  }

  /** `parseGroup` (gorgex.go:87-93). */
  method ParseGroup(re: seq<Byte>, ctx: ParseContext) returns (o: Outcome<PatternError>)
    requires ctx.pos < |re|
    modifies ctx
    ensures Agrees(S.ParseGroup(re, old(ctx.Cursor())), o, ctx.Cursor())
    decreases |re| + 1 - ctx.pos, 2
  {
    ctx.pos := ctx.pos + 1;
    while ctx.pos < |re| && re[ctx.pos] != RParen
      invariant old(ctx.pos) < ctx.pos
      invariant S.GroupLoop(re, ctx.Cursor()) == S.ParseGroup(re, old(ctx.Cursor()))
      decreases |re| - ctx.pos
    {
      o := Process(re, ctx);
      if o.Fail? {
        return;
      }
      ctx.pos := ctx.pos + 1;
    }
    if ctx.pos >= |re| {
      return Fail(OutOfPattern);
    }
    o := Pass;
  }

  /** `parseBracket` (gorgex.go:95-129). */
  method ParseBracket(re: seq<Byte>, ctx: ParseContext) returns (o: Outcome<PatternError>)
    requires ctx.pos < |re|
    modifies ctx
    ensures Agrees(S.ParseBracket(re, old(ctx.Cursor())), o, ctx.Cursor())
  {
    ctx.pos := ctx.pos + 1;
    var literals;
    o, literals := ScanBracket(re, ctx);
    if o.Fail? {
      return;
    }
    var literalsSet := LiteralsSet(literals);
    ctx.tokens := ctx.tokens + [Bracket(literalsSet)];
  }

  /**
   * The scanning loop of `parseBracket` (gorgex.go:97-112): one entry per byte,
   * and a `-` turns the last entry into the range from the byte before it to
   * the byte after it. The cursor is left on the closing `]`.
   */
  method ScanBracket(re: seq<Byte>, ctx: ParseContext) returns (o: Outcome<PatternError>, literals: seq<seq<Byte>>)
    requires 0 < ctx.pos <= |re|
    modifies ctx
    ensures ctx.tokens == old(ctx.tokens)
    ensures match S.BracketScan(re, old(ctx.pos), [])
            case Ok(scan) => o == Pass && ctx.pos == scan.0 && literals == scan.1
            case Err(e) => o == Fail(e)
  {
    ghost var scan := S.BracketScan(re, ctx.pos, []);
    literals := [];
    while true
      invariant 0 < ctx.pos <= |re| + 1 && S.Entries(literals)
      invariant ctx.tokens == old(ctx.tokens)
      invariant S.BracketScan(re, ctx.pos, literals) == scan
      decreases |re| - ctx.pos
    {
      if ctx.pos >= |re| {
        return Fail(OutOfPattern), literals;
      }
      var ch := re[ctx.pos];
      if ch == RBracket {
        break;
      }
      if ch == Dash {
        if ctx.pos + 1 >= |re| {
          return Fail(OutOfPattern), literals;
        }
        var next := re[ctx.pos + 1];
        var prev := re[ctx.pos - 1];
        if |literals| == 0 {
          return Fail(EmptyScope), literals;
        }
        S.ScanRangeStep(re, ctx.pos, literals);
        literals := literals[|literals| - 1 := S.Sprintf([prev, next])];
        ctx.pos := ctx.pos + 1;
      } else {
        S.ScanSingleStep(re, ctx.pos, literals);
        literals := literals + [S.Sprintf([ch])];
      }
      ctx.pos := ctx.pos + 1;
    }
    o := Pass;
  }

  /**
   * The set-building loops of `parseBracket` (gorgex.go:115-123), with the
   * `uint8` counter of the source; an entry never ends on 0xFF, so it never wraps.
   */
  method LiteralsSet(literals: seq<seq<Byte>>) returns (s: set<Byte>)
    requires S.Entries(literals)
    ensures s == S.LiteralsSet(literals)
  {
    s := {};
    var k := 0;
    while k < |literals|
      invariant 0 <= k <= |literals|
      invariant s == S.LiteralsSet(literals[..k])
    {
      var l := literals[k];
      var i: Byte := l[0];
      ghost var before := s;
      while i <= l[|l| - 1]
        invariant i == l[0] || l[0] < i <= l[|l| - 1] + 1
        invariant s == before + set b: Byte | Within(l[0], b, i)
        decreases 256 - i
      {
        s := s + {i};
        i := (i + 1) % 256;
      }
      assert s == before + S.CoverSet(l);
      S.LiteralsSetSnoc(literals[..k], l);
      assert literals[..k + 1] == literals[..k] + [l];
      k := k + 1;
    }
    assert literals[..k] == literals;
  }

  predicate Within(lo: int, b: Byte, hi: int) { lo <= b < hi }

  /** `parseOr` (gorgex.go:131-158). */
  method ParseOr(re: seq<Byte>, ctx: ParseContext) returns (o: Outcome<PatternError>)
    requires ctx.pos < |re|
    modifies ctx
    ensures Agrees(S.ParseOr(re, old(ctx.Cursor())), o, ctx.Cursor())
    decreases |re| + 1 - ctx.pos, 2
  {
    var rhsContext := new ParseContext(ctx.pos);
    rhsContext.pos := rhsContext.pos + 1;
    while rhsContext.pos < |re| && re[rhsContext.pos] != RParen
      invariant old(ctx.pos) < rhsContext.pos
      invariant ctx.pos == old(ctx.pos) && ctx.tokens == old(ctx.tokens)
      invariant S.OrLoop(re, rhsContext.Cursor()) == S.OrLoop(re, S.Cursor(old(ctx.pos) + 1, []))
      decreases |re| - rhsContext.pos
    {
      o := Process(re, rhsContext);
      if o.Fail? {
        return;
      }
      rhsContext.pos := rhsContext.pos + 1;
    }
    var left := GroupUncaptured(ctx.tokens);
    var right := GroupUncaptured(rhsContext.tokens);
    ctx.pos := rhsContext.pos;
    ctx.tokens := [Or(left, right)];
    o := Pass;
  }

  /** `parseRepeat` (gorgex.go:162-185). */
  method ParseRepeat(re: seq<Byte>, ctx: ParseContext) returns (o: Outcome<PatternError>)
    requires ctx.pos < |re|
    modifies ctx
    ensures Agrees(S.ParseRepeat(re, old(ctx.Cursor())), o, ctx.Cursor())
  {
    var ch := re[ctx.pos];
    var min, max;
    if ch == Star {
      min, max := 0, RepeatInfinity;
    } else if ch == Question {
      min, max := 0, 1;
    } else {
      min, max := 1, RepeatInfinity;
    }
    if |ctx.tokens| == 0 {
      return Fail(EmptyScope);
    }
    var lastToken := ctx.tokens[|ctx.tokens| - 1];
    ctx.tokens := ctx.tokens[|ctx.tokens| - 1 := Repeat(min, max, lastToken)];
    o := Pass;
  }

  /** `parseRepeatSpecified` (gorgex.go:187-229); the fields between the braces are read as `ParseBounds` reads them. */
  method ParseRepeatSpecified(re: seq<Byte>, ctx: ParseContext) returns (o: Outcome<PatternError>)
    requires ctx.pos < |re| && re[ctx.pos] == LBrace
    modifies ctx
    ensures Agrees(S.ParseRepeatSpecified(re, old(ctx.Cursor())), o, ctx.Cursor())
  {
    var start := ctx.pos + 1;
    while true
      invariant old(ctx.pos) <= ctx.pos <= |re|
      invariant forall j :: old(ctx.pos) <= j < ctx.pos ==> re[j] != RBrace
      invariant ctx.tokens == old(ctx.tokens)
      decreases |re| - ctx.pos
    {
      if ctx.pos >= |re| {
        S.IndexFromIs(re, old(ctx.pos), ctx.pos, RBrace);
        return Fail(OutOfPattern);
      }
      if re[ctx.pos] == RBrace {
        break;
      }
      ctx.pos := ctx.pos + 1;
    }
    S.IndexFromIs(re, old(ctx.pos), ctx.pos, RBrace);
    var boundariesStr := re[start..ctx.pos];
    var bounds := S.ParseBounds(boundariesStr);
    if bounds.Err? {
      return Fail(bounds.error);
    }
    var (min, max) := bounds.value;
    if |ctx.tokens| == 0 {
      return Fail(EmptyScope);
    }
    var lastToken := ctx.tokens[|ctx.tokens| - 1];
    ctx.tokens := ctx.tokens[|ctx.tokens| - 1 := Repeat(min, max, lastToken)];
    o := Pass;
  }
}
