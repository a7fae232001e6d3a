/**
 * The two Go library calls the `{m,n}` quantifier parser relies on:
 * `strings.Split(s, ",")` and `strconv.Atoi` on a 64-bit platform.
 */
module StrConv {
  import opened Wrappers
  import opened Syntax

  const MinInt64: int := -0x8000_0000_0000_0000
  const MaxInt64: int := 0x7FFF_FFFF_FFFF_FFFF

  predicate IsDigit(b: Byte) { 48 <= b <= 57 }

  predicate AllDigits(s: seq<Byte>) { forall i :: 0 <= i < |s| ==> IsDigit(s[i]) }

  /** The value of a run of decimal digits, most significant digit first. */
  function DecimalValue(s: seq<Byte>): nat
    requires AllDigits(s)
  {
    if |s| == 0 then 0 else DecimalValue(s[..|s| - 1]) * 10 + (s[|s| - 1] - 48)
  }

  /**
   * `strconv.Atoi`: an optional `+` or `-`, then at least one decimal digit, and
   * a value that fits a 64-bit `int`; anything else is an error.
   */
  function Atoi(s: seq<Byte>): (r: Option<int>)
    ensures r.Some? ==> MinInt64 <= r.value <= MaxInt64
    ensures r.Some? ==> |s| > 0 && AllDigits(s[1..]) && (IsDigit(s[0]) || s[0] == Plus || s[0] == Dash)
    ensures r.Some? && s[0] == Dash ==> r.value <= 0
  {
    if |s| == 0 then None
    else
      var digits := if s[0] == Plus || s[0] == Dash then s[1..] else s;
      if |digits| == 0 || !AllDigits(digits) then None
      else
        var v: int := if s[0] == Dash then -(DecimalValue(digits) as int) else DecimalValue(digits);
        if MinInt64 <= v <= MaxInt64 then Some(v) else None
  }

  /** The decimal digits of a natural number, most significant first. */
  function Decimal(n: nat): (r: seq<Byte>)
    ensures |r| > 0 && AllDigits(r)
  {
    if n < 10 then [48 + n] else Decimal(n / 10) + [48 + n % 10]
  }

  /** `strconv.Itoa`: the decimal form of an integer, with a leading `-` when negative. */
  function FormatInt(n: int): seq<Byte>
  {
    if n < 0 then [Dash] + Decimal(-n) else Decimal(n)
  }

  lemma {:induction false} DecimalValueOfDecimal(n: nat)
    ensures DecimalValue(Decimal(n)) == n
  {
    if n >= 10 {
      var d := Decimal(n);
      assert d[..|d| - 1] == Decimal(n / 10);
      DecimalValueOfDecimal(n / 10);
    }
  }

  /** `Atoi` inverts `FormatInt` on every 64-bit integer. */
  lemma AtoiFormatInt(n: int)
    requires MinInt64 <= n <= MaxInt64
    ensures Atoi(FormatInt(n)) == Some(n)
  {
    if n < 0 {
      var s := FormatInt(n);
      assert s[1..] == Decimal(-n);
      DecimalValueOfDecimal(-n);
    } else {
      DecimalValueOfDecimal(n);
    }
  }

  /** How many times `b` occurs in `s`. */
  function Count(s: seq<Byte>, b: Byte): nat
  {
    if |s| == 0 then 0 else (if s[0] == b then 1 else 0) + Count(s[1..], b)
  }

  /**
   * `strings.Split(s, sep)` for a one-byte separator: the pieces between
   * separators, one more than there are separators, so `""` gives `[""]`.
   */
  function Split(s: seq<Byte>, sep: Byte): (r: seq<seq<Byte>>)
    ensures |r| == Count(s, sep) + 1
    ensures forall i :: 0 <= i < |r| ==> sep !in r[i]
  {
    if |s| == 0 then [[]]
    else
      var rest := Split(s[1..], sep);
      if s[0] == sep then [[]] + rest else [[s[0]] + rest[0]] + rest[1..]
  }

  /** `strings.Join(pieces, sep)`. */
  function Join(pieces: seq<seq<Byte>>, sep: Byte): seq<Byte>
    requires |pieces| > 0
  {
    if |pieces| == 1 then pieces[0] else pieces[0] + [sep] + Join(pieces[1..], sep)
  }

  /** Joining the pieces of a split gives back the string. */
  lemma {:induction false} JoinSplit(s: seq<Byte>, sep: Byte)
    ensures Join(Split(s, sep), sep) == s
  {
    if |s| > 0 {
      var rest := Split(s[1..], sep);
      JoinSplit(s[1..], sep);
      if s[0] != sep {
        if |rest| == 1 {
          assert Split(s, sep) == [[s[0]] + rest[0]];
        } else {
          assert Split(s, sep)[1..] == rest[1..];
          assert Join(rest, sep) == rest[0] + [sep] + Join(rest[1..], sep);
        }
      }
    }
  }

  lemma {:induction false} SplitSepFree(p: seq<Byte>, tail: seq<Byte>, sep: Byte)
    requires sep !in p
    ensures var r := Split(p + tail, sep); |r| == |Split(tail, sep)| && r[0] == p + Split(tail, sep)[0] && r[1..] == Split(tail, sep)[1..]
  {
    var st := Split(tail, sep);
    if |p| == 0 {
      assert p + tail == tail;
    } else {
      assert (p + tail)[1..] == p[1..] + tail;
      SplitSepFree(p[1..], tail, sep);
      var r' := Split(p[1..] + tail, sep);
      assert Split(p + tail, sep) == [[p[0]] + r'[0]] + r'[1..];
      assert [p[0]] + (p[1..] + st[0]) == p + st[0];
    }
  }

  /** Splitting a join of separator-free pieces gives back the pieces. */
  lemma {:induction false} SplitJoin(pieces: seq<seq<Byte>>, sep: Byte)
    requires |pieces| > 0
    requires forall i :: 0 <= i < |pieces| ==> sep !in pieces[i]
    ensures Split(Join(pieces, sep), sep) == pieces
  {
    if |pieces| == 1 {
      SplitSepFree(pieces[0], [], sep);
      assert pieces[0] + [] == pieces[0];
    } else {
      var tail := [sep] + Join(pieces[1..], sep);
      assert Join(pieces, sep) == pieces[0] + tail;
      SplitSepFree(pieces[0], tail, sep);
      assert tail[1..] == Join(pieces[1..], sep);
      SplitJoin(pieces[1..], sep);
      var st := Split(tail, sep);
      assert st == [[]] + pieces[1..];
      assert Split(Join(pieces, sep), sep) == [pieces[0] + []] + pieces[1..];
      assert pieces[0] + [] == pieces[0];
    }
  }
}
