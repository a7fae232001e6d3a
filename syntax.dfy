/**
 * The token tree produced by the parser (gorgex.go:9-35) and the byte
 * alphabet shared by patterns, inputs and automaton symbols.
 */
module Syntax {

  /** A Go `uint8`: the unit of patterns, inputs and transition symbols. */
  type Byte = b: int | 0 <= b < 256

  /** Pattern metacharacters the parser dispatches on. */
  const LParen: Byte := 40    // (
  const RParen: Byte := 41    // )
  const Star: Byte := 42      // *
  const Plus: Byte := 43      // +
  const Comma: Byte := 44     // ,
  const Dash: Byte := 45      // -
  const Question: Byte := 63  // ?
  const LBracket: Byte := 91  // [
  const RBracket: Byte := 93  // ]
  const LBrace: Byte := 123   // {
  const Pipe: Byte := 124     // |
  const RBrace: Byte := 125   // }

  /** The `max` of a repeat that has no upper bound. */
  const RepeatInfinity: int := -1

  /**
   * One token of the tree. `Or` holds two `GroupUncaptured` branches as built by
   * the parser; `Repeat` keeps Go's `int` bounds, with -1 as the infinity sentinel.
   */
  datatype Token =
    | Literal(ch: Byte)
    | Bracket(bytes: set<Byte>)
    | Or(left: Token, right: Token)
    | Repeat(min: int, max: int, inner: Token)
    | Group(items: seq<Token>)
    | GroupUncaptured(items: seq<Token>)

  /** The panics of the source, as values. */
  datatype PatternError =
    | OutOfPattern      // a read past the end of the pattern: missing `)`, `]`, `}` or a trailing `-`
    | EmptyScope        // `tokens[len-1]` or `literals[len-1]` on an empty list
    | MalformedNumber   // `strconv.Atoi` rejected a quantifier bound
    | WrongFieldCount   // a `{...}` body with other than one or two fields
    | EmptySequence     // `tokens[0]` on an empty sequence while building the automaton
}
