# gorgex in Dafny

gorgex is a small regular-expression engine in one Go file, `gorgex.go`. It has three stages:

- A parser turns a pattern into a tree of tokens: literals, bracket sets, alternations, repeats and groups.
- A Thompson-style builder turns the tokens into an automaton of states linked by byte and epsilon edges.
- A backtracking matcher, `check`, walks the automaton over an input framed by a start-of-text symbol and an end-of-text symbol.

This project models all three stages and proves what they promise.

Each stage is modelled twice, in the form the source has:

- **Pure specifications.** `ParseSpec` holds the parser as functions over a cursor value. `BuildSpec` holds the builder as functions over an arena of states. The source's states are linked by pointer; here a transition list holds indexes into that arena.
- **Imperative mirrors.** `Parser` uses a `ParseContext` class whose `pos` and `tokens` the methods update in loops. `Builder` uses an `Arena` class whose methods allocate states and assign or append to their transition lists.
- **Matcher.** `getChar` and `check` are pure in the source, so they are plain functions (`Matcher`).

Every method is proved to leave exactly the state its specification function computes, and to fail exactly when that function does. The properties are then proved about the functions:

- `ParseProperties`: what each syntax element produces.
- `BuildProperties`: sizes and offsets of each fragment, and when building fails.
- `BuildShape`: the shape of the automaton.
- `RepeatShape`: the edges of a repeat.
- `MatchProperties`: `check` is sound and complete against a run semantics.
- `LiteralMatch` and `LiteralWalk`: a literal pattern matches exactly itself.
- `Gorgex`: the whole pipeline.

The model keeps the source's quirks:

- A Go panic (an index past the end of the pattern, `tokens[len-1]` on an empty scope, an `Atoi` error, a wrong field count) becomes an `Err` value.
- After a group, the parent's cursor stays on the `(`, so the parent scans the group's bytes again.
- An `or` overwrites the epsilon lists of its branch exits instead of appending to them.
- `{0}` and `{m,0}` still build one copy, and `{m,-1}` means no upper bound.
- Pattern and input bytes 0, 1 and 2 are the same symbols as epsilon, start-of-text and end-of-text.
- A bracket entry is the UTF-8 text `fmt.Sprintf("%c", b)` produces, and it covers the bytes from its first to its last byte. So a single byte of 0x80 or more adds nothing. A range whose upper end `y` is 0x80 or more ends on `0x80 + y % 64`: `[a-\xC3]` covers 0x61 to 0x83. No entry ends on 0xFF, so the byte loop never wraps.

`check` need not terminate: an epsilon cycle, as in `a?*`, is walked forever. `Matcher.Check` therefore takes a depth bound `fuel` and returns `Option<bool>`:

- `None` means the walk would go deeper than the bound.
- `Some(b)` is the source's answer.

`CheckMonotone` proves that an answer, once reached, does not change with a larger bound.

## Model

| member | source | states |
|---|---|---|
| Parser.Parse | gorgex.go:37-51 | the cursor loop ends with the context `ParseSpec.Parse` computes, and fails exactly when it does |
| Parser.Process | gorgex.go:53-85 | the dispatch on the byte under the cursor updates the context as `ParseSpec.Process`; a group's cursor is dropped and the group token appended |
| Parser.ParseGroup | gorgex.go:87-93 | the loop stops on the first `)` at its level, or fails when it runs off the pattern, as `ParseSpec.ParseGroup` |
| Parser.ParseBracket | gorgex.go:95-129 | appends one `Bracket` token whose set is `ParseSpec.LiteralsSet` of the scanned entries, and leaves the cursor on the `]` |
| Parser.ScanBracket | gorgex.go:97-113 | the scanning loop yields the entries and the `]` position of `ParseSpec.BracketScan`; a missing `]`, a trailing `-` or a leading `-` fails; the tokens are untouched |
| Parser.LiteralsSet | gorgex.go:115-123 | the nested `uint8` loops put into the set exactly the bytes between the first and last byte of some entry |
| Parser.ParseOr | gorgex.go:131-158 | the right-hand scan with a fresh context, then the scope replaced by one `Or`, as `ParseSpec.ParseOr` |
| Parser.ParseRepeat | gorgex.go:162-185 | wraps the last token as `ParseSpec.ParseRepeat`, failing on an empty scope |
| Parser.ParseRepeatSpecified | gorgex.go:187-229 | the scan to `}`, the field parse and the wrap agree with `ParseSpec.ParseRepeatSpecified`, error for error |
| ParseSpec.ParseLoop | gorgex.go:45-48 | a successful parse leaves the cursor at or past the end of the pattern |
| ParseSpec.ParseGroup | gorgex.go:87-93 | a successful group scan ends on a `)` after the `(` |
| ParseSpec.OrLoop | gorgex.go:137-140 | the right-hand scan ends at the end of the pattern or on a `)` |
| ParseSpec.BracketScan | gorgex.go:97-113 | a successful scan ends on the first `]` it meets, and every entry it keeps is non-empty and does not end in 0xFF |
| ParseSpec.Utf8 | gorgex.go:106-109 | `%c` of a byte is the byte itself below 0x80, else two bytes whose last is at most 0xBF |
| ParseSpec.LiteralsSetSnoc | gorgex.go:117-123 | one more entry adds exactly the bytes between its first and last byte |
| ParseSpec.WrapLast | gorgex.go:176-184 | succeeds exactly on a non-empty scope; the count, the cursor and all earlier tokens stay, and the last becomes `Repeat(min, max, last)` |
| ParseSpec.IndexFrom | gorgex.go:188-191 | finds the first `}` at or after the cursor, or reports that none is left |
| ParseProperties.PostfixQuantifier | gorgex.go:162-185 | `*`, `?`, `+` give `Repeat(0,-1,t)`, `Repeat(0,1,t)`, `Repeat(1,-1,t)` of the last token, or fail on an empty scope |
| ParseProperties.BoundsOneField | gorgex.go:195-201 | a body without a comma is `(n, n)` when it is an integer, else a malformed number |
| ParseProperties.BoundsTwoFields | gorgex.go:202-215 | `m,` is `(m, -1)`, `m,n` is `(m, n)`, and a non-integer field fails |
| ParseProperties.BoundsTooManyFields | gorgex.go:216-218 | two or more commas are a wrong field count |
| ParseProperties.BoundedQuantifier | gorgex.go:187-229 | `{` wraps the last token with the bounds of the body up to the first `}` and leaves the cursor on it; a bad body fails first |
| ParseProperties.UnterminatedBrace | gorgex.go:189-191 | `{` without a later `}` fails |
| ParseProperties.SingleByteEntry | gorgex.go:109-122 | a single ASCII byte covers itself, a byte of 0x80 or more covers nothing |
| ParseProperties.RangeEntry | gorgex.go:102-122 | an ASCII range `x-y` covers exactly `x..y`, nothing when reversed |
| ParseProperties.ScanPlain | gorgex.go:99-113 | over plain ASCII bytes the scan keeps one single-byte entry per byte and stops on the `]` |
| ParseProperties.SinglesCover | gorgex.go:115-123 | single-byte entries cover exactly their bytes |
| ParseProperties.PlainBracket | gorgex.go:95-129 | a bracket of ASCII bytes without `-` denotes exactly those bytes, cursor on `]` |
| ParseProperties.RangeBracket | gorgex.go:95-129 | a bracket `[x-y]` of ASCII bytes denotes exactly the bytes from `x` to `y`, none when reversed, whatever byte `y` is; the cursor ends on the `]` |
| ParseProperties.ChainedRange | gorgex.go:99-113 | in `[x-y-z]` the second `-` replaces the entry again by `y-z`, so the bracket denotes exactly `y..z` and loses `x..y` |
| ParseProperties.HighRangeEnd | gorgex.go:102-123 | a range whose upper end `y` is 0x80 or more covers from `x` up to `0x80 + y % 64`, the last UTF-8 byte of `y` |
| ParseProperties.UnterminatedBracket | gorgex.go:99 | `[` without a later `]` fails |
| ParseProperties.LeadingDash | gorgex.go:102-106 | `[-` fails on the empty entry list |
| ParseProperties.Alternation | gorgex.go:131-158 | the alternation bar replaces the scope by one `Or` of the earlier tokens and the right-hand tokens; the cursor moves to where the scan stopped, at the end or on a `)` |
| ParseProperties.AlternationStopsAtFirstParen | gorgex.go:137-140 | over plain bytes the right-hand scan stops at the first `)` or at the end |
| ParseProperties.BracketHidesParen | gorgex.go:131-158 | in `|[)]` the bracket consumes the `)`, so the right-hand scan runs on to the end and its one token is the bracket of `)` |
| ParseProperties.GroupKeepsCursor | gorgex.go:56-67 | `(` appends one `Group` and leaves the parent's cursor on the `(` |
| ParseProperties.UnterminatedGroup | gorgex.go:89 | `(` without a later `)` fails |
| ParseProperties.ParsePlain | gorgex.go:37-85 | a pattern of plain bytes parses to one literal per byte |
| StrConv.Atoi | gorgex.go:196 | an accepted field is a signed decimal within 64 bits |
| StrConv.AtoiFormatInt | gorgex.go:196 | `Atoi` reads back the decimal form of every 64-bit integer |
| StrConv.Split | gorgex.go:193 | `strings.Split` on one byte gives one more piece than separators, none containing it |
| StrConv.JoinSplit | gorgex.go:193 | joining the pieces gives the body back |
| StrConv.SplitJoin | gorgex.go:193 | splitting a join of separator-free pieces gives the pieces back |
| Builder.Arena.Add | gorgex.go:270-275 | allocating a state appends it, at the next index |
| Builder.Arena.Set | gorgex.go:280 | assigning a transition list changes that list of that state only |
| Builder.Arena.Append | gorgex.go:303-306 | appending a target changes that list of that state only |
| Builder.Arena.TokenToNfa | gorgex.go:269-369 | the arena, entry and exit left are those of `BuildSpec.Build`; failure exactly when it fails |
| Builder.Arena.BracketEdges | gorgex.go:292-297 | whatever the iteration order, the entry ends with one edge per byte of the set to the exit |
| Builder.Arena.Sequence | gorgex.go:298-308 | the group case and the body of `toNfa` build what `BuildSpec.BuildGroup` builds |
| Builder.Arena.ChainLoop | gorgex.go:301-308 | each next fragment's entry is appended to the previous exit, as `BuildSpec.BuildSeq` |
| Builder.Arena.RepeatEdges | gorgex.go:309-363 | skip edge, first copy, copy loop, exit edge and back-edge leave the arena of `BuildSpec.BuildRepeat` |
| Builder.Arena.CopyLoop | gorgex.go:334-351 | the copy loop leaves the arena, last entry and last exit of `BuildSpec.BuildCopies` |
| Builder.ToNfa | gorgex.go:239-267 | the fresh arena and start state are those of `BuildSpec.ToNfa` |
| BuildSpec.Copies | gorgex.go:316-332 | at least one copy is built, `copyCount` of them when that is positive |
| BuildSpec.RepeatTail | gorgex.go:353-363 | closing a repeat changes only the last copy's exit and the repeat's exit |
| BuildSpec.ToNfa | gorgex.go:251-266 | the start state and the accepting state are the last two states allocated |
| BuildProperties.RepeatSize | gorgex.go:316-351 | the first copy plus `copyCount - 1` more make `Copies` copies |
| BuildProperties.BuildPlaced | gorgex.go:269-369 | `tokenToNfa` fails exactly on an empty group; otherwise it adds `Size(t)` states, keeps every earlier state, and places entry and exit at fixed offsets |
| BuildProperties.OrPlaced | gorgex.go:281-291 | the same for an `or` |
| BuildProperties.RepeatPlaced | gorgex.go:309-363 | the same for a repeat |
| BuildProperties.HeadPlaced | gorgex.go:312-332 | the first copy comes right after the repeat's two states |
| BuildProperties.CopiesPlaced | gorgex.go:334-351 | each further copy takes `Size(inner)` new states after the previous one, and only the previous exit changes |
| BuildProperties.AddCopyPlaced | gorgex.go:335-350 | one round of the copy loop |
| BuildProperties.GroupPlaced | gorgex.go:298-308 | a group fails exactly when empty or holding an empty group; its fragments lie end to end |
| BuildProperties.SeqPlaced | gorgex.go:301-308 | the chaining loop |
| BuildProperties.ChainPlaced | gorgex.go:302-307 | one round of the chaining loop |
| BuildProperties.ToNfaPlaced | gorgex.go:239-266 | `toNfa` fails exactly on an empty token list or an empty group |
| BuildShape.BuildRegion | gorgex.go:269-369 | every fragment's states are unmarked, point only inside the fragment, and have one target per non-epsilon symbol |
| BuildShape.ToNfaShape | gorgex.go:251-266 | the automaton is closed, has one target per non-epsilon list, only the start state is start-marked, and only the fresh last state is accepting, with no transitions |
| BuildShape.WrappedClosed | gorgex.go:251-265 | wrapping a sound body gives a closed arena with single targets |
| BuildShape.WrappedMarks | gorgex.go:251-260 | only the two new states carry the start and accepting marks |
| BuildShape.OrEnds | gorgex.go:281-291 | the entry's epsilon list is the two branch entries; each branch exit's list is reset to just the exit, dropping whatever the branch had put there |
| RepeatShape.HeadEdges | gorgex.go:312-332 | the entry's epsilon list is `[exit, first]` when `min == 0` and `[first]` otherwise |
| RepeatShape.LastCopy | gorgex.go:334-351 | the loop ends on the `Copies`-th copy and leaves the repeat's entry and exit alone |
| RepeatShape.RepeatEnds | gorgex.go:309-363 | an entry-to-exit edge exactly when `min == 0`; the exit's only edge is the back-edge to the last copy exactly when `max == -1` |
| RepeatShape.AddCopyEdges | gorgex.go:335-350 | copy `i` is chained after the previous exit and gets an edge to the repeat's exit exactly when `i > min` |
| RepeatShape.BoundedRepeatRanked | gorgex.go:309-363 | every edge of a bounded repeat of a literal or bracket goes forward |
| RepeatShape.BoundedRepeatAcyclic | gorgex.go:309-363 | no walk of one step or more through such a repeat returns to its starting state |
| Matcher.GetChar | gorgex.go:376-385 | end-of-text at or past the end (tested first), start-of-text before the start, else the byte |
| MatchProperties.CheckMonotone | gorgex.go:387-412 | a larger depth bound does not change an answer once reached |
| MatchProperties.CheckSound | gorgex.go:387-412 | when `check` answers true it has found a run of moves ending in an accepting state at end-of-text |
| MatchProperties.CheckComplete | gorgex.go:387-412 | when such a run exists `check` does not answer false |
| MatchProperties.CheckCorrect | gorgex.go:387-412 | an answer is true exactly when some run starts at the given state and position |
| MatchProperties.MoveAdvances | gorgex.go:394-409 | a move keeps the position or advances it by one |
| MatchProperties.RunAdvances | gorgex.go:394-409 | along a run the position never decreases |
| MatchProperties.AcceptsWholeInput | gorgex.go:390-392 | on an input without byte 2, every accepted run from -1 ends past the last byte: matching is full-string |
| Gorgex.Matches | gorgex.go:37-412 | the pipeline fails exactly when the parse fails, the token list is empty, or a group is empty |
| Gorgex.MatchesCorrect | gorgex.go:387-412 | an answer of the pipeline is right and stays the same with a larger bound |
| LiteralMatch.LiteralsNfa | gorgex.go:239-280 | `toNfa` of a literal sequence builds the chain of one literal fragment per byte |
| LiteralMatch.WrappedChain | gorgex.go:251-265 | the start and accepting states close that chain |
| LiteralMatch.ChainLoop | gorgex.go:242-249 | the chaining loop over the literals |
| LiteralWalk.CheckChain | gorgex.go:387-412 | from the entry of byte `i`, the walk accepts exactly when the rest of the input is the rest of the pattern |
| LiteralWalk.StartSteps | gorgex.go:401-408 | from the start state at -1 the walk consumes start-of-text over an epsilon edge and reaches the first byte |
| LiteralWalk.LiteralPattern | gorgex.go:37-412 | a non-empty pattern of ordinary bytes matches an ordinary input exactly when the input equals the pattern |
| TestRows.ParseQuantified | gorgex.go:162-185 | `ab*c`, `ab?c` and `ab+c` parse to `a`, the repeat of `b` with the bounds of the quantifier, and `c` |
| TestRows.ParseClass | gorgex.go:95-129 | `ab[cd]` parses to `a`, `b` and the bracket of `{c, d}` |
| TestRows.OptionalBuild | gorgex.go:239-369 | `toNfa` of the tokens of `ab?c` builds the ten-state arena `OptionalNfa`, with the fork of `b?` listing its exit before the copy of `b` |
| TestRows.PlusBuild | gorgex.go:239-369 | `toNfa` of the tokens of `ab+c` builds `PlusNfa`: no skip edge, and the exit of `b+` lists the back-edge to the copy before the edge to `c` |
| TestRows.ClassBuild | gorgex.go:239-297 | `toNfa` of the tokens of `ab[cd]` builds `ClassNfa`, whose bracket entry reads `c` and `d` into its exit |
| TestRows.StartStep | gorgex.go:387-412 | from the start state at -1, `check` tries the entry at -1, then at the first byte |
| TestRows.ForkStep | gorgex.go:401-409 | on a state with two epsilon edges, `check` tries the first target and falls back to the second |
| TestRows.BracketStep | gorgex.go:394-399 | a bracket entry moves on exactly when the byte is in the set, and answers false otherwise |
| TestRows.AfterFirst | gorgex.go:387-412 | on an input starting with `a`, the walk of every row reaches state 2 at the second byte |
| TestRows.OptionalSkips | gorgex.go:387-412 | in the arena of `ab?c`, `check` accepts `ac` over the skip edge |
| TestRows.OptionalTakes | gorgex.go:387-412 | in the arena of `ab?c`, `check` accepts `abc` through the copy of `b`, after the skip edge fails |
| TestRows.OptionalRows | gorgex_test.go:65-66 | the pipeline answers true for `ab?c` on `ac` and on `abc` |
| TestRows.PlusNeedsOne | gorgex.go:387-412 | in the arena of `ab+c`, `check` answers false on `ac` |
| TestRows.PlusOnce | gorgex.go:387-412 | in the arena of `ab+c`, `check` accepts `abc` |
| TestRows.PlusTwice | gorgex.go:387-412 | in the arena of `ab+c`, `check` accepts `abbc` over the back-edge |
| TestRows.PlusRows | gorgex_test.go:67-69 | the pipeline answers true for `ab+c` on `abc` and `abbc`, and false on `ac` |
| TestRows.ClassWalk | gorgex.go:387-412 | in the arena of `ab[cd]`, `check` on `ab` and one more ordinary byte accepts exactly when that byte is `c` or `d` |
| TestRows.ClassRows | gorgex_test.go:38-40 | the pipeline answers true for `ab[cd]` on `abc` and `abd`, and false on `abr` |

## Left out

- The Go test harness is left out. The rows for `ab[cd]`, `ab?c` and `ab+c` are proved through the whole pipeline in `TestRows`. The literal rows are covered by `LiteralWalk.LiteralPattern`, and full-string matching by `MatchProperties.AcceptsWholeInput`. The other rows, such as `ab*c`, `ab[c-f]` and the groups, are not restated as concrete lemmas. Each one needs its own arena and walk, written state by state.
- Matcher.Check: bounded by `fuel` and answers `None` past it, where the source recurses without bound and loops forever on an epsilon cycle.
- Gorgex.Matches: inherits that bound; `None` is not an answer of the source.
- Panic message texts are dropped. Each panic is one `PatternError` value.
- `fmt.Sprintf` is modelled only for the `%c` verb on a byte (UTF-8 of the code point).
- `strconv.Atoi` is modelled as an optional sign, decimal digits and the 64-bit range check. Its error values are not distinguished.
- The `uint8` wrap at byte 0xFF in the bracket loop is not modelled: an entry never ends on 0xFF, because `%c` of a byte of 0x80 or more ends in a byte of at most 0xBF.
- Go map iteration order in the bracket case has no effect on the result. `Builder.Arena.BracketEdges` is proved for every order.
- The `start` flag is set but never read by `check`. It is modelled, but nothing depends on it.
- Pointers and garbage collection are replaced by arena indexes. The two states the group case allocates and then abandons stay in the arena, unreachable.
- Stack depth, running time and exponential backtracking are not modelled. The code has no concurrency.
