# OakCalc token vocabulary, entry buffer and tree comparator

A Dafny model of three parts of the OakCalc desktop calculator: the arithmetic
token vocabulary (`internal/arith/arith.go`), the expression-entry buffer
behind the keypad (`internal/calc/scene.go`), and the structural tree
comparator used by the parser test (`internal/arith/arith_test.go`).

- `wrappers.dfy` — `Option`, standing in for Go's nil-able pointers.
- `decimal.dfy` — `Decimal`: `strconv.FormatInt(i, 10)` (and `%v` on an
  `int64`) with a reader that inverts it.
- `arith.dfy` — `Arith`: the six `Op` constants and their spellings; `Token`
  as the Go pointer pair `(number, op)` together with the sum type `Kind` it
  is meant to encode ("one of"); the stub `Eval`.
- `arith_test.dfy` — `ArithTest`: the `Tree` shape (a token plus optional
  left/right children), `TreesEqual` returning the first `Mismatch` in checking
  order (number, op, left, right) or `None` for a nil error, the error texts,
  and the token builders `ntk`/`otk` (`NumberToken`/`OpToken`).
- `calc.dfy` — `Calc`: `arithmeticDisplay.Add` as a pure transition on a
  `Display` (history and current buffer). `arith.Parse` is a function
  parameter of any result type; `Add` returns the call it made (the tokens it
  handed over and the outcome) so that the buffer behaviour can be stated
  independently of what the parser does. `Run` feeds a sequence of key
  presses, as the button click handlers do. The keypad table and the button
  captions are modelled too.

The token is kept as the pointer pair because the code tests the two pointers
separately: `Add` looks only at the op pointer, and `TreesEqual` has a branch
("op nil mismatch") that only a token breaking the "one of" rule can reach
first (`ArithTest.OpNilUnreachable`).

The operator set is the six constants `+ - / * = <-`. Each digit press
appends its own number token; the buffer never merges digits.

## Model

| member | source | states |
|---|---|---|
| `Arith.AllOpsComplete` | internal/arith/arith.go:13-20 | `Op` has exactly six values, each listed once |
| `Arith.Spelling` | internal/arith/arith.go:14-19 | each constant's string is one or two characters and looks up back to that constant (partner lemma `Arith.SpellingRoundTrip`) |
| `Arith.SpellingRoundTrip` | internal/arith/arith.go:13-20 | each constant's string looks up back to that constant, and a string names a constant exactly when it is that constant's spelling |
| `Arith.SpellingsDistinct` | internal/arith/arith.go:13-20 | two constants share a spelling only if they are the same constant; in particular `=` and `<-` differ |
| `Arith.ToToken` | internal/arith/arith.go:5-9 | encoding a number or an operator sets exactly one of the two pointers, the number one exactly for numbers |
| `Arith.Classify` | internal/arith/arith.go:5-9 | a token stands for a number or an operator exactly when one pointer is set and the other nil |
| `Arith.ClassifyRoundTrip` | internal/arith/arith.go:5-9 | the "one of" tokens are in one-to-one correspondence with the sum type number-or-operator |
| `Arith.Eval` | internal/arith/arith.go:22-24 | every token slice, the empty one included, gives the error `unimplemented`, and the integer returned is 0 |
| `Arith.EvalIgnoresInput` | internal/arith/arith.go:22-24 | any two token slices give the same outcome |
| `ArithTest.TreesEqual` | internal/arith/arith_test.go:40-74 | nil error exactly when the two trees are structurally identical; any error reported names a field that differs while every field checked before it agrees |
| `ArithTest.FirstDifferenceReported` | internal/arith/arith_test.go:41-73 | the first differing field in the order number-presence, number value, op-presence, op value, left-presence, left subtree, right-presence, right subtree decides the error, with the values of both sides |
| `ArithTest.TreesEqualReflexive` | internal/arith/arith_test.go:40-74 | a tree compared with itself gives a nil error |
| `ArithTest.TreesEqualSymmetric` | internal/arith/arith_test.go:40-74 | swapping the arguments keeps the verdict and reports the same mismatch with the two sides' values exchanged |
| `ArithTest.MismatchLocated` | internal/arith/arith_test.go:57-72 | a nested child error leads, along its left/right path, to a node pair in both trees whose own comparison fails with the innermost error, so child errors are propagated unchanged |
| `ArithTest.OpNilUnreachable` | internal/arith/arith_test.go:41-52 | when every token respects "one of", the op-nil check never decides the outcome: a kind difference is caught by the number check |
| `ArithTest.Message` | internal/arith/arith_test.go:42-70 | the error text of a report is one `left tree mismatch: ` or `right tree mismatch: ` prefix per child wrapping, outermost first along the path `ArithTest.MismatchLocated` walks, followed by the text of the innermost report |
| `ArithTest.NumberToken` | internal/arith/arith_test.go:84-86 | `ntk(i)` is the well-formed token for the number `i`, with no operator |
| `ArithTest.OpToken` | internal/arith/arith_test.go:88-90 | `otk(o)` is the well-formed token for the operator `o`, with no number |
| `Calc.Add` | internal/calc/scene.go:106-128 | history never changes; `=` hands the parser the buffer as it was and leaves it empty whatever the parse gave; backspace on a non-empty buffer keeps exactly the prefix one shorter, on an empty buffer keeps it empty, and neither calls the parser; any other token is added at the end with the earlier tokens unchanged |
| `Calc.AddKeepsClean` | internal/calc/scene.go:110-126 | one press never leaves `=` or backspace in a buffer that held neither |
| `Calc.BackspaceUndoesAppend` | internal/calc/scene.go:120-126 | pressing an ordinary key and then backspace restores the display exactly |
| `Calc.Run` | internal/calc/scene.go:79-83 | replaying presses through `Add`, as the click handlers do, calls the parser once per `=` press and never touches the history (partner lemmas `Calc.RunKeepsClean`, `Calc.RunAppends`) |
| `Calc.RunKeepsClean` | internal/calc/scene.go:100-128 | any sequence of presses keeps a directive-free buffer directive-free and never touches the history |
| `Calc.InitialStaysClean` | internal/calc/scene.go:30 | from the zero-value display, no sequence of presses leaves `=` or backspace in the buffer, and the history stays empty |
| `Calc.RunAppends` | internal/calc/scene.go:126 | ordinary presses are stored one token per press, in order, without merging, and trigger no parse |
| `Calc.TypeThenEquals` | internal/calc/scene.go:110-117 | typing ordinary keys and then `=` calls the parser once, with exactly the typed tokens, and returns to an empty buffer |
| `Calc.DigitsNotFolded` | internal/calc/scene.go:126 | `1` then `2` leaves two number tokens, not `12` |
| `Calc.KeypadWellFormed` | internal/calc/scene.go:32-54 | four rows of four keys, each key a well-formed token, each number a single digit 0..9 |
| `Calc.KeysDistinct` | internal/calc/scene.go:32-54 | no key appears twice on the keypad |
| `Calc.KeypadHasEachDigitOnce` | internal/calc/scene.go:32-54 | each digit 0..9 has exactly one key |
| `Calc.KeypadHasEachOpOnce` | internal/calc/scene.go:32-54 | each of the six operators, `=` and backspace included, has exactly one key |
| `Calc.DigitLabel` | internal/calc/scene.go:67-72 | a single-digit key is captioned with that digit's character |
| `Calc.Label` | internal/calc/scene.go:67-72 | an operator key's caption names its operator and a number key's caption reads back as its number (partner lemma `Calc.LabelInjective`) |
| `Calc.LabelInjective` | internal/calc/scene.go:67-72 | two well-formed tokens have the same caption only if they are the same token |
| `Calc.KeypadLabelsDistinct` | internal/calc/scene.go:32-72 | no two buttons share a caption |
| `Decimal.NatDigits` | internal/calc/scene.go:71 | the decimal form is a non-empty digit string with no leading zero, one character exactly for values below ten |
| `Decimal.FormatInt` | internal/calc/scene.go:71 | the decimal form is `-` exactly for negative values followed by a non-empty digit string with no leading zero (0 itself is the single character `0`), and it reads back as the integer it was made from |
| `Decimal.FormatIntInjective` | internal/calc/scene.go:71 | distinct integers have distinct decimal forms |

## Left out

- `arith.Parse`, `Tree.Eval` and `Tree.Pretty` are outside this model; `Parse` is a parameter of `Calc.Add` and no grammar is assumed.
- The commented-out draft of `Eval` and `evalWithLHS` in internal/arith/arith.go: dead code.
- `TestParse` and its expected tree for `0 + 0`: it describes `Parse` output.
- Calc.Add: on `=` with a nil parse error, the call of `Tree.Eval` and the printing of its value are dropped; the model assumes `arith.Parse` and `Tree.Eval` return without panicking (a panic in either, and Go panics on an integer division by zero, would skip the clearing of the buffer).
- Output: the printing of the evaluated value or the parse error in `Add`, of a mismatched tree in the test, and the click handler's log line are I/O.
- The `sync.Mutex` of `arithmeticDisplay`: it only serialises calls, so `Add` is a sequential transition.
- The `history` field is never written by the modelled code; it is kept only so that `Add` can be shown to leave it alone.
- Button layout (float coordinates, sizes, colours), the oak button/mouse wiring, the title bar, font loading and `main`: UI and engine set-up. The click handler's only effect on the state, a call of `Add`, is what `Calc.Run` replays.
- The unused `displayPositions` table.
- `Op` is a Go string type, so other strings can be converted to it; only the six named constants are modelled.
- `i64p` and `opP` take the address of a copy; the model uses `Some(value)`. The pointed-to values are never written by the modelled code; every press stores the keypad's own pointers, and the model assumes `arith.Parse` does not write through them.
- ArithTest.TreesEqual: roots are non-nil trees; a nil root, on which the Go code would dereference nil, and shared or cyclic pointer structures are not modelled.
- Calc.Label: requires one pointer to be set; a token with neither set would dereference nil in the scene.
- Error texts: the `fmt.Errorf` strings are modelled by `ArithTest.Message`, with `%v` of an `int64` as `Decimal.FormatInt` and of an `Op` as its spelling; Go's error wrapping is plain concatenation here.
