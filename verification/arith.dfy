/** The token vocabulary of internal/arith/arith.go: the operator set, the
    token a keypad press produces, and the placeholder evaluator. */
module Arith {
  import opened Wrappers

  /** Go's `int64`, the payload of a number token. */
  newtype Int64 = x: int | -0x8000_0000_0000_0000 <= x < 0x8000_0000_0000_0000

  /** The six named `Op` constants. */
  datatype Op = Plus | Minus | Divide | Multiply | Equals | Backspace

  /** The constants in declaration order. */
  const AllOps: seq<Op> := [Plus, Minus, Divide, Multiply, Equals, Backspace]

  /** The string each constant stands for (`Op` is a Go string type); the
      lookup `OpNamed` finds the constant again from it. */
  function Spelling(op: Op): (s: string)
    ensures 1 <= |s| <= 2
    ensures OpNamed(s) == Some(op)
  {
    match op
    case Plus => "+"
    case Minus => "-"
    case Divide => "/"
    case Multiply => "*"
    case Equals => "="
    case Backspace => "<-"
  }

  /** The constant, if any, whose spelling is `s`. */
  function OpNamed(s: string): Option<Op>
  {
    if s == "+" then Some(Plus)
    else if s == "-" then Some(Minus)
    else if s == "/" then Some(Divide)
    else if s == "*" then Some(Multiply)
    else if s == "=" then Some(Equals)
    else if s == "<-" then Some(Backspace)
    else None
  }

  /** Exactly six operators, each listed once. */
  lemma AllOpsComplete()
    ensures |AllOps| == 6
    ensures forall op: Op :: op in AllOps
    ensures forall i, j :: 0 <= i < j < |AllOps| ==> AllOps[i] != AllOps[j]
  {
    forall op: Op ensures op in AllOps {
      match op
      case Plus => assert AllOps[0] == op;
      case Minus => assert AllOps[1] == op;
      case Divide => assert AllOps[2] == op;
      case Multiply => assert AllOps[3] == op;
      case Equals => assert AllOps[4] == op;
      case Backspace => assert AllOps[5] == op;
    }
  }

  /** Spelling and lookup by spelling are inverse to each other, so no two
      constants share a spelling. */
  lemma SpellingRoundTrip(op: Op, s: string)
    ensures OpNamed(Spelling(op)) == Some(op)
    ensures OpNamed(s) == Some(op) <==> Spelling(op) == s
  {
  }

  /** Pairwise-distinct spellings. */
  lemma SpellingsDistinct(a: Op, b: Op)
    ensures Spelling(a) == Spelling(b) <==> a == b
  {
    SpellingRoundTrip(a, Spelling(b));
  }

  /** Go's `Token`: two nil-able pointers, of which exactly one is meant to
      be set. */
  datatype Token = Token(number: Option<Int64>, op: Option<Op>)

  /** The "one of" intent of the struct's comment. */
  predicate OneOf(t: Token) {
    t.number.Some? != t.op.Some?
  }

  /** The sum type the pointer pair encodes. */
  datatype Kind = Num(value: Int64) | Oper(op: Op)

  function ToToken(k: Kind): (t: Token)
    ensures OneOf(t)
    ensures k.Num? <==> t.number.Some?
  {
    match k
    case Num(v) => Token(Some(v), None)
    case Oper(o) => Token(None, Some(o))
  }

  /** The kind a token stands for; `None` when both or neither pointer is set. */
  function Classify(t: Token): (k: Option<Kind>)
    ensures k.Some? <==> OneOf(t)
  {
    match t
    case Token(Some(v), None) => Some(Num(v))
    case Token(None, Some(o)) => Some(Oper(o))
    case _ => None
  }

  /** The tokens that respect "one of" are exactly the encodings of kinds. */
  lemma ClassifyRoundTrip(k: Kind, t: Token)
    ensures Classify(ToToken(k)) == Some(k)
    ensures Classify(t) == Some(k) <==> ToToken(k) == t
  {
  }

  /** The one error the stub evaluator produces. */
  datatype EvalError = Unimplemented

  function ErrorText(e: EvalError): string
  {
    match e
    case Unimplemented => "unimplemented"
  }

  /** Go's `(int64, error)` pair. */
  datatype EvalResult = EvalResult(value: Int64, err: Option<EvalError>)

  /** `Eval` is a stub: it fails on every input, empty or not, with a zero
      value. */
  function Eval(tokens: seq<Token>): (r: EvalResult)
    ensures r.err.Some? && ErrorText(r.err.value) == "unimplemented"
    ensures r.value == 0
  {
    EvalResult(0, Some(Unimplemented))
  }

  /** The outcome does not depend on the tokens. */
  lemma EvalIgnoresInput(a: seq<Token>, b: seq<Token>)
    ensures Eval(a) == Eval(b)
  {
  }
}
