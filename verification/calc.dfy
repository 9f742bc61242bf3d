/** The calculator scene of internal/calc/scene.go: the keypad the scene
    lays out and the expression buffer its buttons feed. */
module Calc {
  import opened Wrappers
  import opened Arith
  import Decimal

  /** `arithmeticDisplay` without its mutex: calls are taken one at a time. */
  datatype Display = Display(history: seq<string>, current: seq<Token>)

  /** The zero value the scene starts from (`var disp arithmeticDisplay`). */
  const Initial: Display := Display([], [])

  /** The tests `Add` makes: an op pointer that is set and names the
      constant. */
  predicate IsEquals(t: Token) {
    t.op == Some(Equals)
  }

  predicate IsBackspace(t: Token) {
    t.op == Some(Backspace)
  }

  /** Editing directives: consumed by `Add`, never stored. */
  predicate IsDirective(t: Token) {
    IsEquals(t) || IsBackspace(t)
  }

  /** A buffer holding no directive. */
  predicate Clean(buffer: seq<Token>) {
    forall i :: 0 <= i < |buffer| ==> !IsDirective(buffer[i])
  }

  /** One call of `arith.Parse`: the tokens it was handed and what it gave
      back. `Parse` itself is a parameter of the model. */
  datatype ParseCall<R> = ParseCall(input: seq<Token>, outcome: R)

  /** The state after one `Add`, and the parse it triggered, if any. */
  datatype Step<R> = Step(display: Display, call: Option<ParseCall<R>>)

  /** `arithmeticDisplay.Add`. `=` parses the buffer as it stands and then
      empties it, whatever the parse gave; backspace drops the last token of
      a non-empty buffer; anything else is appended as it is. */
  function Add<R>(d: Display, t: Token, parse: seq<Token> -> R): (r: Step<R>)
    ensures r.display.history == d.history
    ensures IsEquals(t) ==> r.call == Some(ParseCall(d.current, parse(d.current))) && r.display.current == []
    ensures !IsEquals(t) ==> r.call.None?
    ensures IsBackspace(t) && d.current != [] ==>
      |r.display.current| == |d.current| - 1 && r.display.current <= d.current
    ensures IsBackspace(t) && d.current == [] ==> r.display.current == []
    ensures !IsDirective(t) ==>
      |r.display.current| == |d.current| + 1 && d.current <= r.display.current
      && r.display.current[|d.current|] == t
  {
    if IsEquals(t) then
      Step(d.(current := []), Some(ParseCall(d.current, parse(d.current))))
    else if IsBackspace(t) then
      if |d.current| != 0 then Step(d.(current := d.current[..|d.current| - 1]), None)
      else Step(d, None)
    else
      Step(d.(current := d.current + [t]), None)
  }

  /** No single `Add` lets a directive into a clean buffer. */
  lemma AddKeepsClean<R>(d: Display, t: Token, parse: seq<Token> -> R)
    requires Clean(d.current)
    ensures Clean(Add(d, t, parse).display.current)
  {
  }

  /** Backspace undoes the append of any ordinary token. */
  lemma BackspaceUndoesAppend<R>(d: Display, t: Token, parse: seq<Token> -> R)
    requires !IsDirective(t)
    ensures Add(Add(d, t, parse).display, ToToken(Oper(Backspace)), parse).display == d
  {
    assert (d.current + [t])[..|d.current|] == d.current;
  }

  /** The outcome of a run of presses: the final display and every parse it
      triggered, in order. */
  datatype Session<R> = Session(display: Display, calls: seq<ParseCall<R>>)

  /** How many of `keys` are `=` presses. */
  function EqualsCount(keys: seq<Token>): nat
  {
    if keys == [] then 0 else (if IsEquals(keys[0]) then 1 else 0) + EqualsCount(keys[1..])
  }

  /** Feeding `keys` to `Add` one after another, as the button click handlers
      do: the parser is called once per `=` press and the history is left
      alone. */
  function Run<R>(d: Display, keys: seq<Token>, parse: seq<Token> -> R): (r: Session<R>)
    ensures r.display.history == d.history
    ensures |r.calls| == EqualsCount(keys)
    decreases |keys|
  {
    if keys == [] then Session(d, [])
    else
      var step := Add(d, keys[0], parse);
      var rest := Run(step.display, keys[1..], parse);
      var here := if step.call.Some? then [step.call.value] else [];
      Session(rest.display, here + rest.calls)
  }

  /** A run over `a + b` is the run over `a` continued by the run over `b`. */
  lemma {:induction false} RunSplits<R>(d: Display, a: seq<Token>, b: seq<Token>, parse: seq<Token> -> R)
    ensures Run(d, a + b, parse).display == Run(Run(d, a, parse).display, b, parse).display
    ensures Run(d, a + b, parse).calls == Run(d, a, parse).calls + Run(Run(d, a, parse).display, b, parse).calls
    decreases |a|
  {
    if a != [] {
      assert (a + b)[0] == a[0];
      assert (a + b)[1..] == a[1..] + b;
      RunSplits(Add(d, a[0], parse).display, a[1..], b, parse);
    } else {
      assert a + b == b;
    }
  }

  /** Starting from a clean buffer, no sequence of presses ever leaves a
      directive in it, and the history is never touched. */
  lemma {:induction false} RunKeepsClean<R>(d: Display, keys: seq<Token>, parse: seq<Token> -> R)
    requires Clean(d.current)
    ensures Clean(Run(d, keys, parse).display.current)
    ensures Run(d, keys, parse).display.history == d.history
    decreases |keys|
  {
    if keys != [] {
      AddKeepsClean(d, keys[0], parse);
      RunKeepsClean(Add(d, keys[0], parse).display, keys[1..], parse);
    }
  }

  /** The invariant from the scene's zero-value display. */
  lemma InitialStaysClean<R>(keys: seq<Token>, parse: seq<Token> -> R)
    ensures Clean(Run(Initial, keys, parse).display.current)
    ensures Run(Initial, keys, parse).display.history == []
  {
    RunKeepsClean(Initial, keys, parse);
  }

  /** Ordinary tokens are appended one by one and never merged, and no parse
      happens. */
  lemma {:induction false} RunAppends<R>(d: Display, keys: seq<Token>, parse: seq<Token> -> R)
    requires Clean(keys)
    ensures Run(d, keys, parse).display == d.(current := d.current + keys)
    ensures Run(d, keys, parse).calls == []
    decreases |keys|
  {
    if keys != [] {
      assert !IsDirective(keys[0]);
      RunAppends(Add(d, keys[0], parse).display, keys[1..], parse);
      assert d.current + [keys[0]] + keys[1..] == d.current + keys;
    }
  }

  /** Typing an expression and pressing `=` hands exactly the typed tokens to
      the parser and leaves the buffer empty. */
  lemma TypeThenEquals<R>(keys: seq<Token>, parse: seq<Token> -> R)
    requires Clean(keys)
    ensures Run(Initial, keys + [ToToken(Oper(Equals))], parse).calls == [ParseCall(keys, parse(keys))]
    ensures Run(Initial, keys + [ToToken(Oper(Equals))], parse).display == Initial
  {
    RunSplits(Initial, keys, [ToToken(Oper(Equals))], parse);
    RunAppends(Initial, keys, parse);
    var typed := Display([], keys);
    assert Initial.current + keys == keys;
    assert Run(Initial, keys, parse).display == typed;
    assert [ToToken(Oper(Equals))][1..] == [];
    assert Run(typed, [ToToken(Oper(Equals))], parse).calls == [ParseCall(keys, parse(keys))];
  }

  /** Two digit presses give two number tokens: `1` then `2` is not `12`. */
  lemma DigitsNotFolded<R>(parse: seq<Token> -> R)
    ensures Run(Initial, [ToToken(Num(1)), ToToken(Num(2))], parse).display.current
      == [ToToken(Num(1)), ToToken(Num(2))]
  {
    RunAppends(Initial, [ToToken(Num(1)), ToToken(Num(2))], parse);
  }

  /** The keypad, row by row, as the scene creates its buttons. */
  const Keypad: seq<seq<Token>> := [
    [Token(Some(9), None), Token(Some(8), None), Token(Some(7), None), Token(None, Some(Divide))],
    [Token(Some(6), None), Token(Some(5), None), Token(Some(4), None), Token(None, Some(Multiply))],
    [Token(Some(3), None), Token(Some(2), None), Token(Some(1), None), Token(None, Some(Minus))],
    [Token(None, Some(Backspace)), Token(Some(0), None), Token(None, Some(Equals)), Token(None, Some(Plus))]
  ]

  /** The keys in button-creation order. */
  function Keys(rows: seq<seq<Token>>): seq<Token>
  {
    if rows == [] then [] else rows[0] + Keys(rows[1..])
  }

  /** A button's caption: the operator's string if the op pointer is set,
      otherwise the number in decimal. With neither set, Go would dereference
      nil; that is excluded here. The caption reads back as what it shows: an
      operator's caption names that operator, a number's parses to it. */
  function Label(t: Token): (s: string)
    requires t.op.Some? || t.number.Some?
    ensures t.op.Some? ==> OpNamed(s) == t.op
    ensures t.op.None? ==> Decimal.ParseInt(s) == Some(t.number.value as int)
  {
    if t.op.Some? then Spelling(t.op.value) else Decimal.FormatInt(t.number.value as int)
  }

  /** The sixteen keys in the order the scene creates them. This flat copy of
      `Keypad` exists only so that the prover can index the keys directly;
      `KeysOfKeypad` proves it equal to the rows laid end to end. */
  const KeyOrder: seq<Token> := [
    Token(Some(9), None), Token(Some(8), None), Token(Some(7), None), Token(None, Some(Divide)),
    Token(Some(6), None), Token(Some(5), None), Token(Some(4), None), Token(None, Some(Multiply)),
    Token(Some(3), None), Token(Some(2), None), Token(Some(1), None), Token(None, Some(Minus)),
    Token(None, Some(Backspace)), Token(Some(0), None), Token(None, Some(Equals)), Token(None, Some(Plus))
  ]

  lemma KeysOfKeypad()
    ensures Keys(Keypad) == KeyOrder
  {
    assert Keys(Keypad[3..]) == Keypad[3];
    assert Keys(Keypad[2..]) == Keypad[2] + Keypad[3];
    assert Keys(Keypad[1..]) == Keypad[1] + Keypad[2] + Keypad[3];
  }

  /** No element occurs twice. */
  predicate Distinct<T(==)>(s: seq<T>) {
    forall i, j :: 0 <= i < j < |s| ==> s[i] != s[j]
  }

  lemma {:induction false} DistinctOccursOnce<T>(s: seq<T>, x: T)
    requires Distinct(s) && x in s
    ensures multiset(s)[x] == 1
  {
    assert s == [s[0]] + s[1..];
    if s[0] == x {
      assert x !in s[1..];
    } else {
      DistinctOccursOnce(s[1..], x);
    }
  }

  /** The keypad is four rows of four, and every key is a well-formed token
      whose number, if any, is a single digit. */
  lemma KeypadWellFormed()
    ensures |Keypad| == 4 && forall r :: 0 <= r < 4 ==> |Keypad[r]| == 4
    ensures forall k :: k in Keys(Keypad) ==> OneOf(k)
    ensures forall k :: k in Keys(Keypad) && k.number.Some? ==> 0 <= k.number.value <= 9
  {
    KeysOfKeypad();
    forall i | 0 <= i < |KeyOrder|
      ensures OneOf(KeyOrder[i]) && (KeyOrder[i].number.Some? ==> 0 <= KeyOrder[i].number.value <= 9)
    {
    }
  }

  lemma KeysDistinct()
    ensures Distinct(Keys(Keypad))
  {
    KeysOfKeypad();
  }

  /** Each digit 0..9 has exactly one key. */
  lemma KeypadHasEachDigitOnce()
    ensures forall d: Int64 :: 0 <= d <= 9 ==> multiset(Keys(Keypad))[ToToken(Num(d))] == 1
  {
    forall d: Int64 | 0 <= d <= 9
      ensures multiset(Keys(Keypad))[ToToken(Num(d))] == 1
    {
      DigitKeyOnce(d);
    }
  }

  lemma DigitKeyOnce(d: Int64)
    requires 0 <= d <= 9
    ensures multiset(Keys(Keypad))[ToToken(Num(d))] == 1
  {
    KeysOfKeypad();
    KeysDistinct();
    var i := DigitKeyIndex(d);
    DistinctOccursOnce(KeyOrder, KeyOrder[i]);
  }

  /** Where each digit sits on the keypad. */
  function DigitKeyIndex(d: Int64): (i: nat)
    requires 0 <= d <= 9
    ensures i < |KeyOrder| && KeyOrder[i] == ToToken(Num(d))
  {
    if d == 0 then 13
    else if d <= 3 then 11 - d as int
    else if d <= 6 then 10 - d as int
    else 9 - d as int
  }


  /** Each of the six operators has exactly one key. */
  lemma KeypadHasEachOpOnce()
    ensures forall op: Op :: multiset(Keys(Keypad))[ToToken(Oper(op))] == 1
  {
    forall op: Op
      ensures multiset(Keys(Keypad))[ToToken(Oper(op))] == 1
    {
      OpKeyOnce(op);
    }
  }

  lemma OpKeyOnce(op: Op)
    ensures multiset(Keys(Keypad))[ToToken(Oper(op))] == 1
  {
    KeysOfKeypad();
    KeysDistinct();
    var i := OpKeyIndex(op);
    DistinctOccursOnce(KeyOrder, KeyOrder[i]);
  }

  /** Where each operator sits on the keypad. */
  function OpKeyIndex(op: Op): (i: nat)
    ensures i < |KeyOrder| && KeyOrder[i] == ToToken(Oper(op))
  {
    match op
    case Divide => 3
    case Multiply => 7
    case Minus => 11
    case Backspace => 12
    case Equals => 14
    case Plus => 15
  }

  /** A single-digit number's caption is that digit's character. */
  lemma DigitLabel(d: Int64)
    requires 0 <= d <= 9
    ensures Label(ToToken(Num(d))) == [Decimal.DigitChar(d as nat)]
  {
    Decimal.FormatDigit(d as int);
  }

  /** Well-formed tokens with the same caption are the same token. */
  lemma LabelInjective(a: Token, b: Token)
    requires OneOf(a) && OneOf(b)
    ensures Label(a) == Label(b) <==> a == b
  {
    if Label(a) == Label(b) {
      if a.op.Some? && b.op.Some? {
        SpellingsDistinct(a.op.value, b.op.value);
      } else if a.number.Some? && b.number.Some? {
        Decimal.FormatIntInjective(a.number.value as int, b.number.value as int);
      } else if a.op.Some? {
        NumberLabelNotSpelling(b.number.value, a.op.value);
      } else {
        NumberLabelNotSpelling(a.number.value, b.op.value);
      }
    }
  }

  /** No number is written like an operator. */
  lemma NumberLabelNotSpelling(n: Int64, op: Op)
    ensures Decimal.FormatInt(n as int) != Spelling(op)
  {
    var s := Decimal.FormatInt(n as int);
    if n >= 0 {
      assert Decimal.IsDigit(s[0]);
    } else {
      assert |s| >= 2 && s[0] == '-';
    }
  }

  /** Distinct well-formed tokens have distinct captions. */
  lemma DistinctLabels(keys: seq<Token>)
    requires Distinct(keys)
    requires forall i :: 0 <= i < |keys| ==> keys[i].number.Some? != keys[i].op.Some?
    ensures forall i, j :: 0 <= i < j < |keys| ==> Label(keys[i]) != Label(keys[j])
  {
    forall i, j | 0 <= i < j < |keys|
      ensures Label(keys[i]) != Label(keys[j])
    {
      LabelInjective(keys[i], keys[j]);
    }
  }

  /** No two buttons share a caption. */
  lemma KeypadLabelsDistinct()
    ensures forall i, j :: 0 <= i < j < |Keys(Keypad)| ==> Label(Keys(Keypad)[i]) != Label(Keys(Keypad)[j])
  {
    var keys := Keys(Keypad);
    KeysDistinct();
    KeypadWellFormed();
    forall i | 0 <= i < |keys|
      ensures keys[i].number.Some? != keys[i].op.Some?
    {
      assert keys[i] in keys;
    }
    DistinctLabels(keys);
  }
}
