/** The test-side helpers of internal/arith/arith_test.go: the tree shape the
    parser is expected to build, the structural comparator `TreesEqual`, and
    the token builders `ntk`/`otk`. */
module ArithTest {
  import opened Wrappers
  import opened Arith
  import Decimal

  /** `Tree` embeds a `Token` and has optional children. */
  datatype Tree = Tree(token: Token, left: Option<Tree>, right: Option<Tree>)

  /** The errors `TreesEqual` can return; a child mismatch wraps the error
      found inside the child. */
  datatype Mismatch =
    | NumberNilMismatch
    | NumberMismatch(a: Int64, b: Int64)
    | OpNilMismatch
    | OpMismatch(x: Op, y: Op)
    | LeftNilMismatch
    | LeftTreeMismatch(cause: Mismatch)
    | RightNilMismatch
    | RightTreeMismatch(cause: Mismatch)

  /** `m` is an accurate report about the roots `a` and `b`: the field it
      names differs, and every field checked before it agrees. */
  ghost predicate Blames(a: Tree, b: Tree, m: Mismatch) {
    match m
    case NumberNilMismatch =>
      a.token.number.Some? != b.token.number.Some?
    case NumberMismatch(x, y) =>
      a.token.number == Some(x) && b.token.number == Some(y) && x != y
    case OpNilMismatch =>
      a.token.number == b.token.number && a.token.op.Some? != b.token.op.Some?
    case OpMismatch(x, y) =>
      a.token.number == b.token.number && a.token.op == Some(x) && b.token.op == Some(y) && x != y
    case LeftNilMismatch =>
      a.token == b.token && a.left.Some? != b.left.Some?
    case LeftTreeMismatch(_) =>
      a.token == b.token && a.left.Some? && b.left.Some? && a.left != b.left
    case RightNilMismatch =>
      a.token == b.token && a.left == b.left && a.right.Some? != b.right.Some?
    case RightTreeMismatch(_) =>
      a.token == b.token && a.left == b.left && a.right.Some? && b.right.Some? && a.right != b.right
  }

  /** Compares number, op, left subtree, right subtree in that order and
      reports the first difference; `None` is Go's nil error. */
  function TreesEqual(a: Tree, b: Tree): (r: Option<Mismatch>)
    ensures r.None? <==> a == b
    ensures r.Some? ==> Blames(a, b, r.value)
  {
    if a.token.number.Some? != b.token.number.Some? then Some(NumberNilMismatch)
    else if a.token.number.Some? && a.token.number.value != b.token.number.value then
      Some(NumberMismatch(a.token.number.value, b.token.number.value))
    else if a.token.op.Some? != b.token.op.Some? then Some(OpNilMismatch)
    else if a.token.op.Some? && a.token.op.value != b.token.op.value then
      Some(OpMismatch(a.token.op.value, b.token.op.value))
    else if a.left.Some? != b.left.Some? then Some(LeftNilMismatch)
    else if a.left.Some? && TreesEqual(a.left.value, b.left.value).Some? then
      Some(LeftTreeMismatch(TreesEqual(a.left.value, b.left.value).value))
    else if a.right.Some? != b.right.Some? then Some(RightNilMismatch)
    else if a.right.Some? && TreesEqual(a.right.value, b.right.value).Some? then
      Some(RightTreeMismatch(TreesEqual(a.right.value, b.right.value).value))
    else None
  }

  /** The converse of `Blames`: the first field, in checking order, that
      differs decides the report. */
  lemma FirstDifferenceReported(a: Tree, b: Tree)
    ensures a.token.number.Some? != b.token.number.Some? ==> TreesEqual(a, b) == Some(NumberNilMismatch)
    ensures a.token.number.Some? && b.token.number.Some? && a.token.number != b.token.number ==>
      TreesEqual(a, b) == Some(NumberMismatch(a.token.number.value, b.token.number.value))
    ensures a.token.number == b.token.number && a.token.op.Some? != b.token.op.Some? ==>
      TreesEqual(a, b) == Some(OpNilMismatch)
    ensures a.token.number == b.token.number && a.token.op.Some? && b.token.op.Some? && a.token.op != b.token.op ==>
      TreesEqual(a, b) == Some(OpMismatch(a.token.op.value, b.token.op.value))
    ensures a.token == b.token && a.left.Some? != b.left.Some? ==> TreesEqual(a, b) == Some(LeftNilMismatch)
    ensures a.token == b.token && a.left.Some? && b.left.Some? && a.left != b.left ==>
      TreesEqual(a, b) == Some(LeftTreeMismatch(TreesEqual(a.left.value, b.left.value).value))
    ensures a.token == b.token && a.left == b.left && a.right.Some? != b.right.Some? ==>
      TreesEqual(a, b) == Some(RightNilMismatch)
    ensures a.token == b.token && a.left == b.left && a.right.Some? && b.right.Some? && a.right != b.right ==>
      TreesEqual(a, b) == Some(RightTreeMismatch(TreesEqual(a.right.value, b.right.value).value))
  {
  }

  /** Every tree equals itself. */
  lemma TreesEqualReflexive(t: Tree)
    ensures TreesEqual(t, t) == None
  {
  }

  /** The report seen from the other side: values in a report swap places. */
  function Swap(m: Mismatch): (s: Mismatch)
  {
    match m
    case NumberMismatch(x, y) => NumberMismatch(y, x)
    case OpMismatch(x, y) => OpMismatch(y, x)
    case LeftTreeMismatch(c) => LeftTreeMismatch(Swap(c))
    case RightTreeMismatch(c) => RightTreeMismatch(Swap(c))
    case _ => m
  }

  lemma {:induction false} SwapInvolutive(m: Mismatch)
    ensures Swap(Swap(m)) == m
  {
    match m
    case LeftTreeMismatch(c) => SwapInvolutive(c);
    case RightTreeMismatch(c) => SwapInvolutive(c);
    case _ =>
  }

  /** Comparing the other way round finds the same difference, with the two
      sides' values exchanged. */
  lemma {:induction false} TreesEqualSymmetric(a: Tree, b: Tree)
    ensures TreesEqual(b, a).None? <==> TreesEqual(a, b).None?
    ensures TreesEqual(a, b).Some? ==> TreesEqual(b, a) == Some(Swap(TreesEqual(a, b).value))
  {
    if a.token == b.token && a.left.Some? && b.left.Some? {
      TreesEqualSymmetric(a.left.value, b.left.value);
    }
    if a.token == b.token && a.left == b.left && a.right.Some? && b.right.Some? {
      TreesEqualSymmetric(a.right.value, b.right.value);
    }
  }

  /** A child direction. */
  datatype Side = Left | Right

  /** The subtree reached by following `path` from `t`, if it exists. */
  function At(t: Tree, path: seq<Side>): Option<Tree>
    decreases |path|
  {
    if path == [] then Some(t)
    else
      var child := if path[0] == Left then t.left else t.right;
      if child.None? then None else At(child.value, path[1..])
  }

  /** The directions a nested report descends through. */
  function PathOf(m: Mismatch): seq<Side>
  {
    match m
    case LeftTreeMismatch(c) => [Left] + PathOf(c)
    case RightTreeMismatch(c) => [Right] + PathOf(c)
    case _ => []
  }

  /** The innermost report, the one about a single pair of nodes. */
  function Innermost(m: Mismatch): (leaf: Mismatch)
    ensures !leaf.LeftTreeMismatch? && !leaf.RightTreeMismatch?
  {
    match m
    case LeftTreeMismatch(c) => Innermost(c)
    case RightTreeMismatch(c) => Innermost(c)
    case _ => m
  }

  /** A report pinpoints a node pair: following its path in both trees leads
      to two nodes whose own comparison fails locally with the innermost
      report, so the mismatch found in a child is propagated unchanged. */
  lemma {:induction false} MismatchLocated(a: Tree, b: Tree)
    requires TreesEqual(a, b).Some?
    ensures var m := TreesEqual(a, b).value;
      && At(a, PathOf(m)).Some? && At(b, PathOf(m)).Some?
      && TreesEqual(At(a, PathOf(m)).value, At(b, PathOf(m)).value) == Some(Innermost(m))
      && Blames(At(a, PathOf(m)).value, At(b, PathOf(m)).value, Innermost(m))
  {
    var m := TreesEqual(a, b).value;
    match m
    case LeftTreeMismatch(c) =>
      MismatchLocated(a.left.value, b.left.value);
      assert ([Left] + PathOf(c))[1..] == PathOf(c);
    case RightTreeMismatch(c) =>
      MismatchLocated(a.right.value, b.right.value);
      assert ([Right] + PathOf(c))[1..] == PathOf(c);
    case _ =>
  }

  /** `ntk(i)`: a token with only the number set. */
  function NumberToken(i: Int64): (t: Token)
    ensures Classify(t) == Some(Num(i))
  {
    Token(Some(i), None)
  }

  /** `otk(o)`: a token with only the operator set. */
  function OpToken(o: Op): (t: Token)
    ensures Classify(t) == Some(Oper(o))
  {
    Token(None, Some(o))
  }

  /** On trees whose tokens all respect "one of", a differing kind is always
      caught by the number check, so the op-nil report never occurs. */
  lemma {:induction false} OpNilUnreachable(a: Tree, b: Tree)
    requires AllOneOf(a) && AllOneOf(b)
    ensures TreesEqual(a, b).Some? ==> Innermost(TreesEqual(a, b).value) != OpNilMismatch
  {
    if TreesEqual(a, b).Some? {
      MismatchLocated(a, b);
      var m := TreesEqual(a, b).value;
      AtPreservesOneOf(a, PathOf(m));
      AtPreservesOneOf(b, PathOf(m));
    }
  }

  /** Every token in the tree respects "one of". */
  predicate AllOneOf(t: Tree) {
    && OneOf(t.token)
    && (t.left.Some? ==> AllOneOf(t.left.value))
    && (t.right.Some? ==> AllOneOf(t.right.value))
  }

  lemma {:induction false} AtPreservesOneOf(t: Tree, path: seq<Side>)
    requires AllOneOf(t)
    ensures At(t, path).Some? ==> AllOneOf(At(t, path).value)
    decreases |path|
  {
    if path != [] {
      var child := if path[0] == Left then t.left else t.right;
      if child.Some? {
        AtPreservesOneOf(child.value, path[1..]);
      }
    }
  }

  /** The error text `fmt.Errorf` produces for a report about one node pair. */
  function LocalText(m: Mismatch): string
    requires !m.LeftTreeMismatch? && !m.RightTreeMismatch?
  {
    match m
    case NumberNilMismatch => "number nil mismatch"
    case NumberMismatch(x, y) =>
      "number mismatch (" + Decimal.FormatInt(x as int) + " vs " + Decimal.FormatInt(y as int) + ")"
    case OpNilMismatch => "op nil mismatch"
    case OpMismatch(x, y) => "op mismatch (" + Spelling(x) + " vs " + Spelling(y) + ")"
    case LeftNilMismatch => "left nil mismatch"
    case RightNilMismatch => "right nil mismatch"
  }

  /** The prefix one child wrapping adds. */
  function SidePrefix(side: Side): string
  {
    if side == Left then "left tree mismatch: " else "right tree mismatch: "
  }

  /** The prefixes the wrappings along `path` add, outermost first. */
  function PathText(path: seq<Side>): string
    decreases |path|
  {
    if path == [] then "" else SidePrefix(path[0]) + PathText(path[1..])
  }

  /** Wrapping a report's text once more extends its path text by one prefix. */
  lemma WrapText(side: Side, path: seq<Side>, tail: string, inner: string)
    requires inner == PathText(path) + tail
    ensures SidePrefix(side) + inner == PathText([side] + path) + tail
  {
    assert ([side] + path)[1..] == path;
    assert PathText([side] + path) == SidePrefix(side) + PathText(path);
  }

  /** The error text of any report: one prefix per child wrapping, along the
      path `MismatchLocated` walks, then the text of the innermost report. */
  function Message(m: Mismatch): (s: string)
    ensures s == PathText(PathOf(m)) + LocalText(Innermost(m))
  {
    match m
    case LeftTreeMismatch(c) =>
      var inner := Message(c);
      WrapText(Left, PathOf(c), LocalText(Innermost(c)), inner);
      SidePrefix(Left) + inner
    case RightTreeMismatch(c) =>
      var inner := Message(c);
      WrapText(Right, PathOf(c), LocalText(Innermost(c)), inner);
      SidePrefix(Right) + inner
    case _ =>
      LocalText(m)
  }
}
