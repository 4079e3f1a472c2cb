/**
 * What `DataFrame.eval` computes for a checked expression (solution.py:45):
 * the tokens read as a sum of products over column names, `*` binding
 * tighter than `+` and `-`, every operator associating to the left,
 * evaluated with one row's values.
 */
module Arith {
  import opened Wrappers
  import opened Names
  import opened Tokens
  import opened Validation

  datatype BinOp = Plus | Minus | Times

  datatype Expr = Ref(name: string) | Bin(op: BinOp, left: Expr, right: Expr)

  function OpOf(t: string): BinOp
    requires IsOperatorToken(t)
  {
    if t == "+" then Plus else if t == "-" then Minus else Times
  }

  function TokenOf(op: BinOp): (t: string)
    ensures IsOperatorToken(t) && OpOf(t) == op
  {
    match op
    case Plus => "+"
    case Minus => "-"
    case Times => "*"
  }

  predicate IsAdditive(t: string) {
    t == "+" || t == "-"
  }

  /** Names at even indices, `*` at every odd index. */
  predicate ProductTokens(toks: seq<string>) {
    && |toks| % 2 == 1
    && (forall i :: 0 <= i < |toks| && i % 2 == 0 ==> IsIdentifier(toks[i]))
    && (forall i :: 0 <= i < |toks| && i % 2 == 1 ==> toks[i] == "*")
  }

  /** The in-order token sequence of an expression. */
  function Flatten(e: Expr): seq<string> {
    match e
    case Ref(x) => [x]
    case Bin(op, l, r) => Flatten(l) + [TokenOf(op)] + Flatten(r)
  }

  /** A product of names, grouped to the left. */
  predicate IsProduct(e: Expr) {
    match e
    case Ref(x) => IsIdentifier(x)
    case Bin(op, l, r) => op == Times && IsProduct(l) && r.Ref? && IsIdentifier(r.name)
  }

  /** A sum or difference of products, grouped to the left. */
  predicate IsSum(e: Expr) {
    IsProduct(e) || (e.Bin? && e.op != Times && IsSum(e.left) && IsProduct(e.right))
  }

  /** The odd index of the last `+` or `-`, the operator applied last. */
  function LastAdditive(toks: seq<string>): (r: Option<nat>)
    requires |toks| % 2 == 1
    ensures r.Some? ==> r.value < |toks| && r.value % 2 == 1 && IsAdditive(toks[r.value])
    ensures r.Some? ==> forall j :: r.value < j < |toks| && j % 2 == 1 ==> !IsAdditive(toks[j])
    ensures r.None? ==> forall j :: 0 <= j < |toks| && j % 2 == 1 ==> !IsAdditive(toks[j])
    decreases |toks|
  {
    if |toks| == 1 then None
    else if IsAdditive(toks[|toks| - 2]) then Some(|toks| - 2)
    else
      var r := LastAdditive(toks[..|toks| - 2]);
      assert forall j :: 0 <= j < |toks| - 2 ==> toks[..|toks| - 2][j] == toks[j];
      r
  }

  /** A product of names, read left to right. */
  function ParseProduct(toks: seq<string>): (e: Expr)
    requires ProductTokens(toks)
    ensures IsProduct(e) && Flatten(e) == toks
    decreases |toks|
  {
    if |toks| == 1 then Ref(toks[0])
    else
      var n := |toks|;
      var init := toks[..n - 2];
      assert ProductTokens(init) by {
        assert forall j :: 0 <= j < n - 2 ==> init[j] == toks[j];
      }
      assert toks == init + [toks[n - 2]] + [toks[n - 1]];
      Bin(Times, ParseProduct(init), Ref(toks[n - 1]))
  }

  lemma AlternatingPrefix(toks: seq<string>, i: nat)
    requires Alternating(toks) && i < |toks| && i % 2 == 1
    ensures Alternating(toks[..i])
  {
    assert forall j :: 0 <= j < i ==> toks[..i][j] == toks[j];
  }

  lemma ProductSuffix(toks: seq<string>, i: nat)
    requires Alternating(toks) && i < |toks| && i % 2 == 1
    requires forall j :: i < j < |toks| && j % 2 == 1 ==> !IsAdditive(toks[j])
    ensures ProductTokens(toks[i + 1..])
  {
    var q := toks[i + 1..];
    assert forall j :: 0 <= j < |q| ==> q[j] == toks[i + 1 + j];
  }

  lemma AlternatingProduct(toks: seq<string>)
    requires Alternating(toks)
    requires forall j :: 0 <= j < |toks| && j % 2 == 1 ==> !IsAdditive(toks[j])
    ensures ProductTokens(toks)
  {
  }

  /**
   * The tokens as an expression tree: split at the last `+` or `-`, whose
   * right operand is a product, so `*` binds tighter and every operator
   * groups to the left. Flattening the tree gives the tokens back.
   */
  function Parse(toks: seq<string>): (e: Expr)
    requires Alternating(toks)
    ensures IsSum(e) && Flatten(e) == toks
    decreases |toks|
  {
    match LastAdditive(toks)
    case None =>
      AlternatingProduct(toks);
      ParseProduct(toks)
    case Some(i) =>
      AlternatingPrefix(toks, i);
      ProductSuffix(toks, i);
      assert toks == toks[..i] + [toks[i]] + toks[i + 1..];
      Bin(OpOf(toks[i]), Parse(toks[..i]), ParseProduct(toks[i + 1..]))
  }

  /** An alternating sequence, an operator, and another one join into one. */
  lemma AlternatingJoin(p: seq<string>, t: string, q: seq<string>)
    requires Alternating(p) && IsOperatorToken(t) && Alternating(q)
    ensures Alternating(p + [t] + q)
  {
    var s := p + [t] + q;
    assert forall i :: |p| < i < |s| ==> s[i] == q[i - |p| - 1];
    assert forall i :: 0 <= i < |p| ==> s[i] == p[i];
  }

  /** A product of names, `*`, and one more name form a product. */
  lemma ProductJoin(p: seq<string>, x: string)
    requires ProductTokens(p) && IsIdentifier(x)
    ensures ProductTokens(p + ["*"] + [x])
  {
    var s := p + ["*"] + [x];
    assert forall i :: 0 <= i < |p| ==> s[i] == p[i];
  }

  /** The converse round trip for products. */
  lemma {:induction false} ProductFlatten(e: Expr)
    requires IsProduct(e)
    ensures ProductTokens(Flatten(e)) && ParseProduct(Flatten(e)) == e
  {
    if e.Bin? {
      ProductFlatten(e.left);
      var p := Flatten(e.left);
      ProductJoin(p, e.right.name);
      var toks := Flatten(e);
      assert toks == p + ["*"] + [e.right.name];
      assert toks[..|toks| - 2] == p;
    }
  }

  /** The index of an additive operator with only products after it is the last one. */
  lemma LastAdditiveAt(p: seq<string>, t: string, q: seq<string>)
    requires |p| % 2 == 1 && IsAdditive(t) && ProductTokens(q)
    ensures LastAdditive(p + [t] + q) == Some(|p|)
  {
    var s := p + [t] + q;
    JoinedShape(p, t, q);
    LastAdditiveIs(s, |p|);
  }

  lemma JoinedShape(p: seq<string>, t: string, q: seq<string>)
    requires |p| % 2 == 1 && ProductTokens(q)
    ensures var s := p + [t] + q;
      |s| % 2 == 1 && s[|p|] == t && forall j :: |p| < j < |s| && j % 2 == 1 ==> s[j] == "*"
  {
    var s := p + [t] + q;
    assert |s| == (|p| + 1) + |q| && (|p| + 1) % 2 == 0;
    forall j | |p| < j < |s| && j % 2 == 1 ensures s[j] == "*" {
      assert s[j] == q[j - |p| - 1];
    }
  }

  /** An additive operator with none after it is the last one. */
  lemma LastAdditiveIs(s: seq<string>, k: nat)
    requires |s| % 2 == 1 && k < |s| && k % 2 == 1 && IsAdditive(s[k])
    requires forall j :: k < j < |s| && j % 2 == 1 ==> !IsAdditive(s[j])
    ensures LastAdditive(s) == Some(k)
  {
    var r := LastAdditive(s);
    assert r.Some?;
    assert !(r.value < k);
  }

  /**
   * Parsing undoes flattening on every well-grouped sum of products, so
   * `Parse` and `Flatten` are inverse bijections between alternating
   * token sequences and such trees.
   */
  lemma {:induction false} ParseFlatten(e: Expr)
    requires IsSum(e)
    ensures Alternating(Flatten(e)) && Parse(Flatten(e)) == e
  {
    if IsProduct(e) {
      ProductFlatten(e);
    } else {
      ParseFlatten(e.left);
      ProductFlatten(e.right);
      var p, t, q := Flatten(e.left), TokenOf(e.op), Flatten(e.right);
      AlternatingJoin(p, t, q);
      LastAdditiveAt(p, t, q);
      var toks := Flatten(e);
      assert toks[..|p|] == p && toks[|p| + 1..] == q && toks[|p|] == t;
    }
  }

  /** The values of one row: each column name to its value in that row. */
  type Row = string -> int

  /** The value of an expression on one row. */
  function Eval(e: Expr, row: Row): int {
    match e
    case Ref(x) => row(x)
    case Bin(Plus, l, r) => Eval(l, row) + Eval(r, row)
    case Bin(Minus, l, r) => Eval(l, row) - Eval(r, row)
    case Bin(Times, l, r) => Eval(l, row) * Eval(r, row)
  }

  /**
   * The state of a left-to-right reading of a sum of products: the terms
   * finished so far, the sign of the current term, and the product of its
   * factors read so far.
   */
  datatype Scan = Scan(total: int, sign: int, product: int)

  /** Reading one more operator and the name after it. */
  function Step(s: Scan, op: string, v: int): Scan {
    if op == "*" then Scan(s.total, s.sign, s.product * v)
    else Scan(s.total + s.sign * s.product, if op == "+" then 1 else -1, v)
  }

  /** Reading `toks`, a sequence of operator-name pairs, from state `s`. */
  function ScanFrom(s: Scan, toks: seq<string>, row: Row): Scan
    requires |toks| % 2 == 0
    decreases |toks|
  {
    if |toks| == 0 then s else ScanFrom(Step(s, toks[0], row(toks[1])), toks[2..], row)
  }

  /**
   * A reference reading of the expression, independent of `Parse`: one
   * pass from left to right, multiplying into the current term at `*` and
   * closing it at `+` or `-`.
   */
  function SumOfProducts(toks: seq<string>, row: Row): int
    requires |toks| % 2 == 1
  {
    var s := ScanFrom(Scan(0, 1, row(toks[0])), toks[1..], row);
    s.total + s.sign * s.product
  }

  lemma {:induction false} ScanSnoc(s: Scan, rest: seq<string>, op: string, x: string, row: Row)
    requires |rest| % 2 == 0
    ensures ScanFrom(s, rest + [op, x], row) == Step(ScanFrom(s, rest, row), op, row(x))
    decreases |rest|
  {
    if |rest| == 0 {
      assert rest + [op, x] == [op, x];
    } else {
      assert (rest + [op, x])[2..] == rest[2..] + [op, x];
      ScanSnoc(Step(s, rest[0], row(rest[1])), rest[2..], op, x, row);
    }
  }

  /** The state a left-to-right reading of `toks` should end in, read off the tree. */
  function Expected(toks: seq<string>, row: Row): Scan
    requires Alternating(toks)
  {
    match LastAdditive(toks)
    case None =>
      AlternatingProduct(toks);
      Scan(0, 1, Eval(ParseProduct(toks), row))
    case Some(i) =>
      AlternatingPrefix(toks, i);
      ProductSuffix(toks, i);
      Scan(Eval(Parse(toks[..i]), row), if toks[i] == "+" then 1 else -1, Eval(ParseProduct(toks[i + 1..]), row))
  }

  lemma ExpectedValue(toks: seq<string>, row: Row)
    requires Alternating(toks)
    ensures Expected(toks, row).total + Expected(toks, row).sign * Expected(toks, row).product == Eval(Parse(toks), row)
  {
  }

  /** Appending `+ x` or `- x` closes the current term. */
  lemma ExpectedAdditive(toks: seq<string>, row: Row)
    requires Alternating(toks) && |toks| >= 3 && IsAdditive(toks[|toks| - 2])
    ensures Alternating(toks[..|toks| - 2])
    ensures Expected(toks, row) == Step(Expected(toks[..|toks| - 2], row), toks[|toks| - 2], row(toks[|toks| - 1]))
  {
    var n := |toks|;
    var p := toks[..n - 2];
    AlternatingPrefix(toks, n - 2);
    ExpectedValue(p, row);
    assert toks[n - 1..] == [toks[n - 1]];
  }

  /** One unfolding of `ParseProduct`. */
  lemma ParseProductSnoc(toks: seq<string>)
    requires ProductTokens(toks) && |toks| >= 3
    ensures ProductTokens(toks[..|toks| - 2])
    ensures ParseProduct(toks) == Bin(Times, ParseProduct(toks[..|toks| - 2]), Ref(toks[|toks| - 1]))
  {
  }

  lemma LastAdditiveSkipsTimes(toks: seq<string>)
    requires |toks| % 2 == 1 && |toks| >= 3 && toks[|toks| - 2] == "*"
    ensures LastAdditive(toks) == LastAdditive(toks[..|toks| - 2])
  {
  }

  lemma ExpectedNone(toks: seq<string>, row: Row)
    requires Alternating(toks) && LastAdditive(toks).None?
    ensures ProductTokens(toks)
    ensures Expected(toks, row) == Scan(0, 1, Eval(ParseProduct(toks), row))
  {
    AlternatingProduct(toks);
  }

  lemma ExpectedSome(toks: seq<string>, i: nat, row: Row)
    requires Alternating(toks) && LastAdditive(toks) == Some(i)
    ensures Alternating(toks[..i]) && ProductTokens(toks[i + 1..])
    ensures Expected(toks, row) == Scan(Eval(Parse(toks[..i]), row), if toks[i] == "+" then 1 else -1, Eval(ParseProduct(toks[i + 1..]), row))
  {
    AlternatingPrefix(toks, i);
    ProductSuffix(toks, i);
  }

  /** Appending `* x` multiplies into the current term. */
  lemma ExpectedTimes(toks: seq<string>, row: Row)
    requires Alternating(toks) && |toks| >= 3 && toks[|toks| - 2] == "*"
    ensures Alternating(toks[..|toks| - 2])
    ensures Expected(toks, row) == Step(Expected(toks[..|toks| - 2], row), "*", row(toks[|toks| - 1]))
  {
    var n := |toks|;
    var p := toks[..n - 2];
    AlternatingPrefix(toks, n - 2);
    LastAdditiveSkipsTimes(toks);
    if LastAdditive(toks).None? {
      ExpectedNone(toks, row);
      ExpectedNone(p, row);
      ParseProductSnoc(toks);
    } else {
      ExpectedTimesAfter(toks, LastAdditive(toks).value, row);
    }
  }

  lemma ExpectedTimesAfter(toks: seq<string>, i: nat, row: Row)
    requires Alternating(toks) && |toks| >= 3 && toks[|toks| - 2] == "*"
    requires LastAdditive(toks) == Some(i) && LastAdditive(toks[..|toks| - 2]) == Some(i)
    requires Alternating(toks[..|toks| - 2])
    ensures Expected(toks, row) == Step(Expected(toks[..|toks| - 2], row), "*", row(toks[|toks| - 1]))
  {
    var p := toks[..|toks| - 2];
    ExpectedSome(p, i, row);
    ExpectedSome(toks, i, row);
    assert toks[..i] == p[..i];
    TimesTail(toks, i, row);
  }

  /** The last term of `toks`, ending in `* x`, is the last term of the rest times `x`. */
  lemma TimesTail(toks: seq<string>, i: nat, row: Row)
    requires Alternating(toks) && |toks| >= 3 && toks[|toks| - 2] == "*"
    requires LastAdditive(toks) == Some(i) && i < |toks| - 2
    requires ProductTokens(toks[i + 1..]) && ProductTokens(toks[..|toks| - 2][i + 1..])
    ensures Eval(ParseProduct(toks[i + 1..]), row)
         == Eval(ParseProduct(toks[..|toks| - 2][i + 1..]), row) * row(toks[|toks| - 1])
  {
    var q := toks[i + 1..];
    assert q[..|q| - 2] == toks[..|toks| - 2][i + 1..] && q[|q| - 1] == toks[|toks| - 1];
    ParseProductSnoc(q);
  }

  /** Appending an operator and a name advances the expected state by one step. */
  lemma ExpectedStep(toks: seq<string>, row: Row)
    requires Alternating(toks) && |toks| >= 3
    ensures Alternating(toks[..|toks| - 2])
    ensures Expected(toks, row) == Step(Expected(toks[..|toks| - 2], row), toks[|toks| - 2], row(toks[|toks| - 1]))
  {
    if toks[|toks| - 2] == "*" {
      ExpectedTimes(toks, row);
    } else {
      ExpectedAdditive(toks, row);
    }
  }

  /** Reading all of `toks` is reading all but the last pair, then one step. */
  lemma ScanLastPair(toks: seq<string>, row: Row)
    requires |toks| % 2 == 1 && |toks| >= 3
    ensures ScanFrom(Scan(0, 1, row(toks[0])), toks[1..], row)
         == Step(ScanFrom(Scan(0, 1, row(toks[0])), toks[1..|toks| - 2], row), toks[|toks| - 2], row(toks[|toks| - 1]))
  {
    var n := |toks|;
    assert toks[1..] == toks[1..n - 2] + [toks[n - 2], toks[n - 1]];
    ScanSnoc(Scan(0, 1, row(toks[0])), toks[1..n - 2], toks[n - 2], toks[n - 1], row);
  }

  /** The left-to-right reading ends in the state the tree predicts. */
  lemma {:induction false} ScanTracksParse(toks: seq<string>, row: Row)
    requires Alternating(toks)
    ensures ScanFrom(Scan(0, 1, row(toks[0])), toks[1..], row) == Expected(toks, row)
    decreases |toks|
  {
    var n := |toks|;
    if n == 1 {
      assert toks[1..] == [];
    } else {
      var p := toks[..n - 2];
      AlternatingPrefix(toks, n - 2);
      assert p[0] == toks[0];
      ScanTracksParse(p, row);
      ScanLastPair(toks, row);
      ExpectedStep(toks, row);
    }
  }

  /**
   * The tree `Parse` builds evaluates to the left-to-right reading: `*`
   * before `+` and `-`, each operator applied left to right.
   */
  lemma EvalIsSumOfProducts(toks: seq<string>, row: Row)
    requires Alternating(toks)
    ensures Eval(Parse(toks), row) == SumOfProducts(toks, row)
  {
    ScanTracksParse(toks, row);
    ExpectedValue(toks, row);
  }

  /** `a+b*c` with 2, 3, 4 is 2 + (3 * 4) = 14: `*` binds tighter. */
  lemma PrecedenceExample(row: Row)
    requires row("a") == 2 && row("b") == 3 && row("c") == 4
    ensures Alternating(["a", "+", "b", "*", "c"])
    ensures Parse(["a", "+", "b", "*", "c"]) == Bin(Plus, Ref("a"), Bin(Times, Ref("b"), Ref("c")))
    ensures Eval(Parse(["a", "+", "b", "*", "c"]), row) == 14
  {
    var e := Bin(Plus, Ref("a"), Bin(Times, Ref("b"), Ref("c")));
    assert IsIdentifier("a") && IsIdentifier("b") && IsIdentifier("c");
    assert IsSum(e);
    assert Flatten(e) == ["a", "+", "b", "*", "c"];
    ParseFlatten(e);
  }

  /** `a-b-c` with 10, 3, 2 is (10 - 3) - 2 = 5: operators group to the left. */
  lemma LeftAssociativeExample(row: Row)
    requires row("a") == 10 && row("b") == 3 && row("c") == 2
    ensures Alternating(["a", "-", "b", "-", "c"])
    ensures Parse(["a", "-", "b", "-", "c"]) == Bin(Minus, Bin(Minus, Ref("a"), Ref("b")), Ref("c"))
    ensures Eval(Parse(["a", "-", "b", "-", "c"]), row) == 5
  {
    var e := Bin(Minus, Bin(Minus, Ref("a"), Ref("b")), Ref("c"));
    assert IsIdentifier("a") && IsIdentifier("b") && IsIdentifier("c");
    assert IsSum(e.left) && IsSum(e);
    assert Flatten(e) == ["a", "-", "b", "-", "c"];
    ParseFlatten(e);
  }
}
