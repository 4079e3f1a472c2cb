/**
 * `add_virtual_column(df, role, new_column)` (solution.py:4-48): check the
 * column names and the target name, tokenize and check the expression,
 * then evaluate it on a copy of the table and store the result under the
 * target name. Every refusal, and every evaluation error, yields the
 * empty table.
 */
module VirtualColumn {
  import opened Wrappers
  import opened Names
  import opened Tokens
  import opened Validation
  import opened Arith
  import opened Tables

  /** The check that turned a call down. Each one yields the empty table. */
  datatype Rejection =
    | InvalidColumnName  // an existing column name fails the pattern (solution.py:26-27)
    | InvalidTargetName  // the target name fails the pattern (solution.py:29-30)
    | DisallowedToken    // a token is neither an operator nor a name (solution.py:36-37)
    | UnknownColumn      // a name token is not a column (solution.py:39-41)
    | EvaluationFailed   // `DataFrame.eval` raised (solution.py:47-48)

  predicate ColumnNamesMatch(t: Table) {
    forall j :: 0 <= j < |t.columns| ==> NameMatches(t.columns[j].name)
  }

  /**
   * Row `i` of `t` as the evaluator reads it: each column name to its value
   * in that row. Names that are not columns read as 0; evaluation only
   * happens once every name in the expression is known to be a column.
   */
  function RowOf(t: Table, i: nat): Row
    requires WellFormed(t) && i < t.rows
  {
    x => match IndexOf(t.columns, x)
      case Some(j) => t.columns[j].values[i]
      case None => 0
  }

  /**
   * Whitespace `DataFrame.eval` accepts inside an expression: spaces and
   * tabs only. A line break splits the text into several expressions, which
   * pandas refuses unless each is an assignment, and any other whitespace
   * character is a syntax error for the Python tokenizer.
   */
  predicate EvalLayout(expr: string) {
    forall k :: 0 <= k < |expr| && IsSpace(expr[k]) ==> expr[k] == ' ' || expr[k] == '\t'
  }

  lemma EvalColumnMatches(t: Table, toks: seq<string>)
    requires WellFormed(t) && Alternating(toks)
    ensures forall i :: 0 <= i < t.rows ==> Eval(Parse(toks), RowOf(t, i)) == SumOfProducts(toks, RowOf(t, i))
  {
    forall i | 0 <= i < t.rows
      ensures Eval(Parse(toks), RowOf(t, i)) == SumOfProducts(toks, RowOf(t, i))
    {
      EvalIsSumOfProducts(toks, RowOf(t, i));
    }
  }

  /**
   * `df.eval(expr)` on a stripped, checked expression: one value per row,
   * each the left-to-right sum of products on that row's values; nothing
   * where pandas raises.
   */
  function Evaluate(t: Table, expr: string): (r: Option<seq<int>>)
    requires WellFormed(t)
    ensures r.Some? <==> EvalLayout(expr) && Alternating(Split(expr)) && OperandsListed(Split(expr), ColumnNames(t))
    ensures r.Some? ==> |r.value| == t.rows
    ensures r.Some? ==> forall i :: 0 <= i < t.rows ==> r.value[i] == SumOfProducts(Split(expr), RowOf(t, i))
  {
    var toks := Split(expr);
    if !EvalLayout(expr) || !Alternating(toks) || !OperandsListed(toks, ColumnNames(t)) then None
    else
      EvalColumnMatches(t, toks);
      Some(seq(t.rows, i requires 0 <= i < t.rows => Eval(Parse(toks), RowOf(t, i))))
  }

  /** The whole pipeline, with the reason for a refusal. */
  function Compute(t: Table, role: string, newColumn: string): (r: Result<Table, Rejection>)
    requires WellFormed(t)
    ensures r.Success? ==> WellFormed(r.value) && ColumnNamesMatch(r.value) && r.value.rows == t.rows
  {
    if !ColumnNamesMatch(t) then Failure(InvalidColumnName)
    else if !NameMatches(newColumn) then Failure(InvalidTargetName)
    else
      var cleaned := Strip(role);
      var tokens := Split(cleaned);
      if !AllTokensAllowed(tokens) then Failure(DisallowedToken)
      else if !OperandsKnown(tokens, ColumnNames(t)) then Failure(UnknownColumn)
      else match Evaluate(t, cleaned)
        case None => Failure(EvaluationFailed)
        case Some(values) =>
          WithColumnWellFormed(t, newColumn, values);
          WithColumnNamesMatch(t, newColumn, values);
          Success(WithColumn(t, newColumn, values))
  }

  /** Writing a column whose name matches keeps every name matching. */
  lemma WithColumnNamesMatch(t: Table, name: string, values: seq<int>)
    requires ColumnNamesMatch(t) && NameMatches(name) && |values| == t.rows
    ensures ColumnNamesMatch(WithColumn(t, name, values))
  {
  }

  /** What `add_virtual_column` returns: the new table, or the empty one. */
  function Outcome(t: Table, role: string, newColumn: string): (r: Table)
    requires WellFormed(t)
    ensures WellFormed(r) && ColumnNamesMatch(r)
    ensures r == Empty || r.rows == t.rows
  {
    match Compute(t, role, newColumn)
    case Success(r) => r
    case Failure(_) => Empty
  }

  /**
   * The function itself: the checks in the order of the source, then copy,
   * evaluate on the copy and assign. The input frame is never changed.
   */
  method AddVirtualColumn(df: Frame, role: string, newColumn: string) returns (result: Frame)
    requires df.Valid()
    ensures fresh(result) && unchanged(df)
    ensures result.Value() == Outcome(df.Value(), role, newColumn)
    ensures result.Valid()
  {
    if !ColumnNamesMatch(df.Value()) {
      result := new Frame(Empty);
      return;
    }
    if !NameMatches(newColumn) {
      result := new Frame(Empty);
      return;
    }
    var cleaned := Strip(role);
    var tokens := Split(cleaned);
    if !AllTokensAllowed(tokens) {
      result := new Frame(Empty);
      return;
    }
    var known := CheckOperandsKnown(tokens, ColumnNames(df.Value()));
    if !known {
      result := new Frame(Empty);
      return;
    }
    var copy := df.Copy();
    var values := Evaluate(copy.Value(), cleaned);
    if values.None? {
      result := new Frame(Empty);
      return;
    }
    copy.Assign(newColumn, values.value);
    result := copy;
  }

  /** One existing column name that fails the pattern refuses the call. */
  lemma InvalidColumnNameRefused(t: Table, role: string, newColumn: string, j: nat)
    requires WellFormed(t) && j < |t.columns| && !NameMatches(t.columns[j].name)
    ensures Compute(t, role, newColumn) == Failure(InvalidColumnName)
  {
  }

  /** With valid column names, a target name that fails the pattern refuses the call. */
  lemma InvalidTargetNameRefused(t: Table, role: string, newColumn: string)
    requires WellFormed(t) && ColumnNamesMatch(t) && !NameMatches(newColumn)
    ensures Compute(t, role, newColumn) == Failure(InvalidTargetName)
  {
  }

  /**
   * With valid names, a token that is neither an operator nor a name
   * refuses the call; this covers the empty operand a leading, trailing or
   * doubled operator leaves, and an operand with whitespace inside.
   */
  lemma DisallowedTokenRefused(t: Table, role: string, newColumn: string, n: nat)
    requires WellFormed(t) && ColumnNamesMatch(t) && NameMatches(newColumn)
    requires n < |Tokenize(role)| && !AllowedToken(Tokenize(role)[n])
    ensures Compute(t, role, newColumn) == Failure(DisallowedToken)
  {
  }

  /**
   * An expression ending in an operator, as in `"x+"`, is refused by the
   * token check, before anything is evaluated; so is one starting with an
   * operator.
   */
  lemma DanglingOperatorRefused(t: Table, role: string, newColumn: string)
    requires WellFormed(t) && ColumnNamesMatch(t) && NameMatches(newColumn)
    requires |Strip(role)| > 0
    requires IsOp(Strip(role)[0]) || IsOp(Strip(role)[|Strip(role)| - 1])
    ensures Compute(t, role, newColumn) == Failure(DisallowedToken)
  {
    if IsOp(Strip(role)[0]) {
      LeadingOperatorRefused(role);
    } else {
      TrailingOperatorRefused(role);
    }
  }

  /** With the token check passed, a name that is not a column refuses the call. */
  lemma UnknownColumnRefused(t: Table, role: string, newColumn: string, n: nat)
    requires WellFormed(t) && ColumnNamesMatch(t) && NameMatches(newColumn)
    requires AllTokensAllowed(Tokenize(role))
    requires n < |Tokenize(role)| && NameMatches(Tokenize(role)[n]) && Tokenize(role)[n] !in ColumnNames(t)
    ensures Compute(t, role, newColumn) == Failure(UnknownColumn)
  {
  }

  /**
   * A table without columns passes the name check but can never be
   * extended: its first operand is refused as a token or as an unknown
   * column.
   */
  lemma NoColumnsRefused(t: Table, role: string, newColumn: string)
    requires WellFormed(t) && |t.columns| == 0
    ensures Compute(t, role, newColumn).Failure?
    ensures Compute(t, role, newColumn).error != InvalidColumnName
  {
    var toks := Tokenize(role);
    if NameMatches(newColumn) && AllTokensAllowed(toks) {
      FirstTokenIsName(role);
      assert ColumnNames(t) == [];
      assert !OperandsKnown(toks, ColumnNames(t)) by {
        assert NameMatches(toks[0]) && toks[0] !in ColumnNames(t);
      }
    }
  }

  /** Once the token check passes, the first token is a name. */
  lemma FirstTokenIsName(role: string)
    requires AllTokensAllowed(Tokenize(role))
    ensures NameMatches(Tokenize(role)[0])
  {
    AllowedIffAlternating(role);
  }

  /**
   * With every check passed, whitespace other than spaces and tabs, such as
   * a line break between two tokens, makes evaluation fail.
   */
  lemma EvaluationFailureRefused(t: Table, role: string, newColumn: string, k: nat)
    requires WellFormed(t) && ColumnNamesMatch(t) && NameMatches(newColumn)
    requires AllTokensAllowed(Tokenize(role)) && OperandsKnown(Tokenize(role), ColumnNames(t))
    requires k < |Strip(role)| && IsSpace(Strip(role)[k]) && Strip(role)[k] != ' ' && Strip(role)[k] != '\t'
    ensures Compute(t, role, newColumn) == Failure(EvaluationFailed)
  {
    assert !EvalLayout(Strip(role));
  }

  /**
   * The call succeeds exactly when every column name and the target name
   * match the pattern, the expression is a sum of products of column names,
   * and its only whitespace is spaces and tabs.
   */
  lemma SucceedsIff(t: Table, role: string, newColumn: string)
    requires WellFormed(t)
    ensures Compute(t, role, newColumn).Success? <==>
      && ColumnNamesMatch(t)
      && NameMatches(newColumn)
      && Alternating(Tokenize(role))
      && OperandsListed(Tokenize(role), ColumnNames(t))
      && EvalLayout(Strip(role))
  {
    AllowedIffAlternating(role);
    if Alternating(Tokenize(role)) {
      KnownIffNamesListed(Tokenize(role), ColumnNames(t));
    }
  }

  /**
   * On success the result has the same rows; the target column holds, row
   * by row, the left-to-right sum of products of that row's values; every
   * other column is unchanged; and the target replaces a column of that
   * name or is appended as one new column.
   */
  lemma SuccessValue(t: Table, role: string, newColumn: string)
    requires WellFormed(t) && Compute(t, role, newColumn).Success?
    ensures var r := Compute(t, role, newColumn).value;
      && WellFormed(r)
      && r.rows == t.rows
      && Lookup(r, newColumn).Some?
      && |Lookup(r, newColumn).value| == t.rows
      && (forall i :: 0 <= i < t.rows ==> Lookup(r, newColumn).value[i] == SumOfProducts(Tokenize(role), RowOf(t, i)))
      && (forall other :: other != newColumn ==> Lookup(r, other) == Lookup(t, other))
      && |r.columns| == |t.columns| + (if newColumn in ColumnNames(t) then 0 else 1)
  {
    var values := Evaluate(t, Strip(role)).value;
    var r := WithColumn(t, newColumn, values);
    WithColumnWellFormed(t, newColumn, values);
    WithColumnLookup(t, newColumn, values);
    forall other | other != newColumn
      ensures Lookup(r, other) == Lookup(t, other)
    {
      WithColumnLookupOther(t, newColumn, values, other);
    }
  }

  /** The empty table comes back exactly when a check refused the call. */
  lemma EmptyExactlyOnRefusal(t: Table, role: string, newColumn: string)
    requires WellFormed(t)
    ensures Outcome(t, role, newColumn) == Empty <==> Compute(t, role, newColumn).Failure?
  {
    if Compute(t, role, newColumn).Success? {
      SuccessValue(t, role, newColumn);
    }
  }

  /** `q * p` splits into its two names around `*`. */
  lemma ProductTokens2(q: string, p: string)
    requires IsIdentifier(q) && IsIdentifier(p)
    ensures Strip(q + " * " + p) == q + " * " + p
    ensures Tokenize(q + " * " + p) == [q, "*", p]
  {
    var s := q + " * " + p;
    assert IsNameChar(s[0]) by {
      assert s[0] == q[0];
    }
    assert IsNameChar(s[|s| - 1]) by {
      assert s[|s| - 1] == p[|p| - 1];
    }
    assert NoLeadingSpace(s) && NoTrailingSpace(s);
    var toks: seq<string> := [q, "*", p];
    var gaps: seq<string> := [" ", " "];
    assert Tokenized(toks) by {
      assert toks[2..] == [p];
    }
    assert AllGapsSpace(gaps) by {
      assert AllSpace(gaps[0]) && AllSpace(gaps[1]);
    }
    assert Weave(toks, gaps) == s by {
      assert toks[1..][1..] == [p] && gaps[1..][1..] == [];
    }
    WeaveSplits(toks, gaps);
  }

  lemma ProductLayout(q: string, p: string)
    requires IsIdentifier(q) && IsIdentifier(p)
    ensures EvalLayout(q + " * " + p)
  {
    var s := q + " * " + p;
    forall k | 0 <= k < |s| && IsSpace(s[k]) ensures s[k] == ' ' || s[k] == '\t' {
    }
  }

  /** The product of two columns, row by row. */
  function Product(qs: seq<int>, ps: seq<int>): (r: seq<int>)
    requires |qs| == |ps|
    ensures |r| == |qs| && forall i :: 0 <= i < |qs| ==> r[i] == qs[i] * ps[i]
  {
    seq(|qs|, i requires 0 <= i < |qs| => qs[i] * ps[i])
  }

  lemma TwoColumnRows(t: Table, i: nat)
    requires |t.columns| == 2 && WellFormed(t) && i < t.rows
    ensures RowOf(t, i)(t.columns[0].name) == t.columns[0].values[i]
    ensures RowOf(t, i)(t.columns[1].name) == t.columns[1].values[i]
  {
  }

  lemma ProductShape(q: string, p: string)
    requires IsIdentifier(q) && IsIdentifier(p)
    ensures Alternating([q, "*", p])
    ensures AllTokensAllowed([q, "*", p])
    ensures OperandsKnown([q, "*", p], [q, p])
    ensures OperandsListed([q, "*", p], [q, p])
  {
    var toks: seq<string> := [q, "*", p];
    assert toks[0] == q && toks[1] == "*" && toks[2] == p;
    assert !NameMatches("*") by {
      NameMatchesRefuses("*", 0);
    }
  }

  lemma ProductEvaluate(q: string, p: string, qs: seq<int>, ps: seq<int>)
    requires IsIdentifier(q) && IsIdentifier(p) && q != p && |qs| == |ps|
    ensures Evaluate(Table([Column(q, qs), Column(p, ps)], |qs|), q + " * " + p) == Some(Product(qs, ps))
  {
    var t := Table([Column(q, qs), Column(p, ps)], |qs|);
    var values := ProductRows(t, q, p, qs, ps);
    IsProduct2(values, qs, ps);
  }

  lemma ProductRows(t: Table, q: string, p: string, qs: seq<int>, ps: seq<int>) returns (values: seq<int>)
    requires IsIdentifier(q) && IsIdentifier(p) && q != p && |qs| == |ps|
    requires t == Table([Column(q, qs), Column(p, ps)], |qs|)
    ensures Evaluate(t, q + " * " + p) == Some(values)
    ensures |values| == |qs| && forall i :: 0 <= i < |qs| ==> values[i] == qs[i] * ps[i]
  {
    var role := q + " * " + p;
    ProductTokens2(q, p);
    ProductLayout(q, p);
    ProductShape(q, p);
    assert ColumnNames(t) == [q, p];
    values := Evaluate(t, role).value;
    forall i | 0 <= i < |qs| ensures values[i] == qs[i] * ps[i] {
      TwoColumnRows(t, i);
      SumOfTwoFactors(q, p, RowOf(t, i));
    }
  }

  lemma SumOfTwoFactors(q: string, p: string, row: Row)
    ensures SumOfProducts([q, "*", p], row) == row(q) * row(p)
  {
    var toks: seq<string> := [q, "*", p];
    var rest := toks[1..];
    assert rest == ["*", p] && rest[2..] == [];
    assert Step(Scan(0, 1, row(q)), "*", row(p)) == Scan(0, 1, row(q) * row(p));
    assert ScanFrom(Scan(0, 1, row(q)), rest, row) == Scan(0, 1, row(q) * row(p));
  }

  lemma IsProduct2(values: seq<int>, qs: seq<int>, ps: seq<int>)
    requires |values| == |qs| == |ps|
    requires forall i :: 0 <= i < |qs| ==> values[i] == qs[i] * ps[i]
    ensures values == Product(qs, ps)
  {
  }

  /**
   * The documented `quantity * price` case, for any two differently named
   * columns and any target name that is a third name: the result is the
   * table with one more column holding the row-by-row product.
   */
  lemma ProductOfTwoColumns(q: string, p: string, n: string, qs: seq<int>, ps: seq<int>)
    requires IsIdentifier(q) && IsIdentifier(p) && IsIdentifier(n)
    requires q != p && n != q && n != p && |qs| == |ps|
    ensures var t := Table([Column(q, qs), Column(p, ps)], |qs|);
      Compute(t, q + " * " + p, n) == Success(Table(t.columns + [Column(n, Product(qs, ps))], |qs|))
  {
    var t := Table([Column(q, qs), Column(p, ps)], |qs|);
    var role := q + " * " + p;
    ProductChecks(t, q, p, qs, ps);
    ComputeSucceeds(t, role, n, Product(qs, ps));
    assert IndexOf(t.columns, n).None? by {
      assert ColumnNames(t) == [q, p];
    }
  }

  /** Every check before evaluation passes on `q * p` over the columns `q` and `p`. */
  lemma ProductChecks(t: Table, q: string, p: string, qs: seq<int>, ps: seq<int>)
    requires IsIdentifier(q) && IsIdentifier(p) && q != p && |qs| == |ps|
    requires t == Table([Column(q, qs), Column(p, ps)], |qs|)
    ensures WellFormed(t) && ColumnNamesMatch(t)
    ensures AllTokensAllowed(Tokenize(q + " * " + p))
    ensures OperandsKnown(Tokenize(q + " * " + p), ColumnNames(t))
    ensures Evaluate(t, Strip(q + " * " + p)) == Some(Product(qs, ps))
  {
    var role := q + " * " + p;
    ProductTokens2(q, p);
    assert ColumnNames(t) == [q, p];
    assert AllTokensAllowed(Tokenize(role)) && OperandsKnown(Tokenize(role), ColumnNames(t)) by {
      ProductShape(q, p);
    }
    assert Evaluate(t, Strip(role)) == Some(Product(qs, ps)) by {
      ProductEvaluate(q, p, qs, ps);
    }
  }

  /** When every check passes and evaluation gives `values`, they are stored under the target name. */
  lemma ComputeSucceeds(t: Table, role: string, newColumn: string, values: seq<int>)
    requires WellFormed(t) && ColumnNamesMatch(t) && NameMatches(newColumn)
    requires AllTokensAllowed(Tokenize(role)) && OperandsKnown(Tokenize(role), ColumnNames(t))
    requires Evaluate(t, Strip(role)) == Some(values)
    ensures Compute(t, role, newColumn) == Success(WithColumn(t, newColumn, values))
  {
  }

  /** Quantities 2, 3 and prices 10, 20 give a `total` column of 20, 60. */
  lemma SalesExample(t: Table, role: string)
    requires t == Table([Column("quantity", [2, 3]), Column("price", [10, 20])], 2)
    requires role == "quantity * price"
    ensures Compute(t, role, "total") == Success(Table(t.columns + [Column("total", [20, 60])], 2))
  {
    SalesNames();
    SalesRole();
    ProductOfTwoColumns("quantity", "price", "total", [2, 3], [10, 20]);
    assert Product([2, 3], [10, 20]) == [20, 60];
  }

  lemma SalesNames()
    ensures IsIdentifier("quantity") && IsIdentifier("price") && IsIdentifier("total")
    ensures "quantity" != "price" && "total" != "quantity" && "total" != "price"
  {
    assert "quantity"[0] != "price"[0] && "total"[0] != "quantity"[0] && "total"[0] != "price"[0];
  }

  lemma SalesRole()
    ensures "quantity" + " * " + "price" == "quantity * price"
  {
  }
}
