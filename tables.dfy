/**
 * The table `add_virtual_column` reads and returns: named integer columns
 * of one common length. `Table` is the value; `Frame` is the object the
 * function copies and then updates in place (solution.py:44-45).
 */
module Tables {
  import opened Wrappers

  datatype Column = Column(name: string, values: seq<int>)

  datatype Table = Table(columns: seq<Column>, rows: nat)

  /** `pd.DataFrame([])`: no columns and no rows. */
  const Empty := Table([], 0)

  /** Every column has one value per row, and no two columns share a name. */
  predicate WellFormed(t: Table) {
    && (forall j :: 0 <= j < |t.columns| ==> |t.columns[j].values| == t.rows)
    && (forall j, k :: 0 <= j < k < |t.columns| ==> t.columns[j].name != t.columns[k].name)
  }

  /** `df.columns`, in order. */
  function ColumnNames(t: Table): (names: seq<string>)
    ensures |names| == |t.columns|
    ensures forall j :: 0 <= j < |t.columns| ==> names[j] == t.columns[j].name
  {
    seq(|t.columns|, j requires 0 <= j < |t.columns| => t.columns[j].name)
  }

  /** The position of the first column called `name`. */
  function IndexOf(columns: seq<Column>, name: string): (r: Option<nat>)
    ensures r.None? <==> forall j :: 0 <= j < |columns| ==> columns[j].name != name
    ensures r.Some? ==> r.value < |columns| && columns[r.value].name == name
    ensures r.Some? ==> forall j :: 0 <= j < r.value ==> columns[j].name != name
  {
    if |columns| == 0 then None
    else if columns[0].name == name then Some(0)
    else match IndexOf(columns[1..], name)
      case None => None
      case Some(k) => Some(k + 1)
  }

  /** The values of the column called `name`, if there is one. */
  function Lookup(t: Table, name: string): Option<seq<int>> {
    match IndexOf(t.columns, name)
    case None => None
    case Some(j) => Some(t.columns[j].values)
  }

  /**
   * `df[name] = values`: a column of that name has its values replaced
   * where it stands; otherwise a new column is appended at the end.
   */
  function WithColumn(t: Table, name: string, values: seq<int>): (r: Table)
    requires |values| == t.rows
    ensures r.rows == t.rows
    ensures |r.columns| == |t.columns| + (if name in ColumnNames(t) then 0 else 1)
  {
    match IndexOf(t.columns, name)
    case Some(j) => Table(t.columns[j := Column(name, values)], t.rows)
    case None => Table(t.columns + [Column(name, values)], t.rows)
  }

  /** Two column lists that agree on where `x` occurs give the same position for it. */
  lemma IndexOfAgree(a: seq<Column>, b: seq<Column>, x: string)
    requires |a| <= |b|
    requires forall j :: 0 <= j < |a| ==> (a[j].name == x <==> b[j].name == x)
    requires forall j :: |a| <= j < |b| ==> b[j].name != x
    ensures IndexOf(a, x) == IndexOf(b, x)
  {
  }

  /** After the write, `name` holds the new values. */
  lemma WithColumnLookup(t: Table, name: string, values: seq<int>)
    requires |values| == t.rows
    ensures Lookup(WithColumn(t, name, values), name) == Some(values)
  {
    var r := WithColumn(t, name, values);
    if name in ColumnNames(t) {
      IndexOfAgree(t.columns, r.columns, name);
    } else {
      assert r.columns[|t.columns|].name == name;
    }
  }

  /** After the write, every other name holds what it held before. */
  lemma WithColumnLookupOther(t: Table, name: string, values: seq<int>, other: string)
    requires |values| == t.rows && other != name
    ensures Lookup(WithColumn(t, name, values), other) == Lookup(t, other)
  {
    var r := WithColumn(t, name, values);
    assert forall j :: 0 <= j < |t.columns| ==> (r.columns[j].name == other <==> t.columns[j].name == other);
    IndexOfAgree(t.columns, r.columns, other);
    match IndexOf(t.columns, other)
    case None =>
    case Some(k) =>
      assert r.columns[k] == t.columns[k];
  }

  /**
   * The write keeps every other column in its place, and the column names
   * in order: unchanged on an overwrite, `name` added last otherwise.
   */
  lemma WithColumnKeepsOthers(t: Table, name: string, values: seq<int>)
    requires |values| == t.rows
    ensures forall j :: 0 <= j < |t.columns| && t.columns[j].name != name ==> WithColumn(t, name, values).columns[j] == t.columns[j]
    ensures name in ColumnNames(t) ==> ColumnNames(WithColumn(t, name, values)) == ColumnNames(t)
    ensures name !in ColumnNames(t) ==> ColumnNames(WithColumn(t, name, values)) == ColumnNames(t) + [name]
  {
  }

  /** The write keeps a table well formed. */
  lemma WithColumnWellFormed(t: Table, name: string, values: seq<int>)
    requires WellFormed(t) && |values| == t.rows
    ensures WellFormed(WithColumn(t, name, values))
  {
    var r := WithColumn(t, name, values);
    if name !in ColumnNames(t) {
      assert forall j :: 0 <= j < |t.columns| ==> r.columns[j] == t.columns[j];
    }
  }

  /** A data frame: its columns and its row count, updated in place. */
  class Frame {
    var columns: seq<Column>
    var rows: nat

    function Value(): Table
      reads this
    {
      Table(columns, rows)
    }

    ghost predicate Valid()
      reads this
    {
      WellFormed(Value())
    }

    constructor (t: Table)
      ensures Value() == t
    {
      columns := t.columns;
      rows := t.rows;
    }

    /** `df.copy()`: a new frame with the same contents, sharing nothing. */
    method Copy() returns (c: Frame)
      ensures fresh(c) && c.Value() == Value()
    {
      c := new Frame(Value());
    }

    /** `df[name] = values`, in place. */
    method Assign(name: string, values: seq<int>)
      requires |values| == rows
      modifies this
      ensures Value() == WithColumn(old(Value()), name, values)
      ensures old(Valid()) ==> Valid()
    {
      ghost var before := Value();
      match IndexOf(columns, name) {
        case Some(j) =>
          columns := columns[j := Column(name, values)];
        case None =>
          columns := columns + [Column(name, values)];
      }
      if WellFormed(before) {
        WithColumnWellFormed(before, name, values);
      }
    }
  }
}
