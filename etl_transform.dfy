/** Transform step of the ETL handler: drop incomplete rows, drop rows with a
    zero Age, Order Quantity or Price, lower-case Email, title-case City and
    derive Total. A row of the parsed table has the six columns the generator
    writes; `None` is a missing value (NaN). */
module EtlTransform {
  import opened Results
  import opened Seqs
  import opened PyStr

  datatype Row = Row(
    customer: Option<string>,
    age: Option<int>,
    city: Option<string>,
    email: Option<string>,
    quantity: Option<int>,
    price: Option<real>)

  /** A row of the cleaned table, with the derived Total column. */
  datatype CleanRow = CleanRow(
    customer: string,
    age: int,
    city: string,
    email: string,
    quantity: int,
    price: real,
    total: real)

  datatype NumericColumn = Age | OrderQuantity | Price

  /** The columns the source loops over, in its order. */
  const NumericColumns: seq<NumericColumn> := [Age, OrderQuantity, Price]

  /** No field is missing. */
  predicate Complete(r: Row)
  {
    r.customer.Some? && r.age.Some? && r.city.Some? && r.email.Some? && r.quantity.Some? && r.price.Some?
  }

  /** `df[col] != 0` for one row; a missing value compares unequal to 0. */
  predicate NonZero(r: Row, c: NumericColumn)
  {
    match c
    case Age => r.age != Some(0)
    case OrderQuantity => r.quantity != Some(0)
    case Price => r.price != Some(0.0)
  }

  /** The rows the cleaning keeps, stated directly. */
  predicate Keep(r: Row)
  {
    Complete(r) && r.age.value != 0 && r.quantity.value != 0 && r.price.value != 0.0
  }

  /** `df.dropna()`. */
  function DropNa(df: seq<Row>): seq<Row>
  {
    Filter(Complete, df)
  }

  /** `df[df[col] != 0]`. */
  function DropZero(df: seq<Row>, c: NumericColumn): seq<Row>
  {
    Filter((r: Row) => NonZero(r, c), df)
  }

  /** `DropZero` applied for each column of `cols`, in order. */
  function DropZeros(df: seq<Row>, cols: seq<NumericColumn>): seq<Row>
    decreases |cols|
  {
    if cols == [] then df
    else DropZero(DropZeros(df, cols[..|cols| - 1]), cols[|cols| - 1])
  }

  /** The three column assignments for one complete row. */
  function Enrich(r: Row): CleanRow
    requires Complete(r)
  {
    CleanRow(r.customer.value, r.age.value, Title(r.city.value), Lower(r.email.value),
             r.quantity.value, r.price.value, r.quantity.value as real * r.price.value)
  }

  /** The cleaned table: the kept rows, in order, each enriched. */
  function Cleaned(df: seq<Row>): (out: seq<CleanRow>)
    ensures |out| <= |df|
  {
    var kept := Filter(Keep, df);
    seq(|kept|, k requires 0 <= k < |kept| => assert kept[k] in kept; Enrich(kept[k]))
  }

  /** Dropping missing values and then zeros column by column keeps exactly
      the rows `Keep` describes. */
  lemma DropStepsKeep(df: seq<Row>)
    ensures DropZeros(DropNa(df), NumericColumns) == Filter(Keep, df)
  {
    var x := DropNa(df);
    var p1 := (r: Row) => Complete(r) && NonZero(r, Age);
    var p2 := (r: Row) => p1(r) && NonZero(r, OrderQuantity);
    assert [Age][..0] == [] && [Age, OrderQuantity][..1] == [Age] && NumericColumns[..2] == [Age, OrderQuantity];
    assert DropZeros(x, [Age]) == DropZero(x, Age);
    assert DropZeros(x, [Age, OrderQuantity]) == DropZero(DropZero(x, Age), OrderQuantity);
    assert DropZeros(x, NumericColumns) == DropZero(DropZero(DropZero(x, Age), OrderQuantity), Price);
    FilterCompose((r: Row) => NonZero(r, Age), Complete, p1, df);
    FilterCompose((r: Row) => NonZero(r, OrderQuantity), p1, p2, df);
    FilterCompose((r: Row) => NonZero(r, Price), p2, Keep, df);
  }

  /** The two columns the handler reaches through the `.str` accessor. */
  datatype TextColumn = EmailColumn | CityColumn

  /** `.str` raises `AttributeError` on a column without string values. */
  datatype TransformError = NoStringValues(column: TextColumn)

  function TextValue(r: Row, c: TextColumn): Option<string>
  {
    match c
    case EmailColumn => r.email
    case CityColumn => r.city
  }

  /** A column that is missing in every row of a non-empty table: `read_csv`
      types it as floating point (all NaN), so `.str` refuses it even after
      `dropna` has emptied the table. A table without rows keeps its columns
      as objects, which `.str` accepts. */
  predicate BlankColumn(df: seq<Row>, c: TextColumn)
  {
    |df| > 0 && forall k :: 0 <= k < |df| ==> TextValue(df[k], c).None?
  }

  /** The transform as the handler runs it: rebind the table once for
      `dropna` and once per numeric column, then assign the three columns;
      Email is lowered before City is title-cased, so a blank Email column
      is the one reported when both are blank. */
  method Transform(df0: seq<Row>) returns (r: Result<seq<CleanRow>, TransformError>)
    ensures r.Failure? <==> BlankColumn(df0, EmailColumn) || BlankColumn(df0, CityColumn)
    ensures r.Failure? ==>
      r.error == NoStringValues(if BlankColumn(df0, EmailColumn) then EmailColumn else CityColumn)
    ensures r.Success? ==> r.value == Cleaned(df0)
  {
    var rows := DropNa(df0);
    for i := 0 to |NumericColumns|
      invariant rows == DropZeros(DropNa(df0), NumericColumns[..i])
    {
      assert NumericColumns[..i + 1][..i] == NumericColumns[..i];
      rows := DropZero(rows, NumericColumns[i]);
    }
    assert NumericColumns[..|NumericColumns|] == NumericColumns;
    DropStepsKeep(df0);
    if BlankColumn(df0, EmailColumn) {
      return Failure(NoStringValues(EmailColumn));
    }
    if BlankColumn(df0, CityColumn) {
      return Failure(NoStringValues(CityColumn));
    }
    var df := seq(|rows|, k requires 0 <= k < |rows| => assert rows[k] in rows; Enrich(rows[k]));
    return Success(df);
  }

  /** Where `.str` raises, no row would have survived `dropna` anyway: the
      error replaces what would otherwise be an empty table. */
  lemma BlankColumnEmptiesTable(df: seq<Row>, c: TextColumn)
    requires BlankColumn(df, c)
    ensures Cleaned(df) == []
  {
    forall x | x in df
      ensures !Keep(x)
    {
      var k :| 0 <= k < |df| && df[k] == x;
      assert TextValue(df[k], c).None?;
    }
    assert Filter(Keep, df) == [] by {
      if Filter(Keep, df) != [] {
        assert Filter(Keep, df)[0] in Filter(Keep, df);
      }
    }
  }

  /** No zero in Age, Order Quantity or Price, Email in lower case, City
      title-cased, Total the product of quantity and price. */
  predicate WellFormed(c: CleanRow)
  {
    c.age != 0 && c.quantity != 0 && c.price != 0.0 &&
    Lower(c.email) == c.email && Title(c.city) == c.city &&
    c.total == c.quantity as real * c.price
  }

  lemma CleanedRows(df: seq<Row>)
    ensures forall k :: 0 <= k < |Cleaned(df)| ==> WellFormed(Cleaned(df)[k])
  {
    var kept := Filter(Keep, df);
    forall k | 0 <= k < |Cleaned(df)|
      ensures WellFormed(Cleaned(df)[k])
    {
      assert kept[k] in kept;
      LowerIdempotent(kept[k].email.value);
      TitleIdempotent(kept[k].city.value);
    }
  }

  /** The cleaned table is taken from the input at strictly increasing
      positions; a position is used exactly when its row is complete and free
      of zeros; Customer, Age, Order Quantity and Price are copied, Email and
      City normalised. */
  lemma CleanedIsSubsequence(df: seq<Row>)
    ensures var out, ix := Cleaned(df), KeptIndices(Keep, df);
      |ix| == |out| && StrictlyIncreasing(ix) &&
      (forall i :: 0 <= i < |df| ==> (Keep(df[i]) <==> i in ix)) &&
      (forall k :: 0 <= k < |ix| ==> ix[k] < |df| && Keep(df[ix[k]]) && out[k] == Enrich(df[ix[k]]))
  {
    FilterIsSubsequence(Keep, df);
    var kept := Filter(Keep, df);
    forall k | 0 <= k < |kept|
      ensures Keep(kept[k])
    {
      assert kept[k] in kept;
    }
  }

  /** A cleaned row written back with the six input columns (the Total column
      is derived again on the next run). */
  function AsRow(c: CleanRow): Row
  {
    Row(Some(c.customer), Some(c.age), Some(c.city), Some(c.email), Some(c.quantity), Some(c.price))
  }

  function Reload(out: seq<CleanRow>): (rows: seq<Row>)
    ensures |rows| == |out|
  {
    seq(|out|, k requires 0 <= k < |out| => AsRow(out[k]))
  }

  /** A well-formed cleaned row survives cleaning unchanged. */
  lemma EnrichAsRow(c: CleanRow)
    requires WellFormed(c)
    ensures Keep(AsRow(c)) && Enrich(AsRow(c)) == c
  {
  }

  /** Cleaning its own output drops no row and changes no field, Total
      included. */
  lemma CleanedIdempotent(df: seq<Row>)
    ensures Cleaned(Reload(Cleaned(df))) == Cleaned(df)
  {
    var out := Cleaned(df);
    var again := Reload(out);
    CleanedRows(df);
    forall r | r in again
      ensures Keep(r)
    {
      var k :| 0 <= k < |again| && again[k] == r;
      EnrichAsRow(out[k]);
    }
    FilterAll(Keep, again);
    var twice := Cleaned(again);
    assert |twice| == |out|;
    forall k | 0 <= k < |out|
      ensures twice[k] == out[k]
    {
      EnrichAsRow(out[k]);
    }
  }

  /** A row with Age 0 is dropped; a complete row is kept and normalised. */
  lemma ZeroAgeDropped()
    ensures var df := [
      Row(Some("Ann Lee"), Some(0), Some("rome"), Some("ann@x.org"), Some(1), Some(5.0)),
      Row(Some("Bo Li"), Some(30), Some("paris"), Some("A@B.com"), Some(2), Some(10.0))];
      Cleaned(df) == [CleanRow("Bo Li", 30, "Paris", "a@b.com", 2, 10.0, 20.0)]
  {
    var df := [
      Row(Some("Ann Lee"), Some(0), Some("rome"), Some("ann@x.org"), Some(1), Some(5.0)),
      Row(Some("Bo Li"), Some(30), Some("paris"), Some("A@B.com"), Some(2), Some(10.0))];
    assert df[1..][1..] == [];
    assert Filter(Keep, df) == [df[1]];
    assert Title("paris") == "Paris";
    assert Lower("A@B.com") == "a@b.com";
  }
}
