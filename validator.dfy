/**
 * The upload validator: three ordered rules over the row count and the kinds
 * of the columns. Which columns are numeric is pandas' dtype inference, not
 * modelled: every column comes with its kind.
 */
module Validator {

  datatype ColumnKind = Numeric | NonNumeric

  datatype Column = Column(name: string, kind: ColumnKind)

  /** The `(is_valid, result)` pair: a message on failure, the dataset summary on success. */
  datatype Validation =
    | Invalid(message: string)
    | Valid(rows: nat, numericColumns: seq<string>, categoricalColumns: seq<string>)

  const RowsMessage := "Dataset must contain more than 10 rows"
  const NumericMessage := "Dataset must contain at least one numerical column"
  const CategoricalMessage := "Dataset must contain at least one categorical column"

  /** The names of the columns of one kind, in column order. */
  function NamesOfKind(columns: seq<Column>, kind: ColumnKind): (r: seq<string>)
    ensures |r| <= |columns|
    ensures forall i :: 0 <= i < |r| ==> exists j :: 0 <= j < |columns| && columns[j] == Column(r[i], kind)
    ensures (|r| == 0) <==> forall j :: 0 <= j < |columns| ==> columns[j].kind != kind
  {
    if columns == [] then []
    else if columns[0].kind == kind then [columns[0].name] + NamesOfKind(columns[1..], kind)
    else NamesOfKind(columns[1..], kind)
  }

  function ValidateDataset(rowCount: nat, columns: seq<Column>): (r: Validation)
    ensures r.Valid? <==>
      rowCount > 10
      && (exists j :: 0 <= j < |columns| && columns[j].kind == Numeric)
      && (exists j :: 0 <= j < |columns| && columns[j].kind == NonNumeric)
    ensures rowCount <= 10 ==> r == Invalid(RowsMessage)
    ensures rowCount > 10 && (forall j :: 0 <= j < |columns| ==> columns[j].kind != Numeric)
      ==> r == Invalid(NumericMessage)
    ensures rowCount > 10 && (exists j :: 0 <= j < |columns| && columns[j].kind == Numeric)
      && (forall j :: 0 <= j < |columns| ==> columns[j].kind != NonNumeric)
      ==> r == Invalid(CategoricalMessage)
    ensures r.Valid? ==> (r.rows == rowCount
      && r.numericColumns == NamesOfKind(columns, Numeric)
      && r.categoricalColumns == NamesOfKind(columns, NonNumeric))
  {
    if rowCount <= 10 then Invalid(RowsMessage)
    else
      var numeric := NamesOfKind(columns, Numeric);
      var categorical := NamesOfKind(columns, NonNumeric);
      if |numeric| < 1 then Invalid(NumericMessage)
      else if |categorical| < 1 then Invalid(CategoricalMessage)
      else Valid(rowCount, numeric, categorical)
  }

  /** Every column lands in exactly one of the two name lists. */
  lemma {:induction false} KindsPartitionColumns(columns: seq<Column>)
    ensures |NamesOfKind(columns, Numeric)| + |NamesOfKind(columns, NonNumeric)| == |columns|
    ensures multiset(NamesOfKind(columns, Numeric)) + multiset(NamesOfKind(columns, NonNumeric))
      == multiset(Names(columns))
  {
    if columns != [] {
      KindsPartitionColumns(columns[1..]);
    }
  }

  /** The column names, in column order. */
  function Names(columns: seq<Column>): (r: seq<string>)
    ensures |r| == |columns|
    ensures forall i :: 0 <= i < |r| ==> r[i] == columns[i].name
  {
    if columns == [] then [] else [columns[0].name] + Names(columns[1..])
  }

  /** A successful validation reports a partition of the columns into numeric and categorical ones. */
  lemma ValidReportsPartition(rowCount: nat, columns: seq<Column>)
    requires ValidateDataset(rowCount, columns).Valid?
    ensures var r := ValidateDataset(rowCount, columns);
      |r.numericColumns| + |r.categoricalColumns| == |columns|
      && |r.numericColumns| >= 1 && |r.categoricalColumns| >= 1
  {
    KindsPartitionColumns(columns);
  }
}
