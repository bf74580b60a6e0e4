/**
  The column profiler: for every header, the statistics computed from the
  processed records (app/dashboard/page.tsx, the `columnAnalysis` map after
  record construction). Pure functions over the record list.
*/
module Profiler {
  import opened JsValues

  datatype ColumnAnalysis = ColumnAnalysis(
    column: string,
    totalValues: nat,
    types: seq<JsType>,
    numericCount: nat,
    stringCount: nat,
    sampleValues: seq<Cell>,
    numericSamples: seq<Cell>,
    stringSamples: seq<Cell>)

  function Min(a: nat, b: nat): nat {
    if a <= b then a else b
  }

  /** `row[header]`: a key the record lacks reads as `undefined`. */
  function Lookup(rec: Record, header: string): (c: Cell)
    ensures header in rec ==> c == rec[header]
    ensures header !in rec ==> c.Null?
  {
    if header in rec then rec[header] else Null
  }

  predicate NoNulls(values: seq<Cell>) {
    forall i :: 0 <= i < |values| ==> !values[i].Null?
  }

  /** `records.map(row => row[header]).filter(v => v !== null && v !== undefined)`. */
  function ColumnValues(records: seq<Record>, header: string): (r: seq<Cell>)
    ensures |r| <= |records|
    ensures NoNulls(r)
    ensures forall i :: 0 <= i < |records| && !Lookup(records[i], header).Null? ==> Lookup(records[i], header) in r
    ensures forall v :: v in r ==> exists i :: 0 <= i < |records| && Lookup(records[i], header) == v
  {
    if records == [] then []
    else
      var v := Lookup(records[0], header);
      var rest := ColumnValues(records[1..], header);
      assert forall i :: 1 <= i < |records| ==> records[i] == records[1..][i - 1];
      (if v.Null? then [] else [v]) + rest
  }

  /** The gathered values keep row order: gathering distributes over concatenation of record lists. */
  lemma {:induction false} ColumnValuesConcat(a: seq<Record>, b: seq<Record>, header: string)
    ensures ColumnValues(a + b, header) == ColumnValues(a, header) + ColumnValues(b, header)
  {
    if a == [] {
      assert a + b == b;
    } else {
      assert (a + b)[1..] == a[1..] + b;
      ColumnValuesConcat(a[1..], b, header);
    }
  }

  /** `values.filter(v => typeof v === "number")`. */
  function Numbers(values: seq<Cell>): (r: seq<Cell>)
    ensures |r| <= |values|
    ensures forall i :: 0 <= i < |r| ==> r[i].Num?
    ensures forall v :: v in values && v.Num? <==> v in r
  {
    if values == [] then []
    else
      assert forall i :: 1 <= i < |values| ==> values[i] == values[1..][i - 1];
      (if values[0].Num? then [values[0]] else []) + Numbers(values[1..])
  }

  /** `values.filter(v => typeof v === "string")`. */
  function Texts(values: seq<Cell>): (r: seq<Cell>)
    ensures |r| <= |values|
    ensures forall i :: 0 <= i < |r| ==> r[i].Str?
    ensures forall v :: v in values && v.Str? <==> v in r
  {
    if values == [] then []
    else
      assert forall i :: 1 <= i < |values| ==> values[i] == values[1..][i - 1];
      (if values[0].Str? then [values[0]] else []) + Texts(values[1..])
  }

  /** The numeric filter keeps order and multiplicity: it distributes over concatenation. */
  lemma {:induction false} NumbersConcat(a: seq<Cell>, b: seq<Cell>)
    ensures Numbers(a + b) == Numbers(a) + Numbers(b)
  {
    if a == [] {
      assert a + b == b;
    } else {
      assert (a + b)[1..] == a[1..] + b;
      NumbersConcat(a[1..], b);
    }
  }

  /** The text filter keeps order and multiplicity: it distributes over concatenation. */
  lemma {:induction false} TextsConcat(a: seq<Cell>, b: seq<Cell>)
    ensures Texts(a + b) == Texts(a) + Texts(b)
  {
    if a == [] {
      assert a + b == b;
    } else {
      assert (a + b)[1..] == a[1..] + b;
      TextsConcat(a[1..], b);
    }
  }

  /** A value is never counted as both a number and text. */
  lemma {:induction false} KindCountsBounded(values: seq<Cell>)
    ensures |Numbers(values)| + |Texts(values)| <= |values|
  {
    if values != [] {
      KindCountsBounded(values[1..]);
    }
  }

  /** When every value is a number or text, the two counts add up to the total. */
  lemma {:induction false} KindCountsExact(values: seq<Cell>)
    requires forall i :: 0 <= i < |values| ==> values[i].Num? || values[i].Str?
    ensures |Numbers(values)| + |Texts(values)| == |values|
  {
    if values != [] {
      assert forall i :: 1 <= i < |values| ==> values[i] == values[1..][i - 1];
      KindCountsExact(values[1..]);
    }
  }

  /** `[...new Set(xs)]`: each element once, in order of first appearance. */
  function DistinctInOrder(xs: seq<JsType>): (r: seq<JsType>)
    ensures forall i, j :: 0 <= i < j < |r| ==> r[i] != r[j]
    ensures forall x :: x in r <==> x in xs
    ensures |r| <= |xs|
  {
    if xs == [] then []
    else
      var d := DistinctInOrder(xs[..|xs| - 1]);
      assert xs == xs[..|xs| - 1] + [xs[|xs| - 1]];
      if xs[|xs| - 1] in d then d else d + [xs[|xs| - 1]]
  }

  /**
    Order of first appearance: appending one more element keeps the earlier
    result as a prefix and adds the element at the end only when it is new.
  */
  lemma DistinctInOrderAppend(xs: seq<JsType>, x: JsType)
    ensures DistinctInOrder(xs + [x]) == if x in xs then DistinctInOrder(xs) else DistinctInOrder(xs) + [x]
  {
    var ys := xs + [x];
    assert ys[..|ys| - 1] == xs;
  }

  /** `values.map(v => typeof v)`. */
  function TypesOf(values: seq<Cell>): (r: seq<JsType>)
    requires NoNulls(values)
    ensures |r| == |values|
    ensures forall i :: 0 <= i < |values| ==> r[i] == TypeOf(values[i])
    ensures forall t :: t in r <==> exists v :: v in values && TypeOf(v) == t
  {
    var r := seq(|values|, i requires 0 <= i < |values| => TypeOf(values[i]));
    forall t ensures t in r <==> exists v :: v in values && TypeOf(v) == t {
      if t in r {
        var i :| 0 <= i < |r| && r[i] == t;
        assert values[i] in values;
      }
      if exists v :: v in values && TypeOf(v) == t {
        var v :| v in values && TypeOf(v) == t;
        var i :| 0 <= i < |values| && values[i] == v;
        assert r[i] == t;
      }
    }
    r
  }

  /** The analysis of one column, from the non-null values stored under its header. */
  function Analyze(header: string, records: seq<Record>): (a: ColumnAnalysis)
    ensures a.column == header
    ensures a.totalValues == |ColumnValues(records, header)| <= |records|
    ensures a.numericCount == |Numbers(ColumnValues(records, header))|
    ensures a.stringCount == |Texts(ColumnValues(records, header))|
    ensures a.numericCount + a.stringCount <= a.totalValues
    ensures forall t :: t in a.types <==> exists v :: v in ColumnValues(records, header) && TypeOf(v) == t
    ensures forall i, j :: 0 <= i < j < |a.types| ==> a.types[i] != a.types[j]
    ensures a.sampleValues <= ColumnValues(records, header) && |a.sampleValues| == Min(5, a.totalValues)
    ensures a.numericSamples <= Numbers(ColumnValues(records, header)) && |a.numericSamples| == Min(3, a.numericCount)
    ensures a.stringSamples <= Texts(ColumnValues(records, header)) && |a.stringSamples| == Min(3, a.stringCount)
    ensures forall i :: 0 <= i < |a.numericSamples| ==> a.numericSamples[i].Num?
    ensures forall i :: 0 <= i < |a.stringSamples| ==> a.stringSamples[i].Str?
  {
    var values := ColumnValues(records, header);
    var numeric := Numbers(values);
    var text := Texts(values);
    KindCountsBounded(values);
    var types := TypesOf(values);
    ColumnAnalysis(
      header,
      |values|,
      DistinctInOrder(types),
      |numeric|,
      |text|,
      values[..Min(5, |values|)],
      numeric[..Min(3, |numeric|)],
      text[..Min(3, |text|)])
  }

  /** `headers.map(header => analyze(header))`: one analysis per header, in header order. */
  function AnalyzeColumns(headers: seq<string>, records: seq<Record>): (r: seq<ColumnAnalysis>)
    ensures |r| == |headers|
    ensures forall k :: 0 <= k < |headers| ==> r[k] == Analyze(headers[k], records)
    ensures forall k :: 0 <= k < |headers| ==> r[k].column == headers[k] && r[k].totalValues <= |records|
  {
    seq(|headers|, k requires 0 <= k < |headers| => Analyze(headers[k], records))
  }

  function ExampleRecords(): seq<Record> {
    [map["v" := Num(Finite(10.0))], map["v" := Num(Finite(20.0))], map["v" := Null], map["v" := Str("abc")]]
  }

  lemma ExampleColumnValues()
    ensures ColumnValues(ExampleRecords(), "v") == [Num(Finite(10.0)), Num(Finite(20.0)), Str("abc")]
  {
    var records := ExampleRecords();
    assert ColumnValues(records[4..], "v") == [];
    assert ColumnValues(records[3..], "v") == [Str("abc")];
    assert ColumnValues(records[2..], "v") == [Str("abc")];
    assert ColumnValues(records[1..], "v") == [Num(Finite(20.0)), Str("abc")];
  }

  /**
    A column whose coerced values are 10, 20, null and "abc" has two numeric
    values, one text value and three sample values: the null is not counted.
  */
  lemma ProfileExample()
    ensures var a := Analyze("v", ExampleRecords());
      a.numericCount == 2 && a.stringCount == 1 && |a.sampleValues| == 3 && a.totalValues == 3
  {
    ExampleColumnValues();
    ExampleKinds();
  }

  lemma ExampleKinds()
    ensures var values := [Num(Finite(10.0)), Num(Finite(20.0)), Str("abc")];
      |Numbers(values)| == 2 && |Texts(values)| == 1
  {
    var values := [Num(Finite(10.0)), Num(Finite(20.0)), Str("abc")];
    assert Numbers(values[2..]) == [];
    assert Numbers(values[1..]) == [values[1]];
    assert Texts(values[2..]) == [Str("abc")];
    assert Texts(values[1..]) == [Str("abc")];
  }
}
