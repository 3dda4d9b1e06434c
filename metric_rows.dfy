/** The rows the metric service returns and how the attribution service
    reduces them: a single-metric query sums every row's metric value, a
    dimension query sums them per dimension value (queryMetricValue,
    queryDimensionValues and toBigDecimal). */
module MetricRows {
  import opened Wrappers
  import opened JavaStrings
  import opened Sums
  import opened Adtributor

  /** One cell of a result row: null, a number (with its toString text), or
      any other object, seen through its toString text. */
  datatype Cell = NullCell | NumberCell(amount: real, text: string) | TextCell(text: string)

  /** One row, a `Map<String, Object>`, as its entries. */
  type Row = seq<(string, Cell)>

  /** toBigDecimal's SystemException, carrying the offending text. */
  datatype RowError = Unparseable(text: string)

  const UnparseablePrefix := "无法解析指标值: "
  const UnknownDimension := "UNKNOWN"

  function RowErrorMessage(e: RowError): string {
    UnparseablePrefix + e.text
  }

  /** `row.containsKey(key) ? row.get(key) : absent`: the first entry under key. */
  function Get(row: Row, key: string): (r: Option<Cell>)
    ensures r.Some? <==> exists i :: 0 <= i < |row| && row[i].0 == key
    ensures r.Some? ==> exists i :: 0 <= i < |row| && row[i] == (key, r.value)
  {
    if row == [] then None
    else if row[0].0 == key then Some(row[0].1)
    else
      var r := Get(row[1..], key);
      assert forall i :: 1 <= i < |row| ==> row[i] == row[1..][i - 1];
      r
  }

  /** Objects.toString: "null" for null, otherwise the value's text. */
  function CellText(c: Cell): string {
    match c
    case NullCell => "null"
    case NumberCell(_, text) => text
    case TextCell(text) => text
  }

  /** The group key of a row: `Objects.toString(row.getOrDefault(dimensionId, "UNKNOWN"))`. */
  function DimensionValue(row: Row, dimensionId: string): string {
    match Get(row, dimensionId)
    case None => UnknownDimension
    case Some(c) => CellText(c)
  }

  /** toBigDecimal: null is 0, a number is its value, blank text is 0, other
      text goes through the decimal parser `parse` (BigDecimal's string
      constructor), whose rejection becomes an Unparseable error. */
  function ToDecimal(c: Cell, parse: string -> Option<real>): (r: Result<real, RowError>)
    ensures r.Err? <==> c.TextCell? && !IsBlank(c.text) && parse(c.text).None?
    ensures r.Err? ==> r.error == Unparseable(c.text)
    ensures c.NullCell? || (c.TextCell? && IsBlank(c.text)) ==> r == Ok(0.0)
    ensures c.NumberCell? ==> r == Ok(c.amount)
  {
    match c
    case NullCell => Ok(0.0)
    case NumberCell(amount, _) => Ok(amount)
    case TextCell(text) =>
      if IsBlank(text) then Ok(0.0)
      else match parse(text)
        case None => Err(Unparseable(text))
        case Some(x) => Ok(x)
  }

  /** `toBigDecimal(row.get(metricId))`: an absent metric reads as null. */
  function RowValue(row: Row, metricId: string, parse: string -> Option<real>): Result<real, RowError> {
    ToDecimal(Get(row, metricId).GetOr(NullCell), parse)
  }

  /** The metric value of every row, in order; the first failure wins. */
  function RowValues(rows: seq<Row>, metricId: string, parse: string -> Option<real>): (r: Result<seq<real>, RowError>)
    ensures r.Ok? ==> |r.value| == |rows|
  {
    if rows == [] then Ok([])
    else
      var front := RowValues(rows[..|rows| - 1], metricId, parse);
      match front
      case Err(e) => Err(e)
      case Ok(vs) =>
        match RowValue(rows[|rows| - 1], metricId, parse)
        case Err(e) => Err(e)
        case Ok(v) => Ok(vs + [v])
  }

  /** All rows convert exactly when each does, and the values are the
      rows' own values in row order. */
  lemma {:induction false} RowValuesSpec(rows: seq<Row>, metricId: string, parse: string -> Option<real>)
    ensures RowValues(rows, metricId, parse).Ok? <==> forall i :: 0 <= i < |rows| ==> RowValue(rows[i], metricId, parse).Ok?
    ensures RowValues(rows, metricId, parse).Ok? ==>
              forall i :: 0 <= i < |rows| ==> RowValues(rows, metricId, parse).value[i] == RowValue(rows[i], metricId, parse).value
  {
    if rows != [] {
      var front := rows[..|rows| - 1];
      RowValuesSpec(front, metricId, parse);
      assert forall i :: 0 <= i < |front| ==> front[i] == rows[i];
    }
  }

  /** queryMetricValue: every row's value reduced with add from zero. */
  function QueryMetricValue(rows: seq<Row>, metricId: string, parse: string -> Option<real>): Result<real, RowError> {
    match RowValues(rows, metricId, parse)
    case Err(e) => Err(e)
    case Ok(vs) => Ok(Sum(vs))
  }

  /** The single-metric sum splits over a split of the rows. */
  lemma QueryMetricValueAppend(a: seq<Row>, b: seq<Row>, metricId: string, parse: string -> Option<real>)
    requires QueryMetricValue(a, metricId, parse).Ok? && QueryMetricValue(b, metricId, parse).Ok?
    ensures QueryMetricValue(a + b, metricId, parse) ==
            Ok(QueryMetricValue(a, metricId, parse).value + QueryMetricValue(b, metricId, parse).value)
  {
    var va, vb := RowValues(a, metricId, parse).value, RowValues(b, metricId, parse).value;
    RowValuesAppend(a, b, metricId, parse);
    QueryOfValues(a, metricId, parse);
    QueryOfValues(b, metricId, parse);
    QueryOfValues(a + b, metricId, parse);
    SumAppend(va, vb);
  }

  lemma QueryOfValues(rows: seq<Row>, metricId: string, parse: string -> Option<real>)
    requires RowValues(rows, metricId, parse).Ok?
    ensures QueryMetricValue(rows, metricId, parse) == Ok(Sum(RowValues(rows, metricId, parse).value))
  {
  }

  lemma {:induction false} RowValuesAppend(a: seq<Row>, b: seq<Row>, metricId: string, parse: string -> Option<real>)
    requires RowValues(a, metricId, parse).Ok? && RowValues(b, metricId, parse).Ok?
    ensures RowValues(a + b, metricId, parse) == Ok(RowValues(a, metricId, parse).value + RowValues(b, metricId, parse).value)
    decreases |b|
  {
    if b == [] {
      assert a + b == a;
      assert RowValues(a, metricId, parse).value + [] == RowValues(a, metricId, parse).value;
    } else {
      var front := b[..|b| - 1];
      assert RowValues(front, metricId, parse).Ok?;
      RowValuesAppend(a, front, metricId, parse);
      assert (a + b)[..|a + b| - 1] == a + front;
      assert (a + b)[|a + b| - 1] == b[|b| - 1];
      var va, vf := RowValues(a, metricId, parse).value, RowValues(front, metricId, parse).value;
      var last := RowValue(b[|b| - 1], metricId, parse).value;
      assert RowValues(b, metricId, parse).value == vf + [last];
      assert va + (vf + [last]) == (va + vf) + [last];
    }
  }

  /** A row that does not carry the metric, or carries null, adds nothing. */
  lemma RowWithoutMetricAddsNothing(rows: seq<Row>, row: Row, metricId: string, parse: string -> Option<real>)
    requires QueryMetricValue(rows, metricId, parse).Ok?
    requires Get(row, metricId).None? || Get(row, metricId) == Some(NullCell)
    ensures QueryMetricValue(rows + [row], metricId, parse) == QueryMetricValue(rows, metricId, parse)
  {
    assert (rows + [row])[..|rows|] == rows;
  }

  // ---------------------------------------------------------------------
  // Grouping

  /** `Map.merge(k, v, BigDecimal::add)` on a map in iteration order: an
      existing key keeps its place and adds v; a new key goes last. */
  function Merge(e: Entries, k: string, v: real): Entries {
    if e == [] then [(k, v)]
    else if e[0].0 == k then [(k, e[0].1 + v)] + e[1..]
    else [e[0]] + Merge(e[1..], k, v)
  }

  lemma {:induction false} MergeKeys(e: Entries, k: string, v: real)
    ensures KeySet(Merge(e, k, v)) == KeySet(e) + {k}
  {
    var r := Merge(e, k, v);
    if e == [] {
      assert r[0].0 == k;
      assert KeySet(r) == {k};
    } else {
      KeySetCons(e);
      KeySetCons(r);
      if e[0].0 == k {
        assert r[1..] == e[1..];
      } else {
        MergeKeys(e[1..], k, v);
        assert r[1..] == Merge(e[1..], k, v);
      }
    }
  }

  /** Merging keeps the keys distinct. */
  lemma {:induction false} MergeKeepsDistinct(e: Entries, k: string, v: real)
    requires DistinctKeys(e)
    ensures DistinctKeys(Merge(e, k, v))
  {
    var r := Merge(e, k, v);
    if e != [] {
      if e[0].0 == k {
        assert forall i :: 1 <= i < |r| ==> r[i] == e[i];
      } else {
        var rest := Merge(e[1..], k, v);
        MergeKeepsDistinct(e[1..], k, v);
        MergeKeys(e[1..], k, v);
        KeySetCons(e);
        assert forall i :: 1 <= i < |r| ==> r[i] == rest[i - 1];
        assert forall i, j :: 0 <= i < j < |e| - 1 ==> e[1..][i].0 != e[1..][j].0;
        assert forall i :: 0 <= i < |e| - 1 ==> e[1..][i] == e[i + 1];
        assert e[0].0 !in KeySet(e[1..]);
        assert forall i :: 0 <= i < |rest| ==> rest[i].0 in KeySet(rest);
      }
    }
  }

  /** Merging adds v to the grand total. */
  lemma {:induction false} MergeTotal(e: Entries, k: string, v: real)
    ensures Total(Merge(e, k, v)) == Total(e) + v
  {
    var r := Merge(e, k, v);
    if e == [] {
      assert EntryValues(r) == [v];
      assert [v][..0] == [];
    } else {
      TotalCons(e);
      TotalCons(r);
      if e[0].0 == k {
        assert r[1..] == e[1..];
      } else {
        MergeTotal(e[1..], k, v);
        assert r[1..] == Merge(e[1..], k, v);
      }
    }
  }

  /** Merging adds v to k's value and leaves every other key alone. */
  lemma {:induction false} MergeLookup(e: Entries, k: string, v: real)
    ensures GetOrZero(Merge(e, k, v), k) == GetOrZero(e, k) + v
    ensures forall j :: j != k ==> Lookup(Merge(e, k, v), j) == Lookup(e, j)
  {
    var r := Merge(e, k, v);
    if e != [] {
      if e[0].0 == k {
        assert r[1..] == e[1..];
      } else {
        MergeLookup(e[1..], k, v);
        assert r[1..] == Merge(e[1..], k, v);
      }
    }
  }

  /** Total over a non-empty map: the first value plus the rest. */
  lemma TotalCons(e: Entries)
    requires e != []
    ensures Total(e) == e[0].1 + Total(e[1..])
  {
    assert EntryValues(e) == [e[0].1] + EntryValues(e[1..]);
    SumCons(e[0].1, EntryValues(e[1..]));
  }

  /** The merge loop over (key, value) pairs in row order. */
  function Group(ps: Entries): (r: Entries)
    ensures DistinctKeys(r)
  {
    if ps == [] then []
    else
      var front := Group(ps[..|ps| - 1]);
      MergeKeepsDistinct(front, ps[|ps| - 1].0, ps[|ps| - 1].1);
      Merge(front, ps[|ps| - 1].0, ps[|ps| - 1].1)
  }

  /** The values in ps under key k, in order. */
  function ValuesFor(ps: Entries, k: string): seq<real> {
    if ps == [] then []
    else ValuesFor(ps[..|ps| - 1], k) + (if ps[|ps| - 1].0 == k then [ps[|ps| - 1].1] else [])
  }

  lemma KeySetSnoc(ps: Entries)
    requires ps != []
    ensures KeySet(ps) == KeySet(ps[..|ps| - 1]) + {ps[|ps| - 1].0}
  {
    var front := ps[..|ps| - 1];
    forall x | x in KeySet(ps) ensures x in KeySet(front) + {ps[|ps| - 1].0} {
      var i :| 0 <= i < |ps| && ps[i].0 == x;
      if i < |ps| - 1 { assert front[i] == ps[i]; }
    }
    forall x | x in KeySet(front) ensures x in KeySet(ps) {
      var i :| 0 <= i < |front| && front[i].0 == x;
      assert ps[i] == front[i];
    }
  }

  /** Grouping keeps exactly the keys of the pairs. */
  lemma {:induction false} GroupKeys(ps: Entries)
    ensures KeySet(Group(ps)) == KeySet(ps)
  {
    if ps != [] {
      var front := ps[..|ps| - 1];
      GroupKeys(front);
      MergeKeys(Group(front), ps[|ps| - 1].0, ps[|ps| - 1].1);
      KeySetSnoc(ps);
    }
  }

  /** Grouping gives each key the sum of its values. */
  lemma {:induction false} GroupValues(ps: Entries, k: string)
    ensures GetOrZero(Group(ps), k) == Sum(ValuesFor(ps, k))
  {
    if ps != [] {
      var front := ps[..|ps| - 1];
      var last := ps[|ps| - 1];
      GroupValues(front, k);
      MergeLookup(Group(front), last.0, last.1);
      var tail := if last.0 == k then [last.1] else [];
      SumAppend(ValuesFor(front, k), tail);
      if last.0 == k {
        assert tail[..0] == [];
      }
    }
  }

  /** Grouping keeps the grand total. */
  lemma {:induction false} GroupTotal(ps: Entries)
    ensures Total(Group(ps)) == Total(ps)
  {
    if ps != [] {
      var front := ps[..|ps| - 1];
      var last := ps[|ps| - 1];
      GroupTotal(front);
      MergeTotal(Group(front), last.0, last.1);
      assert EntryValues(ps)[..|ps| - 1] == EntryValues(front);
    }
  }

  /** The (group key, metric value) pair of every row. */
  function Keyed(rows: seq<Row>, dimensionId: string, vs: seq<real>): (r: Entries)
    requires |vs| == |rows|
    ensures |r| == |rows|
    ensures forall i :: 0 <= i < |rows| ==> r[i] == (DimensionValue(rows[i], dimensionId), vs[i])
  {
    seq(|rows|, i requires 0 <= i < |rows| => (DimensionValue(rows[i], dimensionId), vs[i]))
  }

  /** queryDimensionValues' result: every row's value merged under its
      group key; a value that does not parse aborts the whole query. */
  function AggregateRows(rows: seq<Row>, metricId: string, dimensionId: string, parse: string -> Option<real>)
    : Result<Entries, RowError>
  {
    match RowValues(rows, metricId, parse)
    case Err(e) => Err(e)
    case Ok(vs) => Ok(Group(Keyed(rows, dimensionId, vs)))
  }

  /** The keys of the result are the rows' group keys, each once; each key
      holds the sum of its rows' values; the grand total is the sum over all
      rows. */
  lemma AggregateRowsSpec(rows: seq<Row>, metricId: string, dimensionId: string, parse: string -> Option<real>)
    requires AggregateRows(rows, metricId, dimensionId, parse).Ok?
    ensures var e := AggregateRows(rows, metricId, dimensionId, parse).value;
            var vs := RowValues(rows, metricId, parse).value;
            && DistinctKeys(e)
            && KeySet(e) == (set i | 0 <= i < |rows| :: DimensionValue(rows[i], dimensionId))
            && (forall k :: GetOrZero(e, k) == Sum(ValuesFor(Keyed(rows, dimensionId, vs), k)))
            && Total(e) == Sum(vs)
  {
    var vs := RowValues(rows, metricId, parse).value;
    var ps := Keyed(rows, dimensionId, vs);
    GroupKeys(ps);
    GroupTotal(ps);
    forall k ensures GetOrZero(Group(ps), k) == Sum(ValuesFor(ps, k)) {
      GroupValues(ps, k);
    }
    assert EntryValues(ps) == vs;
    assert KeySet(ps) == (set i | 0 <= i < |rows| :: DimensionValue(rows[i], dimensionId));
  }

  /** Two rows with the same group key are summed into one entry. */
  lemma SameKeyRowsAreSummed(a: Row, b: Row, metricId: string, dimensionId: string, parse: string -> Option<real>)
    requires DimensionValue(a, dimensionId) == DimensionValue(b, dimensionId)
    requires RowValue(a, metricId, parse).Ok? && RowValue(b, metricId, parse).Ok?
    ensures AggregateRows([a, b], metricId, dimensionId, parse) ==
            Ok([(DimensionValue(a, dimensionId), RowValue(a, metricId, parse).value + RowValue(b, metricId, parse).value)])
  {
    var rows := [a, b];
    var k, va, vb := DimensionValue(a, dimensionId), RowValue(a, metricId, parse).value, RowValue(b, metricId, parse).value;
    assert rows[..1] == [a] && [a][..0] == [];
    assert RowValues([], metricId, parse) == Ok([]);
    assert [] + [va] == [va];
    assert RowValues([a], metricId, parse) == Ok([va]);
    assert [va] + [vb] == [va, vb];
    assert RowValues(rows, metricId, parse) == Ok([va, vb]);
    var ps := Keyed(rows, dimensionId, [va, vb]);
    assert ps == [(k, va), (k, vb)];
    assert ps[..1] == [(k, va)] && ps[..1][..0] == [];
    assert Group(ps[..1]) == [(k, va)];
    assert Group(ps) == Merge([(k, va)], k, vb);
    assert Merge([(k, va)], k, vb) == [(k, va + vb)];
  }

  /** A row without the dimension is grouped under "UNKNOWN"; one holding
      null under "null". */
  lemma MissingDimensionIsUnknown(row: Row, dimensionId: string)
    ensures Get(row, dimensionId).None? ==> DimensionValue(row, dimensionId) == UnknownDimension
    ensures Get(row, dimensionId) == Some(NullCell) ==> DimensionValue(row, dimensionId) == "null"
  {
  }

  /** queryDimensionValues as the source runs it: a loop merging each row's
      value into the map under the row's group key. */
  method AggregateByDimension(rows: seq<Row>, metricId: string, dimensionId: string, parse: string -> Option<real>)
    returns (r: Result<Entries, RowError>)
    ensures r == AggregateRows(rows, metricId, dimensionId, parse)
  {
    var aggregated: Entries := [];
    ghost var vs: seq<real> := [];
    var i := 0;
    while i < |rows|
      invariant 0 <= i <= |rows|
      invariant RowValues(rows[..i], metricId, parse) == Ok(vs)
      invariant aggregated == Group(Keyed(rows[..i], dimensionId, vs))
    {
      var row := rows[i];
      var dimValue := DimensionValue(row, dimensionId);
      var value := RowValue(row, metricId, parse);
      assert rows[..i + 1][..i] == rows[..i];
      assert rows[..i + 1][i] == row;
      if value.Err? {
        RowValuesErrorPropagates(rows, i + 1, metricId, parse);
        return Err(value.error);
      }
      ghost var ps := Keyed(rows[..i + 1], dimensionId, vs + [value.value]);
      assert ps[..i] == Keyed(rows[..i], dimensionId, vs);
      aggregated := Merge(aggregated, dimValue, value.value);
      vs := vs + [value.value];
      i := i + 1;
    }
    assert rows[..i] == rows;
    return Ok(aggregated);
  }

  lemma RowValuesErrorPropagates(rows: seq<Row>, k: nat, metricId: string, parse: string -> Option<real>)
    requires k <= |rows| && RowValues(rows[..k], metricId, parse).Err?
    ensures RowValues(rows, metricId, parse).Err?
    ensures RowValues(rows, metricId, parse).error == RowValues(rows[..k], metricId, parse).error
    decreases |rows| - k
  {
    if k < |rows| {
      var front := rows[..|rows| - 1];
      assert front[..k] == rows[..k];
      RowValuesErrorPropagates(front, k, metricId, parse);
    } else {
      assert rows[..k] == rows;
    }
  }
}
