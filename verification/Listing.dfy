/** The metrics page: every entry of both maps, sorted by type and name. */
module Listing {
  import opened Options
  import opened Metrics

  /** A row; the source formats the value, here it is the value itself. */
  datatype Row = Row(mtype: string, name: string, value: Cell)
  datatype Cell = GaugeCell(g: Float64) | CounterCell(c: Int64)

  // ---- Go's string order ---------------------------------------------------------------

  /** Byte by byte; a prefix comes first. */
  predicate Less(a: string, b: string)
  {
    b != [] && (a == [] || a[0] < b[0] || (a[0] == b[0] && Less(a[1..], b[1..])))
  }

  lemma {:induction false} LessIsTotal(a: string, b: string)
    ensures a == b || Less(a, b) || Less(b, a)
    ensures !(Less(a, b) && Less(b, a))
    decreases |a| + |b|
  {
    if a != [] && b != [] {
      LessIsTotal(a[1..], b[1..]);
      assert a[0] == b[0] && a[1..] == b[1..] ==> a == [a[0]] + a[1..] == b;
    }
  }

  lemma {:induction false} LessIsTransitive(a: string, b: string, c: string)
    requires Less(a, b) && Less(b, c)
    ensures Less(a, c)
  {
    if a != [] && a[0] == b[0] && b[0] == c[0] {
      LessIsTransitive(a[1..], b[1..], c[1..]);
    }
  }

  /** They agree up to position i, and there the left one ends or has the smaller byte. */
  ghost predicate SmallerAt(a: string, b: string, i: nat)
  {
    i <= |a| && i < |b| && a[..i] == b[..i] && (i == |a| || a[i] < b[i])
  }

  lemma SmallerAtTail(a: string, b: string, i: nat)
    requires a != [] && b != [] && a[0] == b[0]
    ensures SmallerAt(a, b, i + 1) <==> SmallerAt(a[1..], b[1..], i)
  {
    if i + 1 <= |a| && i + 1 <= |b| {
      assert a[..i + 1] == [a[0]] + a[1..][..i] && b[..i + 1] == [b[0]] + b[1..][..i];
    }
  }

  /** The first difference decides. */
  lemma {:induction false} LessExactly(a: string, b: string)
    ensures Less(a, b) <==> exists i :: SmallerAt(a, b, i)
  {
    if a != [] && b != [] && a[0] == b[0] {
      LessExactly(a[1..], b[1..]);
      if Less(a, b) {
        var i :| SmallerAt(a[1..], b[1..], i);
        SmallerAtTail(a, b, i);
      } else {
        forall i: nat ensures !SmallerAt(a, b, i) {
          if i > 0 {
            SmallerAtTail(a, b, i - 1);
          }
        }
      }
    } else {
      assert Less(a, b) <==> SmallerAt(a, b, 0);
      assert forall i :: i > 0 ==> i > |a| || i > |b| || (a[..i][0] == a[0] && b[..i][0] == b[0]);
    }
  }

  /** The comparison given to sort.Slice. */
  predicate RowLess(a: Row, b: Row)
  {
    if a.mtype != b.mtype then Less(a.mtype, b.mtype) else Less(a.name, b.name)
  }

  predicate SameKey(a: Row, b: Row) { a.mtype == b.mtype && a.name == b.name }

  lemma RowLessIsTotal(a: Row, b: Row)
    ensures SameKey(a, b) || RowLess(a, b) || RowLess(b, a)
    ensures !(RowLess(a, b) && RowLess(b, a)) && (SameKey(a, b) ==> !RowLess(a, b))
  {
    LessIsTotal(a.mtype, b.mtype);
    LessIsTotal(a.name, b.name);
  }

  lemma RowLessIsTransitive(a: Row, b: Row, c: Row)
    requires RowLess(a, b) && RowLess(b, c)
    ensures RowLess(a, c)
  {
    if a.mtype == b.mtype && b.mtype == c.mtype {
      LessIsTransitive(a.name, b.name, c.name);
    } else if a.mtype != b.mtype && b.mtype != c.mtype {
      LessIsTransitive(a.mtype, b.mtype, c.mtype);
      LessIsTotal(a.mtype, b.mtype);
    }
  }

  /** On the page all counters come before all gauges, each in the order of the names. */
  lemma RowLessExactly(a: Row, b: Row)
    requires a.mtype in {"counter", "gauge"} && b.mtype in {"counter", "gauge"}
    ensures RowLess(a, b) <==>
      (a.mtype == "counter" && b.mtype == "gauge")
      || (a.mtype == b.mtype && exists i :: SmallerAt(a.name, b.name, i))
  {
    LessExactly(a.name, b.name);
    assert "counter"[0] == 'c' && "gauge"[0] == 'g';
  }

  // ---- sorted permutations -------------------------------------------------------------

  /** No row is smaller than one before it: what sort.Slice promises. */
  ghost predicate Sorted(rows: seq<Row>)
  {
    forall i, j :: 0 <= i < j < |rows| ==> !RowLess(rows[j], rows[i])
  }

  ghost predicate NoRepeats(rows: seq<Row>)
  {
    forall i, j :: 0 <= i < j < |rows| ==> rows[i] != rows[j]
  }

  function GaugeRow(st: Store, n: string): Row
    requires n in st.gauges
  {
    Row(GAUGE, n, GaugeCell(st.gauges[n]))
  }

  function CounterRow(st: Store, n: string): Row
    requires n in st.counters
  {
    Row(COUNTER, n, CounterCell(st.counters[n]))
  }

  /** The row is an entry of one of the two maps. */
  predicate IsEntry(row: Row, st: Store)
  {
    || (row.name in st.gauges && row == GaugeRow(st, row.name))
    || (row.name in st.counters && row == CounterRow(st, row.name))
  }

  /** Every entry of the store exactly once, in any order. */
  ghost predicate Lists(rows: seq<Row>, st: Store)
  {
    NoRepeats(rows) && forall row :: row in rows <==> IsEntry(row, st)
  }

  lemma KeysAreUnique(st: Store, a: Row, b: Row)
    requires IsEntry(a, st) && IsEntry(b, st) && SameKey(a, b)
    ensures a == b
  {
    assert GAUGE[0] != COUNTER[0];
  }

  ghost predicate Increasing(rows: seq<Row>)
  {
    forall i, j :: 0 <= i < j < |rows| ==> RowLess(rows[i], rows[j])
  }

  /** Two increasing sequences with the same rows are the same sequence. */
  lemma {:induction false} IncreasingIsUnique(p: seq<Row>, q: seq<Row>)
    requires Increasing(p) && Increasing(q) && forall row :: row in p <==> row in q
    ensures p == q
  {
    assert (q == [] || q[0] in q) && (p == [] || p[0] in p);
    if p != [] {
      assert p[0] in q && q[0] in p;
      SameFirst(p, q);
      hide RowLess;
      forall row ensures row in p[1..] <==> row in q[1..] {
        TailRows(p, row);
        TailRows(q, row);
      }
      IncreasingIsUnique(p[1..], q[1..]);
      assert p == [p[0]] + p[1..] && q == [q[0]] + q[1..];
    }
  }

  lemma SameFirst(p: seq<Row>, q: seq<Row>)
    requires Increasing(p) && Increasing(q) && p != [] && q != [] && p[0] in q && q[0] in p
    ensures p[0] == q[0]
  {
    hide RowLess;
    var i :| 0 <= i < |q| && q[i] == p[0];
    var j :| 0 <= j < |p| && p[j] == q[0];
    assert i > 0 ==> RowLess(q[0], q[i]);
    assert j > 0 ==> RowLess(p[0], p[j]);
    RowLessIsTotal(p[0], q[0]);
  }

  lemma TailRows(p: seq<Row>, row: Row)
    requires p != [] && Increasing(p)
    ensures row in p[1..] <==> row in p && row != p[0]
  {
    RowLessIsTotal(p[0], p[0]);
    if row in p && row != p[0] {
      var i :| 0 <= i < |p| && p[i] == row;
      assert p[1..][i - 1] == row;
    }
  }

  lemma PageIsIncreasing(st: Store, rows: seq<Row>)
    requires Sorted(rows) && Lists(rows, st)
    ensures Increasing(rows)
  {
    forall i, j | 0 <= i < j < |rows| ensures RowLess(rows[i], rows[j]) {
      RowLessIsTotal(rows[i], rows[j]);
      assert rows[i] in rows && rows[j] in rows;
      if SameKey(rows[i], rows[j]) {
        KeysAreUnique(st, rows[i], rows[j]);
      }
    }
  }

  /** The page does not depend on the order the maps are ranged over, nor on the sorting algorithm. */
  lemma PageIsUnique(st: Store, p: seq<Row>, q: seq<Row>)
    requires Sorted(p) && Sorted(q) && Lists(p, st) && Lists(q, st)
    ensures p == q
  {
    PageIsIncreasing(st, p);
    PageIsIncreasing(st, q);
    IncreasingIsUnique(p, q);
  }

  // ---- the page ------------------------------------------------------------------------

  /** Collects the rows, map by map, in any order, then sorts them. */
  method ListMetrics(st: Store) returns (rows: seq<Row>)
    ensures Sorted(rows) && Lists(rows, st)
  {
    rows := [];
    var rest := st.gauges.Keys;
    while rest != {}
      invariant rest <= st.gauges.Keys && NoRepeats(rows)
      invariant forall row ::
        row in rows <==> row.name in st.gauges && row.name !in rest && row == GaugeRow(st, row.name)
    {
      var name :| name in rest;
      rows := rows + [GaugeRow(st, name)];
      rest := rest - {name};
    }
    rest := st.counters.Keys;
    assert GAUGE[0] != COUNTER[0];
    while rest != {}
      invariant rest <= st.counters.Keys && NoRepeats(rows)
      invariant forall row :: row in rows <==>
        ((row.name in st.gauges && row == GaugeRow(st, row.name))
        || (row.name in st.counters && row.name !in rest && row == CounterRow(st, row.name)))
    {
      var name :| name in rest;
      rows := rows + [CounterRow(st, name)];
      rest := rest - {name};
    }
    rows := SortRows(rows);
  }

  /** Stands for sort.Slice: insertion, row by row. */
  method SortRows(rows: seq<Row>) returns (sorted: seq<Row>)
    requires NoRepeats(rows)
    ensures Sorted(sorted) && NoRepeats(sorted) && forall row :: row in sorted <==> row in rows
  {
    sorted := [];
    for i := 0 to |rows|
      invariant Sorted(sorted) && NoRepeats(sorted)
      invariant forall row :: row in sorted <==> row in rows[..i]
    {
      sorted := Insert(sorted, rows[i]);
    }
  }

  /** Puts the row before the first one it is smaller than. */
  method Insert(sorted: seq<Row>, row: Row) returns (r: seq<Row>)
    requires Sorted(sorted) && NoRepeats(sorted) && row !in sorted
    ensures Sorted(r) && NoRepeats(r) && forall x :: x in r <==> x in sorted || x == row
  {
    var at := 0;
    while at < |sorted| && !RowLess(row, sorted[at])
      invariant at <= |sorted| && forall k :: 0 <= k < at ==> !RowLess(row, sorted[k])
    {
      at := at + 1;
    }
    r := sorted[..at] + [row] + sorted[at..];
    forall k | at <= k < |sorted| ensures !RowLess(sorted[k], row) {
      RowLessIsTotal(row, sorted[at]);
      RowLessIsTotal(sorted[k], sorted[at]);
      if RowLess(sorted[k], row) {
        RowLessIsTransitive(sorted[k], row, sorted[at]);
      }
    }
  }
}
