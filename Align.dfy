/** Lining several series up on one time axis: the pairwise outer join on `date` and the
    left folds of it that the store, the msr query and the dashboard perform. */
module Align {
  import opened Wrappers
  import opened Seqs

  /** One series reduced to what an alignment keeps: the `date` and the value column. */
  datatype Point = Point(date: string, value: Option<real>)

  /** A row of a wide table: its date and one cell per value column (None is NaN). */
  datatype Row = Row(date: string, cells: seq<Option<real>>)

  /** A wide table: the `date` column followed by the named value columns. */
  datatype Table = Table(columns: seq<string>, rows: seq<Row>)

  /** `pd.DataFrame()`: no columns, no rows. */
  const EmptyTable := Table([], [])

  function DatesOf(s: seq<Point>): set<string> { set p | p in s :: p.date }

  function RowDates(rows: seq<Row>): set<string> { set r | r in rows :: r.date }

  /** Every row has one cell per value column. */
  predicate WellFormed(t: Table) { forall r :: r in t.rows ==> |r.cells| == |t.columns| }

  /** No two points of a series share a date. */
  predicate UniqueDates(s: seq<Point>) {
    forall i, j :: 0 <= i < j < |s| ==> s[i].date != s[j].date
  }

  /** No two rows of a table share a date. */
  predicate UniqueRowDates(rows: seq<Row>) {
    forall i, j :: 0 <= i < j < |rows| ==> rows[i].date != rows[j].date
  }

  function Nones(n: nat): (c: seq<Option<real>>)
    ensures |c| == n && forall i :: 0 <= i < n ==> c[i] == None
  {
    seq(n, _ => None)
  }

  /** The value a series holds at a date: its first point there, None when it has none. */
  function Lookup(s: seq<Point>, d: string): Option<real> {
    if |s| == 0 then None else if s[0].date == d then s[0].value else Lookup(s[1..], d)
  }

  /** The dates present in any of the series. */
  function Union(ss: seq<seq<Point>>): set<string>
    decreases |ss|
  {
    if |ss| == 0 then {} else Union(ss[..|ss| - 1]) + DatesOf(ss[|ss| - 1])
  }

  /** `s[['date', name]]`: a one-column table with one row per point, in order. */
  function Project(name: string, s: seq<Point>): Table {
    Table([name], seq(|s|, i requires 0 <= i < |s| => Row(s[i].date, [s[i].value])))
  }

  /** The right-hand points whose date equals `d`, in order. */
  function Matching(s: seq<Point>, d: string): seq<Point> {
    if |s| == 0 then [] else (if s[0].date == d then [s[0]] else []) + Matching(s[1..], d)
  }

  /** A left row joined with its matching right points: one row per match, or a single row
      whose new cell is missing when nothing matches. */
  function Extend(l: Row, m: seq<Point>): seq<Row> {
    if |m| == 0 then [Row(l.date, l.cells + [None])]
    else seq(|m|, i requires 0 <= i < |m| => Row(l.date, l.cells + [m[i].value]))
  }

  function LeftPart(rows: seq<Row>, s: seq<Point>): seq<Row> {
    if |rows| == 0 then []
    else Extend(rows[0], Matching(s, rows[0].date)) + LeftPart(rows[1..], s)
  }

  /** The right-hand points whose date no left row has, with missing left cells. */
  function RightOnly(s: seq<Point>, left: set<string>, width: nat): seq<Row> {
    if |s| == 0 then []
    else (if s[0].date in left then [] else [Row(s[0].date, Nones(width) + [s[0].value])])
         + RightOnly(s[1..], left, width)
  }

  /** `pd.merge(t, s[['date', name]], on='date', how='outer')`: every left row with each
      right point of the same date (a cartesian product where dates repeat), then the right
      points whose date the left side lacks. */
  function Join(t: Table, name: string, s: seq<Point>): Table {
    Table(t.columns + [name], LeftPart(t.rows, s) + RightOnly(s, RowDates(t.rows), |t.columns|))
  }

  // ---------------------------------------------------------------------------------
  // The join in general: shape and dates.

  lemma RowDatesConcat(a: seq<Row>, b: seq<Row>)
    ensures RowDates(a + b) == RowDates(a) + RowDates(b)
  {
    assert forall x :: x in a + b <==> x in a || x in b;
  }

  /** The rows a left row becomes all keep its date and gain one cell. */
  lemma ExtendShape(l: Row, m: seq<Point>)
    ensures forall x :: x in Extend(l, m) ==> x.date == l.date && |x.cells| == |l.cells| + 1
    ensures RowDates(Extend(l, m)) == {l.date}
  {
    var e := Extend(l, m);
    assert e[0] in e;
  }

  lemma LeftPartShape(rows: seq<Row>, s: seq<Point>, w: nat)
    requires forall r :: r in rows ==> |r.cells| == w
    ensures forall x :: x in LeftPart(rows, s) ==> |x.cells| == w + 1
    ensures RowDates(LeftPart(rows, s)) == RowDates(rows)
  {
    LeftPartCells(rows, s, w);
    LeftPartDates(rows, s);
  }

  lemma {:induction false} LeftPartCells(rows: seq<Row>, s: seq<Point>, w: nat)
    requires forall r :: r in rows ==> |r.cells| == w
    ensures forall x :: x in LeftPart(rows, s) ==> |x.cells| == w + 1
  {
    if |rows| > 0 {
      assert rows[0] in rows;
      assert forall r :: r in rows[1..] ==> r in rows;
      LeftPartCells(rows[1..], s, w);
      var e := Extend(rows[0], Matching(s, rows[0].date));
      ExtendShape(rows[0], Matching(s, rows[0].date));
      assert LeftPart(rows, s) == e + LeftPart(rows[1..], s);
    }
  }

  lemma {:induction false} LeftPartDates(rows: seq<Row>, s: seq<Point>)
    ensures RowDates(LeftPart(rows, s)) == RowDates(rows)
  {
    if |rows| > 0 {
      LeftPartDates(rows[1..], s);
      var e := Extend(rows[0], Matching(s, rows[0].date));
      ExtendShape(rows[0], Matching(s, rows[0].date));
      RowDatesConcat(e, LeftPart(rows[1..], s));
      assert rows == [rows[0]] + rows[1..];
      RowDatesConcat([rows[0]], rows[1..]);
    }
  }

  lemma RightOnlyShape(s: seq<Point>, left: set<string>, w: nat)
    ensures forall x :: x in RightOnly(s, left, w) ==> |x.cells| == w + 1 && x.date !in left
    ensures RowDates(RightOnly(s, left, w)) == DatesOf(s) - left
  {
    RightOnlyRowShape(s, left, w);
    RightOnlyDates(s, left, w);
  }

  /** The row a right-hand point contributes when its date is not on the left. */
  function RightHead(s: seq<Point>, left: set<string>, w: nat): seq<Row>
    requires |s| > 0
  {
    if s[0].date in left then [] else [Row(s[0].date, Nones(w) + [s[0].value])]
  }

  lemma {:induction false} RightOnlyRowShape(s: seq<Point>, left: set<string>, w: nat)
    ensures forall x :: x in RightOnly(s, left, w) ==> |x.cells| == w + 1 && x.date !in left
  {
    if |s| > 0 {
      RightOnlyRowShape(s[1..], left, w);
      assert RightOnly(s, left, w) == RightHead(s, left, w) + RightOnly(s[1..], left, w);
    }
  }

  lemma {:induction false} RightOnlyDates(s: seq<Point>, left: set<string>, w: nat)
    ensures RowDates(RightOnly(s, left, w)) == DatesOf(s) - left
  {
    if |s| > 0 {
      RightOnlyDates(s[1..], left, w);
      RightOnlyDatesStep(s, left, w);
    }
  }

  lemma RightOnlyDatesStep(s: seq<Point>, left: set<string>, w: nat)
    requires |s| > 0
    requires RowDates(RightOnly(s[1..], left, w)) == DatesOf(s[1..]) - left
    ensures RowDates(RightOnly(s, left, w)) == DatesOf(s) - left
  {
    assert s == [s[0]] + s[1..];
    assert DatesOf(s) == {s[0].date} + DatesOf(s[1..]);
    var head := RightHead(s, left, w);
    assert RightOnly(s, left, w) == head + RightOnly(s[1..], left, w);
    RowDatesConcat(head, RightOnly(s[1..], left, w));
    assert RowDates(head) == {s[0].date} - left;
  }

  /** The join keeps every row well formed, and its dates are the union of both sides'. */
  lemma JoinShape(t: Table, name: string, s: seq<Point>)
    requires WellFormed(t)
    ensures Join(t, name, s).columns == t.columns + [name]
    ensures WellFormed(Join(t, name, s))
    ensures RowDates(Join(t, name, s).rows) == RowDates(t.rows) + DatesOf(s)
  {
    var l := LeftPart(t.rows, s);
    var r := RightOnly(s, RowDates(t.rows), |t.columns|);
    LeftPartShape(t.rows, s, |t.columns|);
    RightOnlyShape(s, RowDates(t.rows), |t.columns|);
    assert RowDates(l + r) == RowDates(l) + RowDates(r);
  }

  lemma JoinWellFormed(t: Table, name: string, s: seq<Point>)
    requires WellFormed(t)
    ensures WellFormed(Join(t, name, s))
  {
    JoinShape(t, name, s);
  }

  lemma JoinDates(t: Table, name: string, s: seq<Point>)
    ensures RowDates(Join(t, name, s).rows) == RowDates(t.rows) + DatesOf(s)
  {
    LeftPartDates(t.rows, s);
    RightOnlyShape(s, RowDates(t.rows), |t.columns|);
    RowDatesConcat(LeftPart(t.rows, s), RightOnly(s, RowDates(t.rows), |t.columns|));
  }

  // ---------------------------------------------------------------------------------
  // The join of series with unique dates: exact cell contents.

  lemma {:induction false} LookupAbsent(s: seq<Point>, d: string)
    requires d !in DatesOf(s)
    ensures Lookup(s, d) == None
  {
    if |s| > 0 {
      assert s[0] in s;
      assert DatesOf(s[1..]) <= DatesOf(s);
      LookupAbsent(s[1..], d);
    }
  }

  /** In a series with unique dates, the points at a date are the one point `Lookup` reads,
      or none. */
  lemma {:induction false} MatchingUnique(s: seq<Point>, d: string)
    requires UniqueDates(s)
    ensures Matching(s, d) == if d in DatesOf(s) then [Point(d, Lookup(s, d))] else []
  {
    if |s| > 0 {
      var t := s[1..];
      assert UniqueDates(t);
      assert s == [s[0]] + t;
      assert DatesOf(s) == {s[0].date} + DatesOf(t);
      MatchingUnique(t, d);
      if s[0].date == d {
        assert d !in DatesOf(t);
      }
    } else {
      LookupAbsent(s, d);
    }
  }

  /** With unique right-hand dates, each left row gets exactly one row: itself plus the
      right value at its date. */
  lemma {:induction false} LeftPartUnique(rows: seq<Row>, s: seq<Point>)
    requires UniqueDates(s)
    ensures |LeftPart(rows, s)| == |rows|
    ensures forall i :: 0 <= i < |rows| ==>
              LeftPart(rows, s)[i] == Row(rows[i].date, rows[i].cells + [Lookup(s, rows[i].date)])
  {
    if |rows| > 0 {
      var d := rows[0].date;
      MatchingUnique(s, d);
      if d !in DatesOf(s) { LookupAbsent(s, d); }
      assert Extend(rows[0], Matching(s, d)) == [Row(d, rows[0].cells + [Lookup(s, d)])];
      LeftPartUnique(rows[1..], s);
    }
  }

  /** With unique dates, the right-only rows carry the right value at their date, come from
      the right-hand dates the left lacks, and repeat no date. */
  lemma RightOnlyUnique(s: seq<Point>, left: set<string>, w: nat)
    requires UniqueDates(s)
    ensures forall x :: x in RightOnly(s, left, w) ==>
              x.cells == Nones(w) + [Lookup(s, x.date)] && x.date in DatesOf(s)
    ensures UniqueRowDates(RightOnly(s, left, w))
  {
    RightOnlyCells(s, left, w);
    RightOnlyDistinct(s, left, w);
  }

  lemma {:induction false} RightOnlyCells(s: seq<Point>, left: set<string>, w: nat)
    requires UniqueDates(s)
    ensures forall x :: x in RightOnly(s, left, w) ==>
              x.cells == Nones(w) + [Lookup(s, x.date)] && x.date in DatesOf(s)
  {
    if |s| > 0 {
      var t := s[1..];
      assert UniqueDates(t);
      RightOnlyCells(t, left, w);
      assert s[0].date !in DatesOf(t);
      assert DatesOf(t) <= DatesOf(s);
      var head: seq<Row> := if s[0].date in left then [] else [Row(s[0].date, Nones(w) + [s[0].value])];
      var tail := RightOnly(t, left, w);
      assert RightOnly(s, left, w) == head + tail;
      forall x | x in tail ensures Lookup(s, x.date) == Lookup(t, x.date) {
        assert x.date in DatesOf(t);
      }
    }
  }

  lemma {:induction false} RightOnlyDistinct(s: seq<Point>, left: set<string>, w: nat)
    requires UniqueDates(s)
    ensures UniqueRowDates(RightOnly(s, left, w))
  {
    if |s| > 0 {
      var t := s[1..];
      assert UniqueDates(t);
      RightOnlyDistinct(t, left, w);
      RightOnlyShape(t, left, w);
      assert s[0].date !in DatesOf(t);
      var head: seq<Row> := if s[0].date in left then [] else [Row(s[0].date, Nones(w) + [s[0].value])];
      var tail := RightOnly(t, left, w);
      assert RightOnly(s, left, w) == head + tail;
      assert RowDates(head) <= {s[0].date};
      assert s[0].date !in RowDates(tail);
      UniqueRowDatesConcat(head, tail);
    }
  }

  /** `t` is the alignment of the series `ss`: one value column per series, a row for each
      date any series has and for no other, no date twice, and in every row the cell of
      series `i` holding that series' value at the row's date (missing if it has none). */
  predicate Describes(t: Table, ss: seq<seq<Point>>) {
    && |t.columns| == |ss|
    && RowDates(t.rows) == Union(ss)
    && UniqueRowDates(t.rows)
    && forall r :: r in t.rows ==> CellsAgree(r, ss)
  }

  lemma {:induction false} UnionMembers(ss: seq<seq<Point>>)
    ensures forall d :: d in Union(ss) <==> exists i :: 0 <= i < |ss| && d in DatesOf(ss[i])
    decreases |ss|
  {
    if |ss| > 0 {
      var p := ss[..|ss| - 1];
      UnionMembers(p);
      forall d | d in Union(ss) ensures exists i :: 0 <= i < |ss| && d in DatesOf(ss[i]) {
        if d in Union(p) {
          var i :| 0 <= i < |p| && d in DatesOf(p[i]);
          assert ss[i] == p[i];
        } else {
          assert d in DatesOf(ss[|ss| - 1]);
        }
      }
      forall d | exists i :: 0 <= i < |ss| && d in DatesOf(ss[i]) ensures d in Union(ss) {
        var i :| 0 <= i < |ss| && d in DatesOf(ss[i]);
        if i < |ss| - 1 {
          assert ss[i] == p[i];
        }
      }
    }
  }

  lemma UniqueRowDatesConcat(a: seq<Row>, b: seq<Row>)
    requires UniqueRowDates(a) && UniqueRowDates(b) && RowDates(a) !! RowDates(b)
    ensures UniqueRowDates(a + b)
  {
    forall i, j | 0 <= i < j < |a + b| ensures (a + b)[i].date != (a + b)[j].date {
      if j < |a| {
        assert (a + b)[i] == a[i] && (a + b)[j] == a[j];
      } else if i >= |a| {
        assert (a + b)[i] == b[i - |a|] && (a + b)[j] == b[j - |a|];
      } else {
        assert (a + b)[i] == a[i] && (a + b)[j] == b[j - |a|];
        assert a[i] in a && b[j - |a|] in b;
        assert a[i].date in RowDates(a) && b[j - |a|].date in RowDates(b);
      }
    }
  }

  /** The cells of row `x` hold, column by column, the values of the series `ss` at the
      row's date. */
  predicate CellsAgree(x: Row, ss: seq<seq<Point>>) {
    |x.cells| == |ss| && forall i :: 0 <= i < |ss| ==> x.cells[i] == Lookup(ss[i], x.date)
  }

  lemma LeftCellsAgree(t: Table, ss: seq<seq<Point>>, s: seq<Point>)
    requires forall r :: r in t.rows ==> CellsAgree(r, ss)
    requires UniqueDates(s)
    ensures forall x :: x in LeftPart(t.rows, s) ==> CellsAgree(x, ss + [s])
  {
    var l := LeftPart(t.rows, s);
    var ss' := ss + [s];
    LeftPartUnique(t.rows, s);
    forall x | x in l ensures CellsAgree(x, ss') {
      var k :| 0 <= k < |l| && l[k] == x;
      var row := t.rows[k];
      assert row in t.rows;
      assert x == Row(row.date, row.cells + [Lookup(s, row.date)]);
      forall i | 0 <= i < |ss'| ensures x.cells[i] == Lookup(ss'[i], x.date) {
        if i < |ss| { assert ss'[i] == ss[i]; }
      }
    }
  }

  lemma RightCellsAgree(ss: seq<seq<Point>>, s: seq<Point>, left: set<string>)
    requires Union(ss) <= left
    requires UniqueDates(s)
    ensures forall x :: x in RightOnly(s, left, |ss|) ==> CellsAgree(x, ss + [s])
  {
    var r := RightOnly(s, left, |ss|);
    var ss' := ss + [s];
    RightOnlyUnique(s, left, |ss|);
    RightOnlyShape(s, left, |ss|);
    UnionMembers(ss);
    forall x | x in r ensures CellsAgree(x, ss') {
      forall i | 0 <= i < |ss'| ensures x.cells[i] == Lookup(ss'[i], x.date) {
        if i < |ss| {
          assert ss'[i] == ss[i];
          assert x.date !in DatesOf(ss[i]);
          LookupAbsent(ss[i], x.date);
        }
      }
    }
  }

  /** Joining a series with unique dates onto the alignment of `ss` gives the alignment of
      `ss + [s]`. */
  lemma JoinDescribes(t: Table, ss: seq<seq<Point>>, name: string, s: seq<Point>)
    requires Describes(t, ss) && UniqueDates(s)
    ensures Describes(Join(t, name, s), ss + [s])
  {
    var n := |ss|;
    var ss' := ss + [s];
    assert ss'[..n] == ss;
    assert Union(ss') == Union(ss) + DatesOf(s);
    assert WellFormed(t);
    JoinShape(t, name, s);
    var l := LeftPart(t.rows, s);
    var r := RightOnly(s, RowDates(t.rows), n);
    assert forall x :: x in t.rows ==> CellsAgree(x, ss);
    LeftCellsAgree(t, ss, s);
    RightCellsAgree(ss, s, RowDates(t.rows));
    assert forall x :: x in l + r ==> CellsAgree(x, ss');
    LeftPartUnique(t.rows, s);
    RightOnlyUnique(s, RowDates(t.rows), n);
    RightOnlyShape(s, RowDates(t.rows), n);
    LeftPartShape(t.rows, s, n);
    assert UniqueRowDates(l) by {
      forall i, j | 0 <= i < j < |l| ensures l[i].date != l[j].date {
        assert l[i].date == t.rows[i].date && l[j].date == t.rows[j].date;
      }
    }
    UniqueRowDatesConcat(l, r);
  }

  // ---------------------------------------------------------------------------------
  // The fold of `PlantDataBase.query_multiple` and `query_multiple_msr`: the first series
  // initialises the table, every later one is outer-joined onto it.

  function AlignAll(names: seq<string>, ss: seq<seq<Point>>): Table
    requires |names| == |ss|
    decreases |ss|
  {
    if |ss| == 0 then EmptyTable
    else Join(AlignAll(names[..|ss| - 1], ss[..|ss| - 1]), names[|ss| - 1], ss[|ss| - 1])
  }

  lemma JoinColumns(t: Table, name: string, s: seq<Point>)
    ensures Join(t, name, s).columns == t.columns + [name]
  {
  }

  /** Appending a series to the fold joins it onto the alignment of the earlier ones. */
  lemma AlignAllSnoc(names: seq<string>, ss: seq<seq<Point>>, name: string, s: seq<Point>)
    requires |names| == |ss|
    ensures AlignAll(names + [name], ss + [s]) == Join(AlignAll(names, ss), name, s)
    ensures |ss| == 0 ==> AlignAll(names + [name], ss + [s]) == Project(name, s)
  {
    assert (names + [name])[..|ss|] == names;
    assert (ss + [s])[..|ss|] == ss;
    ProjectIsJoinOfEmpty(name, s);
  }

  /** The fold over the first `i + 1` names, when the series so far are `ss`. */
  lemma AlignAllPrefixSnoc(names: seq<string>, i: nat, ss: seq<seq<Point>>, s: seq<Point>)
    requires i < |names| && |ss| == i
    ensures AlignAll(names[..i + 1], ss + [s]) ==
              if i == 0 then Project(names[i], s) else Join(AlignAll(names[..i], ss), names[i], s)
  {
    assert names[..i + 1] == names[..i] + [names[i]];
    AlignAllSnoc(names[..i], ss, names[i], s);
  }

  /** Initialising with the first series is joining it onto the empty table. */
  lemma {:induction false} ProjectIsJoinOfEmpty(name: string, s: seq<Point>)
    ensures Project(name, s) == Join(EmptyTable, name, s)
  {
    assert RowDates(EmptyTable.rows) == {};
    assert EmptyTable.columns + [name] == [name];
    RightOnlyRows(s);
  }

  lemma {:induction false} RightOnlyRows(s: seq<Point>)
    ensures RightOnly(s, {}, 0) == seq(|s|, i requires 0 <= i < |s| => Row(s[i].date, [s[i].value]))
  {
    if |s| > 0 {
      RightOnlyRows(s[1..]);
      assert Nones(0) + [s[0].value] == [s[0].value];
    }
  }

  /** The column of series `i` is named `names[i]`; the dates are the union of all series'
      dates, whether or not any series repeats a date. */
  lemma AlignAllShape(names: seq<string>, ss: seq<seq<Point>>)
    requires |names| == |ss|
    ensures AlignAll(names, ss).columns == names
    ensures WellFormed(AlignAll(names, ss))
    ensures RowDates(AlignAll(names, ss).rows) == Union(ss)
  {
    AlignAllColumns(names, ss);
    AlignAllWellFormed(names, ss);
    AlignAllDates(names, ss);
  }

  lemma {:induction false} AlignAllColumns(names: seq<string>, ss: seq<seq<Point>>)
    requires |names| == |ss|
    ensures AlignAll(names, ss).columns == names
    decreases |ss|
  {
    if |ss| > 0 {
      var n := |ss| - 1;
      AlignAllColumns(names[..n], ss[..n]);
      JoinColumns(AlignAll(names[..n], ss[..n]), names[n], ss[n]);
      SplitLast(names);
    }
  }

  lemma {:induction false} AlignAllWellFormed(names: seq<string>, ss: seq<seq<Point>>)
    requires |names| == |ss|
    ensures WellFormed(AlignAll(names, ss))
    decreases |ss|
  {
    if |ss| > 0 {
      var n := |ss| - 1;
      AlignAllWellFormed(names[..n], ss[..n]);
      AlignAllWellFormedStep(names, ss);
    }
  }

  lemma AlignAllWellFormedStep(names: seq<string>, ss: seq<seq<Point>>)
    requires |names| == |ss| > 0
    requires WellFormed(AlignAll(names[..|ss| - 1], ss[..|ss| - 1]))
    ensures WellFormed(AlignAll(names, ss))
  {
    var n := |ss| - 1;
    JoinWellFormed(AlignAll(names[..n], ss[..n]), names[n], ss[n]);
    AlignAllLast(names, ss);
  }

  lemma AlignAllDatesStep(names: seq<string>, ss: seq<seq<Point>>)
    requires |names| == |ss| > 0
    requires RowDates(AlignAll(names[..|ss| - 1], ss[..|ss| - 1]).rows) == Union(ss[..|ss| - 1])
    ensures RowDates(AlignAll(names, ss).rows) == Union(ss)
  {
    var n := |ss| - 1;
    JoinDates(AlignAll(names[..n], ss[..n]), names[n], ss[n]);
    AlignAllLast(names, ss);
    UnionLast(ss);
  }

  lemma UnionLast(ss: seq<seq<Point>>)
    requires |ss| > 0
    ensures Union(ss) == Union(ss[..|ss| - 1]) + DatesOf(ss[|ss| - 1])
  {
  }

  lemma AlignAllLast(names: seq<string>, ss: seq<seq<Point>>)
    requires |names| == |ss| > 0
    ensures AlignAll(names, ss) == Join(AlignAll(names[..|ss| - 1], ss[..|ss| - 1]), names[|ss| - 1], ss[|ss| - 1])
  {
  }

  lemma {:induction false} AlignAllDates(names: seq<string>, ss: seq<seq<Point>>)
    requires |names| == |ss|
    ensures RowDates(AlignAll(names, ss).rows) == Union(ss)
    decreases |ss|
  {
    if |ss| > 0 {
      var n := |ss| - 1;
      AlignAllDates(names[..n], ss[..n]);
      AlignAllDatesStep(names, ss);
    }
  }

  /** When no series repeats a date, the fold is exactly the alignment of all series. */
  lemma {:induction false} AlignAllDescribes(names: seq<string>, ss: seq<seq<Point>>)
    requires |names| == |ss|
    requires forall i :: 0 <= i < |ss| ==> UniqueDates(ss[i])
    ensures Describes(AlignAll(names, ss), ss)
    decreases |ss|
  {
    if |ss| > 0 {
      var n := |ss| - 1;
      assert forall i :: 0 <= i < n ==> ss[..n][i] == ss[i];
      AlignAllDescribes(names[..n], ss[..n]);
      AlignAllDescribesStep(names, ss);
    }
  }

  lemma AlignAllDescribesStep(names: seq<string>, ss: seq<seq<Point>>)
    requires |names| == |ss| > 0
    requires UniqueDates(ss[|ss| - 1])
    requires Describes(AlignAll(names[..|ss| - 1], ss[..|ss| - 1]), ss[..|ss| - 1])
    ensures Describes(AlignAll(names, ss), ss)
  {
    var n := |ss| - 1;
    JoinDescribes(AlignAll(names[..n], ss[..n]), ss[..n], names[n], ss[n]);
    AlignAllLast(names, ss);
    SplitLast(ss);
  }

  // ---------------------------------------------------------------------------------
  // The fold of `DashApp.query_multiple_measurements`: while the accumulated table has no
  // rows, the next series replaces it instead of being joined.

  function AlignReplacing(names: seq<string>, ss: seq<seq<Point>>): Table
    requires |names| == |ss|
    decreases |ss|
  {
    if |ss| == 0 then EmptyTable
    else
      var t := AlignReplacing(names[..|ss| - 1], ss[..|ss| - 1]);
      if |t.rows| == 0 then Project(names[|ss| - 1], ss[|ss| - 1])
      else Join(t, names[|ss| - 1], ss[|ss| - 1])
  }

  /** The first series that survives the replacing fold: the first non-empty one, or the
      last when all are empty. */
  function Kept(ss: seq<seq<Point>>): (k: nat)
    requires |ss| > 0
    ensures k < |ss|
    ensures forall j :: 0 <= j < k ==> ss[j] == []
    ensures k < |ss| - 1 ==> ss[k] != []
    decreases |ss|
  {
    if |ss| == 1 then 0
    else
      var p := ss[..|ss| - 1];
      var k := Kept(p);
      if k < |p| - 1 || p[k] != [] then k else |ss| - 1
  }

  lemma {:induction false} UnionEmpty(ss: seq<seq<Point>>)
    ensures Union(ss) == {} <==> forall j :: 0 <= j < |ss| ==> ss[j] == []
  {
    UnionMembers(ss);
    forall j | 0 <= j < |ss| && |ss[j]| > 0 ensures ss[j][0].date in Union(ss) {
      assert ss[j][0] in ss[j];
    }
  }

  lemma {:induction false} ReplacingDates(names: seq<string>, ss: seq<seq<Point>>)
    requires |names| == |ss|
    ensures WellFormed(AlignReplacing(names, ss))
    ensures RowDates(AlignReplacing(names, ss).rows) == Union(ss)
    decreases |ss|
  {
    if |ss| > 0 {
      var n := |ss| - 1;
      var t := AlignReplacing(names[..n], ss[..n]);
      ReplacingDates(names[..n], ss[..n]);
      assert ss[..n + 1] == ss;
      if |t.rows| == 0 {
        assert RowDates(t.rows) == {};
        ProjectIsJoinOfEmpty(names[n], ss[n]);
        JoinShape(EmptyTable, names[n], ss[n]);
        assert Union(ss) == Union(ss[..n]) + DatesOf(ss[n]);
      } else {
        JoinShape(t, names[n], ss[n]);
      }
    }
  }

  /** The joining fold over the suffix of series from `k` on, unfolded by one step. */
  lemma AlignAllSuffixStep(names: seq<string>, ss: seq<seq<Point>>, k: nat)
    requires |names| == |ss| && k < |ss|
    ensures AlignAll(names[k..], ss[k..]) ==
            Join(AlignAll(names[k..|ss| - 1], ss[k..|ss| - 1]), names[|ss| - 1], ss[|ss| - 1])
  {
    AlignAllLast(names[k..], ss[k..]);
    SuffixLast(names, k);
    SuffixLast(ss, k);
  }

  /** The replacing fold is the joining fold over the series from `Kept(ss)` on: every
      series before it is empty and loses its column. */
  lemma {:induction false} ReplacingIsSuffixAlign(names: seq<string>, ss: seq<seq<Point>>)
    requires |names| == |ss| > 0
    ensures AlignReplacing(names, ss) == AlignAll(names[Kept(ss)..], ss[Kept(ss)..])
    decreases |ss|
  {
    var n := |ss| - 1;
    var p, np := ss[..n], names[..n];
    var t := AlignReplacing(np, p);
    AlignAllSuffixStep(names, ss, n);
    assert names[n..n] == [] && ss[n..n] == [];
    ProjectIsJoinOfEmpty(names[n], ss[n]);
    if n > 0 {
      ReplacingIsSuffixAlign(np, p);
      ReplacingDates(np, p);
      UnionEmpty(p);
      if |t.rows| == 0 {
        assert RowDates(t.rows) == {};
        assert Kept(ss) == n;
      } else {
        var k := Kept(p);
        assert Kept(ss) == k;
        AlignAllSuffixStep(names, ss, k);
        assert np[k..] == names[k..n] && p[k..] == ss[k..n];
      }
    }
  }

  /** The result of the replacing fold: its columns are the names from `Kept(ss)` on, its
      dates the union of all series' dates, and, when no series repeats a date, it is the
      alignment of the series from `Kept(ss)` on. */
  lemma ReplacingShape(names: seq<string>, ss: seq<seq<Point>>)
    requires |names| == |ss| > 0
    ensures AlignReplacing(names, ss).columns == names[Kept(ss)..]
    ensures RowDates(AlignReplacing(names, ss).rows) == Union(ss)
    ensures (|AlignReplacing(names, ss).rows| == 0) <==> forall j :: 0 <= j < |ss| ==> ss[j] == []
    ensures (forall i :: 0 <= i < |ss| ==> UniqueDates(ss[i])) ==>
              Describes(AlignReplacing(names, ss), ss[Kept(ss)..])
  {
    ReplacingColumns(names, ss);
    ReplacingDates(names, ss);
    ReplacingEmpty(names, ss);
    if forall i :: 0 <= i < |ss| ==> UniqueDates(ss[i]) {
      ReplacingDescribes(names, ss);
    }
  }

  lemma ReplacingColumns(names: seq<string>, ss: seq<seq<Point>>)
    requires |names| == |ss| > 0
    ensures AlignReplacing(names, ss).columns == names[Kept(ss)..]
  {
    var k := Kept(ss);
    ReplacingIsSuffixAlign(names, ss);
    AlignAllColumns(names[k..], ss[k..]);
  }

  lemma ReplacingEmpty(names: seq<string>, ss: seq<seq<Point>>)
    requires |names| == |ss|
    ensures (|AlignReplacing(names, ss).rows| == 0) <==> forall j :: 0 <= j < |ss| ==> ss[j] == []
  {
    ReplacingDates(names, ss);
    UnionEmpty(ss);
    var t := AlignReplacing(names, ss);
    if |t.rows| > 0 { assert t.rows[0].date in RowDates(t.rows); }
  }

  lemma ReplacingDescribes(names: seq<string>, ss: seq<seq<Point>>)
    requires |names| == |ss| > 0
    requires forall i :: 0 <= i < |ss| ==> UniqueDates(ss[i])
    ensures Describes(AlignReplacing(names, ss), ss[Kept(ss)..])
  {
    var k := Kept(ss);
    ReplacingIsSuffixAlign(names, ss);
    assert forall i :: 0 <= i < |ss[k..]| ==> ss[k..][i] == ss[k + i];
    AlignAllDescribes(names[k..], ss[k..]);
  }

  /** The quirk itself: an empty first series followed by a non-empty one leaves no column
      for the first. */
  lemma EmptyFirstSeriesLosesColumn(names: seq<string>, ss: seq<seq<Point>>)
    requires |names| == |ss| >= 2 && ss[0] == [] && ss[1] != []
    ensures AlignReplacing(names, ss).columns == names[1..]
  {
    ReplacingShape(names, ss);
  }
}
