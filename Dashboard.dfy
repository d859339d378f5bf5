/** The data logic of the dashboard `DashApp` (functions/dashboard.py): dropdown options,
    the per-record heatmap keys, the replacing alignment of selected series, the delete
    callback and the windowed expression plot. Layout and figures are not modelled. */
module Dashboard {
  import opened Wrappers
  import opened Seqs
  import opened Text
  import opened Timestamps
  import opened Schema
  import opened Align
  import opened Store

  // ---------------------------------------------------------------------------------
  // Dropdown options.

  datatype DropdownOption = DropdownOption(labelText: string, value: string)

  /** The run of blanks the source's line continuation leaves inside the label. */
  const Gap: string := "                        "

  /** `"{object_description} - {object_name} ({unit} | {start_date} - {end_date} | {msr}.{msr_attribute})"`,
      with the source's continuation blanks before `(` and before the msr. */
  function OptionLabel(d: Descriptor): string {
    d.objectDescription + " - " + d.objectName + " " + Gap +
    "(" + d.unit + " | " + d.startDate + " - " + d.endDate + " | " + Gap +
    d.msr + "." + d.msrAttribute + ")"
  }

  /** The label opens with the description and closes with `msr.attribute)`. */
  lemma OptionLabelEnds(d: Descriptor)
    ensures var l := OptionLabel(d);
            var tail := d.msr + "." + d.msrAttribute + ")";
            && |l| >= |d.objectDescription| + 3 + |tail|
            && l[..|d.objectDescription| + 3] == d.objectDescription + " - "
            && l[|l| - |tail|..] == tail
  {
    var tail := d.msr + "." + d.msrAttribute + ")";
    var head := d.objectDescription + " - ";
    var mid := d.objectName + " " + Gap + "(" + d.unit + " | " + d.startDate + " - " + d.endDate + " | " + Gap;
    assert OptionLabel(d) == head + mid + tail;
  }

  /** `generate_dropdown_options`: one option per metadata row, in row order, whose value is
      the row's series id. */
  function DropdownOptions(meta: seq<Descriptor>): (opts: seq<DropdownOption>)
    ensures |opts| == |meta|
    ensures forall i :: 0 <= i < |meta| ==> opts[i].value == meta[i].seriesId && opts[i].labelText == OptionLabel(meta[i])
  {
    seq(|meta|, i requires 0 <= i < |meta| => DropdownOption(OptionLabel(meta[i]), meta[i].seriesId))
  }

  /** Every series id of the metadata is offered, and nothing else. */
  lemma DropdownOffersEverySeries(meta: seq<Descriptor>, id: string)
    ensures (exists o :: o in DropdownOptions(meta) && o.value == id) <==> exists d :: d in meta && d.seriesId == id
  {
    DropdownOffersOnlySeries(meta, id);
    DropdownCoversSeries(meta, id);
  }

  lemma DropdownOffersOnlySeries(meta: seq<Descriptor>, id: string)
    ensures (exists o :: o in DropdownOptions(meta) && o.value == id) ==> exists d :: d in meta && d.seriesId == id
  {
    var opts := DropdownOptions(meta);
    if exists o :: o in opts && o.value == id {
      var o :| o in opts && o.value == id;
      var i :| 0 <= i < |opts| && opts[i] == o;
      var d := meta[i];
      assert d in meta && d.seriesId == id;
    }
  }

  lemma DropdownCoversSeries(meta: seq<Descriptor>, id: string)
    ensures (exists d :: d in meta && d.seriesId == id) ==> exists o :: o in DropdownOptions(meta) && o.value == id
  {
    var opts := DropdownOptions(meta);
    if exists d :: d in meta && d.seriesId == id {
      var d :| d in meta && d.seriesId == id;
      var i :| 0 <= i < |meta| && meta[i] == d;
      var o := opts[i];
      assert o in opts && o.value == id;
    }
  }

  // ---------------------------------------------------------------------------------
  // Heatmap keys.

  /** A Data row with its `day` and `hour` columns; the hour is kept as the whole number of
      minutes since midnight, `60 * hour + minute`. */
  datatype KeyedRecord = KeyedRecord(record: Record, day: string, minuteOfDay: nat)

  /** The `day` and `hour` columns of `query_and_prepare_data`, row by row. */
  function Keyed(rows: seq<Record>): (out: seq<KeyedRecord>)
    requires forall k :: 0 <= k < |rows| ==> Canonical(rows[k].date)
    ensures |out| == |rows| && forall k :: 0 <= k < |rows| ==> out[k].record == rows[k]
  {
    seq(|rows|, k requires 0 <= k < |rows| =>
      KeyedRecord(rows[k], DayKey(rows[k].date), MinuteOfDay(rows[k].date)))
  }

  /** Each row's two keys are a calendar date and a minute of the day, and give back its
      timestamp up to the seconds. */
  lemma KeyedRecoversTimestamps(rows: seq<Record>)
    requires forall k :: 0 <= k < |rows| ==> Canonical(rows[k].date)
    ensures forall k :: 0 <= k < |rows| ==>
              var key := Keyed(rows)[k];
              && IsDate(key.day)
              && key.minuteOfDay < 24 * 60
              && rows[k].date == key.day + " " + Clock(key.minuteOfDay) + rows[k].date[16..]
  {
    forall k | 0 <= k < |rows|
      ensures rows[k].date == Keyed(rows)[k].day + " " + Clock(Keyed(rows)[k].minuteOfDay) + rows[k].date[16..]
    {
      KeysRoundTrip(rows[k].date);
    }
  }

  // ---------------------------------------------------------------------------------
  // Delete callback.

  /** Python list indexing `rows[i]`: negative indices count from the end. */
  function PyIndex(n: nat, i: int): (r: Option<nat>)
    ensures r.Some? <==> -(n as int) <= i < n
    ensures r.Some? ==> r.value < n && (r.value == i || r.value == i + n)
  {
    if 0 <= i < n then Some(i) else if -(n as int) <= i < 0 then Some(i + n) else None
  }

  /** `[rows[i]['series_id'] for i in selected_rows]`: the ids of the selected rows in
      selection order, or the first index that is out of range. */
  function SelectedIds(rows: seq<Descriptor>, selected: seq<int>): (r: Result<seq<string>, Error>)
    ensures r.Success? <==> forall k :: 0 <= k < |selected| ==> -|rows| <= selected[k] < |rows|
    ensures r.Success? ==>
              |r.value| == |selected| &&
              forall k :: 0 <= k < |selected| ==> r.value[k] == rows[PyIndex(|rows|, selected[k]).value].seriesId
    ensures r.Failure? ==>
              exists k :: 0 <= k < |selected| && r.error == IndexOutOfRange(selected[k]) &&
                !(-|rows| <= selected[k] < |rows|) &&
                forall j :: 0 <= j < k ==> -|rows| <= selected[j] < |rows|
  {
    if |selected| == 0 then Success([])
    else
      match PyIndex(|rows|, selected[0])
      case None => Failure(IndexOutOfRange(selected[0]))
      case Some(i) =>
        var rest :- SelectedIds(rows, selected[1..]);
        Success([rows[i].seriesId] + rest)
  }

  /** `Data` after deleting each id in turn. */
  function RemoveAllSeries(data: seq<Record>, ids: seq<string>): seq<Record>
    decreases |ids|
  {
    if |ids| == 0 then data else RemoveSeries(RemoveAllSeries(data, ids[..|ids| - 1]), ids[|ids| - 1])
  }

  /** `Metadata` after deleting each id in turn. */
  function RemoveAllDescriptors(metadata: seq<Descriptor>, ids: seq<string>): seq<Descriptor>
    decreases |ids|
  {
    if |ids| == 0 then metadata
    else RemoveDescriptors(RemoveAllDescriptors(metadata, ids[..|ids| - 1]), ids[|ids| - 1])
  }

  /** Deleting one more id continues from where the previous deletions left the tables. */
  lemma RemoveAllStep(data: seq<Record>, metadata: seq<Descriptor>, ids: seq<string>, i: nat)
    requires i < |ids|
    ensures RemoveAllSeries(data, ids[..i + 1]) == RemoveSeries(RemoveAllSeries(data, ids[..i]), ids[i])
    ensures RemoveAllDescriptors(metadata, ids[..i + 1]) ==
              RemoveDescriptors(RemoveAllDescriptors(metadata, ids[..i]), ids[i])
  {
    assert ids[..i + 1][..i] == ids[..i];
  }

  function OutsideOf(ids: seq<string>): Record -> bool {
    (r: Record) => r.seriesId !in ids
  }

  function DescribesNoneOf(ids: seq<string>): Descriptor -> bool {
    (d: Descriptor) => d.seriesId !in ids
  }

  /** Deleting the ids one after another keeps, in stored order, exactly the rows whose id
      is none of them. */
  lemma {:induction false} RemoveAllSeriesIsFilter(data: seq<Record>, ids: seq<string>)
    ensures RemoveAllSeries(data, ids) == Filter(data, OutsideOf(ids))
    decreases |ids|
  {
    if |ids| == 0 {
      FilterKeepsAll(data, OutsideOf(ids));
    } else {
      var n := |ids| - 1;
      RemoveAllSeriesIsFilter(data, ids[..n]);
      assert ids == ids[..n] + [ids[n]];
      FilterFilter(data, OutsideOf(ids[..n]), OtherSeriesOf(ids[n]), OutsideOf(ids));
    }
  }

  lemma {:induction false} RemoveAllDescriptorsIsFilter(metadata: seq<Descriptor>, ids: seq<string>)
    ensures RemoveAllDescriptors(metadata, ids) == Filter(metadata, DescribesNoneOf(ids))
    decreases |ids|
  {
    if |ids| == 0 {
      FilterKeepsAll(metadata, DescribesNoneOf(ids));
    } else {
      var n := |ids| - 1;
      RemoveAllDescriptorsIsFilter(metadata, ids[..n]);
      assert ids == ids[..n] + [ids[n]];
      FilterFilter(metadata, DescribesNoneOf(ids[..n]), OtherDescriptorOf(ids[n]), DescribesNoneOf(ids));
    }
  }

  // ---------------------------------------------------------------------------------
  // Expression plot.

  /** What the expression callback shows: a line over the kept dates, or the error panel
      carrying the exception's text. */
  datatype Figure = Line(dates: seq<string>, values: seq<Option<real>>) | ErrorPanel(message: string)

  /** The evaluator of a user expression over the columns of a table: a value per row, or the
      text of the exception it raised. */
  type Evaluator = (string, Table) -> Result<seq<Option<real>>, string>

  function WithinOf(lo: string, hi: string): Row -> bool {
    (r: Row) => LexLe(lo, r.date) && LexLe(r.date, hi)
  }

  function RowDateSeq(rows: seq<Row>): (ds: seq<string>)
    ensures |ds| == |rows| && forall k :: 0 <= k < |rows| ==> ds[k] == rows[k].date
  {
    seq(|rows|, k requires 0 <= k < |rows| => rows[k].date)
  }

  /** The text pandas gives when a column of `n` values is assigned to a table of `m` rows. */
  function LengthMismatch(n: nat, m: nat): string {
    "Length of values (" + IntToString(n) + ") does not match length of index (" + IntToString(m) + ")"
  }

  /** Every date of the rows appears in their date column, and nothing else does. */
  lemma RowDateSeqMembers(rows: seq<Row>)
    ensures forall d :: d in RowDateSeq(rows) ==> exists row :: row in rows && row.date == d
    ensures forall row :: row in rows ==> row.date in RowDateSeq(rows)
  {
    var dates := RowDateSeq(rows);
    forall d | d in dates ensures exists row :: row in rows && row.date == d {
      var k :| 0 <= k < |dates| && dates[k] == d;
      assert rows[k] in rows;
    }
    forall row | row in rows ensures row.date in dates {
      var k :| 0 <= k < |rows| && rows[k] == row;
      assert dates[k] == row.date;
    }
  }

  /** The figure for the rows with `lo <= date <= hi`: the expression evaluated on them, any
      exception of the evaluation or of storing its result shown as the error panel. */
  function Draw(t: Table, expr: string, lo: string, hi: string, eval: Evaluator): (f: Figure)
    ensures f.ErrorPanel? ==>
              var kept := Table(t.columns, Filter(t.rows, WithinOf(lo, hi)));
              match eval(expr, kept)
              case Failure(msg) => f.message == msg
              case Success(vals) => |vals| != |kept.rows| && f.message == LengthMismatch(|vals|, |kept.rows|)
    ensures var kept := Table(t.columns, Filter(t.rows, WithinOf(lo, hi)));
            eval(expr, kept).Failure? ==> f == ErrorPanel(eval(expr, kept).error)
    ensures var kept := Table(t.columns, Filter(t.rows, WithinOf(lo, hi)));
            eval(expr, kept).Success? && |eval(expr, kept).value| != |kept.rows| ==>
              f == ErrorPanel(LengthMismatch(|eval(expr, kept).value|, |kept.rows|))
    ensures var kept := Table(t.columns, Filter(t.rows, WithinOf(lo, hi)));
            eval(expr, kept).Success? && |eval(expr, kept).value| == |kept.rows| ==>
              f == Line(RowDateSeq(kept.rows), eval(expr, kept).value)
    ensures f.Line? ==>
              && |f.dates| == |f.values| <= |t.rows|
              && (forall d :: d in f.dates ==> LexLe(lo, d) && LexLe(d, hi))
              && (forall row :: row in t.rows && LexLe(lo, row.date) && LexLe(row.date, hi) ==> row.date in f.dates)
  {
    var rows := Filter(t.rows, WithinOf(lo, hi));
    var kept := Table(t.columns, rows);
    match eval(expr, kept)
    case Failure(msg) => ErrorPanel(msg)
    case Success(vals) =>
      if |vals| != |rows| then ErrorPanel(LengthMismatch(|vals|, |rows|))
      else
        RowDateSeqMembers(rows);
        Line(RowDateSeq(rows), vals)
  }

  /** The body of `update_output_plot` after the query: both bounds are read as Timestamps
      (one that cannot be read raises outside the `try`), then the rows inside them are
      drawn. */
  function Plot(t: Table, expr: string, startDate: string, endDate: string, eval: Evaluator): (r: Result<Figure, Error>)
    ensures BoundStamp(startDate).None? ==> r == Failure(BadBound(startDate))
    ensures BoundStamp(startDate).Some? && BoundStamp(endDate).None? ==> r == Failure(BadBound(endDate))
    ensures BoundStamp(startDate).Some? && BoundStamp(endDate).Some? ==>
              r == Success(Draw(t, expr, BoundStamp(startDate).value, BoundStamp(endDate).value, eval))
  {
    match BoundStamp(startDate)
    case None => Failure(BadBound(startDate))
    case Some(lo) =>
      match BoundStamp(endDate)
      case None => Failure(BadBound(endDate))
      case Some(hi) => Success(Draw(t, expr, lo, hi, eval))
  }

  // ---------------------------------------------------------------------------------
  // The replacing alignment.

  /** The series `query_multiple_measurements` reads: every selected id's rows inside the
      window. */
  function WindowSeries(data: seq<Record>, ids: seq<string>, startDate: string, endDate: string): (ss: seq<seq<Point>>)
    ensures |ss| == |ids|
  {
    seq(|ids|, k requires 0 <= k < |ids| => Points(SelectData(data, ids[k], startDate, endDate)))
  }

  /** One turn of the `query_multiple_measurements` loop: the table is replaced while it has
      no rows and joined onto otherwise. */
  lemma ReplacingStep(data: seq<Record>, ids: seq<string>, startDate: string, endDate: string, i: nat)
    requires i < |ids|
    ensures var t := AlignReplacing(Positional(i), WindowSeries(data, ids[..i], startDate, endDate));
            var series := Points(SelectData(data, ids[i], startDate, endDate));
            AlignReplacing(Positional(i + 1), WindowSeries(data, ids[..i + 1], startDate, endDate)) ==
              if |t.rows| == 0 then Project(PositionalName(i), series) else Join(t, PositionalName(i), series)
  {
    var series := Points(SelectData(data, ids[i], startDate, endDate));
    assert Positional(i + 1)[..i] == Positional(i);
    assert ids[..i + 1][..i] == ids[..i];
    assert WindowSeries(data, ids[..i + 1], startDate, endDate)[..i] == WindowSeries(data, ids[..i], startDate, endDate);
    assert WindowSeries(data, ids[..i + 1], startDate, endDate)[i] == series;
  }

  /** What `query_multiple_measurements` returns for a non-empty selection: the columns of
      the selections from the first one with rows in the window on (earlier, empty ones lose
      their `m_i` column), all selections' dates, and, when no series repeats a date, the
      alignment of those series. */
  lemma MeasurementsAlign(data: seq<Record>, ids: seq<string>, startDate: string, endDate: string)
    requires |ids| > 0
    ensures var ss := WindowSeries(data, ids, startDate, endDate);
            && AlignReplacing(Positional(|ids|), ss).columns == Positional(|ids|)[Kept(ss)..]
            && RowDates(AlignReplacing(Positional(|ids|), ss).rows) == Union(ss)
            && ((forall i :: 0 <= i < |ss| ==> UniqueDates(ss[i])) ==>
                  Describes(AlignReplacing(Positional(|ids|), ss), ss[Kept(ss)..]))
  {
    ReplacingShape(Positional(|ids|), WindowSeries(data, ids, startDate, endDate));
  }

  /** The position of the first id the metadata does not describe, or the number of ids
      when it describes them all. `query_multiple_measurements` labels each id's metadata
      rows with a scalar, which pandas refuses on a frame with no rows. */
  function FirstUndescribed(metaAll: seq<Descriptor>, ids: seq<string>): (k: nat)
    ensures k <= |ids|
    ensures forall j :: 0 <= j < k ==> MetaFor(metaAll, ids[j]) != []
    ensures k < |ids| ==> MetaFor(metaAll, ids[k]) == []
  {
    if |ids| == 0 then 0
    else if MetaFor(metaAll, ids[0]) == [] then 0
    else 1 + FirstUndescribed(metaAll, ids[1..])
  }

  // ---------------------------------------------------------------------------------
  // The app.

  class DashApp {
    const db: PlantDataBase
    var metaAll: seq<Descriptor>
    var dropdownOptions: seq<DropdownOption>

    /** Reads all metadata once and derives the dropdown options from it. Building the
        layout then reads the first row's series id, so the table must not be empty. */
    constructor (db: PlantDataBase)
      requires db.hasMetadata && |db.metadata| > 0
      ensures this.db == db
      ensures metaAll == db.metadata && dropdownOptions == DropdownOptions(db.metadata)
    {
      var all := db.QueryAllMetadata();
      this.db := db;
      metaAll := all.value;
      dropdownOptions := DropdownOptions(all.value);
    }

    /** `generate_dropdown_options`, over the metadata the app holds. */
    function GenerateDropdownOptions(): (opts: seq<DropdownOption>)
      reads this
      ensures |opts| == |metaAll|
      ensures forall i :: 0 <= i < |metaAll| ==> opts[i].value == metaAll[i].seriesId
    {
      DropdownOptions(metaAll)
    }

    /** `update_dropdown_options`: the same options for all four dropdowns, from the metadata
        the app holds; the table data it is triggered by is not read. */
    function UpdateDropdownOptions(tableData: seq<Descriptor>)
      : (r: (seq<DropdownOption>, seq<DropdownOption>, seq<DropdownOption>, seq<DropdownOption>))
      reads this
      ensures r.0 == r.1 == r.2 == r.3
      ensures |r.0| == |metaAll| && forall i :: 0 <= i < |metaAll| ==> r.0[i].value == metaAll[i].seriesId
    {
      var options := GenerateDropdownOptions();
      (options, options, options, options)
    }

    /** `query_and_prepare_data`: the held metadata rows of the series, and its rows inside
        the window with their day and minute-of-day keys. */
    method QueryAndPrepareData(selected: string, startDate: string, endDate: string)
      returns (r: Result<(seq<Descriptor>, seq<KeyedRecord>), Error>)
      requires db.Valid()
      ensures r == if db.hasData then Success((MetaFor(metaAll, selected), Keyed(SelectData(db.data, selected, startDate, endDate))))
                   else Failure(NoSuchTable("Data"))
    {
      var metaRow := MetaFor(metaAll, selected);
      var df := db.QueryData(selected, startDate, endDate);
      if df.Failure? {
        return Failure(df.error);
      }
      return Success((metaRow, Keyed(df.value)));
    }

    /** `query_multiple_measurements`: for each selection in turn, its held metadata rows
        labelled `m_i` and its rows inside the window as column `m_i`; while the accumulated
        table has no rows the new series replaces it, otherwise it is outer-joined on
        `date`. */
    method QueryMultipleMeasurements(selected: seq<string>, startDate: string, endDate: string)
      returns (r: Result<(seq<Labeled>, Table), Error>)
      requires db.Valid()
      ensures |selected| > 0 && !db.hasData ==> r == Failure(NoSuchTable("Data"))
      ensures (|selected| == 0 || db.hasData) && FirstUndescribed(metaAll, selected) < |selected| ==>
                r == Failure(NoMetadataRow(selected[FirstUndescribed(metaAll, selected)]))
      ensures (|selected| == 0 || db.hasData) && FirstUndescribed(metaAll, selected) == |selected| ==>
                r == Success((LabelAll(metaAll, selected, Positional(|selected|)),
                              AlignReplacing(Positional(|selected|), WindowSeries(db.data, selected, startDate, endDate))))
    {
      var df := EmptyTable;
      var metaRows: seq<Labeled> := [];
      for i := 0 to |selected|
        invariant i > 0 ==> db.hasData
        invariant i <= FirstUndescribed(metaAll, selected)
        invariant df == AlignReplacing(Positional(i), WindowSeries(db.data, selected[..i], startDate, endDate))
        invariant metaRows == LabelAll(metaAll, selected[..i], Positional(i))
      {
        var name := PositionalName(i);
        var metaRow := MetaFor(metaAll, selected[i]);
        var mdf := db.QueryData(selected[i], startDate, endDate);
        if mdf.Failure? {
          return Failure(mdf.error);
        }
        if |metaRow| == 0 {
          return Failure(NoMetadataRow(selected[i]));
        }
        metaRows := metaRows + Label(metaRow, name);
        var series := Points(mdf.value);
        ReplacingStep(db.data, selected, startDate, endDate, i);
        QueryMultipleStep(db.data, metaAll, selected, i);
        if |df.rows| == 0 {
          df := Project(name, series);
        } else {
          df := Join(df, name, series);
        }
      }
      assert selected[..|selected|] == selected;
      return Success((metaRows, df));
    }

    /** `delete_rows`: on a click, the ids of the selected rows are looked up first, then
        deleted from the store one by one, then the held metadata is re-read; the table gets
        the new metadata and the selection is cleared. Without a click nothing changes. An
        exception stops the callback where it is raised: deletes already done stay done. */
    method DeleteRows(nClicks: int, selectedRows: seq<int>, rows: seq<Descriptor>)
      returns (r: Result<(seq<Descriptor>, seq<int>), Error>)
      requires db.Valid()
      modifies this, db
      ensures db.Valid()
      ensures db.hasData == old(db.hasData) && db.hasMetadata == old(db.hasMetadata)
      ensures dropdownOptions == old(dropdownOptions)
      ensures nClicks <= 0 ==>
                r == Success((rows, [])) && db.data == old(db.data) && db.metadata == old(db.metadata) &&
                metaAll == old(metaAll)
      ensures nClicks > 0 && SelectedIds(rows, selectedRows).Failure? ==>
                r == Failure(SelectedIds(rows, selectedRows).error) &&
                db.data == old(db.data) && db.metadata == old(db.metadata) && metaAll == old(metaAll)
      ensures nClicks > 0 && SelectedIds(rows, selectedRows).Success? ==>
                var ids := SelectedIds(rows, selectedRows).value;
                if (|ids| > 0 && !db.hasData) || !db.hasMetadata then
                  r == Failure(if |ids| > 0 && !db.hasData then NoSuchTable("Data") else NoSuchTable("Metadata")) &&
                  db.data == old(db.data) && db.metadata == old(db.metadata) && metaAll == old(metaAll)
                else
                  db.data == RemoveAllSeries(old(db.data), ids) &&
                  db.metadata == RemoveAllDescriptors(old(db.metadata), ids) &&
                  metaAll == db.metadata && r == Success((db.metadata, []))
    {
      if nClicks <= 0 {
        return Success((rows, []));
      }
      var sel := SelectedIds(rows, selectedRows);
      if sel.Failure? {
        return Failure(sel.error);
      }
      var ids := sel.value;
      for i := 0 to |ids|
        invariant db.Valid()
        invariant db.hasData == old(db.hasData) && db.hasMetadata == old(db.hasMetadata)
        invariant i > 0 ==> db.hasData && db.hasMetadata
        invariant db.data == RemoveAllSeries(old(db.data), ids[..i])
        invariant db.metadata == RemoveAllDescriptors(old(db.metadata), ids[..i])
        invariant metaAll == old(metaAll) && dropdownOptions == old(dropdownOptions)
      {
        RemoveAllStep(old(db.data), old(db.metadata), ids, i);
        var o := db.DeleteMeasurements(ids[i]);
        if o.Fail? {
          return Failure(o.error);
        }
      }
      assert ids[..|ids|] == ids;
      var all := db.QueryAllMetadata();
      if all.Failure? {
        return Failure(all.error);
      }
      metaAll := all.value;
      return Success((metaAll, []));
    }

    /** `update_output_plot`: aligns the selected series with `query_multiple` (whose errors
        are not caught), then plots the evaluated expression inside the window. */
    method UpdateOutputPlot(selected: seq<string>, expr: string, startDate: string, endDate: string, eval: Evaluator)
      returns (r: Result<Figure, Error>)
      requires db.Valid()
      ensures !db.hasMetadata ==> r == Failure(NoSuchTable("Metadata"))
      ensures db.hasMetadata && |selected| == 0 ==> r == Failure(EmptySelection)
      ensures db.hasMetadata && |selected| > 0 && !db.hasData ==> r == Failure(NoSuchTable("Data"))
      ensures db.hasMetadata && db.hasData && |selected| > 0 ==>
                r == Plot(AlignAll(Positional(|selected|), SeriesOf(db.data, selected)), expr, startDate, endDate, eval)
    {
      var q := db.QueryMultiple(selected);
      if q.Failure? {
        return Failure(q.error);
      }
      var (df, meta) := q.value;
      return Plot(df, expr, startDate, endDate, eval);
    }
  }
}
