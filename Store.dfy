/** The measurement store `PlantDataBase` (functions/db.py): the `Metadata` and `Data`
    relations held in memory, the series key, the date-window query, the compound delete
    and the positional alignment of several series. */
module Store {
  import opened Wrappers
  import opened Seqs
  import opened Text
  import opened Timestamps
  import opened Schema
  import opened Align

  // ---------------------------------------------------------------------------------
  // The series key.

  /** The six fields a series id is derived from, in key order. */
  datatype KeyFields = KeyFields(
    msr: string,
    msrAttribute: string,
    startDate: string,
    endDate: string,
    rasterSize: int,
    rasterUnit: string)

  /** The string that is hashed into a series id: the six fields joined by `_`, the raster
      size written as Python writes an integer. */
  function SeriesKey(f: KeyFields): string {
    f.msr + "_" + f.msrAttribute + "_" + f.startDate + "_" + f.endDate + "_" +
    IntToString(f.rasterSize) + "_" + f.rasterUnit
  }

  /** The first position of `c` in `s`, or `|s|` when there is none. */
  function IndexOf(s: string, c: char): (k: nat)
    ensures k <= |s| && (k < |s| ==> s[k] == c)
    ensures forall j :: 0 <= j < k ==> s[j] != c
  {
    if |s| == 0 then 0 else if s[0] == c then 0 else 1 + IndexOf(s[1..], c)
  }

  /** `s` cut at its first `_`. */
  function SplitOnce(s: string): Option<(string, string)> {
    var k := IndexOf(s, '_');
    if k == |s| then None else Some((s[..k], s[k + 1..]))
  }

  /** Reads the six fields back out of a key string, cutting at the first five `_`. */
  function SplitKey(key: string): Option<KeyFields> {
    match SplitOnce(key)
    case None => None
    case Some((msr, r1)) =>
      match SplitOnce(r1)
      case None => None
      case Some((attr, r2)) =>
        match SplitOnce(r2)
        case None => None
        case Some((start, r3)) =>
          match SplitOnce(r3)
          case None => None
          case Some((end, r4)) =>
            match SplitOnce(r4)
            case None => None
            case Some((size, unit)) =>
              match ParseInt(size)
              case None => None
              case Some(n) => Some(KeyFields(msr, attr, start, end, n, unit))
  }

  /** The first four fields hold no separator (the raster size never does, and the last
      field may). */
  predicate Separable(f: KeyFields) {
    '_' !in f.msr && '_' !in f.msrAttribute && '_' !in f.startDate && '_' !in f.endDate
  }

  lemma {:induction false} SplitOnceAt(a: string, b: string)
    requires '_' !in a
    ensures SplitOnce(a + "_" + b) == Some((a, b))
  {
    var s := a + "_" + b;
    assert forall j :: 0 <= j < |a| ==> s[j] == a[j];
    IndexOfFirst(s, |a|);
    assert s[..|a|] == a && s[|a| + 1..] == b;
  }

  lemma {:induction false} IndexOfFirst(s: string, k: nat)
    requires k < |s| && s[k] == '_' && forall j :: 0 <= j < k ==> s[j] != '_'
    ensures IndexOf(s, '_') == k
  {
    if k > 0 {
      IndexOfFirst(s[1..], k - 1);
    }
  }

  /** When the first four fields hold no `_`, the key string determines all six fields. */
  lemma SeriesKeyRoundTrip(f: KeyFields)
    requires Separable(f)
    ensures SplitKey(SeriesKey(f)) == Some(f)
  {
    var size := IntToString(f.rasterSize);
    var r4 := size + "_" + f.rasterUnit;
    var r3 := f.endDate + "_" + r4;
    var r2 := f.startDate + "_" + r3;
    var r1 := f.msrAttribute + "_" + r2;
    SeriesKeyNested(f);
    SplitOnceAt(f.msr, r1);
    SplitOnceAt(f.msrAttribute, r2);
    SplitOnceAt(f.startDate, r3);
    SplitOnceAt(f.endDate, r4);
    assert '_' !in size;
    SplitOnceAt(size, f.rasterUnit);
    IntRoundTrip(f.rasterSize);
  }

  /** The key string read from the right: each field followed by the rest. */
  lemma SeriesKeyNested(f: KeyFields)
    ensures SeriesKey(f) ==
              f.msr + "_" + (f.msrAttribute + "_" + (f.startDate + "_" + (f.endDate + "_" +
              (IntToString(f.rasterSize) + "_" + f.rasterUnit))))
  {
  }

  /** Hence two separable six-tuples with equal key strings are equal. */
  lemma SeriesKeyInjective(f: KeyFields, g: KeyFields)
    requires Separable(f) && Separable(g) && SeriesKey(f) == SeriesKey(g)
    ensures f == g
  {
    SeriesKeyRoundTrip(f);
    SeriesKeyRoundTrip(g);
  }

  /** Without that condition the key string is not injective: moving a `_` from the end
      of the msr to the front of the attribute gives a different tuple and the same key
      (msr "a_b" with attribute "c" against msr "a" with attribute "b_c"). */
  lemma KeyCollision(a: string, b: string, c: string, start: string, end: string, size: int, unit: string)
    ensures KeyFields(a + "_" + b, c, start, end, size, unit) != KeyFields(a, b + "_" + c, start, end, size, unit)
    ensures SeriesKey(KeyFields(a + "_" + b, c, start, end, size, unit)) ==
            SeriesKey(KeyFields(a, b + "_" + c, start, end, size, unit))
  {
    assert |a + "_" + b| != |a|;
    var f := KeyFields(a + "_" + b, c, start, end, size, unit);
    var g := KeyFields(a, b + "_" + c, start, end, size, unit);
    KeyAfterAttribute(f);
    KeyAfterAttribute(g);
    assert (a + "_" + b) + "_" + c == a + "_" + (b + "_" + c);
  }

  /** The key string is msr, `_` and attribute, followed by a part that does not depend on
      either. */
  lemma KeyAfterAttribute(f: KeyFields)
    ensures SeriesKey(f) == f.msr + "_" + f.msrAttribute + KeyTail(f)
  {
    var head := f.msr + "_" + f.msrAttribute;
    var size := IntToString(f.rasterSize);
    assert SeriesKey(f) == head + "_" + f.startDate + "_" + f.endDate + "_" + size + "_" + f.rasterUnit;
  }

  function KeyTail(f: KeyFields): string {
    "_" + f.startDate + "_" + f.endDate + "_" + IntToString(f.rasterSize) + "_" + f.rasterUnit
  }

  // ---------------------------------------------------------------------------------
  // Selections over the two relations.

  /** `date >= 'bound'` in SQLite. The `date` column is declared DATETIME, which gives it
      NUMERIC affinity, so a quoted bound that reads as a number is compared as a number,
      and every number sorts before every TEXT value. Any other bound compares as text. A
      stored date is TEXT: `PlantDataBase.Valid` keeps every one in the fixed format. */
  predicate AtLeast(date: string, bound: string) {
    SqlNumeric(bound) || LexLe(bound, date)
  }

  /** `date <= 'bound'` in SQLite, under the same conversion of the bound. */
  predicate AtMost(date: string, bound: string) {
    !SqlNumeric(bound) && LexLe(date, bound)
  }

  /** The filter of `query_data`: the series, and each bound only when it is given (a
      falsy bound, None or the empty string, is written here as ""). */
  predicate InWindow(r: Record, id: string, startDate: string, endDate: string) {
    && r.seriesId == id
    && (startDate == "" || AtLeast(r.date, startDate))
    && (endDate == "" || AtMost(r.date, endDate))
  }

  function InWindowOf(id: string, startDate: string, endDate: string): Record -> bool {
    (r: Record) => InWindow(r, id, startDate, endDate)
  }

  /** The rows `query_data` returns: in stored order, exactly those of the series inside
      the window. */
  function SelectData(data: seq<Record>, id: string, startDate: string, endDate: string): (rows: seq<Record>)
    ensures forall r :: r in rows <==>
              r in data && r.seriesId == id &&
              (startDate == "" || AtLeast(r.date, startDate)) && (endDate == "" || AtMost(r.date, endDate))
  {
    Filter(data, InWindowOf(id, startDate, endDate))
  }

  function DescribingOf(id: string): Descriptor -> bool {
    (d: Descriptor) => d.seriesId == id
  }

  /** `meta_all[meta_all['series_id'] == id]`. */
  function MetaFor(metadata: seq<Descriptor>, id: string): (rows: seq<Descriptor>)
    ensures forall d :: d in rows <==> d in metadata && d.seriesId == id
  {
    Filter(metadata, DescribingOf(id))
  }

  function OtherSeriesOf(id: string): Record -> bool {
    (r: Record) => r.seriesId != id
  }

  function OtherDescriptorOf(id: string): Descriptor -> bool {
    (d: Descriptor) => d.seriesId != id
  }

  /** `Data` after `DELETE FROM Data WHERE series_id=?`. */
  function RemoveSeries(data: seq<Record>, id: string): (kept: seq<Record>)
    ensures forall r :: r in kept <==> r in data && r.seriesId != id
  {
    Filter(data, OtherSeriesOf(id))
  }

  /** `Metadata` after `DELETE FROM Metadata WHERE series_id=?`. */
  function RemoveDescriptors(metadata: seq<Descriptor>, id: string): (kept: seq<Descriptor>)
    ensures forall d :: d in kept <==> d in metadata && d.seriesId != id
  {
    Filter(metadata, OtherDescriptorOf(id))
  }

  /** Hence two different six-tuples can share a series id: the collision happens before
      hashing. */
  lemma IdCollision(db: PlantDataBase, a: string, b: string, c: string, start: string, end: string, size: int, unit: string)
    ensures KeyFields(a + "_" + b, c, start, end, size, unit) != KeyFields(a, b + "_" + c, start, end, size, unit)
    ensures db.GetHash(KeyFields(a + "_" + b, c, start, end, size, unit)) ==
            db.GetHash(KeyFields(a, b + "_" + c, start, end, size, unit))
  {
    KeyCollision(a, b, c, start, end, size, unit);
  }

  /** The window selection respects stored order: selecting from two stretches of the table
      is selecting from each in turn. */
  lemma SelectDataKeepsOrder(a: seq<Record>, b: seq<Record>, id: string, startDate: string, endDate: string)
    ensures SelectData(a + b, id, startDate, endDate) ==
            SelectData(a, id, startDate, endDate) + SelectData(b, id, startDate, endDate)
  {
    FilterConcat(a, b, InWindowOf(id, startDate, endDate));
  }

  /** An id no row carries selects nothing: an empty result, not an error. */
  lemma SelectUnknownId(data: seq<Record>, id: string, startDate: string, endDate: string)
    requires forall r :: r in data ==> r.seriesId != id
    ensures SelectData(data, id, startDate, endDate) == []
  {
    FilterKeepsNone(data, InWindowOf(id, startDate, endDate));
  }

  /** A bare `YYYY-MM-DD` end bound excludes every timestamp of that very day, while the
      same start bound includes all of them. */
  lemma BareEndBoundExcludesDay(data: seq<Record>, id: string, day: string, r: Record)
    requires r in data && r.seriesId == id && Canonical(r.date) && DayKey(r.date) == day
    ensures r !in SelectData(data, id, "", day)
    ensures r in SelectData(data, id, day, "")
  {
    BareDateAgainstSameDay(r.date);
    FixedBoundComparesAsText(r.date, day);
  }

  /** A bound in the fixed format compares as text, exactly as the string order says. */
  lemma FixedBoundComparesAsText(date: string, bound: string)
    requires IsDate(bound) || Canonical(bound)
    ensures AtLeast(date, bound) <==> LexLe(bound, date)
    ensures AtMost(date, bound) <==> LexLe(date, bound)
  {
    FixedFormatIsText(bound);
  }

  /** A start bound that reads as a number, such as a bare year, holds no row back: the
      query returns the series' rows as if no start were given. */
  lemma NumericStartKeepsAll(data: seq<Record>, id: string, startDate: string, endDate: string)
    requires SqlNumeric(startDate)
    ensures SelectData(data, id, startDate, endDate) == SelectData(data, id, "", endDate)
  {
    FilterExt(data, InWindowOf(id, startDate, endDate), InWindowOf(id, "", endDate));
  }

  /** An end bound that reads as a number lets no row through. */
  lemma NumericEndKeepsNone(data: seq<Record>, id: string, startDate: string, endDate: string)
    requires SqlNumeric(endDate)
    ensures SelectData(data, id, startDate, endDate) == []
  {
    SqlNumericNotEmpty(endDate);
    FilterKeepsNone(data, InWindowOf(id, startDate, endDate));
  }

  /** Hence a bare year such as `2024` keeps every row of the series as a start bound and
      none as an end bound, whatever the year of the stored dates. */
  lemma YearBound(data: seq<Record>, id: string, year: string, r: Record)
    requires |year| > 0 && AllDigits(year)
    requires r in data && r.seriesId == id
    ensures r in SelectData(data, id, year, "")
    ensures SelectData(data, id, "", year) == []
  {
    DigitsAreNumeric(year);
    NumericEndKeepsNone(data, id, "", year);
  }

  /** After the compound delete nothing of the series is left: no Data row and no Metadata
      row carries its id, and the window query for it is empty. */
  lemma DeleteLeavesNothing(data: seq<Record>, metadata: seq<Descriptor>, id: string, startDate: string, endDate: string)
    ensures SelectData(RemoveSeries(data, id), id, startDate, endDate) == []
    ensures MetaFor(RemoveDescriptors(metadata, id), id) == []
  {
    SelectUnknownId(RemoveSeries(data, id), id, startDate, endDate);
    FilterKeepsNone(RemoveDescriptors(metadata, id), DescribingOf(id));
  }

  /** The delete keeps every other row in its stored order. */
  lemma RemoveSeriesKeepsOrder(a: seq<Record>, b: seq<Record>, id: string)
    ensures RemoveSeries(a + b, id) == RemoveSeries(a, id) + RemoveSeries(b, id)
  {
    FilterConcat(a, b, OtherSeriesOf(id));
  }

  /** Deleting an id no row carries changes nothing. */
  lemma DeleteAbsentIsNoop(data: seq<Record>, metadata: seq<Descriptor>, id: string)
    requires forall r :: r in data ==> r.seriesId != id
    requires forall d :: d in metadata ==> d.seriesId != id
    ensures RemoveSeries(data, id) == data
    ensures RemoveDescriptors(metadata, id) == metadata
  {
    FilterKeepsAll(data, OtherSeriesOf(id));
    FilterKeepsAll(metadata, OtherDescriptorOf(id));
  }

  // ---------------------------------------------------------------------------------
  // Alignment inputs and outputs.

  /** `df[['date', 'mean']]` of a query result: one point per row, in order. */
  function Points(rows: seq<Record>): (s: seq<Point>)
    ensures |s| == |rows|
    ensures forall k :: 0 <= k < |rows| ==> s[k].date == rows[k].date && s[k].value == rows[k].mean
  {
    seq(|rows|, k requires 0 <= k < |rows| => Point(rows[k].date, rows[k].mean))
  }

  /** The series `query_multiple` reads, one per id: every row of that id, no window. */
  function SeriesOf(data: seq<Record>, ids: seq<string>): (ss: seq<seq<Point>>)
    ensures |ss| == |ids|
  {
    seq(|ids|, k requires 0 <= k < |ids| => Points(SelectData(data, ids[k], "", "")))
  }

  /** The column name `f'm_{i}'`. */
  function PositionalName(i: nat): string {
    "m_" + IntToString(i)
  }

  /** `m_0, m_1, ...` for `n` series. */
  function Positional(n: nat): (names: seq<string>)
    ensures |names| == n
  {
    seq(n, i requires 0 <= i < n => PositionalName(i))
  }

  /** The positional names never clash. */
  lemma PositionalNamesDistinct(n: nat, i: nat, j: nat)
    requires i < n && j < n && i != j
    ensures Positional(n)[i] != Positional(n)[j]
  {
    if Positional(n)[i] == Positional(n)[j] {
      assert IntToString(i) == PositionalName(i)[2..];
      assert IntToString(j) == PositionalName(j)[2..];
      IntToStringInjective(i, j);
    }
  }

  /** A metadata row of an alignment result with its added name column (`name` in
      `query_multiple`, `index` in the dashboard). */
  datatype Labeled = Labeled(desc: Descriptor, name: string)

  /** `ds.assign(name=...)`: every row, in order, with the same name. */
  function Label(ds: seq<Descriptor>, name: string): (out: seq<Labeled>)
    ensures |out| == |ds| && forall k :: 0 <= k < |ds| ==> out[k].desc == ds[k] && out[k].name == name
    ensures forall d :: d in ds ==> Labeled(d, name) in out
  {
    var out := seq(|ds|, k requires 0 <= k < |ds| => Labeled(ds[k], name));
    assert forall d :: d in ds ==> Labeled(d, name) in out by {
      forall d | d in ds ensures Labeled(d, name) in out {
        var k :| 0 <= k < |ds| && ds[k] == d;
        assert out[k] == Labeled(d, name);
      }
    }
    out
  }

  /** The metadata rows of every id, labelled with its column name, concatenated in input
      order. An id without metadata contributes nothing. */
  function LabelAll(metaAll: seq<Descriptor>, ids: seq<string>, names: seq<string>): (out: seq<Labeled>)
    requires |names| == |ids|
    ensures forall l :: l in out ==>
              (l.desc in metaAll &&
               exists i :: 0 <= i < |ids| && l.name == names[i] && l.desc.seriesId == ids[i])
    ensures forall i, d :: 0 <= i < |ids| && d in metaAll && d.seriesId == ids[i] ==>
              Labeled(d, names[i]) in out
    decreases |ids|
  {
    if |ids| == 0 then []
    else
      var n := |ids| - 1;
      var prev := LabelAll(metaAll, ids[..n], names[..n]);
      var mine := MetaFor(metaAll, ids[n]);
      assert forall i :: 0 <= i < n ==> ids[..n][i] == ids[i] && names[..n][i] == names[i];
      prev + Label(mine, names[n])
  }

  // ---------------------------------------------------------------------------------
  // The store.

  /** One condition of the `WHERE` clause that `query_data` builds. */
  datatype Condition = SeriesIs(id: string) | DateAtLeast(bound: string) | DateAtMost(bound: string)

  predicate Holds(c: Condition, r: Record) {
    match c
    case SeriesIs(id) => r.seriesId == id
    case DateAtLeast(b) => AtLeast(r.date, b)
    case DateAtMost(b) => AtMost(r.date, b)
  }

  function WhereOf(conds: seq<Condition>): Record -> bool {
    (r: Record) => forall c :: c in conds ==> Holds(c, r)
  }

  /** The clause `query_data` builds selects the window: the series condition, then each
      bound only when it is given. */
  lemma WhereIsWindow(data: seq<Record>, conds: seq<Condition>, id: string, startDate: string, endDate: string)
    requires conds == [SeriesIs(id)] + (if startDate != "" then [DateAtLeast(startDate)] else [])
                      + (if endDate != "" then [DateAtMost(endDate)] else [])
    ensures Filter(data, WhereOf(conds)) == SelectData(data, id, startDate, endDate)
  {
    forall x | x in data
      ensures WhereOf(conds)(x) == InWindowOf(id, startDate, endDate)(x)
    {
      WhereHolds(conds, id, startDate, endDate, x);
    }
    FilterExt(data, WhereOf(conds), InWindowOf(id, startDate, endDate));
  }

  /** One record against that clause. */
  lemma WhereHolds(conds: seq<Condition>, id: string, startDate: string, endDate: string, x: Record)
    requires conds == [SeriesIs(id)] + (if startDate != "" then [DateAtLeast(startDate)] else [])
                      + (if endDate != "" then [DateAtMost(endDate)] else [])
    ensures (forall c :: c in conds ==> Holds(c, x)) == InWindow(x, id, startDate, endDate)
  {
    var a := Holds(SeriesIs(id), x);
    var b := startDate == "" || Holds(DateAtLeast(startDate), x);
    var e := endDate == "" || Holds(DateAtMost(endDate), x);
    assert (forall c :: c in conds ==> Holds(c, x)) == (a && b && e);
  }

  class PlantDataBase {
    /** `hashlib.sha256(key.encode()).hexdigest()`: deterministic and otherwise opaque. */
    const hash: string -> string
    /** Whether each table exists in the database file. */
    var hasMetadata: bool
    var hasData: bool
    var metadata: seq<Descriptor>
    var data: seq<Record>

    /** A missing table holds no rows, and every stored date is a timestamp in the fixed
        format (so converting the `date` column never fails). */
    ghost predicate Valid()
      reads this
    {
      && (!hasMetadata ==> metadata == [])
      && (!hasData ==> data == [])
      && forall r :: r in data ==> Canonical(r.date)
    }

    /** Opening the database file: its tables and rows are whatever the file holds. */
    constructor (hash: string -> string, hasMetadata: bool, hasData: bool,
                 metadata: seq<Descriptor>, data: seq<Record>)
      requires !hasMetadata ==> metadata == []
      requires !hasData ==> data == []
      requires forall r :: r in data ==> Canonical(r.date)
      ensures Valid()
      ensures this.hash == hash && this.hasMetadata == hasMetadata && this.hasData == hasData
      ensures this.metadata == metadata && this.data == data
    {
      this.hash := hash;
      this.hasMetadata := hasMetadata;
      this.hasData := hasData;
      this.metadata := metadata;
      this.data := data;
    }

    /** `CREATE TABLE IF NOT EXISTS` for both tables: afterwards both exist, and rows that
        were there stay. */
    method CreateTables()
      requires Valid()
      modifies this
      ensures Valid()
      ensures hasMetadata && hasData
      ensures metadata == old(metadata) && data == old(data)
    {
      if !hasMetadata {
        hasMetadata := true;
        metadata := [];
      }
      if !hasData {
        hasData := true;
        data := [];
      }
    }

    /** `DROP TABLE Data` then `DROP TABLE Metadata`. Each runs outside a transaction, so
        when the second fails the first stays done. */
    method DropTables() returns (o: Outcome<Error>)
      requires Valid()
      modifies this
      ensures Valid()
      ensures !old(hasData) ==>
                o == Fail(NoSuchTable("Data")) && hasData == old(hasData) && data == old(data) &&
                hasMetadata == old(hasMetadata) && metadata == old(metadata)
      ensures old(hasData) ==> !hasData && data == []
      ensures old(hasData) && !old(hasMetadata) ==>
                o == Fail(NoSuchTable("Metadata")) && !hasMetadata && metadata == old(metadata)
      ensures old(hasData) && old(hasMetadata) ==> o == Pass && !hasMetadata && metadata == []
    {
      if !hasData {
        return Fail(NoSuchTable("Data"));
      }
      hasData, data := false, [];
      if !hasMetadata {
        return Fail(NoSuchTable("Metadata"));
      }
      hasMetadata, metadata := false, [];
      return Pass;
    }

    /** `id` is the digest of the key string of the six fields. */
    function GetHash(f: KeyFields): string {
      hash(SeriesKey(f))
    }

    /** `SELECT * FROM Metadata`: every descriptor, in stored order. */
    method QueryAllMetadata() returns (r: Result<seq<Descriptor>, Error>)
      ensures r == if hasMetadata then Success(metadata) else Failure(NoSuchTable("Metadata"))
    {
      if !hasMetadata {
        return Failure(NoSuchTable("Metadata"));
      }
      return Success(metadata);
    }

    /** `query_data`: builds its `WHERE` clause one condition at a time, then runs it. The
        rows are exactly those of `SelectData`. */
    method QueryData(seriesId: string, startDate: string := "", endDate: string := "")
      returns (r: Result<seq<Record>, Error>)
      ensures r == if hasData then Success(SelectData(data, seriesId, startDate, endDate))
                   else Failure(NoSuchTable("Data"))
    {
      var conds := [SeriesIs(seriesId)];
      if startDate != "" {
        conds := conds + [DateAtLeast(startDate)];
      }
      if endDate != "" {
        conds := conds + [DateAtMost(endDate)];
      }
      if !hasData {
        return Failure(NoSuchTable("Data"));
      }
      var rows := Filter(data, WhereOf(conds));
      WhereIsWindow(data, conds, seriesId, startDate, endDate);
      return Success(rows);
    }

    /** `query_measurements`: derives the id (raster 15 "min" unless given), then selects
        the Data rows and the Metadata rows that carry it. */
    method QueryMeasurements(msr: string, msrAttribute: string, startDate: string, endDate: string,
                             rasterSize: int := 15, rasterUnit: string := "min")
      returns (r: Result<(seq<Record>, seq<Descriptor>), Error>)
      ensures var id := GetHash(KeyFields(msr, msrAttribute, startDate, endDate, rasterSize, rasterUnit));
              r == if !hasData then Failure(NoSuchTable("Data"))
                   else if !hasMetadata then Failure(NoSuchTable("Metadata"))
                   else Success((SelectData(data, id, "", ""), MetaFor(metadata, id)))
    {
      var id := GetHash(KeyFields(msr, msrAttribute, startDate, endDate, rasterSize, rasterUnit));
      var rows := QueryData(id);
      if rows.Failure? {
        return Failure(rows.error);
      }
      if !hasMetadata {
        return Failure(NoSuchTable("Metadata"));
      }
      return Success((rows.value, MetaFor(metadata, id)));
    }

    /** `delete_measurements`: the Data rows of the series, then its Metadata row. Both
        deletes run in one transaction that is committed only after the second, so a failure
        of either leaves the store as it was. */
    method DeleteMeasurements(seriesId: string) returns (o: Outcome<Error>)
      requires Valid()
      modifies this
      ensures Valid()
      ensures hasData == old(hasData) && hasMetadata == old(hasMetadata)
      ensures !hasData ==> o == Fail(NoSuchTable("Data"))
      ensures hasData && !hasMetadata ==> o == Fail(NoSuchTable("Metadata"))
      ensures o.Fail? ==> data == old(data) && metadata == old(metadata)
      ensures hasData && hasMetadata ==>
                o == Pass && data == RemoveSeries(old(data), seriesId) &&
                metadata == RemoveDescriptors(old(metadata), seriesId)
    {
      if !hasData {
        return Fail(NoSuchTable("Data"));
      }
      var keptData := RemoveSeries(data, seriesId);
      if !hasMetadata {
        // the exception leaves the open transaction uncommitted
        return Fail(NoSuchTable("Metadata"));
      }
      data := keptData;
      metadata := RemoveDescriptors(metadata, seriesId);
      return Pass;
    }

    /** `query_multiple`: reads all metadata, then for every id in turn its rows, named
        `m_i` by position; the first series initialises the table and each later one is
        outer-joined on `date`. With no ids the table is never bound. */
    method QueryMultiple(seriesIds: seq<string>) returns (r: Result<(Table, seq<Labeled>), Error>)
      requires Valid()
      ensures !hasMetadata ==> r == Failure(NoSuchTable("Metadata"))
      ensures hasMetadata && |seriesIds| == 0 ==> r == Failure(EmptySelection)
      ensures hasMetadata && |seriesIds| > 0 && !hasData ==> r == Failure(NoSuchTable("Data"))
      ensures hasMetadata && hasData && |seriesIds| > 0 ==>
                r == Success((AlignAll(Positional(|seriesIds|), SeriesOf(data, seriesIds)),
                              LabelAll(metadata, seriesIds, Positional(|seriesIds|))))
    {
      var all := QueryAllMetadata();
      if all.Failure? {
        return Failure(all.error);
      }
      var metaAll := all.value;
      var df := EmptyTable;
      var meta: seq<Labeled> := [];
      for i := 0 to |seriesIds|
        invariant i > 0 ==> hasData
        invariant df == AlignAll(Positional(i), SeriesOf(data, seriesIds[..i]))
        invariant meta == LabelAll(metaAll, seriesIds[..i], Positional(i))
      {
        var q := QueryData(seriesIds[i]);
        if q.Failure? {
          return Failure(q.error);
        }
        var series := Points(q.value);
        var name := PositionalName(i);
        QueryMultipleStep(data, metaAll, seriesIds, i);
        if i == 0 {
          df := Project(name, series);
          meta := Label(MetaFor(metaAll, seriesIds[i]), name);
        } else {
          df := Join(df, name, series);
          meta := meta + Label(MetaFor(metaAll, seriesIds[i]), name);
        }
      }
      if |seriesIds| == 0 {
        return Failure(EmptySelection);
      }
      assert seriesIds[..|seriesIds|] == seriesIds;
      return Success((df, meta));
    }
  }

  /** One turn of the `query_multiple` loop extends both accumulated results by the next id. */
  lemma QueryMultipleStep(data: seq<Record>, metaAll: seq<Descriptor>, ids: seq<string>, i: nat)
    requires i < |ids|
    ensures var series := Points(SelectData(data, ids[i], "", ""));
            AlignAll(Positional(i + 1), SeriesOf(data, ids[..i + 1])) ==
              if i == 0 then Project(PositionalName(i), series)
              else Join(AlignAll(Positional(i), SeriesOf(data, ids[..i])), PositionalName(i), series)
    ensures LabelAll(metaAll, ids[..i + 1], Positional(i + 1)) ==
              LabelAll(metaAll, ids[..i], Positional(i)) + Label(MetaFor(metaAll, ids[i]), PositionalName(i))
  {
    var series := Points(SelectData(data, ids[i], "", ""));
    var name := PositionalName(i);
    assert Positional(i + 1) == Positional(i) + [name];
    assert SeriesOf(data, ids[..i + 1]) == SeriesOf(data, ids[..i]) + [series];
    AlignAllSnoc(Positional(i), SeriesOf(data, ids[..i]), name, series);
    LabelAllStep(metaAll, ids, i);
  }

  lemma LabelAllStep(metaAll: seq<Descriptor>, ids: seq<string>, i: nat)
    requires i < |ids|
    ensures LabelAll(metaAll, ids[..i + 1], Positional(i + 1)) ==
              LabelAll(metaAll, ids[..i], Positional(i)) + Label(MetaFor(metaAll, ids[i]), PositionalName(i))
  {
    assert Positional(i + 1)[..i] == Positional(i);
    assert ids[..i + 1][..i] == ids[..i];
  }

  /** What `query_multiple` returns: column `m_i` for the i-th id, the union of all the
      series' dates, and, when no series repeats a date, in each row the value of the i-th
      series at that date in column `m_i`. */
  lemma QueryMultipleAligns(data: seq<Record>, ids: seq<string>)
    ensures AlignAll(Positional(|ids|), SeriesOf(data, ids)).columns == Positional(|ids|)
    ensures RowDates(AlignAll(Positional(|ids|), SeriesOf(data, ids)).rows) == Union(SeriesOf(data, ids))
    ensures (forall i :: 0 <= i < |ids| ==> UniqueDates(SeriesOf(data, ids)[i])) ==>
              Describes(AlignAll(Positional(|ids|), SeriesOf(data, ids)), SeriesOf(data, ids))
  {
    AlignAllShape(Positional(|ids|), SeriesOf(data, ids));
    if forall i :: 0 <= i < |ids| ==> UniqueDates(SeriesOf(data, ids)[i]) {
      AlignAllDescribes(Positional(|ids|), SeriesOf(data, ids));
    }
  }

  /** The dates of one id's series are the dates of exactly the Data rows carrying it. */
  lemma SeriesDates(data: seq<Record>, ids: seq<string>, i: nat)
    requires i < |ids|
    ensures DatesOf(SeriesOf(data, ids)[i]) == set r | r in data && r.seriesId == ids[i] :: r.date
  {
    var rows := SelectData(data, ids[i], "", "");
    var s := SeriesOf(data, ids)[i];
    forall d | d in DatesOf(s) ensures exists r :: r in data && r.seriesId == ids[i] && r.date == d {
      var p :| p in s && p.date == d;
      var k :| 0 <= k < |s| && s[k] == p;
      assert rows[k] in rows;
    }
    forall r | r in data && r.seriesId == ids[i] ensures r.date in DatesOf(s) {
      assert r in rows;
      var k :| 0 <= k < |rows| && rows[k] == r;
      assert s[k] in s;
    }
  }
}
