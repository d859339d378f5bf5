/** Lookup of a series by its measurement name and the alignment named by those names
    (functions/query.py). */
module MsrQuery {
  import opened Wrappers
  import opened Seqs
  import opened Schema
  import opened Align
  import opened Store

  /** The window `query_multiple_msr` always asks for; its end is not a calendar day. */
  const WindowStart: string := "2023-01-01"
  const WindowEnd: string := "2023-02-31"

  function MsrIsOf(msr: string): Descriptor -> bool {
    (d: Descriptor) => d.msr == msr
  }

  /** `meta_all[meta_all['msr'] == msr]` checked to hold exactly one row. */
  function FindByMsr(metaAll: seq<Descriptor>, msr: string): Result<Descriptor, Error> {
    var rows := Filter(metaAll, MsrIsOf(msr));
    if |rows| == 0 then Failure(NotFound(msr))
    else if |rows| > 1 then Failure(MultipleEntries(msr))
    else Success(rows[0])
  }

  /** The lookup fails as "not found" exactly when no row carries the name, as "multiple
      entries" exactly when two rows do, and otherwise returns the one row that does. */
  lemma FindByMsrSpec(metaAll: seq<Descriptor>, msr: string)
    ensures FindByMsr(metaAll, msr) == Failure(NotFound(msr)) <==> forall d :: d in metaAll ==> d.msr != msr
    ensures FindByMsr(metaAll, msr) == Failure(MultipleEntries(msr)) <==>
              exists i, j :: 0 <= i < j < |metaAll| && metaAll[i].msr == msr && metaAll[j].msr == msr
    ensures FindByMsr(metaAll, msr).Success? ==>
              exists i :: 0 <= i < |metaAll| && metaAll[i] == FindByMsr(metaAll, msr).value &&
                metaAll[i].msr == msr &&
                forall j :: 0 <= j < |metaAll| && j != i ==> metaAll[j].msr != msr
  {
    var rows := Filter(metaAll, MsrIsOf(msr));
    FilterAtLeastTwo(metaAll, MsrIsOf(msr));
    if |rows| == 1 {
      FilterExactlyOne(metaAll, MsrIsOf(msr));
    }
  }

  /** The `ValueError` message of each lookup failure: it names the measurement first and
      then says which of the two checks failed. */
  function LookupMessage(e: Error): (m: string)
    requires e.NotFound? || e.MultipleEntries?
    ensures |m| >= 34 + |e.msr| && m[..12 + |e.msr|] == "Measurement " + e.msr
    ensures e.NotFound? ==> m[12 + |e.msr|..] == " not found in metadata"
    ensures e.MultipleEntries? ==> m[12 + |e.msr|..] == " has multiple entries in metadata"
  {
    if e.NotFound? then "Measurement " + e.msr + " not found in metadata"
    else "Measurement " + e.msr + " has multiple entries in metadata"
  }

  /** No string ends in both failure texts: they differ in the character before
      " in metadata" (the `d` of "found", the `s` of "entries"). */
  lemma EndingsDiffer(m: string, p: nat, q: nat)
    requires p <= |m| && q <= |m|
    requires m[p..] == " not found in metadata"
    ensures m[q..] != " has multiple entries in metadata"
  {
    assert m[|m| - 13] == m[p..][9];
  }

  /** The message tells both the failed check and the measurement: two lookup failures with
      the same message are the same failure. */
  lemma LookupMessageIdentifiesError(e1: Error, e2: Error)
    requires e1.NotFound? || e1.MultipleEntries?
    requires e2.NotFound? || e2.MultipleEntries?
    requires LookupMessage(e1) == LookupMessage(e2)
    ensures e1 == e2
  {
    var m := LookupMessage(e1);
    if e1.NotFound? && e2.MultipleEntries? {
      EndingsDiffer(m, 12 + |e1.msr|, 12 + |e2.msr|);
    } else if e1.MultipleEntries? && e2.NotFound? {
      EndingsDiffer(m, 12 + |e2.msr|, 12 + |e1.msr|);
    } else {
      assert |e1.msr| == |e2.msr|;
      assert e1.msr == m[12..12 + |e1.msr|] == e2.msr;
    }
  }

  /** `query_and_prepare_data`: the unique metadata row of `msr` and the rows of its series
      inside the window. The lookup runs on the given metadata, before the store is read. */
  method QueryAndPrepareData(db: PlantDataBase, metaAll: seq<Descriptor>, msr: string,
                             startDate: string, endDate: string)
    returns (r: Result<(seq<Descriptor>, seq<Record>), Error>)
    requires db.Valid()
    ensures FindByMsr(metaAll, msr).Failure? ==> r == Failure(FindByMsr(metaAll, msr).error)
    ensures FindByMsr(metaAll, msr).Success? && !db.hasData ==> r == Failure(NoSuchTable("Data"))
    ensures FindByMsr(metaAll, msr).Success? && db.hasData ==>
              r == Success(([FindByMsr(metaAll, msr).value],
                            SelectData(db.data, FindByMsr(metaAll, msr).value.seriesId, startDate, endDate)))
  {
    var metaRow := Filter(metaAll, MsrIsOf(msr));
    if |metaRow| == 0 {
      return Failure(NotFound(msr));
    } else if |metaRow| > 1 {
      return Failure(MultipleEntries(msr));
    }
    assert metaRow == [metaRow[0]];
    var seriesId := metaRow[0].seriesId;
    var df := db.QueryData(seriesId, startDate, endDate);
    if df.Failure? {
      return Failure(df.error);
    }
    return Success((metaRow, df.value));
  }

  /** What the loop of `query_multiple_msr` has gathered after the given names: one series
      (inside the fixed window) and one metadata row per name, or the first failure. */
  function MsrSteps(hasData: bool, data: seq<Record>, metaAll: seq<Descriptor>, msrs: seq<string>)
    : (r: Result<(seq<seq<Point>>, seq<Descriptor>), Error>)
    ensures r.Success? ==> |r.value.0| == |msrs| && |r.value.1| == |msrs|
    decreases |msrs|
  {
    if |msrs| == 0 then Success(([], []))
    else
      var n := |msrs| - 1;
      var prev :- MsrSteps(hasData, data, metaAll, msrs[..n]);
      var d :- FindByMsr(metaAll, msrs[n]);
      if !hasData then Failure(NoSuchTable("Data"))
      else Success((prev.0 + [Points(SelectData(data, d.seriesId, WindowStart, WindowEnd))], prev.1 + [d]))
  }

  /** The gathered state succeeds exactly when every lookup does and, for a non-empty list,
      the Data table exists. */
  lemma {:induction false} MsrStepsSucceeds(hasData: bool, data: seq<Record>, metaAll: seq<Descriptor>, msrs: seq<string>)
    ensures MsrSteps(hasData, data, metaAll, msrs).Success? <==>
              (|msrs| == 0 || hasData) && forall i :: 0 <= i < |msrs| ==> FindByMsr(metaAll, msrs[i]).Success?
    decreases |msrs|
  {
    if |msrs| > 0 {
      var n := |msrs| - 1;
      MsrStepsSucceeds(hasData, data, metaAll, msrs[..n]);
      AllFoundLast(metaAll, msrs, msrs[..n]);
      MsrStepsSuccessUnfold(hasData, data, metaAll, msrs);
    }
  }

  /** Every name of a non-empty list is found exactly when every name but the last is and
      the last one is. */
  lemma AllFoundLast(metaAll: seq<Descriptor>, msrs: seq<string>, init: seq<string>)
    requires |msrs| > 0 && init == msrs[..|msrs| - 1]
    ensures (forall i :: 0 <= i < |msrs| ==> FindByMsr(metaAll, msrs[i]).Success?) <==>
              (forall i :: 0 <= i < |init| ==> FindByMsr(metaAll, init[i]).Success?) &&
              FindByMsr(metaAll, msrs[|msrs| - 1]).Success?
  {
    assert forall i :: 0 <= i < |init| ==> init[i] == msrs[i];
  }

  /** A non-empty gathering succeeds exactly when its prefix does, the last lookup does and
      the Data table exists. */
  lemma MsrStepsSuccessUnfold(hasData: bool, data: seq<Record>, metaAll: seq<Descriptor>, msrs: seq<string>)
    requires |msrs| > 0
    ensures MsrSteps(hasData, data, metaAll, msrs).Success? <==>
              MsrSteps(hasData, data, metaAll, msrs[..|msrs| - 1]).Success? &&
              FindByMsr(metaAll, msrs[|msrs| - 1]).Success? && hasData
  {
  }

  /** On success it holds, per name and in input order, that name's unique metadata row and
      the rows of its series inside the fixed window. */
  lemma {:induction false} MsrStepsContents(hasData: bool, data: seq<Record>, metaAll: seq<Descriptor>, msrs: seq<string>)
    requires MsrSteps(hasData, data, metaAll, msrs).Success?
    ensures var g := MsrSteps(hasData, data, metaAll, msrs).value;
            forall i :: 0 <= i < |msrs| ==>
              FindByMsr(metaAll, msrs[i]) == Success(g.1[i]) && g.1[i].msr == msrs[i] &&
              g.0[i] == Points(SelectData(data, g.1[i].seriesId, WindowStart, WindowEnd))
    decreases |msrs|
  {
    if |msrs| > 0 {
      var n := |msrs| - 1;
      MsrStepsLast(hasData, data, metaAll, msrs);
      MsrStepsContents(hasData, data, metaAll, msrs[..n]);
      FindByMsrName(metaAll, msrs[n]);
      var p := MsrSteps(hasData, data, metaAll, msrs[..n]).value;
      var g := MsrSteps(hasData, data, metaAll, msrs).value;
      forall i | 0 <= i < n
        ensures FindByMsr(metaAll, msrs[i]) == Success(g.1[i]) && g.1[i].msr == msrs[i]
        ensures g.0[i] == Points(SelectData(data, g.1[i].seriesId, WindowStart, WindowEnd))
      {
        assert msrs[..n][i] == msrs[i] && g.0[i] == p.0[i] && g.1[i] == p.1[i];
      }
    }
  }

  /** A successful gathering is the gathering of all names but the last, extended by the
      last name's row and series. */
  lemma MsrStepsLast(hasData: bool, data: seq<Record>, metaAll: seq<Descriptor>, msrs: seq<string>)
    requires |msrs| > 0 && MsrSteps(hasData, data, metaAll, msrs).Success?
    ensures MsrSteps(hasData, data, metaAll, msrs[..|msrs| - 1]).Success?
    ensures FindByMsr(metaAll, msrs[|msrs| - 1]).Success? && hasData
    ensures var p := MsrSteps(hasData, data, metaAll, msrs[..|msrs| - 1]).value;
            var d := FindByMsr(metaAll, msrs[|msrs| - 1]).value;
            MsrSteps(hasData, data, metaAll, msrs).value ==
              (p.0 + [Points(SelectData(data, d.seriesId, WindowStart, WindowEnd))], p.1 + [d])
  {
  }

  /** The row a lookup returns carries the name looked up. */
  lemma FindByMsrName(metaAll: seq<Descriptor>, msr: string)
    requires FindByMsr(metaAll, msr).Success?
    ensures FindByMsr(metaAll, msr).value.msr == msr
  {
    var rows := Filter(metaAll, MsrIsOf(msr));
    assert rows[0] in rows;
  }

  /** Every name before `i` is found, and `e` is the failure of the `i`-th step. */
  predicate FailsFirstAt(hasData: bool, metaAll: seq<Descriptor>, msrs: seq<string>, i: nat, e: Error)
    requires i < |msrs|
  {
    && (forall j :: 0 <= j < i ==> FindByMsr(metaAll, msrs[j]).Success?)
    && e == (if FindByMsr(metaAll, msrs[i]).Failure? then FindByMsr(metaAll, msrs[i]).error else NoSuchTable("Data"))
  }

  /** A failure is that of the first failing lookup, or the missing Data table once a lookup
      has succeeded. */
  lemma {:induction false} MsrStepsFirstFailure(hasData: bool, data: seq<Record>, metaAll: seq<Descriptor>, msrs: seq<string>)
    requires MsrSteps(hasData, data, metaAll, msrs).Failure?
    ensures exists i :: 0 <= i < |msrs| && FailsFirstAt(hasData, metaAll, msrs, i, MsrSteps(hasData, data, metaAll, msrs).error)
    decreases |msrs|
  {
    var n := |msrs| - 1;
    var p := msrs[..n];
    var e := MsrSteps(hasData, data, metaAll, msrs).error;
    if MsrSteps(hasData, data, metaAll, p).Failure? {
      MsrStepsFirstFailure(hasData, data, metaAll, p);
      assert e == MsrSteps(hasData, data, metaAll, p).error;
      var i :| 0 <= i < |p| && FailsFirstAt(hasData, metaAll, p, i, e);
      assert forall j :: 0 <= j <= i ==> p[j] == msrs[j];
      assert FailsFirstAt(hasData, metaAll, msrs, i, e);
    } else {
      MsrStepsSucceeds(hasData, data, metaAll, p);
      assert forall j :: 0 <= j < n ==> p[j] == msrs[j];
      assert FailsFirstAt(hasData, metaAll, msrs, n, e);
    }
  }

  /** `query_multiple_msr`: each name is looked up and queried over the fixed window; the
      first series initialises the table, each later one is outer-joined on `date` in a
      column named by its msr, and the metadata rows are concatenated in input order. The
      first failure aborts the call; with no names the table is never bound. */
  method QueryMultipleMsr(db: PlantDataBase, metaAll: seq<Descriptor>, msrs: seq<string>)
    returns (r: Result<(Table, seq<Descriptor>), Error>)
    requires db.Valid()
    ensures |msrs| == 0 ==> r == Failure(EmptySelection)
    ensures |msrs| > 0 && MsrSteps(db.hasData, db.data, metaAll, msrs).Failure? ==>
              r == Failure(MsrSteps(db.hasData, db.data, metaAll, msrs).error)
    ensures |msrs| > 0 && MsrSteps(db.hasData, db.data, metaAll, msrs).Success? ==>
              r == Success((AlignAll(msrs, MsrSteps(db.hasData, db.data, metaAll, msrs).value.0),
                            MsrSteps(db.hasData, db.data, metaAll, msrs).value.1))
  {
    var df := EmptyTable;
    var meta: seq<Descriptor> := [];
    for i := 0 to |msrs|
      invariant MsrSteps(db.hasData, db.data, metaAll, msrs[..i]).Success?
      invariant df == AlignAll(msrs[..i], MsrSteps(db.hasData, db.data, metaAll, msrs[..i]).value.0)
      invariant meta == MsrSteps(db.hasData, db.data, metaAll, msrs[..i]).value.1
    {
      var step := QueryAndPrepareData(db, metaAll, msrs[i], WindowStart, WindowEnd);
      MsrStepsStep(db.hasData, db.data, metaAll, msrs, i);
      if step.Failure? {
        MsrStepsFailureSticks(db.hasData, db.data, metaAll, msrs, i + 1);
        return Failure(step.error);
      }
      var (metaRow, dfSingle) := step.value;
      var series := Points(dfSingle);
      if i == 0 {
        ProjectIsJoinOfEmpty(msrs[i], series);
        df := Project(msrs[i], series);
        meta := metaRow;
      } else {
        df := Join(df, msrs[i], series);
        meta := meta + metaRow;
      }
    }
    if |msrs| == 0 {
      return Failure(EmptySelection);
    }
    assert msrs[..|msrs|] == msrs;
    return Success((df, meta));
  }

  /** One turn of the `query_multiple_msr` loop: the gathered state after `i + 1` names is
      the state after `i` names extended by the `i`-th lookup, or that lookup's failure. */
  lemma MsrStepsStep(hasData: bool, data: seq<Record>, metaAll: seq<Descriptor>, msrs: seq<string>, i: nat)
    requires i < |msrs|
    requires MsrSteps(hasData, data, metaAll, msrs[..i]).Success?
    ensures var prev := MsrSteps(hasData, data, metaAll, msrs[..i]).value;
            var next := MsrSteps(hasData, data, metaAll, msrs[..i + 1]);
            match FindByMsr(metaAll, msrs[i])
            case Failure(e) => next == Failure(e)
            case Success(d) =>
              if !hasData then next == Failure(NoSuchTable("Data"))
              else
                var series := Points(SelectData(data, d.seriesId, WindowStart, WindowEnd));
                next == Success((prev.0 + [series], prev.1 + [d])) &&
                AlignAll(msrs[..i + 1], next.value.0) ==
                  (if i == 0 then Project(msrs[i], series) else Join(AlignAll(msrs[..i], prev.0), msrs[i], series))
  {
    MsrStepsNext(hasData, data, metaAll, msrs, i);
    var prev := MsrSteps(hasData, data, metaAll, msrs[..i]).value;
    match FindByMsr(metaAll, msrs[i])
    case Failure(e) =>
    case Success(d) =>
      if hasData {
        AlignAllPrefixSnoc(msrs, i, prev.0, Points(SelectData(data, d.seriesId, WindowStart, WindowEnd)));
      }
  }

  lemma MsrStepsNext(hasData: bool, data: seq<Record>, metaAll: seq<Descriptor>, msrs: seq<string>, i: nat)
    requires i < |msrs|
    requires MsrSteps(hasData, data, metaAll, msrs[..i]).Success?
    ensures var prev := MsrSteps(hasData, data, metaAll, msrs[..i]).value;
            MsrSteps(hasData, data, metaAll, msrs[..i + 1]) ==
              match FindByMsr(metaAll, msrs[i])
              case Failure(e) => Failure(e)
              case Success(d) =>
                if !hasData then Failure(NoSuchTable("Data"))
                else Success((prev.0 + [Points(SelectData(data, d.seriesId, WindowStart, WindowEnd))], prev.1 + [d]))
  {
    assert msrs[..i + 1][..i] == msrs[..i];
  }

  lemma MsrStepsPrefixFails(hasData: bool, data: seq<Record>, metaAll: seq<Descriptor>, msrs: seq<string>)
    requires |msrs| > 0 && MsrSteps(hasData, data, metaAll, msrs[..|msrs| - 1]).Failure?
    ensures MsrSteps(hasData, data, metaAll, msrs) == MsrSteps(hasData, data, metaAll, msrs[..|msrs| - 1])
  {
  }

  /** Once a prefix of the names fails, the whole list fails with the same error. */
  lemma {:induction false} MsrStepsFailureSticks(hasData: bool, data: seq<Record>, metaAll: seq<Descriptor>,
                                                 msrs: seq<string>, k: nat)
    requires k <= |msrs|
    requires MsrSteps(hasData, data, metaAll, msrs[..k]).Failure?
    ensures MsrSteps(hasData, data, metaAll, msrs) == MsrSteps(hasData, data, metaAll, msrs[..k])
    decreases |msrs| - k
  {
    if k == |msrs| {
      assert msrs[..k] == msrs;
    } else {
      var n := |msrs| - 1;
      assert msrs[..n][..k] == msrs[..k];
      MsrStepsFailureSticks(hasData, data, metaAll, msrs[..n], k);
      MsrStepsPrefixFails(hasData, data, metaAll, msrs);
    }
  }

  /** What `query_multiple_msr` returns when every lookup succeeds: one column per name, in
      input order and named by it; the union of the series' dates; and, when no series
      repeats a date, in each row each series' value at that date. */
  lemma QueryMultipleMsrAligns(hasData: bool, data: seq<Record>, metaAll: seq<Descriptor>, msrs: seq<string>)
    requires MsrSteps(hasData, data, metaAll, msrs).Success?
    ensures var ss := MsrSteps(hasData, data, metaAll, msrs).value.0;
            && AlignAll(msrs, ss).columns == msrs
            && RowDates(AlignAll(msrs, ss).rows) == Union(ss)
            && ((forall i :: 0 <= i < |ss| ==> UniqueDates(ss[i])) ==> Describes(AlignAll(msrs, ss), ss))
  {
    var ss := MsrSteps(hasData, data, metaAll, msrs).value.0;
    AlignAllShape(msrs, ss);
    if forall i :: 0 <= i < |ss| ==> UniqueDates(ss[i]) {
      AlignAllDescribes(msrs, ss);
    }
  }
}
