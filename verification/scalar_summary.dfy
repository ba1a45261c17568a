/** The control-run summary extractor: for every result file found, the
    experiment metadata from its path, four scalar series from its contents
    converted from kg to Gt, the two mass series shifted so that they start
    at zero, a year axis, and one row per time step; the per-file tables are
    concatenated in the order the files were found.

    Reading a file is outside the model: a regular file is given by the map
    from its variable names to their series, and the list of paths the
    directory search produced is an input. */
module ScalarSummary {
  import opened Wrappers
  import FilenameMetadata

  /** kg per Gt. */
  const Giga: real := 1000000000000.0

  const DefaultStartYear: int := 2008

  const MassVar: string := "limnsw"
  const MassChangeVar: string := "tendency_of_ice_mass_glacierized"
  const SmbVar: string := "tendency_of_ice_mass_due_to_surface_mass_balance"
  const DischargeVar: string := "tendency_of_ice_mass_due_to_discharge"

  /** The variables of one result file, each a scalar time series. */
  type Dataset = map<string, seq<real>>

  /** A path the directory search returned, and what is at that path. */
  datatype Entry = Entry(path: string, kind: Kind)
  datatype Kind = RegularFile(data: Dataset) | NotRegularFile

  /** One row of the output table, columns in the order of the table:
      Year, Mass (Gt), Mass change (Gt/yr), SMB (Gt/yr), D (Gt/yr),
      Experiment, RCP, Resolution (m). */
  datatype Row = Row(
    year: real,
    mass: real,
    massChange: real,
    smb: real,
    discharge: real,
    experiment: string,
    rcp: nat,
    resolution: nat
  )

  datatype Error =
    | MalformedFilename(path: string, cause: FilenameMetadata.Error)
    | MissingVariable(path: string, name: string)
    | NoFirstRecord(path: string, name: string)  // the series has no element 0
    | LengthMismatch(path: string)              // the columns differ in length
    | NothingToConcatenate                      // no path was a regular file

  /** Converts a series from kg to Gt. */
  function ToGiga(xs: seq<real>): (ys: seq<real>)
    ensures |ys| == |xs|
    ensures forall i :: 0 <= i < |xs| ==> ys[i] * Giga == xs[i]
  {
    seq(|xs|, i requires 0 <= i < |xs| => xs[i] / Giga)
  }

  /** Shifts a series so that it starts at zero. */
  function Baseline(xs: seq<real>): (ys: seq<real>)
    requires |xs| > 0
    ensures |ys| == |xs| && ys[0] == 0.0
    ensures forall i, j :: 0 <= i < |xs| && 0 <= j < |xs| ==> ys[i] - ys[j] == xs[i] - xs[j]
  {
    seq(|xs|, i requires 0 <= i < |xs| => xs[i] - xs[0])
  }

  /** A series that starts at zero and has the consecutive differences of
      xs is the baseline of xs: the two conditions determine it. */
  lemma BaselineUnique(xs: seq<real>, ys: seq<real>)
    requires |xs| > 0 && |ys| == |xs| && ys[0] == 0.0
    requires forall i :: 0 < i < |xs| ==> ys[i] - ys[i - 1] == xs[i] - xs[i - 1]
    ensures ys == Baseline(xs)
  {
    var b := Baseline(xs);
    var i := 1;
    while i < |xs|
      invariant 1 <= i <= |xs|
      invariant forall j :: 0 <= j < i ==> ys[j] == b[j]
    {
      assert b[i] - b[i - 1] == xs[i] - xs[i - 1];
      i := i + 1;
    }
  }

  /** A mass series as the script normalises it, AS WRITTEN: converted to Gt
      and shifted by element 0 of the squeezed array. `np.squeeze` drops
      every axis of length one, so a one-record series becomes a 0-d array,
      and indexing it with `[0]` raises an IndexError; an empty series has
      no element 0 either. Only series of two or more records get through. */
  function NormalizedAsWritten(path: string, name: string, xs: seq<real>): (r: Result<seq<real>, Error>)
    ensures r.Failure? <==> |xs| < 2
    ensures r.Failure? ==> r.error == NoFirstRecord(path, name)
    ensures r.Success? ==> |r.value| == |xs|
    ensures r.Success? ==> forall i :: 0 <= i < |xs| ==> r.value[i] == (xs[i] - xs[0]) / Giga
  {
    if |xs| < 2 then Failure(NoFirstRecord(path, name))
    else
      var ys := Baseline(ToGiga(xs));
      assert forall i :: 0 <= i < |xs| ==> ys[i] == xs[i] / Giga - xs[0] / Giga;
      Success(ys)
  }

  /** A mass series normalised as intended: in Gt, relative to its first
      record. Only an empty series has no first record. */
  function Normalized(path: string, name: string, xs: seq<real>): (r: Result<seq<real>, Error>)
    ensures r.Failure? <==> |xs| == 0
    ensures r.Failure? ==> r.error == NoFirstRecord(path, name)
    ensures r.Success? ==> |r.value| == |xs|
    ensures r.Success? ==> forall i :: 0 <= i < |xs| ==> r.value[i] == (xs[i] - xs[0]) / Giga
  {
    if |xs| == 0 then Failure(NoFirstRecord(path, name))
    else
      var ys := Baseline(ToGiga(xs));
      assert forall i :: 0 <= i < |xs| ==> ys[i] == xs[i] / Giga - xs[0] / Giga;
      Success(ys)
  }

  /** The two normalisations agree on every series except one of a single
      record, which the script rejects and the corrected version maps to
      the single value 0. */
  lemma NormalizedAgreement(path: string, name: string, xs: seq<real>)
    ensures |xs| != 1 ==> NormalizedAsWritten(path, name, xs) == Normalized(path, name, xs)
    ensures |xs| == 1 ==> NormalizedAsWritten(path, name, xs).Failure?
                          && Normalized(path, name, xs) == Success([0.0])
  {
    var r, r' := NormalizedAsWritten(path, name, xs), Normalized(path, name, xs);
    if |xs| >= 2 {
      assert r.value == r'.value;
    } else if |xs| == 1 {
      assert r'.value == [0.0];
    }
  }

  /** A file with a single time step: as written the run aborts, as
      intended the normalised series is the single value 0. */
  lemma OneRecordSeries()
    ensures NormalizedAsWritten("ts.nc", MassVar, [5000000000000.0]).Failure?
    ensures Normalized("ts.nc", MassVar, [5000000000000.0]) == Success([0.0])
  {
    var r := Normalized("ts.nc", MassVar, [5000000000000.0]);
    assert |r.value| == 1 && r.value[0] == 0.0;
    assert r.value == [0.0];
  }

  /** A worked example: 5e12, 6e12, 7e12 kg
      normalise to 0, 1, 2 Gt. */
  lemma NormalizedExample()
    ensures Normalized("ts.nc", MassVar, [5000000000000.0, 6000000000000.0, 7000000000000.0])
         == Success([0.0, 1.0, 2.0])
  {
    var r := Normalized("ts.nc", MassVar, [5000000000000.0, 6000000000000.0, 7000000000000.0]);
    assert |r.value| == 3 && r.value[0] == 0.0 && r.value[1] == 1.0 && r.value[2] == 2.0;
    assert r.value == [0.0, 1.0, 2.0];
  }

  /** `numpy.linspace(lo, hi, n)` with its default endpoint: element i is
      lo + i * (hi - lo) / (n - 1), and the last element is hi itself. */
  function Linspace(lo: real, hi: real, n: nat): (r: seq<real>)
    ensures |r| == n
    ensures n >= 1 ==> r[0] == lo
    ensures n >= 2 ==> r[n - 1] == hi
    ensures n >= 2 ==> forall i :: 0 <= i < n - 1 ==> r[i] == lo + (i as real) * ((hi - lo) / ((n - 1) as real))
  {
    if n == 1 then [lo]
    else
      var step := (hi - lo) / ((n - 1) as real);
      seq(n, i requires 0 <= i < n => if i == n - 1 then hi else lo + (i as real) * step)
  }

  /** The offsets `linspace(0, n - 1, n)` of the year axis. */
  function Offsets(n: nat): (r: seq<real>)
    ensures |r| == n
  {
    Linspace(0.0, (n - 1) as real, n)
  }

  /** Spacing 0 .. n-1 over n points gives the integers 0, 1, ..., n-1. */
  lemma OffsetsCount(n: nat)
    ensures forall i :: 0 <= i < n ==> Offsets(n)[i] == i as real
  {
    forall i | 0 <= i < n
      ensures Offsets(n)[i] == i as real
    {
      if 0 < i < n - 1 {
        var d := (n - 1) as real;
        assert d > 0.0;
        assert d / d == 1.0;
        assert Offsets(n)[i] == 0.0 + (i as real) * (d / d);
      }
    }
  }

  /** The year column `start + linspace(0, n - 1, n)`. */
  function YearAxis(start: int, n: nat): (years: seq<real>)
    ensures |years| == n
    ensures forall i :: 0 <= i < n ==> years[i] == (start + i) as real
  {
    OffsetsCount(n);
    seq(n, i requires 0 <= i < n => (start as real) + Offsets(n)[i])
  }

  /** A worked example: 2008 with three time
      steps gives the years 2008, 2009 and 2010. */
  lemma YearAxisExample()
    ensures YearAxis(DefaultStartYear, 3) == [2008.0, 2009.0, 2010.0]
  {
    var ys := YearAxis(DefaultStartYear, 3);
    assert ys[0] == 2008.0 && ys[1] == 2009.0 && ys[2] == 2010.0;
  }

  /** A series read from the file, or the error a missing variable raises. */
  function Variable(path: string, data: Dataset, name: string): (r: Result<seq<real>, Error>)
    ensures r.Success? <==> name in data
    ensures r.Success? ==> r.value == data[name]
    ensures r.Failure? ==> r.error == MissingVariable(path, name)
  {
    if name in data then Success(data[name]) else Failure(MissingVariable(path, name))
  }

  /** The rows of one file: one per time step, the metadata repeated. */
  function Rows(meta: FilenameMetadata.Metadata, years: seq<real>, mass: seq<real>, massChange: seq<real>,
                smb: seq<real>, discharge: seq<real>): (rows: seq<Row>)
    requires |mass| == |years| && |massChange| == |years| && |smb| == |years| && |discharge| == |years|
    ensures |rows| == |years|
    ensures forall i :: 0 <= i < |rows| ==>
      rows[i] == Row(years[i], mass[i], massChange[i], smb[i], discharge[i], meta.experiment, meta.rcp, meta.resolution)
  {
    seq(|years|, i requires 0 <= i < |years| =>
      Row(years[i], mass[i], massChange[i], smb[i], discharge[i], meta.experiment, meta.rcp, meta.resolution))
  }

  /** All four series are present, the two mass series are non-empty, and
      all four have the same length. */
  predicate WellFormedData(data: Dataset) {
    && MassVar in data && MassChangeVar in data && SmbVar in data && DischargeVar in data
    && |data[MassVar]| > 0 && |data[MassChangeVar]| > 0
    && |data[MassChangeVar]| == |data[MassVar]|
    && |data[SmbVar]| == |data[MassVar]|
    && |data[DischargeVar]| == |data[MassVar]|
  }

  /** The four value columns of a file's table, in Gt. */
  datatype Columns = Columns(mass: seq<real>, massChange: seq<real>, smb: seq<real>, discharge: seq<real>)

  /** Reads and converts the four series in the order the script does: the
      mass series and its element 0, the mass change series and its element
      0, then the surface mass balance and discharge series. */
  function ReadColumns(path: string, data: Dataset): (r: Result<Columns, Error>)
    ensures r.Success? <==>
      && MassVar in data && MassChangeVar in data && SmbVar in data && DischargeVar in data
      && |data[MassVar]| > 0 && |data[MassChangeVar]| > 0
    ensures r.Success? ==>
      && |r.value.mass| == |data[MassVar]|
      && |r.value.massChange| == |data[MassChangeVar]|
      && |r.value.smb| == |data[SmbVar]|
      && |r.value.discharge| == |data[DischargeVar]|
    ensures r.Success? ==> forall i :: 0 <= i < |data[MassVar]| ==>
      r.value.mass[i] == (data[MassVar][i] - data[MassVar][0]) / Giga
    ensures r.Success? ==> forall i :: 0 <= i < |data[MassChangeVar]| ==>
      r.value.massChange[i] == (data[MassChangeVar][i] - data[MassChangeVar][0]) / Giga
    ensures r.Success? ==> forall i :: 0 <= i < |data[SmbVar]| ==> r.value.smb[i] * Giga == data[SmbVar][i]
    ensures r.Success? ==> forall i :: 0 <= i < |data[DischargeVar]| ==>
      r.value.discharge[i] * Giga == data[DischargeVar][i]
    ensures MassVar !in data ==> r == Failure(MissingVariable(path, MassVar))
    ensures MassVar in data && |data[MassVar]| == 0 ==> r == Failure(NoFirstRecord(path, MassVar))
    ensures MassVar in data && |data[MassVar]| > 0 && MassChangeVar !in data ==>
      r == Failure(MissingVariable(path, MassChangeVar))
    ensures MassVar in data && |data[MassVar]| > 0 && MassChangeVar in data && |data[MassChangeVar]| == 0 ==>
      r == Failure(NoFirstRecord(path, MassChangeVar))
    ensures MassVar in data && |data[MassVar]| > 0 && MassChangeVar in data && |data[MassChangeVar]| > 0
            && SmbVar !in data ==>
      r == Failure(MissingVariable(path, SmbVar))
    ensures MassVar in data && |data[MassVar]| > 0 && MassChangeVar in data && |data[MassChangeVar]| > 0
            && SmbVar in data && DischargeVar !in data ==>
      r == Failure(MissingVariable(path, DischargeVar))
  {
    var massRaw :- Variable(path, data, MassVar);
    var mass :- Normalized(path, MassVar, massRaw);
    var massChangeRaw :- Variable(path, data, MassChangeVar);
    var massChange :- Normalized(path, MassChangeVar, massChangeRaw);
    var smbRaw :- Variable(path, data, SmbVar);
    var dischargeRaw :- Variable(path, data, DischargeVar);
    Success(Columns(mass, massChange, ToGiga(smbRaw), ToGiga(dischargeRaw)))
  }

  /** The table of one regular file: the three metadata fields first, then
      the four series, and finally the check that the columns have the
      same length, which assembling the table needs. */
  function FileTable(path: string, data: Dataset, start: int): (r: Result<seq<Row>, Error>)
    ensures FilenameMetadata.ParseMetadata(path).Failure? ==>
      r == Failure(MalformedFilename(path, FilenameMetadata.ParseMetadata(path).error))
    ensures FilenameMetadata.ParseMetadata(path).Success? && ReadColumns(path, data).Failure? ==>
      r == Failure(ReadColumns(path, data).error)
    ensures FilenameMetadata.ParseMetadata(path).Success? && ReadColumns(path, data).Success?
            && !WellFormedData(data) ==>
      r == Failure(LengthMismatch(path))
    ensures r.Success? <==> FilenameMetadata.ParseMetadata(path).Success? && WellFormedData(data)
    ensures r.Success? ==> |r.value| == |data[MassVar]|
    ensures r.Success? ==> forall i :: 0 <= i < |r.value| ==>
      var row, meta := r.value[i], FilenameMetadata.ParseMetadata(path).value;
      && row.year == (start + i) as real
      && row.mass == (data[MassVar][i] - data[MassVar][0]) / Giga
      && row.massChange == (data[MassChangeVar][i] - data[MassChangeVar][0]) / Giga
      && row.smb * Giga == data[SmbVar][i]
      && row.discharge * Giga == data[DischargeVar][i]
      && row.experiment == meta.experiment
      && row.rcp == meta.rcp
      && row.resolution == meta.resolution
  {
    var meta :- match FilenameMetadata.ParseMetadata(path)
                case Failure(e) => Failure(MalformedFilename(path, e))
                case Success(m) => Success(m);
    var cols :- ReadColumns(path, data);
    var n := |cols.mass|;
    if |cols.massChange| != n || |cols.smb| != n || |cols.discharge| != n then
      Failure(LengthMismatch(path))
    else
      Success(Rows(meta, YearAxis(start, n), cols.mass, cols.massChange, cols.smb, cols.discharge))
  }

  /** The rows one entry contributes: none unless it is a regular file. */
  function EntryTable(e: Entry, start: int): (r: Result<seq<Row>, Error>)
    ensures e.kind.NotRegularFile? ==> r == Success([])
    ensures e.kind.RegularFile? ==> r == FileTable(e.path, e.kind.data, start)
  {
    match e.kind
    case NotRegularFile => Success([])
    case RegularFile(data) => FileTable(e.path, data, start)
  }

  /** The number of time steps of an entry's mass series, 0 for anything
      that is not a regular file. */
  function StepCount(e: Entry): nat {
    if e.kind.RegularFile? && MassVar in e.kind.data then |e.kind.data[MassVar]| else 0
  }

  /** The number of time steps of all entries together. */
  function TotalSteps(entries: seq<Entry>): nat {
    if |entries| == 0 then 0 else StepCount(entries[0]) + TotalSteps(entries[1..])
  }

  /** Results[k] is the first failure among the results. */
  ghost predicate FirstFailureAt<T, E>(results: seq<Result<seq<T>, E>>, k: int) {
    && 0 <= k < |results|
    && results[k].Failure?
    && forall j :: 0 <= j < k ==> results[j].Success?
  }

  /** The total number of rows of a list of successful tables. */
  function TotalLength<T, E>(results: seq<Result<seq<T>, E>>): nat
    requires forall k :: 0 <= k < |results| ==> results[k].Success?
  {
    if |results| == 0 then 0 else |results[0].value| + TotalLength(results[1..])
  }

  /** A first failure behind a successful head is a first failure one
      position later in the whole list. */
  lemma FirstFailureShift<T, E>(results: seq<Result<seq<T>, E>>, err: E)
    requires |results| > 0 && results[0].Success?
    requires exists k :: FirstFailureAt(results[1..], k) && err == results[1..][k].error
    ensures exists k :: FirstFailureAt(results, k) && err == results[k].error
  {
    var k :| FirstFailureAt(results[1..], k) && err == results[1..][k].error;
    assert FirstFailureAt(results, k + 1);
  }

  /** Concatenates the per-file tables in order; the first failure aborts. */
  function Concat<T, E>(results: seq<Result<seq<T>, E>>): (r: Result<seq<T>, E>)
    ensures r.Success? <==> forall k :: 0 <= k < |results| ==> results[k].Success?
    ensures r.Failure? ==> exists k :: FirstFailureAt(results, k) && r.error == results[k].error
    ensures r.Success? ==> |r.value| == TotalLength(results)
  {
    if |results| == 0 then Success([])
    else if results[0].Failure? then Failure(results[0].error)
    else
      var rest := Concat(results[1..]);
      assert forall k :: 0 < k < |results| ==> results[k] == results[1..][k - 1];
      if rest.Failure? then
        FirstFailureShift(results, rest.error);
        Failure(rest.error)
      else
        Success(results[0].value + rest.value)
  }

  /** Concatenating the results of two lists of files is concatenating the
      two concatenations; a failure in the first list wins. */
  lemma {:induction false} ConcatAppend<T, E>(a: seq<Result<seq<T>, E>>, b: seq<Result<seq<T>, E>>)
    ensures var ra, rb, r := Concat(a), Concat(b), Concat(a + b);
      && (ra.Failure? ==> r == ra)
      && (ra.Success? && rb.Failure? ==> r == rb)
      && (ra.Success? && rb.Success? ==> r == Success(ra.value + rb.value))
    decreases |a|
  {
    if |a| == 0 {
      assert a + b == b;
      assert Concat(b).Success? ==> [] + Concat(b).value == Concat(b).value;
    } else {
      assert (a + b)[1..] == a[1..] + b;
      assert (a + b)[0] == a[0];
      ConcatAppend(a[1..], b);
      if a[0].Success? && Concat(a[1..]).Success? && Concat(b).Success? {
        var h, x, y := a[0].value, Concat(a[1..]).value, Concat(b).value;
        assert Concat(a + b).value == h + (x + y);
        assert h + (x + y) == (h + x) + y;
      }
    }
  }

  /** The tables of the entries, one per entry, in order. */
  function Tables(entries: seq<Entry>, start: int): (ts: seq<Result<seq<Row>, Error>>)
    ensures |ts| == |entries|
    ensures forall k :: 0 <= k < |entries| ==> ts[k] == EntryTable(entries[k], start)
  {
    seq(|entries|, k requires 0 <= k < |entries| => EntryTable(entries[k], start))
  }

  /** A successful entry has one row per time step. */
  lemma EntryRows(e: Entry, start: int)
    requires EntryTable(e, start).Success?
    ensures |EntryTable(e, start).value| == StepCount(e)
  {
  }

  /** When every entry succeeds, the tables hold as many rows as there are
      time steps in all the entries. */
  lemma {:induction false} TotalLengthIsSteps(entries: seq<Entry>, start: int)
    requires forall k :: 0 <= k < |entries| ==> EntryTable(entries[k], start).Success?
    ensures TotalLength(Tables(entries, start)) == TotalSteps(entries)
    decreases |entries|
  {
    if |entries| > 0 {
      assert Tables(entries, start)[1..] == Tables(entries[1..], start);
      EntryRows(entries[0], start);
      TotalLengthIsSteps(entries[1..], start);
    }
  }

  /** The loop over the paths: every entry in the order the directory
      search returned them, the per-file tables concatenated. The first
      failing file aborts the run; nothing is skipped except paths that are
      not regular files. */
  function Collect(entries: seq<Entry>, start: int): (r: Result<seq<Row>, Error>)
    ensures r.Success? <==> forall k :: 0 <= k < |entries| ==> EntryTable(entries[k], start).Success?
    ensures r.Failure? ==>
      exists k :: && 0 <= k < |entries|
                  && EntryTable(entries[k], start) == Failure(r.error)
                  && forall j :: 0 <= j < k ==> EntryTable(entries[j], start).Success?
    ensures r.Success? ==> |r.value| == TotalSteps(entries)
  {
    var ts := Tables(entries, start);
    var r := Concat(ts);
    if r.Success? then
      TotalLengthIsSteps(entries, start);
      r
    else
      r
  }

  /** Some entry is a regular file, so the loop appended at least one table. */
  predicate HasRegularFile(entries: seq<Entry>) {
    exists k :: 0 <= k < |entries| && entries[k].kind.RegularFile?
  }

  /** The whole run: the loop over the paths, then the final concatenation
      of the collected tables, which raises an error when the loop collected
      none, that is, when no path was a regular file. */
  function Extract(entries: seq<Entry>, start: int): (r: Result<seq<Row>, Error>)
    ensures r.Success? <==> Collect(entries, start).Success? && HasRegularFile(entries)
    ensures Collect(entries, start).Failure? ==> r == Collect(entries, start)
    ensures Collect(entries, start).Success? ==>
      (r == Failure(NothingToConcatenate) <==> !HasRegularFile(entries))
    ensures r.Success? ==> r.value == Collect(entries, start).value
  {
    var rows :- Collect(entries, start);
    if HasRegularFile(entries) then Success(rows) else Failure(NothingToConcatenate)
  }

  /** A run in which no path is a regular file has nothing to concatenate
      and fails, also when there are no paths at all. */
  lemma NoRegularFileFails(entries: seq<Entry>, start: int)
    requires !HasRegularFile(entries)
    ensures Extract(entries, start) == Failure(NothingToConcatenate)
  {
    assert forall k :: 0 <= k < |entries| ==> !entries[k].kind.RegularFile?;
  }

  /** One file's result in front of the rest of the run's. */
  function Prepend<T, E>(head: Result<seq<T>, E>, rest: Result<seq<T>, E>): Result<seq<T>, E> {
    if head.Failure? then Failure(head.error)
    else if rest.Failure? then rest
    else Success(head.value + rest.value)
  }

  /** The loop processes the first entry, then the rest. */
  lemma CollectCons(entries: seq<Entry>, start: int)
    requires |entries| > 0
    ensures Collect(entries, start) == Prepend(EntryTable(entries[0], start), Collect(entries[1..], start))
  {
    assert Tables(entries, start)[1..] == Tables(entries[1..], start);
  }

  /** Element i of table k of a successful concatenation sits right after
      the rows of the tables before it. */
  lemma {:induction false} ConcatIndex<T, E>(results: seq<Result<seq<T>, E>>, k: nat, i: nat)
    requires Concat(results).Success?
    requires k < |results| && i < |results[k].value|
    ensures TotalLength(results[..k]) + i < |Concat(results).value|
    ensures Concat(results).value[TotalLength(results[..k]) + i] == results[k].value[i]
    decreases k
  {
    var rest := results[1..];
    assert forall j :: 0 < j < |results| ==> results[j] == rest[j - 1];
    if k > 0 {
      assert results[..k][1..] == rest[..k - 1];
      ConcatIndex(rest, k - 1, i);
    }
  }

  /** The tables in front of a successful concatenation concatenate
      successfully too. */
  lemma ConcatPrefix<T, E>(results: seq<Result<seq<T>, E>>, k: nat)
    requires Concat(results).Success? && k <= |results|
    ensures Concat(results[..k]).Success?
  {
    assert forall j :: 0 <= j < k ==> results[..k][j] == results[j];
  }

  /** Element i of table k of a successful concatenation follows the
      concatenation of the tables before k. */
  lemma ConcatOrder<T, E>(results: seq<Result<seq<T>, E>>, k: nat, i: nat)
    requires Concat(results).Success?
    requires k < |results| && i < |results[k].value|
    ensures Concat(results[..k]).Success?
    ensures |Concat(results[..k]).value| + i < |Concat(results).value|
    ensures Concat(results).value[|Concat(results[..k]).value| + i] == results[k].value[i]
  {
    ConcatIndex(results, k, i);
    ConcatPrefix(results, k);
  }

  /** The entries that are regular files, in their order. */
  function RegularFiles(entries: seq<Entry>): (r: seq<Entry>)
    ensures |r| <= |entries|
    ensures forall e :: e in r ==> e in entries && e.kind.RegularFile?
    ensures forall e :: e in entries && e.kind.RegularFile? ==> e in r
  {
    if |entries| == 0 then []
    else if entries[0].kind.RegularFile? then [entries[0]] + RegularFiles(entries[1..])
    else RegularFiles(entries[1..])
  }

  /** Filtering keeps the order: the regular files of a + b are those of a
      followed by those of b. */
  lemma {:induction false} RegularFilesAppend(a: seq<Entry>, b: seq<Entry>)
    ensures RegularFiles(a + b) == RegularFiles(a) + RegularFiles(b)
    decreases |a|
  {
    if |a| == 0 {
      assert a + b == b;
    } else {
      assert (a + b)[0] == a[0];
      assert (a + b)[1..] == a[1..] + b;
      RegularFilesAppend(a[1..], b);
    }
  }

  /** Paths that are not regular files contribute nothing to the loop. */
  lemma {:induction false} CollectSkipsNonRegular(entries: seq<Entry>, start: int)
    ensures Collect(entries, start) == Collect(RegularFiles(entries), start)
    decreases |entries|
  {
    if |entries| > 0 {
      CollectSkipsNonRegular(entries[1..], start);
      CollectCons(entries, start);
      if entries[0].kind.RegularFile? {
        var rs := [entries[0]] + RegularFiles(entries[1..]);
        assert rs[1..] == RegularFiles(entries[1..]);
        CollectCons(rs, start);
      } else {
        var rest := Collect(entries[1..], start);
        assert rest.Success? ==> [] + rest.value == rest.value;
      }
    }
  }

  /** Filtering keeps some regular file exactly when there is one. */
  lemma HasRegularFileFiltered(entries: seq<Entry>)
    ensures HasRegularFile(RegularFiles(entries)) <==> HasRegularFile(entries)
  {
    var rs := RegularFiles(entries);
    if HasRegularFile(entries) {
      var k :| 0 <= k < |entries| && entries[k].kind.RegularFile?;
      assert entries[k] in rs;
    }
    if HasRegularFile(rs) {
      var j :| 0 <= j < |rs| && rs[j].kind.RegularFile?;
      assert rs[j] in rs;
    }
  }

  /** Paths that are not regular files change nothing: the run over all
      entries equals the run over the regular files alone. */
  lemma NonRegularSkipped(entries: seq<Entry>, start: int)
    ensures Extract(entries, start) == Extract(RegularFiles(entries), start)
  {
    CollectSkipsNonRegular(entries, start);
    HasRegularFileFiltered(entries);
  }
}
