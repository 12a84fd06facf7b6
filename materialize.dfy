/** Materialization of complete jobs (`download_complete`, `get_xyz_str`): the layout
    of the coordinate and gradient blocks, the job state changes and the rewritten
    download ledger. */
module Materialize {
  import opened Jobs
  import Reconcile

  /** Bohr -> Angstrom factor applied to every coordinate. */
  const BOHR_TO_ANGSTROM: real := 0.529177

  /** The only driver a result record may have. */
  const GRADIENT := "gradient"

  /** A title line; floating-point formatting is not modelled, the energy is kept. */
  datatype Title =
    | XyzTitle(job: string, grid: int, energy: real)
    | GradTitle(job: string, grid: int, energy: real)

  /** A line of a coordinate or gradient block. */
  datatype Line = CountLine(n: nat) | TitleLine(title: Title) | AtomLine(symbol: string, v: Vec3)

  /** What is written for one job: the grid order, one coordinate block and one gradient
      block per grid point, in that order. */
  datatype JobFiles = JobFiles(gridOrder: seq<int>, xyz: seq<seq<Line>>, grad: seq<seq<Line>>)

  function Min(a: nat, b: nat): nat {
    if a < b then a else b
  }

  function ToAngstrom(v: Vec3): Vec3 {
    Vec3(v.x * BOHR_TO_ANGSTROM, v.y * BOHR_TO_ANGSTROM, v.z * BOHR_TO_ANGSTROM)
  }

  /** `zip(elem_list, vectors)` as atom lines: as many as the shorter list. */
  function AtomLines(symbols: seq<string>, vs: seq<Vec3>): (r: seq<Line>)
    ensures |r| == Min(|symbols|, |vs|)
    ensures forall i | 0 <= i < |r| :: r[i] == AtomLine(symbols[i], vs[i])
  {
    seq(Min(|symbols|, |vs|), i requires 0 <= i < Min(|symbols|, |vs|) => AtomLine(symbols[i], vs[i]))
  }

  /** The lines of `get_xyz_str`: the atom count, the title, then one line per atom
      with its symbol and its coordinates in Angstrom. */
  function XyzBlock(mol: Molecule, title: Title): (b: seq<Line>)
    ensures |b| == 2 + Min(|mol.symbols|, |mol.geometry|)
    ensures b[0] == CountLine(|mol.symbols|) && b[1] == TitleLine(title)
    ensures forall i | 0 <= i < |b| - 2 :: b[i + 2] == AtomLine(mol.symbols[i], ToAngstrom(mol.geometry[i]))
  {
    [CountLine(|mol.symbols|), TitleLine(title)] +
      AtomLines(mol.symbols, seq(|mol.geometry|, i requires 0 <= i < |mol.geometry| => ToAngstrom(mol.geometry[i])))
  }

  /** `np.array(return_result).reshape(-1, 3)` */
  function Triples(rr: seq<real>): (r: seq<Vec3>)
    requires |rr| % 3 == 0
    ensures |r| == |rr| / 3
    ensures forall i | 0 <= i < |r| :: r[i] == Vec3(rr[3 * i], rr[3 * i + 1], rr[3 * i + 2])
  {
    seq(|rr| / 3, i requires 0 <= i < |rr| / 3 => Vec3(rr[3 * i], rr[3 * i + 1], rr[3 * i + 2]))
  }

  /** One gradient block: the row count of the reshaped gradient, the title (with the
      energy it is given), then one line per (symbol, row) pair. */
  function GradBlock(name: string, grid: int, energy: real, symbols: seq<string>, gradMat: seq<Vec3>)
    : (b: seq<Line>)
    ensures |b| == 2 + Min(|symbols|, |gradMat|)
    ensures b[0] == CountLine(|gradMat|) && b[1] == TitleLine(GradTitle(name, grid, energy))
    ensures forall i | 0 <= i < |b| - 2 :: b[i + 2] == AtomLine(symbols[i], gradMat[i])
  {
    [CountLine(|gradMat|), TitleLine(GradTitle(name, grid, energy))] + AtomLines(symbols, gradMat)
  }

  lemma {:induction false} MinExists(s: set<int>)
    requires s != {}
    ensures exists m :: m in s && forall x | x in s :: m <= x
    decreases |s|
  {
    if forall x :: x !in s { assert false; }
    var y :| y in s;
    if s == {y} {
      assert forall x | x in s :: y <= x;
    } else {
      var s' := s - {y};
      assert s' != {} by {
        if forall z :: z in s ==> z == y { assert false; }
        var z :| z in s && z != y;
        assert z in s';
      }
      MinExists(s');
      var m :| m in s' && forall x | x in s' :: m <= x;
      var least := if y < m then y else m;
      forall x | x in s ensures least <= x {
        if x != y {
          assert x in s';
        }
      }
    }
  }

  /** The least element of a non-empty set of grid ids. */
  function Least(s: set<int>): (m: int)
    requires s != {}
    ensures m in s && forall x | x in s :: m <= x
  {
    MinExists(s);
    var m :| m in s && forall x | x in s :: m <= x;
    m
  }

  /** `sorted(final_energy_dict)`: the grid ids in ascending order (lemma SortedGridIdsFacts). */
  function SortedGridIds(s: set<int>): (r: seq<int>)
    decreases |s|
  {
    if s == {} then []
    else [Least(s)] + SortedGridIds(s - {Least(s)})
  }

  /** The sorted grid ids are exactly the ids of the set, strictly ascending. */
  lemma {:induction false} SortedGridIdsFacts(s: set<int>)
    ensures var r := SortedGridIds(s);
      |r| == |s| && (forall g :: g in r <==> g in s) &&
      (forall a, b | 0 <= a < b < |r| :: r[a] < r[b])
    decreases |s|
  {
    if s != {} {
      var m := Least(s);
      var rest := SortedGridIds(s - {m});
      SortedGridIdsFacts(s - {m});
      var r := [m] + rest;
      assert SortedGridIds(s) == r;
      forall g ensures g in r <==> g in s {
        assert g in r <==> g == m || g in rest;
      }
      forall a, b | 0 <= a < b < |r| ensures r[a] < r[b] {
        if a == 0 {
          assert r[b] == rest[b - 1] && r[b] in rest;
        } else {
          assert r[a] == rest[a - 1] && r[b] == rest[b - 1];
        }
      }
    }
  }

  /** The first grid point (in order) whose molecule is missing: the xyz loop's KeyError. */
  function XyzFault(order: seq<int>, molecules: map<int, Molecule>): (r: Option<Error>)
    ensures r.None? <==> forall g | g in order :: g in molecules
    ensures r.None? ==> forall i | 0 <= i < |order| :: order[i] in molecules
    decreases |order|
  {
    if order == [] then None
    else
      var g := order[0];
      assert g in order;
      if g !in molecules then Some(KeyError("final molecule"))
      else
        assert forall g' | g' in order :: g' == g || g' in order[1..];
        assert forall i | 0 < i < |order| :: order[i] == order[1..][i - 1];
        XyzFault(order[1..], molecules)
  }

  /** A grid point the gradient loop accepts: a result record exists, its driver is
      `gradient`, and its return value reshapes to rows of three. */
  predicate GradientOk(g: int, results: map<int, ResultRecord>) {
    g in results && results[g].driver == GRADIENT && |results[g].returnResult| % 3 == 0
  }

  /** The first failure of the gradient loop: a missing result (KeyError), a driver that
      is not `gradient` (the assertion), or a return value that does not reshape. */
  function GradFault(order: seq<int>, results: map<int, ResultRecord>): (r: Option<Error>)
    ensures r.None? <==> forall g | g in order :: GradientOk(g, results)
    ensures r.None? ==> forall i | 0 <= i < |order| :: GradientOk(order[i], results)
    decreases |order|
  {
    if order == [] then None
    else
      var g := order[0];
      assert g in order;
      if g !in results then Some(KeyError("final result"))
      else if results[g].driver != GRADIENT then Some(AssertionError(results[g].driver))
      else if |results[g].returnResult| % 3 != 0 then Some(ValueError("cannot reshape into rows of 3"))
      else
        assert forall g' | g' in order :: g' == g || g' in order[1..];
        assert forall i | 0 < i < |order| :: order[i] == order[1..][i - 1];
        GradFault(order[1..], results)
  }

  /** The coordinate blocks of a job: one per grid point, titled with its own energy. */
  function XyzBlocks(name: string, order: seq<int>, rec: ProcRecord): (r: seq<seq<Line>>)
    requires forall i | 0 <= i < |order| :: order[i] in rec.finalEnergies && order[i] in rec.finalMolecules
    ensures |r| == |order|
    ensures forall i | 0 <= i < |order| ::
      r[i] == XyzBlock(rec.finalMolecules[order[i]], XyzTitle(name, order[i], rec.finalEnergies[order[i]]))
  {
    seq(|order|, i requires 0 <= i < |order| =>
      XyzBlock(rec.finalMolecules[order[i]], XyzTitle(name, order[i], rec.finalEnergies[order[i]])))
  }

  /** The gradient blocks of a job: one per grid point, every title carrying `energy`. */
  function GradBlocks(name: string, order: seq<int>, energy: real, rec: ProcRecord): (r: seq<seq<Line>>)
    requires forall i | 0 <= i < |order| :: order[i] in rec.finalMolecules && order[i] in rec.finalResults
    requires forall i | 0 <= i < |order| :: |rec.finalResults[order[i]].returnResult| % 3 == 0
    ensures |r| == |order|
    ensures forall i | 0 <= i < |order| ::
      r[i] == GradBlock(name, order[i], energy, rec.finalMolecules[order[i]].symbols,
                        Triples(rec.finalResults[order[i]].returnResult))
  {
    seq(|order|, i requires 0 <= i < |order| =>
      GradBlock(name, order[i], energy, rec.finalMolecules[order[i]].symbols,
                Triples(rec.finalResults[order[i]].returnResult)))
  }

  /** The files written for one procedure record of the job named `name`, or the error
      that stops `download_complete`. The gradient titles all reuse the energy left in
      `energy` by the last iteration of the xyz loop. */
  function JobFilesOf(name: string, rec: ProcRecord): (r: Result<JobFiles>)
  {
    var order := SortedGridIds(rec.finalEnergies.Keys);
    SortedGridIdsFacts(rec.finalEnergies.Keys);
    match XyzFault(order, rec.finalMolecules)
    case Some(e) => Failure(e)
    case None =>
      match GradFault(order, rec.finalResults)
      case Some(e) => Failure(e)
      case None =>
        assert forall i | 0 <= i < |order| :: order[i] in order;
        var xyz := XyzBlocks(name, order, rec);
        if order == [] then Success(JobFiles(order, xyz, []))
        else Success(JobFiles(order, xyz, GradBlocks(name, order, rec.finalEnergies[order[|order| - 1]], rec)))
  }

  /** Every grid point has a final molecule and a gradient result. */
  predicate Materializable(rec: ProcRecord) {
    forall g | g in rec.finalEnergies :: g in rec.finalMolecules && GradientOk(g, rec.finalResults)
  }

  /** Writing a job's files succeeds exactly when every grid point has a molecule and a
      gradient result; a result of any other driver makes it fail. */
  lemma JobFilesOk(name: string, rec: ProcRecord)
    ensures JobFilesOf(name, rec).Success? <==> Materializable(rec)
    ensures forall g | g in rec.finalEnergies && g in rec.finalResults && rec.finalResults[g].driver != GRADIENT ::
      JobFilesOf(name, rec).Failure?
  {
    var order := SortedGridIds(rec.finalEnergies.Keys);
    SortedGridIdsFacts(rec.finalEnergies.Keys);
    assert forall g | g in rec.finalEnergies :: g in order;
  }

  /** The layout of a job's files: the grid ids ascending, one coordinate block and one
      gradient block per grid point in that order, each coordinate block titled with its
      own point's energy and each gradient block with the energy of the LAST point. */
  lemma JobFilesLayout(name: string, rec: ProcRecord)
    requires JobFilesOf(name, rec).Success?
    ensures var f := JobFilesOf(name, rec).value; var n := |f.gridOrder|;
      n == |rec.finalEnergies| && |f.xyz| == n && |f.grad| == n &&
      (forall a, b | 0 <= a < b < n :: f.gridOrder[a] < f.gridOrder[b]) &&
      (forall g :: g in f.gridOrder <==> g in rec.finalEnergies) &&
      (forall i | 0 <= i < n :: var g := f.gridOrder[i];
        f.xyz[i][0] == CountLine(|rec.finalMolecules[g].symbols|) &&
        f.xyz[i][1] == TitleLine(XyzTitle(name, g, rec.finalEnergies[g])) &&
        f.grad[i][0] == CountLine(|rec.finalResults[g].returnResult| / 3) &&
        f.grad[i][1] == TitleLine(GradTitle(name, g, rec.finalEnergies[f.gridOrder[n - 1]])) &&
        |f.grad[i]| == 2 + Min(|rec.finalMolecules[g].symbols|, |rec.finalResults[g].returnResult| / 3))
  {
    var order := SortedGridIds(rec.finalEnergies.Keys);
    SortedGridIdsFacts(rec.finalEnergies.Keys);
    assert |rec.finalEnergies.Keys| == |rec.finalEnergies|;
    var f := JobFilesOf(name, rec).value;
    assert f.gridOrder == order;
    forall i | 0 <= i < |order|
      ensures order[i] in rec.finalMolecules && GradientOk(order[i], rec.finalResults)
    {
      assert order[i] in order;
    }
  }

  // -------------------------------------------------------- download_complete

  /** `os.path.join(out_folder, mol_name, name + '.xyz')` */
  function XyzPath(outFolder: string, j: Job): string {
    outFolder + "/" + j.molName + "/" + j.name + ".xyz"
  }

  /** The state change of a job whose files were written. */
  function MarkDownloaded(j: Job, outFolder: string): (r: Job)
    ensures r.status == DOWNLOADED && r.savedFile == Some(XyzPath(outFolder, j))
    ensures r.(status := j.status, savedFile := j.savedFile) == j
  {
    j.(status := DOWNLOADED, savedFile := Some(XyzPath(outFolder, j)))
  }

  /** The loop of `download_complete` over the records it got back: each record's id
      must be a key of the COMPLETE alias map (KeyError otherwise); its files are
      written and its job marked DOWNLOADED; the first failure stops the loop. Returns
      the jobs, the outcome and the files written before it stopped. */
  function DownloadFold(jobs: seq<Job>, c: map<JobId, nat>, records: seq<ProcRecord>, outFolder: string)
    : (r: (seq<Job>, Outcome, seq<JobFiles>))
    requires Aliases(c, |jobs|)
    ensures |r.0| == |jobs|
    decreases |records|
  {
    if records == [] then (jobs, Done, [])
    else
      var rec := records[0];
      if rec.id !in c then (jobs, Raised(KeyError("procedure id")), [])
      else
        var p := c[rec.id];
        match JobFilesOf(jobs[p].name, rec)
        case Failure(e) => (jobs, Raised(e), [])
        case Success(f) =>
          var rest := DownloadFold(jobs[p := MarkDownloaded(jobs[p], outFolder)], c, records[1..], outFolder);
          (rest.0, rest.1, [f] + rest.2)
  }

  /** The result of `download_complete`: the jobs, how it ended, the files written, the
      rewritten ledger (`None` when it was not reached) and the ids it asked for. */
  datatype Download = Download(
    jobs: seq<Job>,
    outcome: Outcome,
    files: seq<JobFiles>,
    ledger: Option<seq<Job>>,
    query: set<JobId>)

  /** `download_complete` with the procedure query as a function of the ids asked for. */
  function DownloadAll(jobs: seq<Job>, queryProcedures: set<JobId> -> seq<ProcRecord>, outFolder: string)
    : (d: Download)
    ensures |d.jobs| == |jobs|
  {
    var c := AliasIndex(jobs, StatusComplete);
    var q := c.Keys;
    var r := DownloadFold(jobs, c, queryProcedures(q), outFolder);
    Download(r.0, r.1, r.2, if r.1 == Done then Some(WithStatus(r.0, DOWNLOADED)) else None, q)
  }

  /** Through the fold, every job is either as it was, or a job that was COMPLETE at the
      start, now marked DOWNLOADED; only positions a record reaches change. */
  lemma {:induction false} DownloadFoldChanges(orig: seq<Job>, jobs: seq<Job>, c: map<JobId, nat>,
                                               records: seq<ProcRecord>, outFolder: string, i: nat)
    requires Aliases(c, |jobs|) && |orig| == |jobs| && i < |jobs|
    requires forall k | k in c :: orig[c[k]].status == COMPLETE
    requires forall p | 0 <= p < |jobs| ::
      jobs[p] == orig[p] || (orig[p].status == COMPLETE && jobs[p] == MarkDownloaded(orig[p], outFolder))
    ensures var r := DownloadFold(jobs, c, records, outFolder).0;
      r[i] == orig[i] || (orig[i].status == COMPLETE && r[i] == MarkDownloaded(orig[i], outFolder))
    ensures DownloadFold(jobs, c, records, outFolder).0[i] != jobs[i] ==>
      exists rec | rec in records :: rec.id in c && c[rec.id] == i
    decreases |records|
  {
    if records != [] {
      var rec := records[0];
      if rec.id in c {
        var p := c[rec.id];
        if JobFilesOf(jobs[p].name, rec).Success? {
          var jobs' := jobs[p := MarkDownloaded(jobs[p], outFolder)];
          DownloadFoldChanges(orig, jobs', c, records[1..], outFolder, i);
          assert forall x | x in records[1..] :: x in records;
        }
      }
    }
  }

  /** Only COMPLETE jobs that a returned record reaches change, each to DOWNLOADED with
      `saved_file` set to its xyz path; all other jobs are unchanged. */
  lemma OnlyCompleteJobsChange(jobs: seq<Job>, queryProcedures: set<JobId> -> seq<ProcRecord>,
                               outFolder: string, i: nat)
    requires i < |jobs|
    ensures var d := DownloadAll(jobs, queryProcedures, outFolder);
      d.jobs[i] == jobs[i] ||
      (jobs[i].status == COMPLETE && d.jobs[i] == MarkDownloaded(jobs[i], outFolder) &&
       jobs[i].id in d.query && exists rec | rec in queryProcedures(d.query) :: rec.id == jobs[i].id)
  {
    var c := AliasIndex(jobs, StatusComplete);
    DownloadFoldChanges(jobs, jobs, c, queryProcedures(c.Keys), outFolder, i);
  }

  /** Marking a job twice is marking it once. */
  lemma MarkDownloadedIdempotent(j: Job, outFolder: string)
    ensures MarkDownloaded(MarkDownloaded(j, outFolder), outFolder) == MarkDownloaded(j, outFolder)
  {
  }

  /** The download loop finishes exactly when every returned record's id is a COMPLETE
      alias key and that job's files can be written. */
  lemma {:induction false} DownloadFoldOutcome(jobs: seq<Job>, c: map<JobId, nat>, records: seq<ProcRecord>,
                                               outFolder: string)
    requires Aliases(c, |jobs|)
    ensures DownloadFold(jobs, c, records, outFolder).1 == Done <==>
      forall rec | rec in records :: rec.id in c && JobFilesOf(jobs[c[rec.id]].name, rec).Success?
    decreases |records|
  {
    if records != [] {
      var rec := records[0];
      var rest := records[1..];
      assert forall x | x in records :: x == rec || x in rest;
      if rec.id in c {
        var p := c[rec.id];
        if JobFilesOf(jobs[p].name, rec).Success? {
          var jobs' := jobs[p := MarkDownloaded(jobs[p], outFolder)];
          DownloadFoldOutcome(jobs', c, rest, outFolder);
          assert forall q | 0 <= q < |jobs| :: jobs'[q].name == jobs[q].name;
        }
      }
    }
  }

  /** Through the loop each job either stays as it was or is marked DOWNLOADED. */
  lemma {:induction false} DownloadFoldPointwise(jobs: seq<Job>, c: map<JobId, nat>, records: seq<ProcRecord>,
                                                 outFolder: string, i: nat)
    requires Aliases(c, |jobs|) && i < |jobs|
    ensures var r := DownloadFold(jobs, c, records, outFolder).0;
      r[i] == jobs[i] || r[i] == MarkDownloaded(jobs[i], outFolder)
    decreases |records|
  {
    if records != [] {
      var rec := records[0];
      if rec.id in c {
        var p := c[rec.id];
        if JobFilesOf(jobs[p].name, rec).Success? {
          var jobs' := jobs[p := MarkDownloaded(jobs[p], outFolder)];
          DownloadFoldPointwise(jobs', c, records[1..], outFolder, i);
          MarkDownloadedIdempotent(jobs[i], outFolder);
        }
      }
    }
  }

  /** When the loop finishes, every job a returned record reaches is marked DOWNLOADED
      with its xyz path. */
  lemma {:induction false} DownloadFoldMarksReached(jobs: seq<Job>, c: map<JobId, nat>, records: seq<ProcRecord>,
                                                    outFolder: string, i: nat)
    requires Aliases(c, |jobs|) && i < |jobs|
    requires DownloadFold(jobs, c, records, outFolder).1 == Done
    requires exists rec | rec in records :: rec.id in c && c[rec.id] == i
    ensures DownloadFold(jobs, c, records, outFolder).0[i] == MarkDownloaded(jobs[i], outFolder)
    decreases |records|
  {
    var rec := records[0];
    var rest := records[1..];
    var p := c[rec.id];
    var jobs' := jobs[p := MarkDownloaded(jobs[p], outFolder)];
    if p == i {
      DownloadFoldPointwise(jobs', c, rest, outFolder, i);
      MarkDownloadedIdempotent(jobs[i], outFolder);
    } else {
      var x :| x in records && x.id in c && c[x.id] == i;
      assert x in rest;
      DownloadFoldMarksReached(jobs', c, rest, outFolder, i);
    }
  }

  /** When `download_complete` finishes, every COMPLETE job reached through the alias
      map whose id came back in a record is marked DOWNLOADED with its xyz path. */
  lemma DownloadMarksReturned(jobs: seq<Job>, queryProcedures: set<JobId> -> seq<ProcRecord>,
                              outFolder: string, i: nat)
    requires i < |jobs| && Reachable(jobs, AliasIndex(jobs, StatusComplete), i)
    requires DownloadAll(jobs, queryProcedures, outFolder).outcome == Done
    requires exists rec | rec in queryProcedures(DownloadAll(jobs, queryProcedures, outFolder).query) ::
      rec.id == jobs[i].id
    ensures DownloadAll(jobs, queryProcedures, outFolder).jobs[i] == MarkDownloaded(jobs[i], outFolder)
  {
    var c := AliasIndex(jobs, StatusComplete);
    var records := queryProcedures(c.Keys);
    var x :| x in records && x.id == jobs[i].id;
    assert x.id in c && c[x.id] == i;
    DownloadFoldMarksReached(jobs, c, records, outFolder, i);
  }

  /** The rewritten ledger is exactly the jobs now DOWNLOADED, in list order, and keeps
      every job that was already DOWNLOADED before. */
  lemma LedgerKeepsDownloaded(jobs: seq<Job>, queryProcedures: set<JobId> -> seq<ProcRecord>, outFolder: string)
    requires DownloadAll(jobs, queryProcedures, outFolder).outcome == Done
    ensures var d := DownloadAll(jobs, queryProcedures, outFolder);
      d.ledger == Some(WithStatus(d.jobs, DOWNLOADED)) &&
      forall j | j in jobs && j.status == DOWNLOADED :: j in d.ledger.value
  {
    var d := DownloadAll(jobs, queryProcedures, outFolder);
    forall j | j in jobs && j.status == DOWNLOADED ensures j in d.ledger.value {
      var i :| 0 <= i < |jobs| && jobs[i] == j;
      OnlyCompleteJobsChange(jobs, queryProcedures, outFolder, i);
      assert d.jobs[i] == j;
    }
  }

  /** Truthy ids are pairwise distinct. */
  predicate DistinctIds(jobs: seq<Job>) {
    forall a, b | 0 <= a < b < |jobs| && Truthy(jobs[a].id) :: jobs[a].id != jobs[b].id
  }

  /** The ledger round trip: reading back the ledger written from a job list with
      distinct ids, whose DOWNLOADED jobs all have a progress, changes nothing: every
      downloaded job keeps its status and progress. */
  lemma LedgerRoundTrip(jobs: seq<Job>)
    requires DistinctIds(jobs)
    requires forall j | j in jobs && j.status == DOWNLOADED :: j.progress.Some?
    ensures var m := AliasIndex(jobs, WithTruthyId);
      Reconcile.LedgerStep(jobs, m, WithStatus(jobs, DOWNLOADED)) == (jobs, Done)
  {
    var m := AliasIndex(jobs, WithTruthyId);
    var ledger := WithStatus(jobs, DOWNLOADED);
    Reconcile.LedgerStepOutcome(jobs, m, ledger);
    var r := Reconcile.LedgerStep(jobs, m, ledger).0;
    forall i | 0 <= i < |jobs| ensures r[i] == jobs[i] {
      Reconcile.LedgerStepResult(jobs, m, ledger, i);
      var k := jobs[i].id;
      if Reachable(jobs, m, i) && Reconcile.LastEntry(ledger, k).Some? {
        var e := ledger[Reconcile.LastEntry(ledger, k).value];
        assert e in ledger;
        var i' :| 0 <= i' < |jobs| && jobs[i'] == e;
        assert Truthy(k);
        assert i' == i;
        assert jobs[i].status == DOWNLOADED;
      }
    }
    assert r == jobs;
  }
}
