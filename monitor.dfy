/** The monitor object: a job list that its methods update in place. Each method is
    proved against the function that specifies it (checkpoint flattening, dataset
    sync, reconciliation, materialization). */
module Monitor {
  import opened Jobs
  import opened Checkpoint
  import opened Reconcile
  import opened Materialize

  /** A job after `sync_from_dataset`: a job whose `canonical_torsion_label` is a key of
      the dataset column takes that record's id and status. */
  function Synced(j: Job, table: map<string, DatasetRecord>): (r: Job)
    ensures r.(id := j.id, status := j.status) == j
    ensures j.torsionLabel.Some? && j.torsionLabel.value in table ==>
      r.id == Some(table[j.torsionLabel.value].id) && r.status == table[j.torsionLabel.value].status
    ensures !(j.torsionLabel.Some? && j.torsionLabel.value in table) ==> r == j
  {
    if j.torsionLabel.Some? && j.torsionLabel.value in table then
      var rec := table[j.torsionLabel.value];
      j.(id := Some(rec.id), status := rec.status)
    else j
  }

  /** A job the dataset column matches with a non-zero record id is tracked by the next
      `get_update`: its new id is a key of the id -> job map. */
  lemma SyncedJobsAreTracked(before: seq<Job>, after: seq<Job>, table: map<string, DatasetRecord>, i: nat)
    requires |after| == |before| && forall k | 0 <= k < |before| :: after[k] == Synced(before[k], table)
    requires i < |before| && before[i].torsionLabel.Some? && before[i].torsionLabel.value in table
    requires table[before[i].torsionLabel.value].id != 0
    ensures after[i].id == Some(table[before[i].torsionLabel.value].id)
    ensures after[i].id in AliasIndex(after, WithTruthyId)
  {
    AliasIndexIsLast(after, WithTruthyId);
  }

  class TorsionMonitor {
    /** `td_jobs` */
    var jobs: seq<Job>
    /** The folder under which job files and the ledger are written. */
    const outFolder: string

    /** An empty monitor writing under `outFolder`; the checkpoint is then read with
        LoadCheckpoint. */
    constructor(outFolder: string)
      ensures jobs == [] && this.outFolder == outFolder
    {
      jobs := [];
      this.outFolder := outFolder;
    }

    /** The inner loop of `load_checkpoint`: the job records of one molecule's
        dihedrals, or the KeyError of the first dihedral without a status. */
    method LoadDihedrals(molName: string, ds: seq<Dihedral>) returns (r: Result<seq<Job>>)
      ensures r == MoleculeJobs(molName, ds)
    {
      var built: seq<Job> := [];
      assert ds[0..] == ds;
      if MoleculeJobs(molName, ds).Success? {
        assert [] + MoleculeJobs(molName, ds).value == MoleculeJobs(molName, ds).value;
      }
      for k := 0 to |ds|
        invariant MoleculeJobs(molName, ds) == Prepend(built, MoleculeJobs(molName, ds[k..]))
      {
        assert ds[k..][1..] == ds[k + 1..];
        if ds[k].status.None? {
          return Failure(KeyError("status"));
        }
        ghost var rest := MoleculeJobs(molName, ds[k + 1..]);
        if rest.Success? {
          assert built + ([MakeJob(molName, ds[k])] + rest.value) == (built + [MakeJob(molName, ds[k])]) + rest.value;
        }
        built := built + [MakeJob(molName, ds[k])];
      }
      assert ds[|ds|..] == [];
      assert built + [] == built;
      r := Success(built);
    }

    /** `load_checkpoint`: the jobs become the flattened checkpoint; on a KeyError the
        job list is left as it was (it is assigned only at the end). */
    method LoadCheckpoint(state: State) returns (outcome: Outcome)
      modifies this
      ensures Flatten(state).Success? ==> jobs == Flatten(state).value && outcome == Done
      ensures Flatten(state).Failure? ==> jobs == old(jobs) && outcome == Raised(Flatten(state).error)
    {
      var tdJobs: seq<Job> := [];
      assert state[0..] == state;
      if Flatten(state).Success? {
        assert [] + Flatten(state).value == Flatten(state).value;
      }
      for i := 0 to |state|
        invariant Flatten(state) == Prepend(tdJobs, Flatten(state[i..]))
        invariant jobs == old(jobs)
      {
        var entry := state[i];
        assert state[i..][0] == entry && state[i..][1..] == state[i + 1..];
        if entry.fname != SCAN_CONF {
          var molName := MolName(entry.fname);
          if entry.dihedrals.None? {
            assert Flatten(state[i..]) == Failure(KeyError("dihedrals"));
            return Raised(KeyError("dihedrals"));
          }
          var molJobs := LoadDihedrals(molName, entry.dihedrals.value);
          if molJobs.Failure? {
            return Raised(molJobs.error);
          }
          ghost var rest := Flatten(state[i + 1..]);
          if rest.Success? {
            assert tdJobs + (molJobs.value + rest.value) == (tdJobs + molJobs.value) + rest.value;
          }
          tdJobs := tdJobs + molJobs.value;
        }
      }
      assert state[|state|..] == [];
      assert tdJobs + [] == tdJobs;
      jobs := tdJobs;
      outcome := Done;
    }

    /** `sync_from_dataset` with the dataset's `default` column as a map from canonical
        torsion label to record. */
    method SyncFromDataset(table: map<string, DatasetRecord>)
      modifies this
      ensures |jobs| == |old(jobs)|
      ensures forall i | 0 <= i < |jobs| :: jobs[i] == Synced(old(jobs)[i], table)
    {
      for i := 0 to |jobs|
        invariant |jobs| == |old(jobs)|
        invariant forall k | 0 <= k < i :: jobs[k] == Synced(old(jobs)[k], table)
        invariant forall k | i <= k < |jobs| :: jobs[k] == old(jobs)[k]
      {
        var job := jobs[i];
        if job.torsionLabel.Some? {
          var torsion := job.torsionLabel.value;
          if torsion in table {
            var record := table[torsion];
            jobs := jobs[i := jobs[i].(id := Some(record.id))];
            jobs := jobs[i := jobs[i].(status := record.status)];
          }
        }
      }
    }

    /** The ledger loop of `get_update`: the jobs and the outcome are those of LedgerStep. */
    method ApplyLedger(m: map<JobId, nat>, entries: seq<Job>) returns (outcome: Outcome)
      requires Aliases(m, |jobs|)
      modifies this
      ensures (jobs, outcome) == LedgerStep(old(jobs), m, entries)
    {
      assert entries[0..] == entries;
      for i := 0 to |entries|
        invariant |jobs| == |old(jobs)|
        invariant LedgerStep(old(jobs), m, entries) == LedgerStep(jobs, m, entries[i..])
      {
        assert entries[i..][1..] == entries[i + 1..];
        var e := entries[i];
        if e.id in m {
          var p := m[e.id];
          ghost var before := jobs;
          jobs := jobs[p := jobs[p].(status := DOWNLOADED)];
          if e.progress.None? {
            outcome := Raised(KeyError("progress"));
            return;
          }
          jobs := jobs[p := jobs[p].(progress := e.progress)];
          assert jobs == before[p := Downloaded(before[p], e.progress.value)];
        }
      }
      outcome := Done;
    }

    /** The procedure loop of `get_update`: the jobs and the outcome are those of
        ProcedureStep. */
    method ApplyProcedures(m: map<JobId, nat>, records: seq<ProcRecord>) returns (outcome: Outcome)
      requires Aliases(m, |jobs|)
      modifies this
      ensures (jobs, outcome) == ProcedureStep(old(jobs), m, records)
    {
      assert records[0..] == records;
      for i := 0 to |records|
        invariant |jobs| == |old(jobs)|
        invariant ProcedureStep(old(jobs), m, records) == ProcedureStep(jobs, m, records[i..])
      {
        assert records[i..][1..] == records[i + 1..];
        var rec := records[i];
        if rec.id !in m {
          outcome := Raised(KeyError("procedure id"));
          return;
        }
        var p := m[rec.id];
        ghost var before := jobs;
        jobs := jobs[p := jobs[p].(status := rec.status)];
        jobs := jobs[p := jobs[p].(progress := Some(rec.historyLength))];
        assert jobs == before[p := before[p].(status := rec.status, progress := Some(rec.historyLength))];
      }
      outcome := Done;
    }

    /** The service loop of `get_update`: the jobs become those of ServiceFold. */
    method ApplyServices(m: map<JobId, nat>, records: seq<ServiceRecord>)
      requires Aliases(m, |jobs|)
      modifies this
      ensures jobs == ServiceFold(old(jobs), m, records)
    {
      assert records[0..] == records;
      for i := 0 to |records|
        invariant |jobs| == |old(jobs)|
        invariant ServiceFold(old(jobs), m, records) == ServiceFold(jobs, m, records[i..])
      {
        assert records[i..][1..] == records[i + 1..];
        var rec := records[i];
        // the body of the bare `try`: assignments up to the first missing key
        if rec.procedureId in m {
          var p := m[rec.procedureId];
          ghost var before := jobs;
          if rec.status.Some? {
            jobs := jobs[p := jobs[p].(status := rec.status.value)];
            if rec.historyLength.Some? {
              jobs := jobs[p := jobs[p].(progress := Some(rec.historyLength.value))];
              if jobs[p].status == ERROR && rec.error.Some? {
                jobs := jobs[p := jobs[p].(error := rec.error)];
              }
            }
          }
          assert jobs == before[p := ApplyService(before[p], rec)];
        }
      }
    }

    /** `get_update` with the ledger file's content (`None` when there is no file) and the
        two remote queries: the jobs, the outcome and the ids asked for are those of
        Reconcile. */
    method GetUpdate(ledger: Option<seq<Job>>, queryProcedures: set<JobId> -> seq<ProcRecord>,
                     queryServices: set<JobId> -> ServiceReply)
      returns (outcome: Outcome, procedureQuery: Option<set<JobId>>, serviceQuery: Option<set<JobId>>)
      modifies this
      ensures var r := Reconcile.Reconcile(old(jobs), ledger, queryProcedures, queryServices);
        jobs == r.jobs && outcome == r.outcome &&
        procedureQuery == r.procedureQuery && serviceQuery == r.serviceQuery
    {
      var m := BuildAliasIndex(jobs, WithTruthyId);
      procedureQuery, serviceQuery := None, None;
      if ledger.Some? {
        outcome := ApplyLedger(m, ledger.value);
        if outcome.Raised? {
          return;
        }
      }
      var q1 := ProcedureQuery(jobs, m);
      procedureQuery := Some(q1);
      outcome := ApplyProcedures(m, queryProcedures(q1));
      if outcome.Raised? {
        return;
      }
      var q2 := ServiceQuery(jobs, m);
      serviceQuery := Some(q2);
      var reply := queryServices(q2);
      if reply.Records? {
        ApplyServices(m, reply.records);
      }
      outcome := Done;
    }

    /** `get_xyz_str`: the atom count, the title, and one line per atom in Angstrom. */
    method GetXyzStr(mol: Molecule, title: Title) returns (lines: seq<Line>)
      ensures lines == XyzBlock(mol, title)
    {
      lines := [CountLine(|mol.symbols|), TitleLine(title)];
      var n := Min(|mol.symbols|, |mol.geometry|);
      for i := 0 to n
        invariant |lines| == 2 + i
        invariant lines[0] == CountLine(|mol.symbols|) && lines[1] == TitleLine(title)
        invariant forall k | 0 <= k < i :: lines[k + 2] == AtomLine(mol.symbols[k], ToAngstrom(mol.geometry[k]))
      {
        var v := mol.geometry[i];
        lines := lines + [AtomLine(mol.symbols[i], Vec3(v.x * BOHR_TO_ANGSTROM, v.y * BOHR_TO_ANGSTROM, v.z * BOHR_TO_ANGSTROM))];
      }
      var b := XyzBlock(mol, title);
      assert |lines| == |b|;
      forall k | 0 <= k < |b| ensures lines[k] == b[k] {
        if k >= 2 {
          assert lines[(k - 2) + 2] == b[(k - 2) + 2];
        }
      }
    }

    /** The lines of one gradient block: the number of rows of the reshaped gradient,
        the title, then one line per (symbol, row) pair. */
    method GradXyzLines(name: string, grid: int, energy: real, symbols: seq<string>, gradMat: seq<Vec3>)
      returns (lines: seq<Line>)
      ensures lines == GradBlock(name, grid, energy, symbols, gradMat)
    {
      var noa := |gradMat|;
      lines := [CountLine(noa), TitleLine(GradTitle(name, grid, energy))];
      var n := Min(|symbols|, noa);
      for i := 0 to n
        invariant |lines| == 2 + i
        invariant lines[0] == CountLine(noa) && lines[1] == TitleLine(GradTitle(name, grid, energy))
        invariant forall k | 0 <= k < i :: lines[k + 2] == AtomLine(symbols[k], gradMat[k])
      {
        lines := lines + [AtomLine(symbols[i], gradMat[i])];
      }
      var b := GradBlock(name, grid, energy, symbols, gradMat);
      assert |lines| == |b|;
      forall k | 0 <= k < |b| ensures lines[k] == b[k] {
        if k >= 2 {
          assert lines[(k - 2) + 2] == b[(k - 2) + 2];
        }
      }
    }

    /** The xyz loop of `download_complete`: one coordinate block per grid id, stopped
        by the first grid id without a final molecule. Also returns the energy the loop
        leaves behind, that of the last grid id. */
    method WriteXyzFile(name: string, order: seq<int>, rec: ProcRecord)
      returns (fault: Option<Error>, xyz: seq<seq<Line>>, energy: real)
      requires forall i | 0 <= i < |order| :: order[i] in rec.finalEnergies
      ensures fault == XyzFault(order, rec.finalMolecules)
      ensures fault.None? ==> xyz == XyzBlocks(name, order, rec)
      ensures fault.None? && order != [] ==> energy == rec.finalEnergies[order[|order| - 1]]
    {
      energy := 0.0;
      xyz := [];
      assert order[0..] == order;
      for i := 0 to |order|
        invariant XyzFault(order, rec.finalMolecules) == XyzFault(order[i..], rec.finalMolecules)
        invariant forall k | 0 <= k < i :: order[k] in rec.finalMolecules
        invariant |xyz| == i
        invariant forall k | 0 <= k < i ::
          xyz[k] == XyzBlock(rec.finalMolecules[order[k]], XyzTitle(name, order[k], rec.finalEnergies[order[k]]))
        invariant i > 0 ==> energy == rec.finalEnergies[order[i - 1]]
      {
        assert order[i..][1..] == order[i + 1..];
        var g := order[i];
        if g !in rec.finalMolecules {
          fault := Some(KeyError("final molecule"));
          return;
        }
        energy := rec.finalEnergies[g];
        var block := GetXyzStr(rec.finalMolecules[g], XyzTitle(name, g, energy));
        xyz := xyz + [block];
      }
      fault := None;
    }

    /** The gradient loop of `download_complete`: one gradient block per grid id, all
        titled with `energy`, stopped by the first grid id whose result is missing, is
        not a gradient, or does not reshape. */
    method WriteGradFile(name: string, order: seq<int>, energy: real, rec: ProcRecord)
      returns (fault: Option<Error>, grad: seq<seq<Line>>)
      requires forall i | 0 <= i < |order| :: order[i] in rec.finalMolecules
      ensures fault == GradFault(order, rec.finalResults)
      ensures fault.None? ==> grad == GradBlocks(name, order, energy, rec)
    {
      grad := [];
      assert order[0..] == order;
      for i := 0 to |order|
        invariant GradFault(order, rec.finalResults) == GradFault(order[i..], rec.finalResults)
        invariant forall k | 0 <= k < i :: GradientOk(order[k], rec.finalResults)
        invariant |grad| == i
        invariant forall k | 0 <= k < i ::
          grad[k] == GradBlock(name, order[k], energy, rec.finalMolecules[order[k]].symbols,
                               Triples(rec.finalResults[order[k]].returnResult))
      {
        assert order[i..][1..] == order[i + 1..];
        var g := order[i];
        if g !in rec.finalResults {
          fault := Some(KeyError("final result"));
          return;
        }
        var result := rec.finalResults[g];
        if result.driver != GRADIENT {
          fault := Some(AssertionError(result.driver));
          return;
        }
        if |result.returnResult| % 3 != 0 {
          fault := Some(ValueError("cannot reshape into rows of 3"));
          return;
        }
        var gradMat := Triples(result.returnResult);
        var block := GradXyzLines(name, g, energy, rec.finalMolecules[g].symbols, gradMat);
        grad := grad + [block];
      }
      fault := None;
    }

    /** The body of `download_complete`'s loop for one record: the coordinate file, then
        the gradient file, over the grid ids in ascending order. */
    method WriteJobFiles(name: string, rec: ProcRecord) returns (r: Result<JobFiles>)
      ensures r == JobFilesOf(name, rec)
    {
      var order := SortedGridIds(rec.finalEnergies.Keys);
      SortedGridIdsFacts(rec.finalEnergies.Keys);
      assert forall i | 0 <= i < |order| :: order[i] in order;
      var xyzFault, xyz, energy := WriteXyzFile(name, order, rec);
      if xyzFault.Some? {
        r := Failure(xyzFault.value);
        return;
      }
      var gradFault, grad := WriteGradFile(name, order, energy, rec);
      if gradFault.Some? {
        r := Failure(gradFault.value);
        return;
      }
      r := Success(JobFiles(order, xyz, if order == [] then [] else grad));
    }

    /** The loop of `download_complete` over the returned records: the jobs, the
        outcome and the files written are those of DownloadFold. */
    method DownloadRecords(c: map<JobId, nat>, records: seq<ProcRecord>)
      returns (outcome: Outcome, files: seq<JobFiles>)
      requires Aliases(c, |jobs|)
      modifies this
      ensures (jobs, outcome, files) == DownloadFold(old(jobs), c, records, outFolder)
    {
      files := [];
      assert records[0..] == records;
      assert [] + DownloadFold(jobs, c, records, outFolder).2 == DownloadFold(jobs, c, records, outFolder).2;
      for i := 0 to |records|
        invariant |jobs| == |old(jobs)|
        invariant var rest := DownloadFold(jobs, c, records[i..], outFolder);
          DownloadFold(old(jobs), c, records, outFolder) == (rest.0, rest.1, files + rest.2)
      {
        assert records[i..][1..] == records[i + 1..];
        var rec := records[i];
        if rec.id !in c {
          assert files + [] == files;
          return Raised(KeyError("procedure id")), files;
        }
        var p := c[rec.id];
        var written := WriteJobFiles(jobs[p].name, rec);
        if written.Failure? {
          assert files + [] == files;
          return Raised(written.error), files;
        }
        ghost var before := jobs;
        jobs := jobs[p := jobs[p].(status := DOWNLOADED)];
        jobs := jobs[p := jobs[p].(savedFile := Some(XyzPath(outFolder, jobs[p])))];
        assert jobs == before[p := MarkDownloaded(before[p], outFolder)];
        ghost var rest := DownloadFold(jobs, c, records[i + 1..], outFolder);
        assert files + ([written.value] + rest.2) == (files + [written.value]) + rest.2;
        files := files + [written.value];
      }
      assert files + [] == files;
      outcome := Done;
    }

    /** `download_complete` with the procedure query as a function of the ids asked for:
        the jobs, the outcome, the files, the rewritten ledger and the ids asked for are
        those of DownloadAll. */
    method DownloadComplete(queryProcedures: set<JobId> -> seq<ProcRecord>)
      returns (outcome: Outcome, files: seq<JobFiles>, ledger: Option<seq<Job>>, query: set<JobId>)
      modifies this
      ensures var d := Materialize.DownloadAll(old(jobs), queryProcedures, outFolder);
        jobs == d.jobs && outcome == d.outcome && files == d.files && ledger == d.ledger && query == d.query
    {
      var c := BuildAliasIndex(jobs, StatusComplete);
      query := c.Keys;
      outcome, files := DownloadRecords(c, queryProcedures(query));
      ledger := if outcome == Done then Some(WithStatus(jobs, DOWNLOADED)) else None;
    }
  }
}
