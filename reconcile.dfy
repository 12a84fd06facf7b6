/** Status reconciliation (`get_update`): the download ledger, then the procedure
    records, then the service records of INCOMPLETE jobs, each applied through the
    id -> job alias map built once at the start. */
module Reconcile {
  import opened Jobs

  // ------------------------------------------------------------------ ledger

  /** A job the ledger says is downloaded, with the ledger's progress. */
  function Downloaded(j: Job, progress: nat): Job {
    j.(status := DOWNLOADED, progress := Some(progress))
  }

  /** Applies the ledger entries in order: an entry whose id is a key of the alias map
      forces DOWNLOADED and the entry's progress onto the job it reaches; when the entry
      has no progress the status is already DOWNLOADED as the KeyError is raised. Other
      entries change nothing. */
  function LedgerStep(jobs: seq<Job>, m: map<JobId, nat>, ledger: seq<Job>): (r: (seq<Job>, Outcome))
    requires Aliases(m, |jobs|)
    ensures |r.0| == |jobs|
    decreases |ledger|
  {
    if ledger == [] then (jobs, Done)
    else
      var e := ledger[0];
      if e.id !in m then LedgerStep(jobs, m, ledger[1..])
      else
        var p := m[e.id];
        if e.progress.None? then (jobs[p := jobs[p].(status := DOWNLOADED)], Raised(KeyError("progress")))
        else LedgerStep(jobs[p := Downloaded(jobs[p], e.progress.value)], m, ledger[1..])
  }

  /** The position of the last ledger entry with id `k`. */
  function LastEntry(ledger: seq<Job>, k: JobId): (r: Option<nat>)
    ensures r.Some? ==> r.value < |ledger| && ledger[r.value].id == k
    ensures r.None? <==> forall e | e in ledger :: e.id != k
    decreases |ledger|
  {
    if ledger == [] then None
    else match LastEntry(ledger[1..], k)
      case Some(i) => Some(i + 1)
      case None => if ledger[0].id == k then Some(0) else None
  }

  /** Only the jobs a ledger entry reaches through the alias map can change, and no
      job's id changes. */
  lemma {:induction false} LedgerStepFrame(jobs: seq<Job>, m: map<JobId, nat>, ledger: seq<Job>, i: nat)
    requires Aliases(m, |jobs|) && i < |jobs|
    ensures LedgerStep(jobs, m, ledger).0[i].id == jobs[i].id
    ensures (forall e | e in ledger :: !(e.id in m && m[e.id] == i)) ==> LedgerStep(jobs, m, ledger).0[i] == jobs[i]
    decreases |ledger|
  {
    if ledger != [] {
      var e := ledger[0];
      assert forall x | x in ledger[1..] :: x in ledger;
      if e.id in m && e.progress.Some? {
        var p := m[e.id];
        LedgerStepFrame(jobs[p := Downloaded(jobs[p], e.progress.value)], m, ledger[1..], i);
      } else if e.id !in m {
        LedgerStepFrame(jobs, m, ledger[1..], i);
      }
    }
  }

  /** The ledger step raises exactly when an entry with a known id has no progress. */
  lemma {:induction false} LedgerStepOutcome(jobs: seq<Job>, m: map<JobId, nat>, ledger: seq<Job>)
    requires Aliases(m, |jobs|)
    ensures LedgerStep(jobs, m, ledger).1 == Done <==> forall e | e in ledger && e.id in m :: e.progress.Some?
    decreases |ledger|
  {
    if ledger != [] {
      var e := ledger[0];
      assert forall x | x in ledger[1..] :: x in ledger;
      assert forall x | x in ledger :: x == e || x in ledger[1..];
      if e.id in m && e.progress.Some? {
        var p := m[e.id];
        LedgerStepOutcome(jobs[p := Downloaded(jobs[p], e.progress.value)], m, ledger[1..]);
      } else if e.id !in m {
        LedgerStepOutcome(jobs, m, ledger[1..]);
      }
    }
  }

  /** After a ledger step that does not raise, a job reachable through the alias map
      whose id is in the ledger is DOWNLOADED with the progress of the LAST entry for
      its id; every other job is unchanged. */
  lemma {:induction false} LedgerStepResult(jobs: seq<Job>, m: map<JobId, nat>, ledger: seq<Job>, i: nat)
    requires Consistent(jobs, m) && i < |jobs|
    requires LedgerStep(jobs, m, ledger).1 == Done
    ensures var r := LedgerStep(jobs, m, ledger).0; var k := jobs[i].id;
      if Reachable(jobs, m, i) && LastEntry(ledger, k).Some? then
        r[i] == jobs[i].(status := DOWNLOADED, progress := ledger[LastEntry(ledger, k).value].progress)
      else r[i] == jobs[i]
    decreases |ledger|
  {
    var k := jobs[i].id;
    if ledger != [] {
      var e := ledger[0];
      var rest := ledger[1..];
      if e.id !in m {
        LedgerStepResult(jobs, m, rest, i);
        if Reachable(jobs, m, i) {
          assert e.id != k;
        }
      } else {
        var p := m[e.id];
        var jobs' := jobs[p := Downloaded(jobs[p], e.progress.value)];
        assert jobs'[i].id == k;
        LedgerStepResult(jobs', m, rest, i);
        if LastEntry(rest, k).None? && Reachable(jobs, m, i) && e.id == k {
          assert LastEntry(ledger, k) == Some(0);
        }
      }
    }
  }

  // -------------------------------------------------------------- procedures

  /** The procedure query: the ids of the alias map whose job is not DOWNLOADED. */
  function ProcedureQuery(jobs: seq<Job>, m: map<JobId, nat>): (q: set<JobId>)
    requires Aliases(m, |jobs|)
    ensures q <= m.Keys
    ensures forall i | 0 <= i < |jobs| && Reachable(jobs, m, i) :: jobs[i].id in q <==> jobs[i].status != DOWNLOADED
  {
    set k | k in m && jobs[m[k]].status != DOWNLOADED
  }

  /** Applies the procedure records in order: each sets the status and progress of the
      job its id reaches; an id that is not a key of the alias map raises KeyError. */
  function ProcedureStep(jobs: seq<Job>, m: map<JobId, nat>, records: seq<ProcRecord>): (r: (seq<Job>, Outcome))
    requires Aliases(m, |jobs|)
    ensures |r.0| == |jobs|
    decreases |records|
  {
    if records == [] then (jobs, Done)
    else
      var rec := records[0];
      if rec.id !in m then (jobs, Raised(KeyError("procedure id")))
      else
        var p := m[rec.id];
        ProcedureStep(jobs[p := jobs[p].(status := rec.status, progress := Some(rec.historyLength))], m, records[1..])
  }

  /** The position of the last procedure record with id `k`. */
  function LastRecord(records: seq<ProcRecord>, k: JobId): (r: Option<nat>)
    ensures r.Some? ==> r.value < |records| && records[r.value].id == k
    ensures r.None? <==> forall rec | rec in records :: rec.id != k
    decreases |records|
  {
    if records == [] then None
    else match LastRecord(records[1..], k)
      case Some(i) => Some(i + 1)
      case None => if records[0].id == k then Some(0) else None
  }

  /** Only the jobs a record reaches can change, and no job's id changes. */
  lemma {:induction false} ProcedureStepFrame(jobs: seq<Job>, m: map<JobId, nat>, records: seq<ProcRecord>, i: nat)
    requires Aliases(m, |jobs|) && i < |jobs|
    ensures ProcedureStep(jobs, m, records).0[i].id == jobs[i].id
    ensures (forall rec | rec in records :: !(rec.id in m && m[rec.id] == i)) ==> ProcedureStep(jobs, m, records).0[i] == jobs[i]
    decreases |records|
  {
    if records != [] && records[0].id in m {
      var rec := records[0];
      var p := m[rec.id];
      assert forall x | x in records[1..] :: x in records;
      ProcedureStepFrame(jobs[p := jobs[p].(status := rec.status, progress := Some(rec.historyLength))], m, records[1..], i);
    }
  }

  /** A procedure record whose id is unknown is not skipped: the step raises exactly
      when some record's id is not a key of the alias map. */
  lemma {:induction false} ProcedureStepOutcome(jobs: seq<Job>, m: map<JobId, nat>, records: seq<ProcRecord>)
    requires Aliases(m, |jobs|)
    ensures ProcedureStep(jobs, m, records).1 == Done <==> forall rec | rec in records :: rec.id in m
    decreases |records|
  {
    if records != [] && records[0].id in m {
      var rec := records[0];
      var p := m[rec.id];
      assert forall x | x in records[1..] :: x in records;
      assert forall x | x in records :: x == rec || x in records[1..];
      ProcedureStepOutcome(jobs[p := jobs[p].(status := rec.status, progress := Some(rec.historyLength))], m, records[1..]);
    }
  }

  /** After a procedure step that does not raise, a reachable job with a record takes
      the status and history length of the LAST record for its id. */
  lemma {:induction false} ProcedureStepResult(jobs: seq<Job>, m: map<JobId, nat>, records: seq<ProcRecord>, i: nat)
    requires Consistent(jobs, m) && i < |jobs|
    requires ProcedureStep(jobs, m, records).1 == Done
    ensures var r := ProcedureStep(jobs, m, records).0; var k := jobs[i].id;
      if Reachable(jobs, m, i) && LastRecord(records, k).Some? then
        var rec := records[LastRecord(records, k).value];
        r[i] == jobs[i].(status := rec.status, progress := Some(rec.historyLength))
      else r[i] == jobs[i]
    decreases |records|
  {
    var k := jobs[i].id;
    if records != [] {
      var rec := records[0];
      var rest := records[1..];
      var p := m[rec.id];
      var jobs' := jobs[p := jobs[p].(status := rec.status, progress := Some(rec.historyLength))];
      assert jobs'[i].id == k;
      ProcedureStepResult(jobs', m, rest, i);
      if LastRecord(rest, k).None? && Reachable(jobs, m, i) && rec.id == k {
        assert LastRecord(records, k) == Some(0);
      }
    }
  }

  // ---------------------------------------------------------------- services

  /** The service query: the ids of the alias map whose job is exactly INCOMPLETE. */
  function ServiceQuery(jobs: seq<Job>, m: map<JobId, nat>): (q: set<JobId>)
    requires Aliases(m, |jobs|)
    ensures q <= m.Keys
    ensures forall i | 0 <= i < |jobs| && Reachable(jobs, m, i) :: jobs[i].id in q <==> jobs[i].status == INCOMPLETE
  {
    set k | k in m && jobs[m[k]].status == INCOMPLETE
  }

  /** One service record applied to its job inside the bare `try`: the assignments run
      in order until a missing key raises, so a record without `optimization_history`
      still sets the status; `error` is copied only when the new status is ERROR. */
  function ApplyService(j: Job, rec: ServiceRecord): (r: Job)
    ensures r.(status := j.status, progress := j.progress, error := j.error) == j
    ensures rec.status.None? ==> r == j
    ensures rec.status.Some? ==> r.status == rec.status.value
    ensures rec.status.Some? && rec.historyLength.Some? ==> r.progress == Some(rec.historyLength.value)
    ensures rec.historyLength.None? ==> r.progress == j.progress && r.error == j.error
    ensures rec.status == Some(ERROR) && rec.historyLength.Some? && rec.error.Some? ==> r.error == rec.error
    ensures r.error != j.error ==> r.status == ERROR && r.error == rec.error
  {
    if rec.status.None? then j
    else
      var j1 := j.(status := rec.status.value);
      if rec.historyLength.None? then j1
      else
        var j2 := j1.(progress := Some(rec.historyLength.value));
        if j2.status != ERROR || rec.error.None? then j2
        else j2.(error := rec.error)
  }

  /** Applies the service records in order; a record whose `procedure_id` is not a key
      of the alias map is printed and skipped. */
  function ServiceFold(jobs: seq<Job>, m: map<JobId, nat>, records: seq<ServiceRecord>): (r: seq<Job>)
    requires Aliases(m, |jobs|)
    ensures |r| == |jobs|
    decreases |records|
  {
    if records == [] then jobs
    else
      var rec := records[0];
      if rec.procedureId !in m then ServiceFold(jobs, m, records[1..])
      else
        var p := m[rec.procedureId];
        ServiceFold(jobs[p := ApplyService(jobs[p], rec)], m, records[1..])
  }

  /** The service step: a transport failure leaves every job as it is. */
  function ServiceStep(jobs: seq<Job>, m: map<JobId, nat>, reply: ServiceReply): (r: seq<Job>)
    requires Aliases(m, |jobs|)
    ensures |r| == |jobs|
    ensures reply.TransportFailed? ==> r == jobs
  {
    match reply
    case TransportFailed => jobs
    case Records(records) => ServiceFold(jobs, m, records)
  }

  /** Only the jobs a service record reaches can change, no job's id changes, and an
      `error` that changes comes from a record reaching the job with status ERROR. */
  lemma {:induction false} ServiceFoldFrame(jobs: seq<Job>, m: map<JobId, nat>, records: seq<ServiceRecord>, i: nat)
    requires Aliases(m, |jobs|) && i < |jobs|
    ensures ServiceFold(jobs, m, records)[i].id == jobs[i].id
    ensures (forall rec | rec in records :: !(rec.procedureId in m && m[rec.procedureId] == i)) ==>
      ServiceFold(jobs, m, records)[i] == jobs[i]
    ensures ServiceFold(jobs, m, records)[i].error != jobs[i].error ==>
      exists rec | rec in records :: rec.procedureId in m && m[rec.procedureId] == i &&
        rec.status == Some(ERROR) && rec.error == ServiceFold(jobs, m, records)[i].error
    decreases |records|
  {
    if records != [] {
      var rec := records[0];
      assert forall x | x in records[1..] :: x in records;
      if rec.procedureId in m {
        var p := m[rec.procedureId];
        var jobs' := jobs[p := ApplyService(jobs[p], rec)];
        ServiceFoldFrame(jobs', m, records[1..], i);
        var r := ServiceFold(jobs, m, records);
        if r[i].error != jobs[i].error && r[i].error == jobs'[i].error {
          assert p == i;
          assert rec.status == Some(ERROR);
        }
      } else {
        ServiceFoldFrame(jobs, m, records[1..], i);
      }
    }
  }

  /** The service records about id `k`, in the order the server returned them. */
  function RecordsFor(records: seq<ServiceRecord>, k: JobId): (r: seq<ServiceRecord>)
    ensures forall rec | rec in r :: rec in records && rec.procedureId == k
    ensures forall rec | rec in records && rec.procedureId == k :: rec in r
    decreases |records|
  {
    if records == [] then []
    else if records[0].procedureId == k then [records[0]] + RecordsFor(records[1..], k)
    else RecordsFor(records[1..], k)
  }

  /** The service records `recs` applied one after the other to the job `j`. */
  function ApplyAll(j: Job, recs: seq<ServiceRecord>): Job
    decreases |recs|
  {
    if recs == [] then j else ApplyService(ApplyAll(j, recs[..|recs| - 1]), recs[|recs| - 1])
  }

  /** Applying a first record, then the rest, is applying them all. */
  lemma {:induction false} ApplyAllCons(j: Job, rec: ServiceRecord, rest: seq<ServiceRecord>)
    ensures ApplyAll(j, [rec] + rest) == ApplyAll(ApplyService(j, rec), rest)
    decreases |rest|
  {
    if rest != [] {
      var front := rest[..|rest| - 1];
      ApplyAllCons(j, rec, front);
      assert ([rec] + rest)[..|rest|] == [rec] + front;
    }
  }

  /** The position of the last record that carries a status. */
  function LastWithStatus(recs: seq<ServiceRecord>): (r: Option<nat>)
    ensures r.Some? ==> (r.value < |recs| && recs[r.value].status.Some? &&
                         forall n | r.value < n < |recs| :: recs[n].status.None?)
    ensures r.None? ==> forall n | 0 <= n < |recs| :: recs[n].status.None?
    decreases |recs|
  {
    if recs == [] then None
    else if recs[|recs| - 1].status.Some? then Some(|recs| - 1)
    else LastWithStatus(recs[..|recs| - 1])
  }

  /** The position of the last record that carries both a status and a history. */
  function LastWithHistory(recs: seq<ServiceRecord>): (r: Option<nat>)
    ensures r.Some? ==> (r.value < |recs| && recs[r.value].status.Some? && recs[r.value].historyLength.Some? &&
                         forall n | r.value < n < |recs| :: recs[n].status.None? || recs[n].historyLength.None?)
    ensures r.None? ==> forall n | 0 <= n < |recs| :: recs[n].status.None? || recs[n].historyLength.None?
    decreases |recs|
  {
    if recs == [] then None
    else if recs[|recs| - 1].status.Some? && recs[|recs| - 1].historyLength.Some? then Some(|recs| - 1)
    else LastWithHistory(recs[..|recs| - 1])
  }

  /** The effect of a job's service records: the status of the last record carrying
      one, the history length of the last record carrying a status and a history, and
      that record's error when it reports ERROR with an error. */
  lemma {:induction false} ApplyAllEffect(j: Job, recs: seq<ServiceRecord>)
    ensures var r := ApplyAll(j, recs);
      r.id == j.id &&
      (match LastWithStatus(recs)
       case None => r == j
       case Some(n) => r.status == recs[n].status.value) &&
      (match LastWithHistory(recs)
       case None => r.progress == j.progress && r.error == j.error
       case Some(n) =>
         (r.progress == Some(recs[n].historyLength.value) &&
          (recs[n].status == Some(ERROR) && recs[n].error.Some? ==> r.error == recs[n].error)))
    decreases |recs|
  {
    if recs != [] {
      var front := recs[..|recs| - 1];
      ApplyAllEffect(j, front);
      assert forall n | 0 <= n < |front| :: front[n] == recs[n];
    }
  }

  /** A job reached through the alias map ends the service phase as its own records,
      applied in order, leave it; every other job is unchanged. */
  lemma {:induction false} ServiceFoldResult(jobs: seq<Job>, m: map<JobId, nat>, records: seq<ServiceRecord>, i: nat)
    requires Consistent(jobs, m) && i < |jobs|
    ensures var r := ServiceFold(jobs, m, records);
      if Reachable(jobs, m, i) then r[i] == ApplyAll(jobs[i], RecordsFor(records, jobs[i].id))
      else r[i] == jobs[i]
    decreases |records|
  {
    var k := jobs[i].id;
    if records == [] {
      assert RecordsFor(records, k) == [];
    } else {
      var rec := records[0];
      var rest := records[1..];
      if rec.procedureId !in m {
        ServiceFoldResult(jobs, m, rest, i);
        if Reachable(jobs, m, i) {
          assert rec.procedureId != k;
        }
      } else {
        var p := m[rec.procedureId];
        var jobs' := jobs[p := ApplyService(jobs[p], rec)];
        assert Consistent(jobs', m);
        ServiceFoldResult(jobs', m, rest, i);
        if Reachable(jobs, m, i) {
          if p == i {
            assert RecordsFor(records, k) == [rec] + RecordsFor(rest, k);
            ApplyAllCons(jobs[i], rec, RecordsFor(rest, k));
          } else {
            assert rec.procedureId != k;
          }
        } else {
          assert p != i;
        }
      }
    }
  }

  // ------------------------------------------------------------- get_update

  /** The result of `get_update`: the jobs, how it ended, and the id sets of the two
      remote queries it made (`None` for a query it did not reach). */
  datatype Reconciled = Reconciled(
    jobs: seq<Job>,
    outcome: Outcome,
    procedureQuery: Option<set<JobId>>,
    serviceQuery: Option<set<JobId>>)

  /** `get_update` with the ledger file's content (`None` when the file does not exist)
      and the two remote queries as functions of the ids asked for. */
  function Reconcile(jobs: seq<Job>, ledger: Option<seq<Job>>,
                     queryProcedures: set<JobId> -> seq<ProcRecord>,
                     queryServices: set<JobId> -> ServiceReply): (r: Reconciled)
    ensures |r.jobs| == |jobs|
  {
    var m := AliasIndex(jobs, WithTruthyId);
    var afterLedger := if ledger.Some? then LedgerStep(jobs, m, ledger.value) else (jobs, Done);
    if afterLedger.1.Raised? then Reconciled(afterLedger.0, afterLedger.1, None, None)
    else
      var q1 := ProcedureQuery(afterLedger.0, m);
      var afterProcedures := ProcedureStep(afterLedger.0, m, queryProcedures(q1));
      if afterProcedures.1.Raised? then Reconciled(afterProcedures.0, afterProcedures.1, Some(q1), None)
      else
        var q2 := ServiceQuery(afterProcedures.0, m);
        Reconciled(ServiceStep(afterProcedures.0, m, queryServices(q2)), Done, Some(q1), Some(q2))
  }

  /** When the service query fails in transport, `get_update` still finishes, and the
      jobs are those the procedure records left: the service phase changes nothing. */
  lemma ServiceTransportFailureKeepsJobs(jobs: seq<Job>, ledger: Option<seq<Job>>,
                                         queryProcedures: set<JobId> -> seq<ProcRecord>,
                                         queryServices: set<JobId> -> ServiceReply)
    requires var r := Reconcile(jobs, ledger, queryProcedures, queryServices);
      r.serviceQuery.Some? && queryServices(r.serviceQuery.value).TransportFailed?
    ensures var m := AliasIndex(jobs, WithTruthyId);
      var afterLedger := if ledger.Some? then LedgerStep(jobs, m, ledger.value).0 else jobs;
      var r := Reconcile(jobs, ledger, queryProcedures, queryServices);
      r.outcome == Done && r.procedureQuery.Some? &&
      r.jobs == ProcedureStep(afterLedger, m, queryProcedures(r.procedureQuery.value)).0
  {
  }

  /** The server answers only about the ids it was asked for. */
  ghost predicate AnswersOnlyQueried(queryProcedures: set<JobId> -> seq<ProcRecord>,
                                     queryServices: set<JobId> -> ServiceReply) {
    (forall q, rec | rec in queryProcedures(q) :: rec.id in q) &&
    (forall q, rec | queryServices(q).Records? && rec in queryServices(q).records :: rec.procedureId in q)
  }

  /** A job never reached through the alias map -- one whose id is falsy, or an earlier
      job whose id a later job repeats -- is never modified by `get_update`, whatever
      the ledger and the server say. */
  lemma UnreachableJobsUntouched(jobs: seq<Job>, ledger: Option<seq<Job>>,
                                 queryProcedures: set<JobId> -> seq<ProcRecord>,
                                 queryServices: set<JobId> -> ServiceReply, i: nat)
    requires i < |jobs|
    requires !Truthy(jobs[i].id) || exists i' | i < i' < |jobs| :: jobs[i'].id == jobs[i].id
    ensures Reconcile(jobs, ledger, queryProcedures, queryServices).jobs[i] == jobs[i]
  {
    var m := AliasIndex(jobs, WithTruthyId);
    AliasIndexIsLast(jobs, WithTruthyId);
    assert forall k | k in m :: m[k] != i;
    var afterLedger := if ledger.Some? then LedgerStep(jobs, m, ledger.value) else (jobs, Done);
    if ledger.Some? {
      LedgerStepFrame(jobs, m, ledger.value, i);
    }
    if afterLedger.1.Done? {
      var q1 := ProcedureQuery(afterLedger.0, m);
      ProcedureStepFrame(afterLedger.0, m, queryProcedures(q1), i);
      var afterProcedures := ProcedureStep(afterLedger.0, m, queryProcedures(q1));
      if afterProcedures.1.Done? {
        var q2 := ServiceQuery(afterProcedures.0, m);
        var reply := queryServices(q2);
        if reply.Records? {
          ServiceFoldFrame(afterProcedures.0, m, reply.records, i);
        }
      }
    }
  }

  /** The ledger is authoritative: when the server answers only about the ids it was
      asked for, a job reached through its id that has a ledger entry ends `get_update`
      DOWNLOADED with the progress the ledger recorded, and neither query asks for it. */
  lemma LedgerIsAuthoritative(jobs: seq<Job>, ledger: seq<Job>,
                              queryProcedures: set<JobId> -> seq<ProcRecord>,
                              queryServices: set<JobId> -> ServiceReply, i: nat)
    requires i < |jobs| && Reachable(jobs, AliasIndex(jobs, WithTruthyId), i)
    requires LastEntry(ledger, jobs[i].id).Some?
    requires AnswersOnlyQueried(queryProcedures, queryServices)
    requires Reconcile(jobs, Some(ledger), queryProcedures, queryServices).outcome == Done
    ensures var r := Reconcile(jobs, Some(ledger), queryProcedures, queryServices);
      r.jobs[i].status == DOWNLOADED &&
      r.jobs[i].progress == ledger[LastEntry(ledger, jobs[i].id).value].progress &&
      jobs[i].id !in r.procedureQuery.value && jobs[i].id !in r.serviceQuery.value
  {
    var m := AliasIndex(jobs, WithTruthyId);
    var k := jobs[i].id;
    var afterLedger := LedgerStep(jobs, m, ledger);
    LedgerStepResult(jobs, m, ledger, i);
    LedgerStepOutcome(jobs, m, ledger);
    var e := ledger[LastEntry(ledger, k).value];
    assert e in ledger;
    var j1 := afterLedger.0;
    assert j1[i].status == DOWNLOADED;
    var q1 := ProcedureQuery(j1, m);
    assert Reachable(j1, m, i);
    assert k !in q1;
    var recs := queryProcedures(q1);
    ProcedureStepFrame(j1, m, recs, i);
    var afterProcedures := ProcedureStep(j1, m, recs);
    var j2 := afterProcedures.0;
    assert j2[i] == j1[i];
    var q2 := ServiceQuery(j2, m);
    assert Reachable(j2, m, i);
    assert k !in q2;
    var reply := queryServices(q2);
    if reply.Records? {
      ServiceFoldFrame(j2, m, reply.records, i);
    }
  }

  /** When the server answers only about the ids it was asked for, the service step
      changes only jobs that were INCOMPLETE after the procedure step, and a job's
      `error` changes only to the error of a record that reported ERROR. */
  lemma ServiceStepTouchesOnlyIncomplete(jobs: seq<Job>, m: map<JobId, nat>,
                                         queryServices: set<JobId> -> ServiceReply, i: nat)
    requires Consistent(jobs, m) && i < |jobs|
    requires forall q, rec | queryServices(q).Records? && rec in queryServices(q).records :: rec.procedureId in q
    ensures var reply := queryServices(ServiceQuery(jobs, m)); var r := ServiceStep(jobs, m, reply);
      (jobs[i].status != INCOMPLETE ==> r[i] == jobs[i]) &&
      (r[i].error != jobs[i].error ==>
        reply.Records? && exists rec | rec in reply.records ::
          rec.procedureId == jobs[i].id && rec.status == Some(ERROR) && rec.error == r[i].error)
  {
    var q := ServiceQuery(jobs, m);
    var reply := queryServices(q);
    if reply.Records? {
      ServiceFoldFrame(jobs, m, reply.records, i);
      if jobs[i].status != INCOMPLETE {
        forall rec | rec in reply.records ensures !(rec.procedureId in m && m[rec.procedureId] == i) {
        }
      }
    }
  }
}
