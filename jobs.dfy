/** The records the torsion-drive monitor works on: job records, the records the
    remote QCFractal client answers with, and the id -> job alias maps through which
    the monitor updates its job list in place. */
module Jobs {

  datatype Option<T> = None | Some(value: T)

  /** The Python exceptions the monitor lets escape on unexpected input. */
  datatype Error =
    | KeyError(key: string)           // a dict lookup on a missing key
    | ValueError(reason: string)      // max() of an empty array, a reshape that does not fit
    | AssertionError(driver: string)  // a result record that is not a gradient calculation

  datatype Result<T> = Success(value: T) | Failure(error: Error)

  /** How a method of the monitor ended: normally, or by raising. */
  datatype Outcome = Done | Raised(error: Error)

  /** A remote job id as stored in a job record: `None` when the checkpoint had no `jobid`. */
  type JobId = Option<int>

  /** Python truthiness of an integer id: neither `None` nor `0`. */
  predicate Truthy(id: JobId) {
    id.Some? && id.value != 0
  }

  // Status values. The vocabulary is open (whatever the server reports); these four
  // are the ones the monitor compares against. DOWNLOADED is synthesized locally.
  const INCOMPLETE := "INCOMPLETE"
  const COMPLETE := "COMPLETE"
  const ERROR := "ERROR"
  const DOWNLOADED := "DOWNLOADED"

  /** One job record (a Python dict in the source). `other` carries the checkpoint
      fields the monitor never reads; `torsionLabel` is `canonical_torsion_label`. */
  datatype Job = Job(
    name: string,
    molName: string,
    status: string,
    id: JobId,
    torsionLabel: Option<string>,
    progress: Option<nat>,
    error: Option<string>,
    savedFile: Option<string>,
    other: map<string, string>)

  datatype Vec3 = Vec3(x: real, y: real, z: real)

  /** A final molecule of one grid point: element symbols and geometry in Bohr. */
  datatype Molecule = Molecule(symbols: seq<string>, geometry: seq<Vec3>)

  /** A final result record of one grid point. */
  datatype ResultRecord = ResultRecord(driver: string, returnResult: seq<real>)

  /** A torsion-drive procedure record as `query_procedures` returns it, together with
      what its `get_final_energies`, `get_final_molecules` and `get_final_results` give.
      Grid points are identified by their (single) dihedral angle. */
  datatype ProcRecord = ProcRecord(
    id: JobId,
    status: string,
    historyLength: nat,
    finalEnergies: map<int, real>,
    finalMolecules: map<int, Molecule>,
    finalResults: map<int, ResultRecord>)

  /** A service record as `query_services` returns it under the monitor's projection;
      a key the server left out is `None` (a missing or null `procedure_id` is `None`). */
  datatype ServiceRecord = ServiceRecord(
    procedureId: JobId,
    status: Option<string>,
    historyLength: Option<nat>,
    error: Option<string>)

  /** The answer to `query_services`: an IOError, or a list of records. */
  datatype ServiceReply = TransportFailed | Records(records: seq<ServiceRecord>)

  /** A record of the `default` column of the server's torsion-drive dataset. */
  datatype DatasetRecord = DatasetRecord(id: int, status: string)

  /** Which jobs a dict comprehension keyed by `job['id']` keeps. */
  datatype Selection = WithTruthyId | StatusComplete

  predicate Selected(j: Job, sel: Selection) {
    match sel
    case WithTruthyId => Truthy(j.id)
    case StatusComplete => j.status == COMPLETE
  }

  /** Every target of an alias map is a position of a list of length `n`. */
  predicate Aliases(m: map<JobId, nat>, n: nat) {
    forall k | k in m :: m[k] < n
  }

  /** An alias map that reaches, for each of its ids, a job carrying that id. */
  predicate Consistent(jobs: seq<Job>, m: map<JobId, nat>) {
    Aliases(m, |jobs|) && forall k | k in m :: jobs[m[k]].id == k
  }

  /** `{job['id']: job for job in jobs if <sel>}` as an id -> position map: each
      selected id maps to the position of a selected job carrying it (which one:
      lemma AliasIndexIsLast). */
  function AliasIndex(jobs: seq<Job>, sel: Selection): (m: map<JobId, nat>)
    ensures Aliases(m, |jobs|)
    ensures forall k | k in m :: Selected(jobs[m[k]], sel) && jobs[m[k]].id == k
    decreases |jobs|
  {
    if jobs == [] then map[]
    else
      var m := AliasIndex(jobs[..|jobs| - 1], sel);
      var last := jobs[|jobs| - 1];
      if Selected(last, sel) then m[last.id := |jobs| - 1] else m
  }

  /** Every selected id is a key, and it maps to the LAST selected job carrying it, so
      earlier jobs that share the id are unreachable through the map. */
  lemma {:induction false} AliasIndexIsLast(jobs: seq<Job>, sel: Selection)
    ensures var m := AliasIndex(jobs, sel);
      (forall i | 0 <= i < |jobs| && Selected(jobs[i], sel) :: jobs[i].id in m && i <= m[jobs[i].id])
    decreases |jobs|
  {
    if jobs != [] {
      var front := jobs[..|jobs| - 1];
      AliasIndexIsLast(front, sel);
      forall i | 0 <= i < |jobs| && Selected(jobs[i], sel)
        ensures jobs[i].id in AliasIndex(jobs, sel) && i <= AliasIndex(jobs, sel)[jobs[i].id]
      {
        if i < |jobs| - 1 {
          assert front[i] == jobs[i];
        }
      }
    }
  }

  /** Position `i` is reachable through the alias map: it is the target of its own id. */
  predicate Reachable(jobs: seq<Job>, m: map<JobId, nat>, i: int)
    requires 0 <= i < |jobs|
  {
    jobs[i].id in m && m[jobs[i].id] == i
  }

  /** Builds the alias map with the comprehension's own loop. */
  method BuildAliasIndex(jobs: seq<Job>, sel: Selection) returns (m: map<JobId, nat>)
    ensures m == AliasIndex(jobs, sel)
  {
    m := map[];
    for i := 0 to |jobs|
      invariant m == AliasIndex(jobs[..i], sel)
    {
      assert jobs[..i + 1][..i] == jobs[..i];
      if Selected(jobs[i], sel) {
        m := m[jobs[i].id := i];
      }
    }
    assert jobs[..|jobs|] == jobs;
  }

  /** The jobs whose status is `s`, in list order (a list comprehension with a filter). */
  function WithStatus(jobs: seq<Job>, s: string): (r: seq<Job>)
    ensures |r| <= |jobs|
    ensures forall j | j in r :: j in jobs && j.status == s
    ensures forall j | j in jobs && j.status == s :: j in r
    decreases |jobs|
  {
    if jobs == [] then []
    else if jobs[0].status == s then [jobs[0]] + WithStatus(jobs[1..], s)
    else WithStatus(jobs[1..], s)
  }
}
