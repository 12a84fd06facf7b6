/** Flattening a torsion-submit checkpoint (molecule file -> dihedrals) into the flat
    job list the monitor works on. */
module Checkpoint {
  import opened Jobs

  /** The top-level key that holds scan configuration rather than a molecule. */
  const SCAN_CONF := "scan_conf"

  /** One entry of a molecule's `dihedrals` mapping. `status` is `None` when the entry
      has no `status` key; `jobid` is `None` when it has none (or it is null). */
  datatype Dihedral = Dihedral(
    key: string,
    status: Option<string>,
    jobid: JobId,
    torsionLabel: Option<string>,
    other: map<string, string>)

  /** One top-level entry of the checkpoint: its key (a molecule file name, or
      `scan_conf`) and its `dihedrals` mapping, `None` when the value has none. */
  datatype Entry = Entry(fname: string, dihedrals: Option<seq<Dihedral>>)

  /** The checkpoint, in the order its JSON object lists its keys. */
  type State = seq<Entry>

  /** The position of the last occurrence of `c` in `s`. */
  function LastIndexOf(s: string, c: char): (r: Option<nat>)
    ensures r.Some? ==> r.value < |s| && s[r.value] == c && c !in s[r.value + 1..]
    ensures r.None? ==> c !in s
    decreases |s|
  {
    if s == [] then None
    else if s[|s| - 1] == c then Some(|s| - 1)
    else LastIndexOf(s[..|s| - 1], c)
  }

  /** An occurrence of `c` with no `c` after it is the last one. */
  lemma LastIndexOfUnique(s: string, c: char)
    ensures forall k | 0 <= k < |s| && s[k] == c && c !in s[k + 1..] :: LastIndexOf(s, c) == Some(k)
  {
    forall k | 0 <= k < |s| && s[k] == c && c !in s[k + 1..] ensures LastIndexOf(s, c) == Some(k) {
      var r := LastIndexOf(s, c);
      assert s[k] in s;
    }
  }

  /** `os.path.basename`: everything after the last '/'. */
  function BaseName(path: string): (r: string)
    ensures '/' !in r
  {
    match LastIndexOf(path, '/')
    case None => path
    case Some(i) => path[i + 1..]
  }

  /** The base name is the part of the path after its last '/': a suffix with no '/'
      in it, preceded by a '/' unless it is the whole path. */
  lemma BaseNameSuffix(path: string)
    ensures var r := BaseName(path);
      |r| <= |path| && r == path[|path| - |r|..] &&
      (|r| < |path| ==> path[|path| - |r| - 1] == '/')
  {
  }

  /** `os.path.splitext(..)[0]` on a base name: cut at the last '.', unless only dots
      precede it (leading dots belong to the root). */
  function StripExtension(b: string): (r: string)
    ensures |r| <= |b| && r == b[..|r|]
  {
    match LastIndexOf(b, '.')
    case None => b
    case Some(i) => if exists j :: 0 <= j < i && b[j] != '.' then b[..i] else b
  }

  /** Where the extension is cut: a shorter result stops just before the last '.', which
      has a character other than '.' before it; the whole name comes back only when no
      '.' has such a character before it. */
  lemma StripExtensionCut(b: string)
    ensures var r := StripExtension(b);
      (r != b ==> |r| < |b| && b[|r|] == '.' && '.' !in b[|r| + 1..] &&
                  exists j :: 0 <= j < |r| && b[j] != '.') &&
      (r == b ==> forall i | 0 <= i < |b| && b[i] == '.' && '.' !in b[i + 1..] ::
                    forall j | 0 <= j < i :: b[j] == '.')
  {
    LastIndexOfUnique(b, '.');
  }

  /** `os.path.splitext(os.path.basename(fname))[0]` */
  function MolName(fname: string): string {
    StripExtension(BaseName(fname))
  }

  /** The file name of a molecule gives back the molecule's name: a directory, a '/',
      a stem that is not all dots, and one extension. */
  lemma MolNameOfFile(dir: string, stem: string, ext: string)
    requires '/' !in stem && '.' !in stem && stem != []
    requires '/' !in ext && '.' !in ext
    ensures MolName(dir + "/" + stem + "." + ext) == stem
  {
    var path := dir + "/" + stem + "." + ext;
    var base := stem + "." + ext;
    assert LastIndexOf(path, '/') == Some(|dir|) by {
      assert path == (dir + "/") + base;
      assert path[|dir|] == '/';
      assert path[|dir| + 1..] == base;
      LastIndexOfFound(path, '/', |dir|);
    }
    assert BaseName(path) == base;
    assert LastIndexOf(base, '.') == Some(|stem|) by {
      assert base[|stem|] == '.';
      assert base[|stem| + 1..] == ext;
      LastIndexOfFound(base, '.', |stem|);
    }
    assert base[0] == stem[0] != '.';
    assert base[..|stem|] == stem;
  }

  /** If `s[i] == c` and `c` does not occur after `i`, then `i` is the last occurrence. */
  lemma {:induction false} LastIndexOfFound(s: string, c: char, i: nat)
    requires i < |s| && s[i] == c && c !in s[i + 1..]
    ensures LastIndexOf(s, c) == Some(i)
    decreases |s|
  {
    if i < |s| - 1 {
      assert s[|s| - 1] in s[i + 1..];
      var front := s[..|s| - 1];
      assert front[i + 1..] == s[i + 1..|s| - 1];
      LastIndexOfFound(front, c, i);
    }
  }

  /** The job record `load_checkpoint` makes of one dihedral: a copy of its fields,
      updated with `name`, `mol_name`, `status` and `id`. */
  function MakeJob(molName: string, d: Dihedral): (j: Job)
    requires d.status.Some?
  {
    Job(name := molName + "_" + d.key, molName := molName, status := d.status.value,
        id := d.jobid, torsionLabel := d.torsionLabel, progress := None, error := None,
        savedFile := None, other := d.other)
  }

  /** The jobs of one molecule, in the order of its dihedrals; a dihedral without a
      `status` raises KeyError. */
  function MoleculeJobs(molName: string, ds: seq<Dihedral>): (r: Result<seq<Job>>)
    decreases |ds|
  {
    if ds == [] then Success([])
    else if ds[0].status.None? then Failure(KeyError("status"))
    else match MoleculeJobs(molName, ds[1..])
      case Failure(e) => Failure(e)
      case Success(js) => Success([MakeJob(molName, ds[0])] + js)
  }

  /** Puts `js` in front of a successful result. */
  function Prepend(js: seq<Job>, r: Result<seq<Job>>): Result<seq<Job>> {
    match r
    case Failure(e) => Failure(e)
    case Success(rest) => Success(js + rest)
  }

  /** The job list `load_checkpoint` builds, or the KeyError that stops it. */
  function Flatten(state: State): (r: Result<seq<Job>>)
    decreases |state|
  {
    if state == [] then Success([])
    else if state[0].fname == SCAN_CONF then Flatten(state[1..])
    else if state[0].dihedrals.None? then Failure(KeyError("dihedrals"))
    else match MoleculeJobs(MolName(state[0].fname), state[0].dihedrals.value)
      case Failure(e) => Failure(e)
      case Success(js) => Prepend(js, Flatten(state[1..]))
  }

  /** The number of dihedral entries across all molecules (`scan_conf` excluded). */
  function DihedralCount(state: State): nat
    decreases |state|
  {
    if state == [] then 0
    else if state[0].fname == SCAN_CONF || state[0].dihedrals.None? then DihedralCount(state[1..])
    else |state[0].dihedrals.value| + DihedralCount(state[1..])
  }

  /** A checkpoint is well formed when every molecule has `dihedrals` and every dihedral
      a `status`. */
  predicate WellFormed(state: State) {
    forall e | e in state && e.fname != SCAN_CONF ::
      e.dihedrals.Some? && forall d | d in e.dihedrals.value :: d.status.Some?
  }

  lemma {:induction false} MoleculeJobsShape(molName: string, ds: seq<Dihedral>)
    ensures MoleculeJobs(molName, ds).Success? <==> forall d | d in ds :: d.status.Some?
    ensures MoleculeJobs(molName, ds).Success? ==>
      var js := MoleculeJobs(molName, ds).value;
      |js| == |ds| && forall i | 0 <= i < |ds| :: js[i] == MakeJob(molName, ds[i])
    decreases |ds|
  {
    if ds != [] {
      MoleculeJobsShape(molName, ds[1..]);
      if ds[0].status.Some? {
        assert forall d | d in ds[1..] :: d in ds;
      }
    }
  }

  /** Loading succeeds exactly on well-formed checkpoints, and then yields one job per
      dihedral entry. */
  lemma {:induction false} FlattenCount(state: State)
    ensures Flatten(state).Success? <==> WellFormed(state)
    ensures Flatten(state).Success? ==> |Flatten(state).value| == DihedralCount(state)
    decreases |state|
  {
    if state != [] {
      FlattenCount(state[1..]);
      assert forall e | e in state[1..] :: e in state;
      var e := state[0];
      if e.fname != SCAN_CONF && e.dihedrals.Some? {
        MoleculeJobsShape(MolName(e.fname), e.dihedrals.value);
      }
    }
  }

  /** Each loaded job is a dihedral of a molecule of the checkpoint, named
      `<mol_name>_<key>`. */
  lemma {:induction false} FlattenJobsSound(state: State)
    requires Flatten(state).Success?
    ensures forall j | j in Flatten(state).value ::
      exists e, d | e in state && e.fname != SCAN_CONF && e.dihedrals.Some? && d in e.dihedrals.value ::
        d.status.Some? && j == MakeJob(MolName(e.fname), d)
    decreases |state|
  {
    if state != [] {
      var e := state[0];
      var rest := state[1..];
      FlattenJobsSound(rest);
      assert forall x | x in rest :: x in state;
      if e.fname != SCAN_CONF {
        var mol := MolName(e.fname);
        var ds := e.dihedrals.value;
        MoleculeJobsShape(mol, ds);
        var js := MoleculeJobs(mol, ds).value;
        forall j | j in js
          ensures exists e', d | e' in state && e'.fname != SCAN_CONF && e'.dihedrals.Some? && d in e'.dihedrals.value ::
            d.status.Some? && j == MakeJob(MolName(e'.fname), d)
        {
          var i :| 0 <= i < |js| && js[i] == j;
          assert ds[i] in e.dihedrals.value;
        }
        assert Flatten(state).value == js + Flatten(rest).value;
      }
    }
  }

  /** Each dihedral of each molecule of the checkpoint gives a loaded job. */
  lemma {:induction false} FlattenJobsComplete(state: State)
    requires Flatten(state).Success?
    ensures forall e, d | e in state && e.fname != SCAN_CONF && e.dihedrals.Some? && d in e.dihedrals.value ::
      d.status.Some? && MakeJob(MolName(e.fname), d) in Flatten(state).value
    decreases |state|
  {
    if state != [] {
      var e := state[0];
      var rest := state[1..];
      FlattenJobsComplete(rest);
      assert forall x | x in state :: x == e || x in rest;
      if e.fname != SCAN_CONF {
        var mol := MolName(e.fname);
        var ds := e.dihedrals.value;
        MoleculeJobsShape(mol, ds);
        var js := MoleculeJobs(mol, ds).value;
        forall d | d in ds ensures d.status.Some? && MakeJob(mol, d) in js {
          var i :| 0 <= i < |ds| && ds[i] == d;
          assert js[i] == MakeJob(mol, d);
        }
        assert Flatten(state).value == js + Flatten(rest).value;
      }
    }
  }
}
