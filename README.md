# Torsion-drive monitor: job bookkeeping

This project models the job bookkeeping of `TorsionMonitor`, the command-line monitor
of submitted torsion-drive scans. The monitor keeps a list of job records
(`td_jobs`). It builds that list from the submission checkpoint. It can take ids and
statuses from a server dataset. It reconciles each job's status and progress from a
local download ledger and from the server's procedure and service records. It
reports errors, status counts and a progress histogram. It materializes complete
jobs into coordinate and gradient blocks, marks them DOWNLOADED and rewrites the
ledger.

The model has six modules:

- `Jobs` (`jobs.dfy`): the job record and the server records, the Python exceptions
  as values, and the `{job['id']: job ...}` dictionaries. Such a dictionary holds
  references into the job list, so writing through it updates the list in place. The
  model represents it as a map from id to list position (`AliasIndex`). A later job
  with the same id wins, and its writes go to that position.
- `Checkpoint` (`checkpoint.dfy`): `load_checkpoint` as a function `Flatten` from the
  checkpoint (in key order) to the job list, or the KeyError that stops it.
- `Report` (`report.dfy`): `log_error`, the `Counter` of `print_status` and the bins
  of `print_progress` (`Rows`), including numpy's closed last bin.
- `Reconcile` (`reconcile.dfy`): `get_update` in its three phases. First the ledger
  (`LedgerStep`). Then the procedure records (`ProcedureStep`): an unknown id raises
  KeyError. Then the service records inside the bare `try` (`ServiceFold`): an
  unknown id or a missing key only skips the rest of that record.
- `Materialize` (`materialize.dfy`): the blocks `download_complete` writes for a
  procedure record (`JobFilesOf`), the loop over the records (`DownloadFold`), and the
  whole operation with the ledger it writes (`DownloadAll`).
- `Monitor` (`monitor.dfy`): the class `TorsionMonitor`. Its field `jobs` is updated
  in place by its methods. Each method's loops are proved against the specification
  function of the module above.

The server client is a pair of total functions from the set of ids asked for to
the records returned. A missing ledger file is `None`.

## Model

| member | source | states |
|---|---|---|
| Jobs.AliasIndex | utils/torsion_submit/monitor_torsiondrives.py:73 | every key of the id -> job map reaches a job that passes the comprehension's filter and carries that id |
| Jobs.AliasIndexIsLast | utils/torsion_submit/monitor_torsiondrives.py:73 | every job passing the filter has its id as a key, and the key reaches that job or a later one (the last duplicate wins) |
| Jobs.BuildAliasIndex | utils/torsion_submit/monitor_torsiondrives.py:148 | the comprehension's loop builds exactly the id -> position map |
| Jobs.WithStatus | utils/torsion_submit/monitor_torsiondrives.py:201 | the filtered list holds every job with the status and only such jobs |
| Checkpoint.BaseName | utils/torsion_submit/monitor_torsiondrives.py:27 | the base name contains no '/' |
| Checkpoint.BaseNameSuffix | utils/torsion_submit/monitor_torsiondrives.py:27 | the base name is the suffix of the path after its last '/', or the whole path when it has none |
| Checkpoint.StripExtension | utils/torsion_submit/monitor_torsiondrives.py:27 | the root is a prefix of the base name |
| Checkpoint.StripExtensionCut | utils/torsion_submit/monitor_torsiondrives.py:27 | a shorter root stops just before the last '.', which has a non-dot character before it; the whole name comes back only when the name has no '.', or only dots before its last '.' |
| Checkpoint.MolNameOfFile | utils/torsion_submit/monitor_torsiondrives.py:27 | the molecule name of `dir/stem.ext` is `stem` |
| Checkpoint.MoleculeJobsShape | utils/torsion_submit/monitor_torsiondrives.py:29-37 | a molecule's dihedrals load exactly when each has a status, giving one job per dihedral in order, named `<mol_name>_<key>` |
| Checkpoint.FlattenCount | utils/torsion_submit/monitor_torsiondrives.py:24-38 | loading succeeds exactly when every non-`scan_conf` entry has `dihedrals` and every dihedral a status, and then yields one job per dihedral |
| Checkpoint.FlattenJobsSound | utils/torsion_submit/monitor_torsiondrives.py:25-37 | every loaded job is the record of a dihedral of some molecule, named `<mol_name>_<key>` |
| Checkpoint.FlattenJobsComplete | utils/torsion_submit/monitor_torsiondrives.py:25-37 | every dihedral of every molecule gives a loaded job |
| Report.ErrorLog | utils/torsion_submit/monitor_torsiondrives.py:114-120 | nothing is written exactly when no job is ERROR; otherwise the ERROR jobs in list order, never empty |
| Report.WithStatusConcat | utils/torsion_submit/monitor_torsiondrives.py:115 | the status filter keeps list order across a concatenation |
| Report.WithStatusLength | utils/torsion_submit/monitor_torsiondrives.py:115-120 | the error log has as many records as there are ERROR jobs |
| Report.TallyCounts | utils/torsion_submit/monitor_torsiondrives.py:125 | the counter has one entry per status that occurs and no other, each count is the status's multiplicity, and the counts sum to the number of jobs |
| Report.StatusCountsSum | utils/torsion_submit/monitor_torsiondrives.py:125 | the printed counts cover every job once, and the ERROR count equals the error log's length |
| Report.Max | utils/torsion_submit/monitor_torsiondrives.py:133 | the maximum is one of the values and bounds them all |
| Report.Progresses | utils/torsion_submit/monitor_torsiondrives.py:132 | the progress array exists exactly when every job has a progress, holding those values in order |
| Report.BinWidth | utils/torsion_submit/monitor_torsiondrives.py:134 | below a maximum of 6 the bin width is 1; otherwise it is the whole number of sixths in the maximum (`6w <= max < 6w + 6`) |
| Report.EdgesShape | utils/torsion_submit/monitor_torsiondrives.py:135 | the edges start at 0, are one width apart, and the last edge is the first multiple of the width at or above the maximum |
| Report.ProgressHistogram | utils/torsion_submit/monitor_torsiondrives.py:129-143 | the histogram is printed exactly when there are jobs and each has a progress, with one row per bin |
| Report.RowSpans | utils/torsion_submit/monitor_torsiondrives.py:139-142 | the rows are contiguous, each but the last spans one width, and the last ends at the last edge, at or above the maximum |
| Report.AllZeroProgressHasNoRows | utils/torsion_submit/monitor_torsiondrives.py:133-136 | when every progress is 0 there is a single edge and no row is printed |
| Report.HistogramCountsAllJobs | utils/torsion_submit/monitor_torsiondrives.py:136 | when the maximum progress is at least 1, the row counts add up to the number of jobs |
| Report.HistogramTotal | utils/torsion_submit/monitor_torsiondrives.py:135-136 | with the closed last bin, every value at or below the maximum is counted in exactly one bin |
| Reconcile.LedgerStepFrame | utils/torsion_submit/monitor_torsiondrives.py:78-85 | the ledger changes no job's id and only the jobs a ledger entry reaches through the map |
| Reconcile.LedgerStepOutcome | utils/torsion_submit/monitor_torsiondrives.py:78-85 | the ledger raises exactly when an entry with a known id has no progress |
| Reconcile.LedgerStepResult | utils/torsion_submit/monitor_torsiondrives.py:78-85 | a reached job with a ledger entry becomes DOWNLOADED with the progress of the last entry for its id; every other job is unchanged |
| Reconcile.ProcedureQuery | utils/torsion_submit/monitor_torsiondrives.py:87 | a reached job is asked about exactly when it is not DOWNLOADED |
| Reconcile.ProcedureStepFrame | utils/torsion_submit/monitor_torsiondrives.py:88-92 | procedure records change no id and only the jobs they reach |
| Reconcile.ProcedureStepOutcome | utils/torsion_submit/monitor_torsiondrives.py:88-89 | the procedure phase raises KeyError exactly when some returned record's id is not in the map |
| Reconcile.ProcedureStepResult | utils/torsion_submit/monitor_torsiondrives.py:88-92 | a reached job takes the status and history length of the last record for its id; every other job is unchanged |
| Reconcile.ServiceQuery | utils/torsion_submit/monitor_torsiondrives.py:94 | a reached job is asked about exactly when its status is INCOMPLETE |
| Reconcile.ApplyService | utils/torsion_submit/monitor_torsiondrives.py:103-110 | a record without status leaves the job as it was; with a status the job takes it; with a status and a history the job takes the history length as progress, and under ERROR the record's error when it has one; no history keeps progress and error; nothing but status, progress and error changes |
| Reconcile.RecordsFor | utils/torsion_submit/monitor_torsiondrives.py:102-104 | the records about an id are exactly the returned records whose `procedure_id` is that id |
| Reconcile.ApplyAllCons | utils/torsion_submit/monitor_torsiondrives.py:102-112 | applying a job's records one after another: the first record, then the rest |
| Reconcile.LastWithStatus | utils/torsion_submit/monitor_torsiondrives.py:105 | the last record carrying a status, with none after it |
| Reconcile.LastWithHistory | utils/torsion_submit/monitor_torsiondrives.py:105-107 | the last record carrying both a status and a history, with none after it |
| Reconcile.ApplyAllEffect | utils/torsion_submit/monitor_torsiondrives.py:102-112 | a job's records in order leave it unchanged when none carries a status; otherwise the job has the status of the last record carrying one, the history length of the last record carrying a status and a history, and that record's error when it reports ERROR with an error |
| Reconcile.ServiceFoldResult | utils/torsion_submit/monitor_torsiondrives.py:102-112 | after the service loop, a job reached through the map is its own records applied in order; every other job is unchanged |
| Reconcile.ServiceStep | utils/torsion_submit/monitor_torsiondrives.py:96-112 | a transport IOError of the service query leaves every job unchanged |
| Reconcile.ServiceTransportFailureKeepsJobs | utils/torsion_submit/monitor_torsiondrives.py:72-112 | when the service query fails in transport, the update still finishes and the jobs are those the procedure records left |
| Reconcile.ServiceFoldFrame | utils/torsion_submit/monitor_torsiondrives.py:102-112 | service records change no id and only the jobs they reach; a changed error comes from a reaching record that reported ERROR |
| Reconcile.UnreachableJobsUntouched | utils/torsion_submit/monitor_torsiondrives.py:72-112 | a job with a falsy id, or shadowed by a later job with the same id, is never modified, whatever the ledger and server say |
| Reconcile.LedgerIsAuthoritative | utils/torsion_submit/monitor_torsiondrives.py:76-94 | with a server that answers only what it is asked, a job with a ledger entry ends DOWNLOADED with the ledger's progress and is in neither query |
| Reconcile.ServiceStepTouchesOnlyIncomplete | utils/torsion_submit/monitor_torsiondrives.py:94-112 | with such a server, the service phase changes only INCOMPLETE jobs, and an error only to that of a record reporting ERROR for the job's id |
| Materialize.XyzBlock | utils/torsion_submit/monitor_torsiondrives.py:204-212 | the block is the atom count, the title, then each symbol with its coordinates times 0.529177 |
| Materialize.GradBlock | utils/torsion_submit/monitor_torsiondrives.py:186-193 | the gradient block is the row count, the gradient title, then each symbol with its gradient row |
| Materialize.Least | utils/torsion_submit/monitor_torsiondrives.py:166 | the least grid id is one of the ids and no larger than any |
| Materialize.SortedGridIdsFacts | utils/torsion_submit/monitor_torsiondrives.py:166 | the sorted grid ids are exactly the energy keys, strictly ascending |
| Materialize.XyzFault | utils/torsion_submit/monitor_torsiondrives.py:170-171 | the xyz loop fails exactly when some grid id has no final molecule |
| Materialize.GradFault | utils/torsion_submit/monitor_torsiondrives.py:181-185 | the gradient loop fails exactly when some grid id lacks a result, has a driver other than `gradient`, or does not reshape |
| Materialize.JobFilesOk | utils/torsion_submit/monitor_torsiondrives.py:166-195 | a job's files are written exactly when every grid id has a molecule and a gradient result; a non-gradient driver always fails |
| Materialize.JobFilesLayout | utils/torsion_submit/monitor_torsiondrives.py:166-195 | ascending grid ids, one block of each kind per id; gradient titles all carry the energy of the last grid id |
| Materialize.MarkDownloaded | utils/torsion_submit/monitor_torsiondrives.py:196-198 | a downloaded job is DOWNLOADED with its xyz path saved, and nothing else changes |
| Materialize.DownloadFoldOutcome | utils/torsion_submit/monitor_torsiondrives.py:151-198 | the download loop finishes exactly when every returned record's id is a COMPLETE alias key and that job's files can be written |
| Materialize.DownloadFoldPointwise | utils/torsion_submit/monitor_torsiondrives.py:151-198 | through the loop each job stays as it was or is marked DOWNLOADED with its xyz path |
| Materialize.DownloadFoldMarksReached | utils/torsion_submit/monitor_torsiondrives.py:151-198 | when the loop finishes, every job a returned record reaches is marked DOWNLOADED with its xyz path |
| Materialize.DownloadMarksReturned | utils/torsion_submit/monitor_torsiondrives.py:145-198 | when `download_complete` finishes, every COMPLETE job reached through the map whose id came back is DOWNLOADED with its xyz path |
| Materialize.DownloadFoldChanges | utils/torsion_submit/monitor_torsiondrives.py:151-198 | through the loop each job stays as it was or is a COMPLETE job marked downloaded, and a changed job is reached by some record |
| Materialize.OnlyCompleteJobsChange | utils/torsion_submit/monitor_torsiondrives.py:145-198 | only COMPLETE jobs whose id was asked for and returned change, each to DOWNLOADED with its xyz path |
| Materialize.LedgerKeepsDownloaded | utils/torsion_submit/monitor_torsiondrives.py:199-202 | the rewritten ledger is the DOWNLOADED jobs in order and keeps every job already DOWNLOADED before |
| Materialize.LedgerRoundTrip | utils/torsion_submit/monitor_torsiondrives.py:199-202 | with distinct ids, reading back the ledger just written changes no job |
| Monitor.Synced | utils/torsion_submit/monitor_torsiondrives.py:65-70 | a job whose torsion label the dataset has takes the record's id and status; any other job is unchanged |
| Monitor.SyncedJobsAreTracked | utils/torsion_submit/monitor_torsiondrives.py:64-73 | a job matched with a non-zero record id is in the id -> job map of the next update |
| Monitor.TorsionMonitor.constructor | utils/torsion_submit/monitor_torsiondrives.py:15-19 | a new monitor has no jobs and keeps its output folder |
| Monitor.TorsionMonitor.LoadDihedrals | utils/torsion_submit/monitor_torsiondrives.py:29-37 | the inner loop yields a molecule's jobs, or the KeyError of the first dihedral without a status |
| Monitor.TorsionMonitor.LoadCheckpoint | utils/torsion_submit/monitor_torsiondrives.py:21-41 | the jobs become the flattened checkpoint; on a KeyError the job list is left as it was |
| Monitor.TorsionMonitor.SyncFromDataset | utils/torsion_submit/monitor_torsiondrives.py:64-70 | every job is replaced by its synced form, in place |
| Monitor.TorsionMonitor.ApplyLedger | utils/torsion_submit/monitor_torsiondrives.py:78-85 | the ledger loop leaves the jobs and outcome of the ledger phase, including the status set before a missing progress raises |
| Monitor.TorsionMonitor.ApplyProcedures | utils/torsion_submit/monitor_torsiondrives.py:88-92 | the procedure loop leaves the jobs and outcome of the procedure phase |
| Monitor.TorsionMonitor.ApplyServices | utils/torsion_submit/monitor_torsiondrives.py:102-112 | the service loop leaves the jobs of the service phase, each reached job with its own records applied in order |
| Monitor.TorsionMonitor.GetUpdate | utils/torsion_submit/monitor_torsiondrives.py:72-112 | the jobs, the outcome and both queried id sets are those of the reconciliation |
| Monitor.TorsionMonitor.GetXyzStr | utils/torsion_submit/monitor_torsiondrives.py:204-212 | the lines built are the coordinate block |
| Monitor.TorsionMonitor.GradXyzLines | utils/torsion_submit/monitor_torsiondrives.py:189-193 | the lines built are the gradient block |
| Monitor.TorsionMonitor.WriteXyzFile | utils/torsion_submit/monitor_torsiondrives.py:169-174 | the xyz loop fails as the xyz fault says, else writes the coordinate blocks and leaves the last grid id's energy |
| Monitor.TorsionMonitor.WriteGradFile | utils/torsion_submit/monitor_torsiondrives.py:180-195 | the gradient loop fails as the gradient fault says, else writes the gradient blocks |
| Monitor.TorsionMonitor.WriteJobFiles | utils/torsion_submit/monitor_torsiondrives.py:166-195 | one record's files, or the error that stops them, are those of the job-files function |
| Monitor.TorsionMonitor.DownloadRecords | utils/torsion_submit/monitor_torsiondrives.py:151-198 | the record loop leaves the jobs, outcome and files of the download fold |
| Monitor.TorsionMonitor.DownloadComplete | utils/torsion_submit/monitor_torsiondrives.py:145-202 | the jobs, outcome, files, ledger and queried ids are those of DownloadAll |

## Left out

- The server client (`FractalClient`) is not modelled. Its queries are function parameters from the set of ids asked for to the records returned.
- Query id lists are sets. The order and duplicates of the id lists sent to the server are not modelled.
- File I/O is not modelled: reading the checkpoint and the ledger, the existence test of the ledger, writing the xyz, gradxyz, error and ledger files, `mkdir`. The file contents are values.
- `os.path.realpath` of the output folder and `os.path.relpath` of `saved_file` are not modelled. `saved_file` is the joined path `XyzPath`.
- Number formatting (`15.7f`, `13.7f`, `13.5e`) is not modelled. Lines are structured values, and reals are exact, not floating point.
- The percentage column of `print_progress` and all console output (`print_status` formatting, the verbose print of `load_checkpoint`, progress messages) are not modelled.
- `plot_1d_energies` (matplotlib, the kcal/mol conversion, the empty-dict skip) is not modelled.
- `main` and its argument parsing are not modelled.
- `sync_from_dataset` takes the dataset column as a map from canonical torsion label to record. The collection fetch, the hard-coded dataset name and the fixed `default` column (whatever `spec` says) are outside the model.
- Grid ids are single integers (one-dimensional scans). Sorted one-element tuples order the same way.
- Job ids are integers or absent (`Option<int>`); `Some(0)` is the only falsy id. Other falsy or non-integer ids (empty strings, `None` stored under the key) are not modelled.
- The `jobid` key of a checkpoint dihedral (line 35) is folded into `id`. The source keeps both keys on the job and writes both to the error log and the ledger (lines 119 and 202); the model writes only `id`.
- Keys of a job other than the modelled fields are kept in `other` as strings only; list and number values there are not modelled.
- Reconcile.ApplyService: a record with `status: null` is taken as having no status and leaves the job unchanged, where the source sets `job['status'] = None` and goes on to set the progress and, under ERROR, the error.
- Reconcile.ApplyService: a record with `error: null` under ERROR is taken as having no error and keeps the job's old error, where the source sets `job['error'] = None`.
- Monitor.TorsionMonitor.constructor: does not read the checkpoint; LoadCheckpoint is called on the new monitor, where `__init__` calls it first.
- Checkpoint.MakeJob: checkpoint dihedrals are taken not to carry `progress`, `error` or `saved_file`; other keys are kept in `other`.
- Monitor.TorsionMonitor.WriteJobFiles: when a job fails partway, the blocks already written to its files are not recorded, only the files of jobs that finished.
- Reconcile.ApplyService: exceptions other than a missing key (such as `len` of a null history) are modelled as a missing key.
- Reconcile.LedgerStep: a ledger entry without an `id` key is not modelled; the ledger is written by `download_complete`, which always keeps `id`.
- Reconcile.ServiceStep: only the IOError of `query_services` is modelled; any other exception from it is not.
