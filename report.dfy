/** The monitor's reports: the error log selection, the per-status counts and the
    progress histogram. */
module Report {
  import opened Jobs

  // ---------------------------------------------------------------- error log

  /** What `log_error` writes: `None` when no job has status ERROR (nothing is written),
      otherwise the ERROR jobs in list order. */
  function ErrorLog(jobs: seq<Job>): (r: Option<seq<Job>>)
    ensures r.None? <==> forall j | j in jobs :: j.status != ERROR
    ensures r.Some? ==> r.value == WithStatus(jobs, ERROR) && r.value != []
  {
    var errorJobs := WithStatus(jobs, ERROR);
    if errorJobs == [] then None
    else
      assert errorJobs[0] in errorJobs;
      Some(errorJobs)
  }

  /** Filtering keeps list order: the selection of a concatenation is the concatenation
      of the selections. */
  lemma {:induction false} WithStatusConcat(a: seq<Job>, b: seq<Job>, s: string)
    ensures WithStatus(a + b, s) == WithStatus(a, s) + WithStatus(b, s)
    decreases |a|
  {
    if a == [] {
      assert a + b == b;
    } else {
      assert (a + b)[1..] == a[1..] + b;
      WithStatusConcat(a[1..], b, s);
    }
  }

  /** The number of jobs with status `s`. */
  function CountStatus(jobs: seq<Job>, s: string): nat
    decreases |jobs|
  {
    if jobs == [] then 0
    else (if jobs[0].status == s then 1 else 0) + CountStatus(jobs[1..], s)
  }

  /** The error log holds exactly as many records as there are ERROR jobs. */
  lemma {:induction false} WithStatusLength(jobs: seq<Job>, s: string)
    ensures |WithStatus(jobs, s)| == CountStatus(jobs, s)
    decreases |jobs|
  {
    if jobs != [] {
      WithStatusLength(jobs[1..], s);
    }
  }

  // ------------------------------------------------------------- status counts

  /** The statuses of the jobs, in list order. */
  function Statuses(jobs: seq<Job>): (r: seq<string>)
    ensures |r| == |jobs| && forall i | 0 <= i < |jobs| :: r[i] == jobs[i].status
  {
    seq(|jobs|, i requires 0 <= i < |jobs| => jobs[i].status)
  }

  /** Adds one occurrence of `s` to a tally: increments its entry, or appends `(s, 1)`. */
  function Bump(t: seq<(string, nat)>, s: string): (r: seq<(string, nat)>)
    decreases |t|
  {
    if t == [] then [(s, 1)]
    else if t[0].0 == s then [(s, t[0].1 + 1)] + t[1..]
    else [t[0]] + Bump(t[1..], s)
  }

  /** `Counter(statuses).items()`: one (status, count) pair per distinct status, in the
      order statuses first appear. */
  function Tally(statuses: seq<string>): seq<(string, nat)>
    decreases |statuses|
  {
    if statuses == [] then []
    else Bump(Tally(statuses[..|statuses| - 1]), statuses[|statuses| - 1])
  }

  /** The counts printed by `print_status`. */
  function StatusCounts(jobs: seq<Job>): seq<(string, nat)> {
    Tally(Statuses(jobs))
  }

  function SumCounts(t: seq<(string, nat)>): nat
    decreases |t|
  {
    if t == [] then 0 else t[0].1 + SumCounts(t[1..])
  }

  predicate DistinctKeys(t: seq<(string, nat)>) {
    forall i, j | 0 <= i < j < |t| :: t[i].0 != t[j].0
  }

  /** The count a tally holds for `s`, 0 when it has no entry for it. */
  function CountOf(t: seq<(string, nat)>, s: string): nat
    decreases |t|
  {
    if t == [] then 0 else if t[0].0 == s then t[0].1 else CountOf(t[1..], s)
  }

  lemma {:induction false} BumpFacts(t: seq<(string, nat)>, s: string)
    requires DistinctKeys(t)
    ensures DistinctKeys(Bump(t, s))
    ensures SumCounts(Bump(t, s)) == SumCounts(t) + 1
    ensures CountOf(Bump(t, s), s) == CountOf(t, s) + 1
    ensures forall x | x != s :: CountOf(Bump(t, s), x) == CountOf(t, x)
    ensures forall x :: (x in KeysOf(Bump(t, s))) <==> (x in KeysOf(t) || x == s)
    decreases |t|
  {
    if t != [] && t[0].0 != s {
      BumpFacts(t[1..], s);
      var r := Bump(t, s);
      assert r == [t[0]] + Bump(t[1..], s);
      forall i, j | 0 <= i < j < |r| ensures r[i].0 != r[j].0 {
        if i == 0 {
          assert r[j] == Bump(t[1..], s)[j - 1];
          assert r[j].0 in KeysOf(Bump(t[1..], s));
          if r[j].0 != s {
            assert r[j].0 in KeysOf(t[1..]);
            var k :| 0 <= k < |t[1..]| && t[1..][k].0 == r[j].0;
            assert t[k + 1].0 == r[j].0;
          }
        } else {
          assert r[i] == Bump(t[1..], s)[i - 1] && r[j] == Bump(t[1..], s)[j - 1];
        }
      }
      forall x | x != t[0].0 ensures CountOf(r, x) == CountOf([t[0]] + Bump(t[1..], s), x) {
      }
      KeysOfCons(t[0], t[1..]);
      KeysOfCons(t[0], Bump(t[1..], s));
    } else if t != [] {
      CountOfAbsent(t[1..], s);
      var r := Bump(t, s);
      forall i, j | 0 <= i < j < |r| ensures r[i].0 != r[j].0 {
        assert r[i].0 == t[i].0 && r[j].0 == t[j].0;
      }
      KeysOfCons(t[0], t[1..]);
      KeysOfCons((s, t[0].1 + 1), t[1..]);
    }
  }

  function KeysOf(t: seq<(string, nat)>): set<string> {
    set i | 0 <= i < |t| :: t[i].0
  }

  lemma KeysOfCons(p: (string, nat), t: seq<(string, nat)>)
    ensures KeysOf([p] + t) == {p.0} + KeysOf(t)
  {
    var r := [p] + t;
    assert r[0].0 == p.0;
    forall x | x in KeysOf(r) ensures x in {p.0} + KeysOf(t) {
      var i :| 0 <= i < |r| && r[i].0 == x;
      if i > 0 { assert t[i - 1].0 == x; }
    }
    forall x | x in KeysOf(t) ensures x in KeysOf(r) {
      var i :| 0 <= i < |t| && t[i].0 == x;
      assert r[i + 1].0 == x;
    }
  }

  /** In a tally with distinct keys, the entries after one for `s` hold no `s`. */
  lemma {:induction false} CountOfAbsent(t: seq<(string, nat)>, s: string)
    requires s !in KeysOf(t)
    ensures CountOf(t, s) == 0
    decreases |t|
  {
    if t != [] {
      assert t[0].0 in KeysOf(t);
      KeysOfCons(t[0], t[1..]);
      assert t == [t[0]] + t[1..];
      CountOfAbsent(t[1..], s);
    }
  }

  /** `Counter` counts each status exactly, has one entry per status that occurs and
      no other, and its counts add up to the number of jobs. */
  lemma {:induction false} TallyCounts(statuses: seq<string>)
    ensures DistinctKeys(Tally(statuses))
    ensures SumCounts(Tally(statuses)) == |statuses|
    ensures forall s :: CountOf(Tally(statuses), s) == multiset(statuses)[s]
    ensures KeysOf(Tally(statuses)) == set s | s in statuses
    decreases |statuses|
  {
    if statuses != [] {
      var front := statuses[..|statuses| - 1];
      var last := statuses[|statuses| - 1];
      assert statuses == front + [last];
      TallyCounts(front);
      BumpFacts(Tally(front), last);
      assert multiset(statuses) == multiset(front) + multiset{last};
    }
  }

  /** `print_status` counts every job once, and its ERROR entry is the length of the
      error log. */
  lemma StatusCountsSum(jobs: seq<Job>)
    ensures SumCounts(StatusCounts(jobs)) == |jobs|
    ensures CountOf(StatusCounts(jobs), ERROR) == |WithStatus(jobs, ERROR)|
  {
    TallyCounts(Statuses(jobs));
    WithStatusLength(jobs, ERROR);
    CountStatusIsMultiplicity(jobs, ERROR);
  }

  lemma {:induction false} CountStatusIsMultiplicity(jobs: seq<Job>, s: string)
    ensures CountStatus(jobs, s) == multiset(Statuses(jobs))[s]
    decreases |jobs|
  {
    if jobs != [] {
      CountStatusIsMultiplicity(jobs[1..], s);
      assert Statuses(jobs) == [jobs[0].status] + Statuses(jobs[1..]);
    }
  }

  // --------------------------------------------------------- progress histogram

  /** A histogram row as `print_progress` prints it: the range and the number of jobs. */
  datatype Row = Row(start: nat, end: nat, count: nat)

  /** `max(max_progress // 6, 1)` */
  function BinWidth(maxProgress: nat): (w: nat)
    ensures w >= 1 && w * 6 <= if maxProgress < 6 then 6 else maxProgress
    ensures if maxProgress < 6 then w == 1 else w * 6 <= maxProgress < w * 6 + 6
  {
    if maxProgress / 6 > 1 then maxProgress / 6 else 1
  }

  /** `np.arange(0, max_progress + bin_width, bin_width)`: 0, w, 2w, ... below max + w. */
  function Edges(maxProgress: nat): (e: seq<nat>)
  {
    var w := BinWidth(maxProgress);
    seq((maxProgress + w + w - 1) / w, i => i * w)
  }

  /** The edges start at 0, are `w` apart, and the last one is the first multiple of
      `w` at or above the maximum. */
  lemma EdgesShape(maxProgress: nat)
    ensures var e := Edges(maxProgress); var w := BinWidth(maxProgress);
      |e| >= 1 && e[0] == 0 &&
      (forall i | 0 <= i < |e| :: e[i] == i * w) &&
      maxProgress <= e[|e| - 1] < maxProgress + w
  {
    var w := BinWidth(maxProgress);
    var a := maxProgress + w + w - 1;
    var n := a / w;
    assert n * w <= a < n * w + w;
    assert a >= w;
    assert n >= 1;
    var last := (n - 1) * w;
    assert last == n * w - w;
  }

  /** How many values lie in `[lo, hi)`. */
  function CountIn(values: seq<nat>, lo: nat, hi: nat): nat
    decreases |values|
  {
    if values == [] then 0
    else (if lo <= values[0] < hi then 1 else 0) + CountIn(values[1..], lo, hi)
  }

  /** `np.histogram(values, edges)`: bin `i` counts `[e[i], e[i+1])`, the last bin
      also counts its right edge. */
  function BinCount(values: seq<nat>, e: seq<nat>, i: nat): nat
    requires i + 1 < |e|
  {
    if i + 2 == |e| then CountIn(values, e[i], e[i + 1] + 1) else CountIn(values, e[i], e[i + 1])
  }

  /** The rows of `print_progress` for the given progress values and their maximum:
      one row per bin, zipped with its left edge; the row whose start equals the
      second-to-last edge ends at the last edge, the others at `start + w - 1`. */
  function Rows(values: seq<nat>, maxProgress: nat): (rows: seq<Row>)
    ensures |rows| == |Edges(maxProgress)| - 1
  {
    var e := Edges(maxProgress);
    var w := BinWidth(maxProgress);
    seq(|e| - 1, i requires 0 <= i < |e| - 1 =>
      Row(e[i], if e[i] == e[|e| - 2] then e[|e| - 1] else e[i] + w - 1, BinCount(values, e, i)))
  }

  /** The largest value of a non-empty list (`ndarray.max`). */
  function Max(values: seq<nat>): (m: nat)
    requires values != []
    ensures m in values && forall v | v in values :: v <= m
    decreases |values|
  {
    if |values| == 1 then values[0]
    else
      var rest := Max(values[1..]);
      assert forall v | v in values[1..] :: v in values;
      assert forall v | v in values :: v == values[0] || v in values[1..];
      if values[0] < rest then rest else values[0]
  }

  /** The progress of every job, or the KeyError of the first job that has none. */
  function Progresses(jobs: seq<Job>): (r: Result<seq<nat>>)
    ensures r.Success? <==> forall j | j in jobs :: j.progress.Some?
    ensures r.Success? ==> |r.value| == |jobs| && forall i | 0 <= i < |jobs| :: Some(r.value[i]) == jobs[i].progress
    decreases |jobs|
  {
    if jobs == [] then Success([])
    else if jobs[0].progress.None? then Failure(KeyError("progress"))
    else match Progresses(jobs[1..])
      case Failure(e) => Failure(e)
      case Success(ps) => Success([jobs[0].progress.value] + ps)
  }

  /** What `print_progress` prints, or how it fails: KeyError when a job has no progress,
      ValueError (`max` of an empty array) when there are no jobs. */
  function ProgressHistogram(jobs: seq<Job>): (r: Result<seq<Row>>)
    ensures r.Success? <==> jobs != [] && forall j | j in jobs :: j.progress.Some?
    ensures r.Success? ==> |r.value| == |Edges(Max(Progresses(jobs).value))| - 1
  {
    match Progresses(jobs)
    case Failure(e) => Failure(e)
    case Success(ps) =>
      if ps == [] then Failure(ValueError("zero-size array to reduction operation maximum"))
      else Success(Rows(ps, Max(ps)))
  }

  /** All progress zero: a single edge, so no row at all. */
  lemma AllZeroProgressHasNoRows(values: seq<nat>)
    requires values != [] && forall v | v in values :: v == 0
    ensures |Edges(Max(values))| == 1 && Rows(values, Max(values)) == []
  {
  }

  /** Every row but the last spans `w` values; the last ends at the last edge, which
      is at least the maximum; consecutive rows are contiguous. */
  lemma RowSpans(values: seq<nat>, maxProgress: nat)
    ensures var rows := Rows(values, maxProgress); var w := BinWidth(maxProgress);
      (forall i | 0 <= i < |rows| :: rows[i].start == i * w) &&
      (forall i | 0 <= i < |rows| - 1 :: rows[i].end == rows[i].start + w - 1 && rows[i + 1].start == rows[i].end + 1) &&
      (rows != [] ==> rows[|rows| - 1].end >= maxProgress && rows[|rows| - 1].end == rows[|rows| - 1].start + w)
  {
    var e := Edges(maxProgress);
    var w := BinWidth(maxProgress);
    EdgesShape(maxProgress);
    var rows := Rows(values, maxProgress);
    var k := |rows|;
    forall i | 0 <= i < k ensures rows[i].start == i * w {
      assert rows[i].start == e[i];
    }
    forall i | 0 <= i < k - 1
      ensures rows[i].end == rows[i].start + w - 1 && rows[i + 1].start == rows[i].end + 1
    {
      assert rows[i].start == e[i] == i * w;
      assert rows[i + 1].start == e[i + 1] == (i + 1) * w == i * w + w;
    }
    if k > 0 {
      assert rows[k - 1].start == e[k - 1] && rows[k - 1].end == e[k];
      assert e[k] == k * w == (k - 1) * w + w;
    }
  }

  /** Adjacent ranges add up. */
  lemma {:induction false} CountInSplit(values: seq<nat>, a: nat, b: nat, c: nat)
    requires a <= b <= c
    ensures CountIn(values, a, b) + CountIn(values, b, c) == CountIn(values, a, c)
    decreases |values|
  {
    if values != [] {
      CountInSplit(values[1..], a, b, c);
    }
  }

  /** A range that holds every value counts them all. */
  lemma {:induction false} CountInAll(values: seq<nat>, hi: nat)
    requires forall v | v in values :: v < hi
    ensures CountIn(values, 0, hi) == |values|
    decreases |values|
  {
    if values != [] {
      assert values[0] in values;
      assert forall v | v in values[1..] :: v in values;
      CountInAll(values[1..], hi);
    }
  }

  function SumRows(rows: seq<Row>): nat
    decreases |rows|
  {
    if rows == [] then 0 else SumRows(rows[..|rows| - 1]) + rows[|rows| - 1].count
  }

  /** When the maximum progress is at least 1, every job falls in exactly one row. */
  lemma HistogramCountsAllJobs(values: seq<nat>)
    requires values != [] && Max(values) >= 1
    ensures SumRows(Rows(values, Max(values))) == |values|
  {
    HistogramTotal(values, Max(values));
  }

  lemma HistogramTotal(values: seq<nat>, m: nat)
    requires m >= 1 && forall v | v in values :: v <= m
    ensures SumRows(Rows(values, m)) == |values|
  {
    var e := Edges(m);
    var rows := Rows(values, m);
    EdgesShape(m);
    var k := |e| - 1;
    assert k >= 1 by {
      assert e[k] >= m >= 1;
      assert e[0] == 0;
    }
    RowsPrefixSum(values, m, k - 1);
    assert |rows| == k;
    assert SumRows(rows) == SumRows(rows[..k - 1]) + rows[k - 1].count;
    assert rows[k - 1].count == CountIn(values, e[k - 1], e[k] + 1);
    assert e[k - 1] <= e[k] by {
      MulStrict(k - 1, k, BinWidth(m));
    }
    CountInSplit(values, 0, e[k - 1], e[k] + 1);
    CountInAll(values, e[k] + 1);
  }

  /** The first `j` rows below the last count the values in `[0, e[j])`. */
  lemma {:induction false} RowsPrefixSum(values: seq<nat>, m: nat, j: nat)
    requires j < |Edges(m)| - 1
    ensures SumRows(Rows(values, m)[..j]) == CountIn(values, 0, Edges(m)[j])
    decreases j
  {
    var e := Edges(m);
    var rows := Rows(values, m);
    EdgesShape(m);
    if j == 0 {
      assert rows[..0] == [];
      CountInEmpty(values, 0);
    } else {
      RowsPrefixSum(values, m, j - 1);
      assert rows[..j][..j - 1] == rows[..j - 1];
      assert rows[j - 1].count == CountIn(values, e[j - 1], e[j]);
      MulStrict(j - 1, j, BinWidth(m));
      CountInSplit(values, 0, e[j - 1], e[j]);
    }
  }

  /** Multiplying by a positive width keeps a strict order. */
  lemma MulStrict(i: nat, j: nat, w: nat)
    requires i < j && w >= 1
    ensures i * w < j * w
  {
  }

  lemma {:induction false} CountInEmpty(values: seq<nat>, lo: nat)
    ensures CountIn(values, lo, lo) == 0
    decreases |values|
  {
    if values != [] {
      CountInEmpty(values[1..], lo);
    }
  }
}
