/** The folder branch of `start_editing` and `process_batch`: the clips
    are cut into dispatch batches of 100, each batch into groups of
    `duration / 4` clips, every full group is merged into one numbered
    output file, and the successful outputs are returned sorted. */
module Batch {
  import opened Wrappers
  import opened Text
  import opened Sorting
  import opened Merge

  const BatchSize: nat := 100
  const U32Modulus: nat := 0x1_0000_0000

  function Min(a: nat, b: nat): nat { if a <= b then a else b }

  /** `a * n` by repeated addition, so that the offsets below stay linear
      facts for the solver. */
  function Times(a: nat, n: nat): (r: nat)
  {
    if a == 0 then 0 else Times(a - 1, n) + n
  }

  lemma {:induction false} TimesIsProduct(a: nat, n: nat)
    ensures Times(a, n) == a * n
  {
    if a > 0 {
      TimesIsProduct(a - 1, n);
    }
  }

  lemma {:induction false} TimesMono(a: nat, b: nat, n: nat)
    requires a <= b
    ensures Times(a, n) <= Times(b, n)
    decreases b
  {
    if a < b {
      TimesMono(a, b - 1, n);
    }
  }

  /** How many whole blocks of `n` fit in `len`, counted block by block. */
  function Quot(len: nat, n: nat): nat
    requires n > 0
    decreases len
  {
    if len < n then 0 else 1 + Quot(len - n, n)
  }

  lemma {:induction false} QuotIsDiv(len: nat, n: nat)
    requires n > 0
    ensures Quot(len, n) == len / n
    decreases len
  {
    if len >= n {
      QuotIsDiv(len - n, n);
      DivStep(len, n);
    }
  }

  lemma DivStep(len: nat, n: nat)
    requires 0 < n <= len
    ensures len / n == (len - n) / n + 1
  {
    var q1, r1 := (len - n) / n, (len - n) % n;
    var q2, r2 := len / n, len % n;
    assert n * (q2 - q1 - 1) == r1 - r2;
    MulSmall(q2 - q1 - 1, n);
  }

  lemma MulSmall(k: int, n: int)
    requires n > 0 && -n < n * k < n
    ensures k == 0
  {
  }

  /** `j` is below `len / n` exactly when the `j`-th block of `n` fits in `len`. */
  lemma {:induction false} FitsBelow(j: nat, n: nat, len: nat)
    requires n > 0
    ensures Times(j + 1, n) <= len <==> j < Quot(len, n)
    decreases j
  {
    if j > 0 {
      if len >= n {
        FitsBelow(j - 1, n, len - n);
        TimesShift(j, n);
        TimesShift(j - 1, n);
      } else {
        TimesMono(1, j + 1, n);
      }
    }
  }

  /** `slice::chunks(n)`: consecutive pieces of `n` elements, the last one
      possibly shorter, none empty. */
  function Chunks<T>(s: seq<T>, n: nat): (r: seq<seq<T>>)
    requires n > 0
    ensures |s| == 0 <==> |r| == 0
    ensures forall b | 0 <= b < |r| :: Times(b, n) < |s| && r[b] == s[Times(b, n) .. Min(Times(b + 1, n), |s|)]
    ensures |r| > 0 ==> |s| <= Times(|r|, n)
    decreases |s|
  {
    if |s| == 0 then []
    else if |s| <= n then
      assert Times(1, n) == n;
      [s]
    else
      var rest := Chunks(s[n..], n);
      var r := [s[..n]] + rest;
      assert forall b | 1 <= b < |r| :: r[b] == rest[b - 1];
      ChunksShift(s, n, rest);
      TimesShift(|rest|, n);
      r
  }

  lemma TimesShift(a: nat, n: nat)
    ensures Times(a + 1, n) == Times(a, n) + n
  {
  }

  lemma ChunksShift<T>(s: seq<T>, n: nat, rest: seq<seq<T>>)
    requires 0 < n < |s|
    requires forall b | 0 <= b < |rest| :: Times(b, n) < |s[n..]| && rest[b] == s[n..][Times(b, n) .. Min(Times(b + 1, n), |s[n..]|)]
    ensures forall b | 1 <= b < |rest| + 1 :: Times(b, n) < |s| && rest[b - 1] == s[Times(b, n) .. Min(Times(b + 1, n), |s|)]
  {
    forall b | 1 <= b < |rest| + 1 ensures Times(b, n) < |s| && rest[b - 1] == s[Times(b, n) .. Min(Times(b + 1, n), |s|)] {
      TimesShift(b - 1, n);
      TimesShift(b, n);
      var lo, hi := Times(b - 1, n), Min(Times(b, n), |s| - n);
      assert rest[b - 1] == s[n..][lo .. hi];
      SliceOfSlice(s, n, lo, hi);
      assert n + hi == Min(Times(b + 1, n), |s|);
    }
  }

  lemma SliceOfSlice<T>(s: seq<T>, n: nat, lo: nat, hi: nat)
    requires n <= |s| && lo <= hi <= |s| - n
    ensures s[n..][lo .. hi] == s[n + lo .. n + hi]
  {
  }

  /** Every piece but the last is full. */
  lemma ChunkFull<T>(s: seq<T>, n: nat, b: nat)
    requires n > 0 && b + 1 < |Chunks(s, n)|
    ensures |Chunks(s, n)[b]| == n
  {
    TimesShift(b, n);
  }

  /** Which output number a group receives. */
  datatype IndexRule =
    | AsWritten  // group `j` of batch `b`: `b * g + j`
    | Intended   // group `j` of batch `b`: `b * (100 / g) + j`

  /** The number of group `j` of batch `b` (products written as `Times`). */
  function GroupIndex(rule: IndexRule, b: nat, g: nat, j: nat): nat
    requires g > 0
  {
    match rule
    case AsWritten => Times(b, g) + j
    case Intended => Times(b, Quot(BatchSize, g)) + j
  }

  /** One merge of a group of clips into the output with number `index`. */
  datatype Job = Job(inputs: seq<string>, index: nat)

  /** The jobs for the groups `groups[j..]` of batch `b`: a group shorter
      than `g` is skipped. */
  function GroupJobs(rule: IndexRule, b: nat, g: nat, groups: seq<seq<string>>, j: nat): seq<Job>
    requires g > 0 && j <= |groups|
    decreases |groups| - j
  {
    if j == |groups| then []
    else
      (if |groups[j]| == g then [Job(groups[j], GroupIndex(rule, b, g, j))] else [])
      + GroupJobs(rule, b, g, groups, j + 1)
  }

  /** Block `j` of `g` elements lies within `len` elements. */
  predicate Fits(j: nat, g: nat, len: nat)
  {
    Times(j + 1, g) <= len
  }

  /** The job for group `j` of batch `b`: clips `j * g` up to `(j + 1) * g`. */
  function GroupAt(rule: IndexRule, b: nat, g: nat, files: seq<string>, j: nat): Job
    requires g > 0 && Fits(j, g, |files|)
  {
    TimesShift(j, g);
    Job(files[Times(j, g) .. Times(j + 1, g)], GroupIndex(rule, b, g, j))
  }

  /** The groups of `process_batch` for batch `b`: the full groups of `g`
      clips in order; the `|files| % g` clips left over are not merged. */
  function BatchJobs(rule: IndexRule, b: nat, files: seq<string>, g: nat): (r: seq<Job>)
    requires g > 0
    ensures |r| == Quot(|files|, g)
    ensures forall j | 0 <= j < |r| :: Fits(j, g, |files|) && r[j] == GroupAt(rule, b, g, files, j)
  {
    GroupJobsFrom(rule, b, files, g);
    GroupJobs(rule, b, g, Chunks(files, g), 0)
  }

  lemma GroupJobsFrom(rule: IndexRule, b: nat, files: seq<string>, g: nat)
    requires g > 0
    ensures var r := GroupJobs(rule, b, g, Chunks(files, g), 0);
      |r| == Quot(|files|, g)
      && forall j | 0 <= j < |r| :: Fits(j, g, |files|) && r[j] == GroupAt(rule, b, g, files, j)
  {
    var r := GroupJobs(rule, b, g, Chunks(files, g), 0);
    GroupJobsLength(rule, b, files, g);
    forall j | 0 <= j < |r| ensures Fits(j, g, |files|) && r[j] == GroupAt(rule, b, g, files, j) {
      GroupJobsAt(rule, b, files, g, j);
    }
  }

  /** Piece `j` is a full block exactly when `j` is below `len / n`. */
  lemma ChunkAtFull<T>(s: seq<T>, n: nat, j: nat)
    requires n > 0 && j < Quot(|s|, n)
    ensures Times(j + 1, n) <= |s| && j < |Chunks(s, n)|
    ensures Chunks(s, n)[j] == s[Times(j, n) .. Times(j + 1, n)]
  {
    FitsBelow(j, n, |s|);
    TimesShift(j, n);
    if j >= |Chunks(s, n)| {
      ChunksCover(s, n, j);
    }
  }

  lemma ChunkAtPartial<T>(s: seq<T>, n: nat, j: nat)
    requires n > 0 && Quot(|s|, n) <= j < |Chunks(s, n)|
    ensures |Chunks(s, n)[j]| < n && j + 1 == |Chunks(s, n)|
  {
    FitsBelow(j, n, |s|);
    TimesShift(j, n);
    if j + 1 < |Chunks(s, n)| {
      ChunkFull(s, n, j);
    }
  }

  /** Only the full groups of a batch become jobs: `len / g` of them. */
  lemma GroupJobsLength(rule: IndexRule, b: nat, files: seq<string>, g: nat)
    requires g > 0
    ensures |GroupJobs(rule, b, g, Chunks(files, g), 0)| == Quot(|files|, g)
  {
    var groups, q := Chunks(files, g), Quot(|files|, g);
    if q > 0 {
      ChunksAllFull(files, g, q - 1);
      ChunkLength(files, g, q - 1);
    }
    if q < |groups| {
      ChunkAtPartial(files, g, q);
    }
    GroupJobsCount(rule, b, g, groups, 0, q);
  }

  /** With the groups before `q` full and at most one shorter group after
      them, there are `q - j` jobs from group `j` on. */
  lemma {:induction false} GroupJobsCount(rule: IndexRule, b: nat, g: nat, groups: seq<seq<string>>, j: nat, q: nat)
    requires g > 0 && j <= q <= |groups| <= q + 1
    requires q > 0 ==> AllFull(groups, g, 0, q - 1)
    requires q < |groups| ==> |groups[q]| != g
    ensures |GroupJobs(rule, b, g, groups, j)| == q - j
    decreases |groups| - j
  {
    if j < q {
      assert |groups[j]| == g;
      GroupJobsCount(rule, b, g, groups, j + 1, q);
      assert GroupJobs(rule, b, g, groups, j) == [Job(groups[j], GroupIndex(rule, b, g, j))] + GroupJobs(rule, b, g, groups, j + 1);
    } else if j < |groups| {
      assert GroupJobs(rule, b, g, groups, j) == GroupJobs(rule, b, g, groups, j + 1);
    }
  }

  /** Group `k` of a batch is job `k`: the groups before it are all full. */
  lemma GroupJobsAt(rule: IndexRule, b: nat, files: seq<string>, g: nat, k: nat)
    requires g > 0 && k < Quot(|files|, g)
    ensures Fits(k, g, |files|)
    ensures k < |GroupJobs(rule, b, g, Chunks(files, g), 0)|
    ensures GroupJobs(rule, b, g, Chunks(files, g), 0)[k] == GroupAt(rule, b, g, files, k)
  {
    ChunksAllFull(files, g, k);
    ChunkAtFull(files, g, k);
    GroupJobsIndex(rule, b, g, Chunks(files, g), 0, k);
  }

  lemma ChunksAllFull(files: seq<string>, g: nat, k: nat)
    requires g > 0 && k < Quot(|files|, g)
    ensures AllFull(Chunks(files, g), g, 0, k)
  {
    forall m | 0 <= m <= k ensures m < |Chunks(files, g)| && |Chunks(files, g)[m]| == g {
      ChunkLength(files, g, m);
    }
  }

  lemma ChunkLength(files: seq<string>, g: nat, m: nat)
    requires g > 0 && m < Quot(|files|, g)
    ensures m < |Chunks(files, g)| && |Chunks(files, g)[m]| == g
  {
    ChunkAtFull(files, g, m);
    TimesShift(m, g);
  }

  /** All of `groups[j..k]` (inclusive) hold `g` clips. */
  predicate AllFull(groups: seq<seq<string>>, g: nat, j: nat, k: nat)
  {
    forall m | j <= m <= k :: m < |groups| && |groups[m]| == g
  }

  /** When the groups from `j` up to `k` are full, none is skipped: group
      `k` becomes job `k - j`. */
  lemma {:induction false} GroupJobsIndex(rule: IndexRule, b: nat, g: nat, groups: seq<seq<string>>, j: nat, k: nat)
    requires g > 0 && j <= k < |groups| && AllFull(groups, g, j, k)
    ensures k - j < |GroupJobs(rule, b, g, groups, j)|
    ensures GroupJobs(rule, b, g, groups, j)[k - j] == Job(groups[k], GroupIndex(rule, b, g, k))
    decreases k - j
  {
    assert |groups[j]| == g;
    var tail := GroupJobs(rule, b, g, groups, j + 1);
    assert GroupJobs(rule, b, g, groups, j) == [Job(groups[j], GroupIndex(rule, b, g, j))] + tail;
    if k > j {
      assert AllFull(groups, g, j + 1, k);
      GroupJobsIndex(rule, b, g, groups, j + 1, k);
      ConsIndex(Job(groups[j], GroupIndex(rule, b, g, j)), tail, k - j);
    }
  }

  lemma ConsIndex<T>(x: T, t: seq<T>, i: nat)
    requires 0 < i <= |t|
    ensures ([x] + t)[i] == t[i - 1]
  {
  }

  /** There are at least as many pieces as full blocks. */
  lemma ChunksCover<T>(s: seq<T>, n: nat, j: nat)
    requires n > 0 && j <= Quot(|s|, n) && j >= |Chunks(s, n)|
    ensures j == Quot(|s|, n)
  {
    var r := Chunks(s, n);
    if |r| > 0 {
      TimesMono(|r|, j, n);
      FitsBelow(j, n, |s|);
      TimesShift(j, n);
    }
  }

  lemma {:induction false} QuotAtMost(len: nat, n: nat)
    requires n > 0
    ensures Quot(len, n) <= len
    decreases len
  {
    if len >= n {
      QuotAtMost(len - n, n);
    }
  }

  /** The jobs of the dispatch batches `batches[b..]`, batch after batch. */
  function PlanFrom(rule: IndexRule, batches: seq<seq<string>>, b: nat, g: nat): seq<Job>
    requires g > 0 && b <= |batches|
    decreases |batches| - b
  {
    if b == |batches| then [] else BatchJobs(rule, b, batches[b], g) + PlanFrom(rule, batches, b + 1, g)
  }

  /** The merge jobs the folder branch runs, in dispatch order: batches of
      100 clips, groups of `duration / 4` clips within each batch. A group
      size of zero makes `process_batch` panic (division by zero, then
      `chunks(0)`); the thread pool absorbs the panic and no job runs. */
  function PlanJobs(rule: IndexRule, files: seq<string>, duration: nat): (r: seq<Job>)
    ensures |r| <= |files|
    ensures forall i | 0 <= i < |r| :: duration / 4 >= 1 && |r[i].inputs| == duration / 4
  {
    var g := duration / 4;
    if g == 0 then []
    else
      var r := PlanFrom(rule, Chunks(files, BatchSize), 0, g);
      PlanFromCount(rule, files, g, 0);
      assert forall i | 0 <= i < |r| :: |r[i].inputs| == g by {
        forall i | 0 <= i < |r| ensures |r[i].inputs| == g {
          PlanFromInputs(rule, files, g, 0, i);
        }
      }
      r
  }

  /** Every job merges clips that sit next to each other in the
      processing order. */
  lemma PlanJobsWindow(rule: IndexRule, files: seq<string>, duration: nat, i: nat)
    requires i < |PlanJobs(rule, files, duration)|
    ensures exists lo: nat :: Window(PlanJobs(rule, files, duration)[i].inputs, files, lo)
  {
    PlanFromInputs(rule, files, duration / 4, 0, i);
  }

  /** The `b`-th dispatch batch: where it starts and how long it is. */
  lemma BatchSpan(files: seq<string>, b: nat)
    requires b < |Chunks(files, BatchSize)|
    ensures var batches := Chunks(files, BatchSize);
      Times(b, BatchSize) < |files| && Times(b + 1, BatchSize) == Times(b, BatchSize) + BatchSize
      && Window(batches[b], files, Times(b, BatchSize))
      && (b + 1 < |batches| ==> |batches[b]| == BatchSize)
      && (b + 1 == |batches| ==> |files| <= Times(b + 1, BatchSize))
  {
    TimesShift(b, BatchSize);
    if b + 1 < |Chunks(files, BatchSize)| {
      ChunkFull(files, BatchSize, b);
    }
  }

  lemma PlanFromStep(rule: IndexRule, batches: seq<seq<string>>, b: nat, g: nat)
    requires g > 0 && b < |batches|
    ensures PlanFrom(rule, batches, b, g) == BatchJobs(rule, b, batches[b], g) + PlanFrom(rule, batches, b + 1, g)
    ensures |PlanFrom(rule, batches, b, g)| == Quot(|batches[b]|, g) + |PlanFrom(rule, batches, b + 1, g)|
  {
  }

  /** `inputs` occupies positions `lo` up to `lo + |inputs|` of `files`. */
  predicate Window(inputs: seq<string>, files: seq<string>, lo: nat)
  {
    lo + |inputs| <= |files| && forall k | 0 <= k < |inputs| :: inputs[k] == files[lo + k]
  }

  /** Group `j` of a batch is the window of `g` clips at `g * j`, and its
      number follows the rule. */
  lemma BatchJobAt(rule: IndexRule, b: nat, c: seq<string>, g: nat, j: nat)
    requires g > 0 && j < |BatchJobs(rule, b, c, g)|
    ensures var job := BatchJobs(rule, b, c, g)[j];
      |job.inputs| == g && Window(job.inputs, c, Times(j, g)) && job.index == GroupIndex(rule, b, g, j)
  {
    var job := BatchJobs(rule, b, c, g)[j];
    assert Fits(j, g, |c|) && job == GroupAt(rule, b, g, c, j);
    GroupAtWindow(rule, b, g, c, j);
  }

  lemma GroupAtWindow(rule: IndexRule, b: nat, g: nat, files: seq<string>, j: nat)
    requires g > 0 && Fits(j, g, |files|)
    ensures var job := GroupAt(rule, b, g, files, j);
      |job.inputs| == g && Window(job.inputs, files, Times(j, g)) && job.index == GroupIndex(rule, b, g, j)
  {
    TimesShift(j, g);
  }

  lemma WindowCompose(x: seq<string>, c: seq<string>, files: seq<string>, a: nat, lo: nat)
    requires Window(x, c, a) && Window(c, files, lo)
    ensures Window(x, files, lo + a)
  {
    forall k | 0 <= k < |x| ensures x[k] == files[lo + a + k] {
      assert x[k] == c[a + k];
    }
  }

  /** Group `j` of a batch that starts at `lo` is the window of `g` clips
      starting at `lo + g * j`. */
  lemma BatchJobWindow(rule: IndexRule, b: nat, c: seq<string>, files: seq<string>, lo: nat, g: nat, j: nat)
    requires g > 0 && Window(c, files, lo) && j < |BatchJobs(rule, b, c, g)|
    ensures var job := BatchJobs(rule, b, c, g)[j];
      |job.inputs| == g && Window(job.inputs, files, lo + Times(j, g))
  {
    var job := BatchJobs(rule, b, c, g)[j];
    BatchJobAt(rule, b, c, g, j);
    WindowCompose(job.inputs, c, files, Times(j, g), lo);
  }

  /** Every job merges exactly `duration / 4` clips that sit next to each
      other in the processing order. */
  lemma {:induction false} PlanFromInputs(rule: IndexRule, files: seq<string>, g: nat, b: nat, i: nat)
    requires g > 0 && b <= |Chunks(files, BatchSize)|
    requires i < |PlanFrom(rule, Chunks(files, BatchSize), b, g)|
    ensures var job := PlanFrom(rule, Chunks(files, BatchSize), b, g)[i];
      |job.inputs| == g && exists lo: nat :: Window(job.inputs, files, lo)
    decreases |Chunks(files, BatchSize)| - b
  {
    var batches := Chunks(files, BatchSize);
    PlanFromStep(rule, batches, b, g);
    var here := BatchJobs(rule, b, batches[b], g);
    if i < |here| {
      BatchSpan(files, b);
      BatchJobWindow(rule, b, batches[b], files, Times(b, BatchSize), g, i);
    } else {
      PlanFromInputs(rule, files, g, b + 1, i - |here|);
    }
  }

  /** No more jobs than clips: every job uses clips of its own. */
  lemma {:induction false} PlanFromCount(rule: IndexRule, files: seq<string>, g: nat, b: nat)
    requires g > 0 && b <= |Chunks(files, BatchSize)|
    ensures var n := |PlanFrom(rule, Chunks(files, BatchSize), b, g)|;
      n == 0 || n + Times(b, BatchSize) <= |files|
    decreases |Chunks(files, BatchSize)| - b
  {
    var batches := Chunks(files, BatchSize);
    if b < |batches| {
      PlanFromStep(rule, batches, b, g);
      PlanFromCount(rule, files, g, b + 1);
      QuotAtMost(|batches[b]|, g);
      BatchSpan(files, b);
    }
  }

  /** Under the intended numbering the `i`-th job of the plan gets output
      number `i`: every batch but the last is full and holds `100 / g`
      groups, and the last batch's groups continue the count. */
  lemma {:induction false} IntendedAt(files: seq<string>, g: nat, b: nat, i: nat)
    requires g > 0 && b <= |Chunks(files, BatchSize)|
    requires i < |PlanFrom(Intended, Chunks(files, BatchSize), b, g)|
    ensures PlanFrom(Intended, Chunks(files, BatchSize), b, g)[i].index == Times(b, Quot(BatchSize, g)) + i
    decreases |Chunks(files, BatchSize)| - b
  {
    var batches := Chunks(files, BatchSize);
    assert b < |batches|;
    PlanFromStep(Intended, batches, b, g);
    var here := BatchJobs(Intended, b, batches[b], g);
    var later := PlanFrom(Intended, batches, b + 1, g);
    if i < |here| {
      BatchJobAt(Intended, b, batches[b], g, i);
      assert PlanFrom(Intended, batches, b, g)[i] == here[i];
    } else {
      assert PlanFrom(Intended, batches, b, g)[i] == later[i - |here|];
      assert b + 1 < |batches|;
      BatchSpan(files, b);
      assert |here| == Quot(BatchSize, g);
      IntendedAt(files, g, b + 1, i - |here|);
      TimesShift(b, Quot(BatchSize, g));
    }
  }

  lemma IntendedIsPosition(files: seq<string>, duration: nat, i: nat)
    requires i < |PlanJobs(Intended, files, duration)|
    ensures PlanJobs(Intended, files, duration)[i].index == i
  {
    IntendedAt(files, duration / 4, 0, i);
  }

  /** Under the numbering as written, group `g` of the first batch and
      group 0 of the second batch both get the number `g` whenever a full
      batch holds more than `g` groups (`g * g` below 100) and the second
      batch has a full group: two merges write the same file. */
  lemma AsWrittenCollision(files: seq<string>, duration: nat)
    requires 1 <= duration / 4 < BatchSize / (duration / 4)
    requires |files| >= BatchSize + duration / 4
    ensures var jobs, g := PlanJobs(AsWritten, files, duration), duration / 4;
      g < BatchSize / g < |jobs| && jobs[g].index == jobs[BatchSize / g].index == g
  {
    var g := duration / 4;
    QuotIsDiv(BatchSize, g);
    CollisionAt(files, g);
  }

  /** The smallest case: a duration of 4 makes groups of one clip, and
      with 101 clips the second merge (batch 0, group 1) and the last one
      (batch 1, group 0) both write output number 1. */
  lemma AsWrittenExample(files: seq<string>)
    requires |files| == 101
    ensures |PlanJobs(AsWritten, files, 4)| == 101
    ensures PlanJobs(AsWritten, files, 4)[1].index == 1
    ensures PlanJobs(AsWritten, files, 4)[100].index == 1
  {
    AsWrittenCollision(files, 4);
  }

  lemma CollisionAt(files: seq<string>, g: nat)
    requires 1 <= g < Quot(BatchSize, g) && |files| >= BatchSize + g
    ensures var jobs, k := PlanFrom(AsWritten, Chunks(files, BatchSize), 0, g), Quot(BatchSize, g);
      k < |jobs| && jobs[g].index == jobs[k].index == g
  {
    var batches := Chunks(files, BatchSize);
    var k := Quot(BatchSize, g);
    BatchSpan(files, 0);
    assert |batches| >= 2;
    BatchSpan(files, 1);
    PlanFromStep(AsWritten, batches, 0, g);
    PlanFromStep(AsWritten, batches, 1, g);
    var first := BatchJobs(AsWritten, 0, batches[0], g);
    var second := BatchJobs(AsWritten, 1, batches[1], g);
    var jobs := PlanFrom(AsWritten, batches, 0, g);
    assert |batches[1]| >= g;
    QuotPositive(|batches[1]|, g);
    BatchJobAt(AsWritten, 0, batches[0], g, g);
    BatchJobAt(AsWritten, 1, batches[1], g, 0);
    assert jobs[g] == first[g];
    assert jobs[k] == second[0];
  }

  lemma QuotPositive(len: nat, n: nat)
    requires 0 < n <= len
    ensures Quot(len, n) >= 1
  {
  }

  lemma {:induction false} TimesMonoRight(a: nat, m: nat, n: nat)
    requires m <= n
    ensures Times(a, m) <= Times(a, n)
  {
    if a > 0 {
      TimesMonoRight(a - 1, m, n);
    }
  }

  /** As written, the number of a job of batch `b` or later stays below the
      number of clips plus one batch: group `j` of batch `b` gets `b * g + j`,
      where `j` and `g` are at most 100 and batch `b` starts below the
      number of clips. */
  lemma {:induction false} AsWrittenBelow(files: seq<string>, g: nat, b: nat, i: nat)
    requires g > 0 && b <= |Chunks(files, BatchSize)|
    requires i < |PlanFrom(AsWritten, Chunks(files, BatchSize), b, g)|
    ensures PlanFrom(AsWritten, Chunks(files, BatchSize), b, g)[i].index < |files| + BatchSize
    decreases |Chunks(files, BatchSize)| - b
  {
    var batches := Chunks(files, BatchSize);
    PlanFromStep(AsWritten, batches, b, g);
    var here := BatchJobs(AsWritten, b, batches[b], g);
    if i < |here| {
      assert PlanFrom(AsWritten, batches, b, g)[i] == here[i];
      AsWrittenBatchBelow(files, g, b, i);
    } else {
      assert PlanFrom(AsWritten, batches, b, g)[i] == PlanFrom(AsWritten, batches, b + 1, g)[i - |here|];
      AsWrittenBelow(files, g, b + 1, i - |here|);
    }
  }

  lemma AsWrittenBatchBelow(files: seq<string>, g: nat, b: nat, j: nat)
    requires g > 0 && b < |Chunks(files, BatchSize)|
    requires j < |BatchJobs(AsWritten, b, Chunks(files, BatchSize)[b], g)|
    ensures BatchJobs(AsWritten, b, Chunks(files, BatchSize)[b], g)[j].index < |files| + BatchSize
  {
    var c := Chunks(files, BatchSize)[b];
    BatchJobAt(AsWritten, b, c, g, j);
    TimesShift(b, BatchSize);
    assert |c| <= BatchSize;
    QuotAtMost(|c|, g);
    assert Fits(j, g, |c|);
    TimesMono(1, j + 1, g);
    TimesMonoRight(b, g, BatchSize);
  }

  /** Under either rule every job's number is below the number of clips
      plus one batch (under the intended rule, below the number of jobs). */
  lemma PlanIndexBelow(rule: IndexRule, files: seq<string>, duration: nat, i: nat)
    requires i < |PlanJobs(rule, files, duration)|
    ensures PlanJobs(rule, files, duration)[i].index < |files| + BatchSize
  {
    match rule
    case Intended =>
      IntendedIsPosition(files, duration, i);
    case AsWritten =>
      AsWrittenBelow(files, duration / 4, 0, i);
  }
}
