/** Running the merge jobs of a folder and collecting their outputs. Every
    merge either records its output path under its number, counting one
    more processed group, or records its error under its output path; the
    result of the run is the sorted list of recorded output paths. */
module Run {
  import opened Wrappers
  import opened Text
  import opened Sorting
  import opened Merge
  import opened Batch
  import opened Probe

  /** The file name `output_<n>.mp4`, the number cast to `u32` first. */
  function OutputName(index: nat): string
  {
    "output_" + NatToString(index % U32Modulus) + ".mp4"
  }

  /** `generate_output_path`: the numbered file in the output folder. */
  function OutputPath(dir: string, index: nat): string
  {
    JoinPath(dir, OutputName(index))
  }

  /** Joining onto the same folder keeps different names apart. */
  lemma JoinPathInjective(dir: string, a: string, b: string)
    requires JoinPath(dir, a) == JoinPath(dir, b)
    ensures a == b
  {
    var p := if |dir| == 0 || dir[|dir| - 1] == '/' then dir else dir + "/";
    assert JoinPath(dir, a) == p + a && JoinPath(dir, b) == p + b;
    assert a == (p + a)[|p|..];
  }

  lemma OutputNameInjective(a: nat, b: nat)
    requires OutputName(a) == OutputName(b)
    ensures a % U32Modulus == b % U32Modulus
  {
    var sa, sb := NatToString(a % U32Modulus), NatToString(b % U32Modulus);
    assert |sa| == |sb| by {
      assert |OutputName(a)| == 7 + |sa| + 4;
      assert |OutputName(b)| == 7 + |sb| + 4;
    }
    assert sa == OutputName(a)[7 .. 7 + |sa|];
    assert sb == OutputName(b)[7 .. 7 + |sb|];
    NatToStringInjective(a % U32Modulus, b % U32Modulus);
  }

  /** Different numbers below 2^32 name different files. */
  lemma OutputPathDistinct(dir: string, a: nat, b: nat)
    requires a < U32Modulus && b < U32Modulus && a != b
    ensures OutputPath(dir, a) != OutputPath(dir, b)
  {
    if OutputPath(dir, a) == OutputPath(dir, b) {
      JoinPathInjective(dir, OutputName(a), OutputName(b));
      OutputNameInjective(a, b);
    }
  }

  /** Numbers 2^32 apart name the same file. */
  lemma OutputPathWraps(dir: string, a: nat)
    ensures OutputPath(dir, a + U32Modulus) == OutputPath(dir, a)
  {
    assert (a + U32Modulus) % U32Modulus == a % U32Modulus;
  }

  /** What every merge of a run shares: the output folder, the segment
      duration, the audio file and the external programs. */
  datatype Setup = Setup(dir: string, duration: nat, audio: string, env: Env)

  /** The shared `ProcessingState` after a run: successful merges counted,
      errors by output path, output paths by group number. */
  datatype State = State(processed: nat, failed: map<string, string>, outputs: map<nat, string>)

  const Fresh := State(0, map[], map[])

  predicate Runnable(jobs: seq<Job>)
  {
    forall i | 0 <= i < |jobs| :: |jobs[i].inputs| >= 1
  }

  /** The merge of one group into its numbered output. */
  function RunJob(job: Job, s: Setup): Result<()>
    requires |job.inputs| >= 1
  {
    MergeVideos(job.inputs, OutputPath(s.dir, job.index), s.duration, s.audio, s.env)
  }

  /** How each merge of a run ended, in job order. */
  function Outcomes(jobs: seq<Job>, s: Setup): (r: seq<Result<()>>)
    requires Runnable(jobs)
    ensures |r| == |jobs| && forall i | 0 <= i < |jobs| :: r[i] == RunJob(jobs[i], s)
  {
    seq(|jobs|, i requires 0 <= i < |jobs| => RunJob(jobs[i], s))
  }

  /** A merge's outcome depends on its own job alone: the outcomes of two
      lists of jobs run together are the outcomes of each list. */
  lemma OutcomesAppend(a: seq<Job>, b: seq<Job>, s: Setup)
    requires Runnable(a) && Runnable(b)
    ensures Runnable(a + b) && Outcomes(a + b, s) == Outcomes(a, s) + Outcomes(b, s)
  {
    var ab := a + b;
    assert Runnable(ab) by {
      forall i | 0 <= i < |ab| ensures |ab[i].inputs| >= 1 {
        if i >= |a| {
          assert ab[i] == b[i - |a|];
        }
      }
    }
    var whole, parts := Outcomes(ab, s), Outcomes(a, s) + Outcomes(b, s);
    forall i | 0 <= i < |ab| ensures whole[i] == parts[i] {
      if i < |a| {
        assert ab[i] == a[i];
      } else {
        assert ab[i] == b[i - |a|];
      }
    }
  }

  /** How many merges succeed. */
  function SuccessCount(outs: seq<Result<()>>): nat
  {
    if |outs| == 0 then 0 else (if outs[0].Ok? then 1 else 0) + SuccessCount(outs[1..])
  }

  /** The numbers of the jobs whose merge succeeds. */
  function SuccessKeys(jobs: seq<Job>, outs: seq<Result<()>>): set<nat>
    requires |outs| == |jobs|
  {
    if |jobs| == 0 then {}
    else (if outs[0].Ok? then {jobs[0].index} else {}) + SuccessKeys(jobs[1..], outs[1..])
  }

  /** The output paths of the jobs whose merge fails. */
  function FailedPaths(jobs: seq<Job>, outs: seq<Result<()>>, dir: string): set<string>
    requires |outs| == |jobs|
  {
    if |jobs| == 0 then {}
    else (if outs[0].Ok? then {} else {OutputPath(dir, jobs[0].index)}) + FailedPaths(jobs[1..], outs[1..], dir)
  }

  /** The two arms of the `match` in `process_batch` (the counter itself is
      advanced inside `merge_videos`, right before it returns success). */
  function Record(st: State, job: Job, dir: string, r: Result<()>): State
  {
    match r
    case Ok(_) => st.(processed := st.processed + 1, outputs := st.outputs[job.index := OutputPath(dir, job.index)])
    case Err(e) => st.(failed := st.failed[OutputPath(dir, job.index) := e])
  }

  /** The jobs recorded one after the other, each with how its merge ended.
      The merges of different jobs do not see each other, and an output
      recorded twice is recorded with the same path, so only which error
      message is kept for a path depends on the order of the runs. */
  function RunJobs(jobs: seq<Job>, outs: seq<Result<()>>, dir: string, st: State): (r: State)
    requires |outs| == |jobs|
    ensures r.processed == st.processed + SuccessCount(outs)
    ensures r.outputs.Keys == st.outputs.Keys + SuccessKeys(jobs, outs)
    ensures r.failed.Keys == st.failed.Keys + FailedPaths(jobs, outs, dir)
    ensures forall k | k in r.outputs :: r.outputs[k] == if k in SuccessKeys(jobs, outs) then OutputPath(dir, k) else st.outputs[k]
    decreases |jobs|
  {
    if |jobs| == 0 then st
    else RunJobs(jobs[1..], outs[1..], dir, Record(st, jobs[0], dir, outs[0]))
  }

  /** The state after the folder's merges, from the fresh state. */
  function RunAll(jobs: seq<Job>, s: Setup): State
    requires Runnable(jobs)
  {
    RunJobs(jobs, Outcomes(jobs, s), s.dir, Fresh)
  }

  /** No number occurs twice. */
  predicate Distinct(s: seq<nat>)
  {
    forall i, j | 0 <= i < j < |s| :: s[i] != s[j]
  }

  /** The keys of `m` below `n`, ascending. */
  function KeysBelow(m: map<nat, string>, n: nat): (r: seq<nat>)
    ensures AllIn(r, m)
    ensures forall i | 0 <= i < |r| :: r[i] < n
    ensures forall k | k in m && k < n :: k in r
    ensures forall i, j | 0 <= i < j < |r| :: r[i] < r[j]
  {
    if n == 0 then [] else KeysBelow(m, n - 1) + (if n - 1 in m then [n - 1] else [])
  }

  predicate AllIn(keys: seq<nat>, m: map<nat, string>)
  {
    forall i | 0 <= i < |keys| :: keys[i] in m
  }

  /** The values of `m` at `keys`, in that order. */
  function Values(m: map<nat, string>, keys: seq<nat>): (r: seq<string>)
    requires AllIn(keys, m)
    ensures |r| == |keys|
    ensures forall i | 0 <= i < |keys| :: r[i] == m[keys[i]]
  {
    if |keys| == 0 then [] else [m[keys[0]]] + Values(m, keys[1..])
  }

  /** The sorted output paths: the map's values in some order, then
      `sort`. The map is visited in ascending key order here; `CollectAnyOrder`
      shows that every other visiting order gives the same list. */
  function Collect(m: map<nat, string>, bound: nat): (r: seq<string>)
    requires forall k | k in m :: k < bound
    ensures Sorted(r) && |r| == |m|
    ensures forall p :: p in r <==> exists k | k in m :: m[k] == p
  {
    var vals := Values(m, KeysBelow(m, bound));
    AscendingValues(m, bound);
    SortKeepsMembers(vals);
    Sort(vals)
  }

  lemma AscendingValues(m: map<nat, string>, bound: nat)
    requires forall k | k in m :: k < bound
    ensures var vals := Values(m, KeysBelow(m, bound));
      |vals| == |m| && forall p :: p in vals <==> exists k | k in m :: m[k] == p
  {
    AscendingCount(m, bound);
    forall p ensures p in Values(m, KeysBelow(m, bound)) <==> exists k | k in m :: m[k] == p {
      AscendingMember(m, bound, p);
    }
  }

  lemma AscendingCount(m: map<nat, string>, bound: nat)
    requires forall k | k in m :: k < bound
    ensures |KeysBelow(m, bound)| == |m|
  {
    var keys := KeysBelow(m, bound);
    assert Distinct(keys);
    DistinctCard(keys);
    assert SetOf(keys) == m.Keys by {
      forall k | k in m ensures k in SetOf(keys) {
        assert k in keys;
      }
    }
  }

  lemma AscendingMember(m: map<nat, string>, bound: nat, p: string)
    requires forall k | k in m :: k < bound
    ensures p in Values(m, KeysBelow(m, bound)) <==> exists k | k in m :: m[k] == p
  {
    var keys := KeysBelow(m, bound);
    var vals := Values(m, keys);
    if exists k | k in m :: m[k] == p {
      var k :| k in m && m[k] == p;
      assert k in keys;
      var i :| 0 <= i < |keys| && keys[i] == k;
      assert vals[i] == p;
    }
    if p in vals {
      var i :| 0 <= i < |vals| && vals[i] == p;
      assert keys[i] in m && m[keys[i]] == p;
    }
  }

  /** Sorting keeps the length and the elements. */
  lemma SortKeepsMembers(a: seq<string>)
    ensures |Sort(a)| == |a| && forall p :: p in Sort(a) <==> p in a
  {
    assert |multiset(Sort(a))| == |multiset(a)|;
    forall p ensures p in Sort(a) <==> p in a {
      assert p in Sort(a) <==> p in multiset(Sort(a));
    }
  }

  function SetOf(s: seq<nat>): set<nat>
  {
    set x | x in s
  }

  /** A list without repetitions has as many elements as its set. */
  lemma {:induction false} DistinctCard(s: seq<nat>)
    requires Distinct(s)
    ensures |SetOf(s)| == |s|
  {
    if |s| > 0 {
      var t := s[1..];
      assert Distinct(t) by {
        forall i, j | 0 <= i < j < |t| ensures t[i] != t[j] {
          assert t[i] == s[i + 1] && t[j] == s[j + 1];
        }
      }
      DistinctCard(t);
      assert SetOf(s) == {s[0]} + SetOf(t);
      assert s[0] !in SetOf(t) by {
        forall j | 0 <= j < |t| ensures t[j] != s[0] {
          assert t[j] == s[j + 1];
        }
      }
    }
  }

  /** In a list without repetitions every number occurs once or not at all. */
  lemma {:induction false} DistinctCount(s: seq<nat>, x: nat)
    requires Distinct(s)
    ensures multiset(s)[x] == if x in s then 1 else 0
  {
    if |s| > 0 {
      var t := s[1..];
      assert Distinct(t) by {
        forall i, j | 0 <= i < j < |t| ensures t[i] != t[j] {
          assert t[i] == s[i + 1] && t[j] == s[j + 1];
        }
      }
      DistinctCount(t, x);
      assert s == [s[0]] + t;
      assert s[0] !in t by {
        forall j | 0 <= j < |t| ensures t[j] != s[0] {
          assert t[j] == s[j + 1];
        }
      }
    }
  }

  /** Two lists without repetitions and with the same elements are
      permutations of each other. */
  lemma DistinctMultiset(a: seq<nat>, b: seq<nat>)
    requires Distinct(a) && Distinct(b) && SetOf(a) == SetOf(b)
    ensures multiset(a) == multiset(b)
  {
    forall x ensures multiset(a)[x] == multiset(b)[x] {
      DistinctCount(a, x);
      DistinctCount(b, x);
      assert x in a <==> x in SetOf(a);
      assert x in b <==> x in SetOf(b);
    }
  }

  /** Looking up a permutation of the keys gives a permutation of the values. */
  lemma {:induction false} ValuesPerm(m: map<nat, string>, a: seq<nat>, b: seq<nat>)
    requires AllIn(a, m) && AllIn(b, m)
    requires multiset(a) == multiset(b)
    ensures multiset(Values(m, a)) == multiset(Values(m, b))
    decreases |a|
  {
    if |a| == 0 {
      assert |multiset(b)| == 0;
    } else {
      var i := FindIn(b, a[0]);
      var rest := b[..i] + b[i + 1..];
      assert multiset(a[1..]) == multiset(rest) by {
        RemoveAt(b, i);
        assert a == [a[0]] + a[1..];
      }
      ValuesDrop(m, b, i);
      assert AllIn(a[1..], m);
      ValuesPerm(m, a[1..], rest);
      ValuesPermStep(m, a, b, i);
    }
  }

  /** Matching the first key of `a` with key `i` of `b` extends a
      permutation of the remaining values to one of all of them. */
  lemma ValuesPermStep(m: map<nat, string>, a: seq<nat>, b: seq<nat>, i: nat)
    requires AllIn(a, m) && AllIn(b, m) && |a| > 0 && i < |b| && b[i] == a[0]
    requires AllIn(b[..i] + b[i + 1..], m)
    requires multiset(Values(m, a[1..])) == multiset(Values(m, b[..i] + b[i + 1..]))
    ensures multiset(Values(m, a)) == multiset(Values(m, b))
  {
    var y := m[a[0]];
    var p, q, t := multiset(Values(m, a)), multiset(Values(m, b)), multiset(Values(m, a[1..]));
    assert t == q - multiset{y} && y in q by {
      ValuesRemoveAt(m, b, i);
    }
    assert p == multiset{y} + t by {
      assert Values(m, a) == [y] + Values(m, a[1..]);
    }
    Reassemble(p, q, t, y);
  }

  lemma Reassemble<T>(p: multiset<T>, q: multiset<T>, t: multiset<T>, y: T)
    requires p == multiset{y} + t && t == q - multiset{y} && y in q
    ensures p == q
  {
    PutBack(q, y);
  }

  lemma PutBack<T>(p: multiset<T>, y: T)
    requires y in p
    ensures multiset{y} + (p - multiset{y}) == p
  {
  }

  lemma FindIn<T>(b: seq<T>, x: T) returns (i: nat)
    requires x in multiset(b)
    ensures i < |b| && b[i] == x
  {
    assert x in b;
    i :| 0 <= i < |b| && b[i] == x;
  }

  lemma RemoveAt<T>(s: seq<T>, i: nat)
    requires i < |s|
    ensures multiset(s[..i] + s[i + 1..]) == multiset(s) - multiset{s[i]}
  {
    assert s == s[..i] + [s[i]] + s[i + 1..];
  }

  /** Dropping a key drops its value. */
  lemma ValuesRemoveAt(m: map<nat, string>, b: seq<nat>, i: nat)
    requires AllIn(b, m) && i < |b|
    ensures AllIn(b[..i] + b[i + 1..], m)
    ensures m[b[i]] in multiset(Values(m, b))
    ensures multiset(Values(m, b[..i] + b[i + 1..])) == multiset(Values(m, b)) - multiset{m[b[i]]}
  {
    var vs := Values(m, b);
    ValuesDrop(m, b, i);
    RemoveAt(vs, i);
    assert vs[i] == m[b[i]];
  }

  lemma ValuesDrop(m: map<nat, string>, b: seq<nat>, i: nat)
    requires AllIn(b, m) && i < |b|
    ensures AllIn(b[..i] + b[i + 1..], m)
    ensures Values(m, b[..i] + b[i + 1..]) == Values(m, b)[..i] + Values(m, b)[i + 1..]
  {
    var rest := b[..i] + b[i + 1..];
    assert forall k | 0 <= k < |rest| :: rest[k] == if k < i then b[k] else b[k + 1];
    var vs, vr := Values(m, b), Values(m, rest);
    assert |vr| == |vs[..i] + vs[i + 1..]|;
    forall k | 0 <= k < |vr| ensures vr[k] == (vs[..i] + vs[i + 1..])[k] {
      if k < i { assert rest[k] == b[k]; } else { assert rest[k] == b[k + 1]; }
    }
  }

  /** `output_files.sort()` makes the order in which the map was visited
      irrelevant: any listing of its keys without repetitions yields the
      same sorted list. */
  lemma CollectAnyOrder(m: map<nat, string>, bound: nat, keys: seq<nat>)
    requires forall k | k in m :: k < bound
    requires Distinct(keys) && SetOf(keys) == m.Keys
    ensures AllIn(keys, m)
    ensures Sort(Values(m, keys)) == Collect(m, bound)
  {
    assert AllIn(keys, m) by {
      forall i | 0 <= i < |keys| ensures keys[i] in m {
        assert keys[i] in SetOf(keys);
      }
    }
    var asc := KeysBelow(m, bound);
    assert Distinct(asc);
    DistinctMultiset(keys, asc);
    ValuesPerm(m, keys, asc);
    SortedUnique(Sort(Values(m, keys)), Sort(Values(m, asc)));
  }

  /** Any bound above every key collects the same list. */
  lemma CollectBound(m: map<nat, string>, b1: nat, b2: nat)
    requires forall k | k in m :: k < b1
    requires forall k | k in m :: k < b2
    ensures Collect(m, b1) == Collect(m, b2)
  {
    var keys := KeysBelow(m, b1);
    assert Distinct(keys);
    assert SetOf(keys) == m.Keys by {
      forall k | k in m ensures k in SetOf(keys) {
        assert k in keys;
      }
    }
    CollectAnyOrder(m, b2, keys);
  }

  /** No two jobs write under the same number. */
  predicate DistinctIndices(jobs: seq<Job>)
  {
    forall i, j | 0 <= i < j < |jobs| :: jobs[i].index != jobs[j].index
  }

  /** A number above every job's number. */
  function IndexBound(jobs: seq<Job>): (r: nat)
    ensures forall i | 0 <= i < |jobs| :: jobs[i].index < r
  {
    if |jobs| == 0 then 0
    else
      var rest := IndexBound(jobs[1..]);
      assert forall i | 1 <= i < |jobs| :: jobs[i] == jobs[1..][i - 1];
      if jobs[0].index + 1 <= rest then rest else jobs[0].index + 1
  }

  /** Numbers a run records are numbers of its jobs. */
  lemma {:induction false} SuccessKeysOfJobs(jobs: seq<Job>, outs: seq<Result<()>>, k: nat)
    requires |outs| == |jobs| && k in SuccessKeys(jobs, outs)
    ensures exists i | 0 <= i < |jobs| :: jobs[i].index == k
  {
    if jobs[0].index != k {
      SuccessKeysOfJobs(jobs[1..], outs[1..], k);
      var i :| 0 <= i < |jobs| - 1 && jobs[1..][i].index == k;
      assert jobs[i + 1].index == k;
    }
  }

  /** A number no job carries is never recorded. */
  lemma {:induction false} SuccessKeysAvoid(jobs: seq<Job>, outs: seq<Result<()>>, k: nat)
    requires |outs| == |jobs| && forall i | 0 <= i < |jobs| :: jobs[i].index != k
    ensures k !in SuccessKeys(jobs, outs)
  {
    if |jobs| > 0 {
      assert forall i | 0 <= i < |jobs| - 1 :: jobs[1..][i] == jobs[i + 1];
      SuccessKeysAvoid(jobs[1..], outs[1..], k);
    }
  }

  /** Each success records at most one new number. */
  lemma {:induction false} SuccessKeysAtMost(jobs: seq<Job>, outs: seq<Result<()>>)
    requires |outs| == |jobs|
    ensures |SuccessKeys(jobs, outs)| <= SuccessCount(outs)
  {
    if |jobs| > 0 {
      SuccessKeysAtMost(jobs[1..], outs[1..]);
    }
  }

  /** With pairwise different numbers, each success records a number of
      its own. */
  lemma {:induction false} SuccessKeysExact(jobs: seq<Job>, outs: seq<Result<()>>)
    requires |outs| == |jobs| && DistinctIndices(jobs)
    ensures |SuccessKeys(jobs, outs)| == SuccessCount(outs)
  {
    if |jobs| > 0 {
      var rest := jobs[1..];
      assert forall i | 0 <= i < |rest| :: rest[i] == jobs[i + 1];
      assert DistinctIndices(rest);
      SuccessKeysExact(rest, outs[1..]);
      SuccessKeysAvoid(rest, outs[1..], jobs[0].index);
    }
  }

  /** Two successes under one number record it once: fewer numbers than
      successes. */
  lemma {:induction false} SuccessKeysCollide(jobs: seq<Job>, outs: seq<Result<()>>, i: nat, j: nat)
    requires |outs| == |jobs| && i < j < |jobs|
    requires jobs[i].index == jobs[j].index && outs[i].Ok? && outs[j].Ok?
    ensures |SuccessKeys(jobs, outs)| < SuccessCount(outs)
  {
    var rest, more := jobs[1..], outs[1..];
    assert rest[j - 1] == jobs[j] && more[j - 1] == outs[j];
    if i == 0 {
      SuccessKeysAtMost(rest, more);
      SuccessKeysHas(rest, more, j - 1);
      assert SuccessKeys(jobs, outs) == SuccessKeys(rest, more);
    } else {
      assert rest[i - 1] == jobs[i] && more[i - 1] == outs[i];
      SuccessKeysCollide(rest, more, i - 1, j - 1);
    }
  }

  /** A success records its number. */
  lemma {:induction false} SuccessKeysHas(jobs: seq<Job>, outs: seq<Result<()>>, i: nat)
    requires |outs| == |jobs| && i < |jobs| && outs[i].Ok?
    ensures jobs[i].index in SuccessKeys(jobs, outs)
  {
    if i > 0 {
      assert jobs[1..][i - 1] == jobs[i] && outs[1..][i - 1] == outs[i];
      SuccessKeysHas(jobs[1..], outs[1..], i - 1);
    }
  }

  /** When every merge succeeds, every merge is counted. */
  lemma {:induction false} CountAll(outs: seq<Result<()>>)
    requires forall i | 0 <= i < |outs| :: outs[i].Ok?
    ensures SuccessCount(outs) == |outs|
  {
    if |outs| > 0 {
      assert forall i | 0 <= i < |outs| - 1 :: outs[1..][i] == outs[i + 1];
      CountAll(outs[1..]);
    }
  }

  /** When ffprobe and ffmpeg never fail, every merge succeeds. */
  lemma AllSucceed(jobs: seq<Job>, s: Setup)
    requires Runnable(jobs)
    requires forall p :: GetVideoDimensions(s.env.probe(p)).Ok?
    requires forall args :: s.env.ffmpeg(args) == Exited(true)
    ensures forall i | 0 <= i < |jobs| :: Outcomes(jobs, s)[i].Ok?
  {
    forall i | 0 <= i < |jobs| ensures Outcomes(jobs, s)[i].Ok? {
      assert RunJob(jobs[i], s).Ok?;
    }
  }

  /** Every number a run from the fresh state records is a number of one
      of its jobs, hence below their bound. */
  lemma RecordedBelow(jobs: seq<Job>, outs: seq<Result<()>>, dir: string)
    requires |outs| == |jobs|
    ensures forall k | k in RunJobs(jobs, outs, dir, Fresh).outputs :: k < IndexBound(jobs)
  {
    forall k | k in RunJobs(jobs, outs, dir, Fresh).outputs ensures k < IndexBound(jobs) {
      SuccessKeysOfJobs(jobs, outs, k);
    }
  }

  /** Output paths recorded under their own numbers below 2^32 are pairwise
      different, so the collected list holds no path twice. */
  lemma CollectDistinct(m: map<nat, string>, dir: string, bound: nat)
    requires forall k | k in m :: k < bound && k < U32Modulus && m[k] == OutputPath(dir, k)
    ensures NoDuplicates(Collect(m, bound))
  {
    var keys := KeysBelow(m, bound);
    var vals := Values(m, keys);
    assert NoDuplicates(vals) by {
      forall i, j | 0 <= i < j < |vals| ensures vals[i] != vals[j] {
        assert keys[i] < keys[j];
        assert vals[i] == OutputPath(dir, keys[i]) && vals[j] == OutputPath(dir, keys[j]);
        OutputPathDistinct(dir, keys[i], keys[j]);
      }
    }
    NoDuplicatesByMultiset(vals, Sort(vals));
  }

  /** The output path of every successful merge is collected. */
  lemma CollectHasSuccess(jobs: seq<Job>, outs: seq<Result<()>>, dir: string, i: nat)
    requires |outs| == |jobs| && i < |jobs| && outs[i].Ok?
    ensures var st := RunJobs(jobs, outs, dir, Fresh);
      (forall k | k in st.outputs :: k < IndexBound(jobs))
      && OutputPath(dir, jobs[i].index) in Collect(st.outputs, IndexBound(jobs))
  {
    RecordedBelow(jobs, outs, dir);
    SuccessKeysHas(jobs, outs, i);
    var st := RunJobs(jobs, outs, dir, Fresh);
    var k := jobs[i].index;
    assert k in st.outputs && st.outputs[k] == OutputPath(dir, k);
  }

  /** Whatever the numbering, a run from the fresh state whose numbers stay
      below 2^32 returns no output path twice: a number two merges share is
      recorded once, under one key of the map. */
  lemma RunDistinct(jobs: seq<Job>, outs: seq<Result<()>>, dir: string)
    requires |outs| == |jobs| && forall i | 0 <= i < |jobs| :: jobs[i].index < U32Modulus
    ensures var st := RunJobs(jobs, outs, dir, Fresh);
      (forall k | k in st.outputs :: k < IndexBound(jobs)) && NoDuplicates(Collect(st.outputs, IndexBound(jobs)))
  {
    var st := RunJobs(jobs, outs, dir, Fresh);
    forall k | k in st.outputs ensures k < IndexBound(jobs) && k < U32Modulus {
      SuccessKeysOfJobs(jobs, outs, k);
    }
    CollectDistinct(st.outputs, dir, IndexBound(jobs));
  }

  /** When moreover no two jobs share a number, the run returns exactly one
      path per successful merge. */
  lemma DistinctOutputs(jobs: seq<Job>, outs: seq<Result<()>>, dir: string, bound: nat)
    requires |outs| == |jobs| && DistinctIndices(jobs)
    requires bound <= U32Modulus && forall i | 0 <= i < |jobs| :: jobs[i].index < bound
    ensures var st := RunJobs(jobs, outs, dir, Fresh);
      (forall k | k in st.outputs :: k < bound)
      && NoDuplicates(Collect(st.outputs, bound)) && |Collect(st.outputs, bound)| == st.processed
  {
    var st := RunJobs(jobs, outs, dir, Fresh);
    SuccessKeysExact(jobs, outs);
    forall k | k in st.outputs ensures k < bound {
      SuccessKeysOfJobs(jobs, outs, k);
    }
    CollectDistinct(st.outputs, dir, bound);
  }

  /** Two successful merges under one number leave one output path fewer
      than merges counted. */
  lemma LosesOutputs(jobs: seq<Job>, outs: seq<Result<()>>, dir: string, i: nat, j: nat)
    requires |outs| == |jobs| && i < j < |jobs| && jobs[i].index == jobs[j].index
    requires forall k | 0 <= k < |outs| :: outs[k].Ok?
    ensures var st := RunJobs(jobs, outs, dir, Fresh);
      (forall k | k in st.outputs :: k < IndexBound(jobs))
      && st.processed == |jobs| && |Collect(st.outputs, IndexBound(jobs))| < st.processed
  {
    var st := RunJobs(jobs, outs, dir, Fresh);
    RecordedBelow(jobs, outs, dir);
    CountAll(outs);
    SuccessKeysCollide(jobs, outs, i, j);
    FreshRun(jobs, outs, dir);
    CollectCount(st.outputs, IndexBound(jobs));
  }

  /** From the fresh state, the run records exactly the successful numbers
      and counts exactly the successes. */
  lemma FreshRun(jobs: seq<Job>, outs: seq<Result<()>>, dir: string)
    requires |outs| == |jobs|
    ensures RunJobs(jobs, outs, dir, Fresh).outputs.Keys == SuccessKeys(jobs, outs)
    ensures RunJobs(jobs, outs, dir, Fresh).processed == SuccessCount(outs)
  {
  }

  lemma CollectCount(m: map<nat, string>, bound: nat)
    requires forall k | k in m :: k < bound
    ensures |Collect(m, bound)| == |m.Keys|
  {
  }

  /** Under the intended numbering, a folder of at most 2^32 clips yields
      one distinct output path per successful merge. */
  lemma IntendedRunDistinct(files: seq<string>, s: Setup)
    requires |files| <= U32Modulus
    ensures var jobs := PlanJobs(Intended, files, s.duration);
      Runnable(jobs) && (var st := RunAll(jobs, s);
      (forall k | k in st.outputs :: k < |jobs|)
      && NoDuplicates(Collect(st.outputs, |jobs|)) && |Collect(st.outputs, |jobs|)| == st.processed)
  {
    var jobs := PlanJobs(Intended, files, s.duration);
    forall i | 0 <= i < |jobs| ensures jobs[i].index == i {
      IntendedIsPosition(files, s.duration, i);
    }
    DistinctOutputs(jobs, Outcomes(jobs, s), s.dir, |jobs|);
  }

  /** Under the numbering as written, when group `g` of the first batch
      and group 0 of the second share a number (see `AsWrittenCollision`)
      and every merge succeeds, the run counts more processed groups than
      it returns output paths: one output file was written twice. */
  lemma AsWrittenLosesOutputs(files: seq<string>, s: Setup)
    requires 1 <= s.duration / 4 < BatchSize / (s.duration / 4)
    requires |files| >= BatchSize + s.duration / 4
    requires forall p :: GetVideoDimensions(s.env.probe(p)).Ok?
    requires forall args :: s.env.ffmpeg(args) == Exited(true)
    ensures var jobs := PlanJobs(AsWritten, files, s.duration);
      Runnable(jobs) && (var st := RunAll(jobs, s);
      (forall k | k in st.outputs :: k < IndexBound(jobs))
      && st.processed == |jobs| && |Collect(st.outputs, IndexBound(jobs))| < st.processed)
  {
    var jobs := PlanJobs(AsWritten, files, s.duration);
    var g := s.duration / 4;
    AsWrittenCollision(files, s.duration);
    AllSucceed(jobs, s);
    LosesOutputs(jobs, Outcomes(jobs, s), s.dir, g, BatchSize / g);
  }
}
