/** `start_editing`, the command the front end invokes: it prepares the
    output folder next to the input, then either merges every group of
    clips of a folder or re-encodes one `.mp4` file with the audio laid
    under it. The file system is the host: whether preparing the output
    folder failed, whether the input exists, and the folder listing. */
module Editing {
  import opened Wrappers
  import opened Text
  import opened Sorting
  import opened Merge
  import opened Discovery
  import opened Batch
  import opened Run
  import opened Probe

  /** The name of the output folder ("edited files"). */
  const OutputFolderName := "剪辑后文件"

  /** The error for a single input that is missing or not an `.mp4` file
      ("invalid video file"). */
  const InvalidVideo := "无效的视频文件"

  const SingleOutputName := "output.mp4"

  /** The arguments of `start_editing`. */
  datatype Request = Request(inputPath: string, audioPath: string, isFolder: bool, order: Option<string>, duration: nat)

  /** What the host's file system decides: the error of clearing or
      creating the output folder, if any; whether the single input file
      exists; the listing of the input folder or the error reading it; the
      random draws of the shuffle; and the external programs. */
  datatype Host = Host(dirError: Option<string>, inputExists: bool, listing: Result<seq<DirEntry>>, draws: nat -> nat, env: Env)

  /** `s` without its trailing `c`s. */
  function TrimEnd(s: string, c: char): (r: string)
    ensures |r| <= |s| && r == s[..|r|]
    ensures |r| == 0 || r[|r| - 1] != c
    ensures forall k | |r| <= k < |s| :: s[k] == c
    decreases |s|
  {
    if |s| > 0 && s[|s| - 1] == c then TrimEnd(s[..|s| - 1], c) else s
  }

  /** Rust's `Path::parent` on a Unix path (trailing separators ignored):
      none for the empty path and the root, the empty path for a single
      relative component, otherwise everything before the last component
      without its trailing separators, the root kept. */
  function Parent(path: string): Option<string>
  {
    var t := TrimEnd(path, '/');
    if |t| == 0 then None
    else match LastIndexOf(t, '/')
      case None => Some("")
      case Some(i) =>
        var p := TrimEnd(t[..i], '/');
        if |p| == 0 then Some("/") else Some(p)
  }

  /** The parent of a folder joined with a file name is that folder. */
  lemma ParentOfJoin(dir: string, name: string)
    requires |dir| > 0 && dir[|dir| - 1] != '/'
    requires |name| > 0 && '/' !in name
    ensures Parent(JoinPath(dir, name)) == Some(dir)
  {
    var path := dir + ['/'] + name;
    assert JoinPath(dir, name) == path;
    assert path[|path| - 1] == name[|name| - 1];
    assert TrimEnd(path, '/') == path;
    LastSeparator(dir, name, '/');
    assert path[..|dir|] == dir;
  }

  lemma {:induction false} LastSeparator(a: string, b: string, c: char)
    requires c !in b
    ensures LastIndexOf(a + [c] + b, c) == Some(|a|)
    decreases |b|
  {
    if |b| > 0 {
      var s := a + [c] + b;
      var b' := b[..|b| - 1];
      assert s[..|s| - 1] == a + [c] + b';
      assert s[|s| - 1] == b[|b| - 1];
      LastSeparator(a, b', c);
    }
  }

  /** A single relative component has the empty path as parent, and the
      root has none. */
  lemma ParentOfName(name: string)
    requires |name| > 0 && '/' !in name
    ensures Parent(name) == Some("") && Parent("/") == None
  {
    assert TrimEnd("/", '/') == TrimEnd("", '/');
  }

  /** `create_output_dir`: the output folder beside the input. */
  function OutputDir(inputPath: string): string
    requires Parent(inputPath).Some?
  {
    JoinPath(Parent(inputPath).value, OutputFolderName)
  }

  /** The merges of the folder branch, in dispatch order. */
  function FolderJobs(rule: IndexRule, req: Request, entries: seq<DirEntry>, draws: nat -> nat): seq<Job>
  {
    PlanJobs(rule, Arrange(VideoFiles(req.inputPath, entries), req.order, draws), req.duration)
  }

  /** What every merge of the request shares. */
  function SetupOf(req: Request, host: Host): Setup
    requires Parent(req.inputPath).Some?
  {
    Setup(OutputDir(req.inputPath), req.duration, req.audioPath, host.env)
  }

  /** The state after the folder branch's merges. */
  function FolderState(rule: IndexRule, req: Request, host: Host, entries: seq<DirEntry>): State
    requires Parent(req.inputPath).Some?
  {
    RunAll(FolderJobs(rule, req, entries, host.draws), SetupOf(req, host))
  }

  /** `start_editing`. A failure to prepare the output folder is returned
      first. A folder input whose listing cannot be read fails with that
      error; otherwise the folder branch always succeeds, with the sorted
      paths of the merges that succeeded. A single input must exist and
      have the extension `mp4`; it is merged into `output.mp4` and its
      merge error, if any, is returned. */
  function StartEditing(rule: IndexRule, req: Request, host: Host): (r: Result<seq<string>>)
    requires Parent(req.inputPath).Some?
    ensures host.dirError.Some? ==> r == Err(host.dirError.value)
    ensures host.dirError.None? && req.isFolder ==> (r.Err? <==> host.listing.Err?)
    ensures host.dirError.None? && req.isFolder && host.listing.Err? ==> r == Err(host.listing.msg)
    ensures r.Ok? && req.isFolder ==>
      Sorted(r.value) && forall p | p in r.value :: exists k :: p == OutputPath(OutputDir(req.inputPath), k)
    ensures host.dirError.None? && !req.isFolder ==>
      (r.Ok? <==> host.inputExists && PathExtension(req.inputPath) == Some("mp4")
                  && MergeVideos([req.inputPath], JoinPath(OutputDir(req.inputPath), SingleOutputName), req.duration, req.audioPath, host.env).Ok?)
    ensures host.dirError.None? && !req.isFolder && !host.inputExists ==> r == Err(InvalidVideo)
    ensures r.Ok? && !req.isFolder ==> r.value == [JoinPath(OutputDir(req.inputPath), SingleOutputName)]
  {
    var dir := OutputDir(req.inputPath);
    if host.dirError.Some? then Err(host.dirError.value)
    else if req.isFolder then
      match host.listing
      case Err(e) => Err(e)
      case Ok(entries) =>
        var jobs := FolderJobs(rule, req, entries, host.draws);
        var st := FolderState(rule, req, host, entries);
        RecordedBelow(jobs, Outcomes(jobs, SetupOf(req, host)), dir);
        CollectedPaths(st.outputs, IndexBound(jobs), dir);
        Ok(Collect(st.outputs, IndexBound(jobs)))
    else if !host.inputExists || PathExtension(req.inputPath) != Some("mp4") then Err(InvalidVideo)
    else
      var output := JoinPath(dir, SingleOutputName);
      match MergeVideos([req.inputPath], output, req.duration, req.audioPath, host.env)
      case Err(e) => Err(e)
      case Ok(_) => Ok([output])
  }

  /** Outputs recorded under their own numbers collect into output paths. */
  lemma CollectedPaths(outputs: map<nat, string>, bound: nat, dir: string)
    requires forall k | k in outputs :: k < bound && outputs[k] == OutputPath(dir, k)
    ensures forall p | p in Collect(outputs, bound) :: exists k :: p == OutputPath(dir, k)
  {
    forall p | p in Collect(outputs, bound) ensures exists k :: p == OutputPath(dir, k) {
      var k :| k in outputs && outputs[k] == p;
    }
  }

  /** The folder branch's result: the collected outputs of its merges. */
  lemma FolderResult(rule: IndexRule, req: Request, host: Host)
    requires Parent(req.inputPath).Some? && host.dirError.None? && req.isFolder && host.listing.Ok?
    ensures var jobs := FolderJobs(rule, req, host.listing.value, host.draws);
      var st := FolderState(rule, req, host, host.listing.value);
      (forall k | k in st.outputs :: k < IndexBound(jobs))
      && StartEditing(rule, req, host) == Ok(Collect(st.outputs, IndexBound(jobs)))
  {
    var jobs := FolderJobs(rule, req, host.listing.value, host.draws);
    RecordedBelow(jobs, Outcomes(jobs, SetupOf(req, host)), OutputDir(req.inputPath));
  }

  /** What the folder branch returns: the sorted output paths of exactly
      the merges that succeeded. */
  lemma FolderContents(rule: IndexRule, req: Request, host: Host)
    requires Parent(req.inputPath).Some? && host.dirError.None? && req.isFolder && host.listing.Ok?
    ensures var jobs := FolderJobs(rule, req, host.listing.value, host.draws);
      var outs := Outcomes(jobs, SetupOf(req, host));
      var r := StartEditing(rule, req, host);
      r.Ok? && Sorted(r.value)
      && forall p :: p in r.value <==> exists k | k in SuccessKeys(jobs, outs) :: p == OutputPath(OutputDir(req.inputPath), k)
  {
    FolderResult(rule, req, host);
  }

  /** Every merge of the folder branch that succeeded has its output path
      in the result. */
  lemma FolderHasSuccesses(rule: IndexRule, req: Request, host: Host, i: nat)
    requires Parent(req.inputPath).Some? && host.dirError.None? && req.isFolder && host.listing.Ok?
    requires var jobs := FolderJobs(rule, req, host.listing.value, host.draws);
      i < |jobs| && Outcomes(jobs, SetupOf(req, host))[i].Ok?
    ensures StartEditing(rule, req, host).Ok?
    ensures var jobs := FolderJobs(rule, req, host.listing.value, host.draws);
      OutputPath(OutputDir(req.inputPath), jobs[i].index) in StartEditing(rule, req, host).value
  {
    var jobs := FolderJobs(rule, req, host.listing.value, host.draws);
    var outs := Outcomes(jobs, SetupOf(req, host));
    var dir := OutputDir(req.inputPath);
    FolderResult(rule, req, host);
    CollectHasSuccess(jobs, outs, dir, i);
  }

  /** The number of clips a listing contributes is at most its length. */
  lemma ClipCount(req: Request, entries: seq<DirEntry>, draws: nat -> nat)
    ensures |Arrange(VideoFiles(req.inputPath, entries), req.order, draws)| == |VideoFiles(req.inputPath, entries)| <= |entries|
  {
    var files := VideoFiles(req.inputPath, entries);
    var r := Arrange(files, req.order, draws);
    assert |multiset(r)| == |multiset(files)|;
  }

  /** Under the intended numbering, the folder branch returns one distinct
      path per successful merge. */
  lemma IntendedFolderDistinct(req: Request, host: Host)
    requires Parent(req.inputPath).Some? && host.dirError.None? && req.isFolder
    requires host.listing.Ok? && |host.listing.value| <= U32Modulus
    ensures StartEditing(Intended, req, host).Ok?
    ensures var out := StartEditing(Intended, req, host).value;
      NoDuplicates(out) && |out| == FolderState(Intended, req, host, host.listing.value).processed
  {
    var entries := host.listing.value;
    var files := Arrange(VideoFiles(req.inputPath, entries), req.order, host.draws);
    ClipCount(req, entries, host.draws);
    var s := SetupOf(req, host);
    IntendedRunDistinct(files, s);
    var jobs := PlanJobs(Intended, files, req.duration);
    var st := RunAll(jobs, s);
    RecordedBelow(jobs, Outcomes(jobs, s), s.dir);
    CollectBound(st.outputs, |jobs|, IndexBound(jobs));
  }

  /** Under either numbering the folder branch returns no path twice while
      the numbers stay below 2^32: the paths are the values of a map keyed
      by number, and different numbers name different files. A number two
      merges share costs a path (`AsWrittenFolderLoses`), not a duplicate. */
  lemma FolderDistinct(rule: IndexRule, req: Request, host: Host)
    requires Parent(req.inputPath).Some? && host.dirError.None? && req.isFolder
    requires host.listing.Ok? && |host.listing.value| + BatchSize <= U32Modulus
    ensures StartEditing(rule, req, host).Ok? && NoDuplicates(StartEditing(rule, req, host).value)
  {
    var entries := host.listing.value;
    var files := Arrange(VideoFiles(req.inputPath, entries), req.order, host.draws);
    ClipCount(req, entries, host.draws);
    var jobs := FolderJobs(rule, req, entries, host.draws);
    forall i | 0 <= i < |jobs| ensures jobs[i].index < U32Modulus {
      PlanIndexBelow(rule, files, req.duration, i);
    }
    FolderResult(rule, req, host);
    RunDistinct(jobs, Outcomes(jobs, SetupOf(req, host)), OutputDir(req.inputPath));
  }

  /** Under the numbering as written, a folder with more than 100 + g
      clips, with `g * g` well below 100, where every merge succeeds,
      returns fewer paths than the merges it counts as processed. */
  lemma AsWrittenFolderLoses(req: Request, host: Host)
    requires Parent(req.inputPath).Some? && host.dirError.None? && req.isFolder && host.listing.Ok?
    requires 1 <= req.duration / 4 < BatchSize / (req.duration / 4)
    requires |VideoFiles(req.inputPath, host.listing.value)| >= BatchSize + req.duration / 4
    requires forall p :: GetVideoDimensions(host.env.probe(p)).Ok?
    requires forall args :: host.env.ffmpeg(args) == Exited(true)
    ensures StartEditing(AsWritten, req, host).Ok?
    ensures |StartEditing(AsWritten, req, host).value| < FolderState(AsWritten, req, host, host.listing.value).processed
  {
    var entries := host.listing.value;
    var files := Arrange(VideoFiles(req.inputPath, entries), req.order, host.draws);
    ClipCount(req, entries, host.draws);
    AsWrittenLosesOutputs(files, SetupOf(req, host));
    FolderResult(AsWritten, req, host);
  }
}
