# Video batch editing core, modelled in Dafny

The modelled program is a desktop tool. It cuts a folder of video clips into groups, merges each group with ffmpeg into one numbered output file, lays an optional audio track under it, and returns the sorted list of files it wrote. It can also re-encode a single `.mp4` file. Everything lives in the Tauri command module `src-tauri/src/commands.rs`. This project models that module's logic:

- `start_editing`: output folder preparation, the folder branch and the single-file branch;
- `process_batch`: groups of `duration / 4` clips inside dispatch batches of 100, the output numbering, and recording success or failure;
- `generate_output_path` and `create_output_dir`;
- `merge_videos`: both ffmpeg argument lists, the canvas choice and how a run ends;
- `get_video_dimensions`: choosing the first video stream from ffprobe's report;
- `parse_progress`: reading `time=HH:MM:SS.ff` from an ffmpeg log line, including Rust's `u32` and `f32` parsers and the saturating `as u32` cast.

External effects are parameters:

- what ffprobe reports for a path (`Merge.Env.probe`);
- how an ffmpeg run with a given argument list ends (`Merge.Env.ffmpeg`);
- whether the audio file exists and is non-empty;
- the folder listing, whether the single input exists, and whether preparing the output folder failed (`Editing.Host`);
- the random draws of the shuffle.

The files:

| file | module | what it holds |
|---|---|---|
| `wrappers.dfy` | `Wrappers` | `Option` and `Result` with `String` errors |
| `text.dfy` | `Text` | decimal digits, `to_string`, `parse::<u32>`, `split`/`join` on one character, `find`, path joining |
| `sorting.dfy` | `Sorting` | Rust's `String` order, `sort`, and the uniqueness of a sorted permutation |
| `progress.dfy` | `Progress`, `ProgressProofs` | `parse_progress` and its round trip against the timestamps ffmpeg prints |
| `probe.dfy` | `Probe` | the decoded JSON report and `get_video_dimensions` |
| `ffmpeg_args.dfy` | `FfmpegArgs`, `FfmpegArgsMeaning` | the argument lists, and a decoder that reads them back as inputs, options, switches and output |
| `merge.dfy` | `Merge` | `merge_videos` |
| `discovery.dfy` | `Discovery` | `Path::extension`, `Path::file_name`, the clip filter and the Fisher–Yates shuffle |
| `batch.dfy` | `Batch` | `chunks`, the grouping of `process_batch`, and the output numbering |
| `run.dfy` | `Run` | running the jobs into the shared state, and collecting and sorting the outputs |
| `editing.dfy` | `Editing` | `create_output_dir` and `start_editing` |

The output numbering is a parameter, `Batch.IndexRule`. It is either the rule as written, `batch_index * group_size + group_index`, or the evidently intended one, `batch_index * (100 / group_size) + group_index`. The two differ; see "## Findings".

Three behaviours of the code are easy to misread; the model follows the code in each:

- A duration below 4 gives a group size of 0, and `process_batch` then panics inside the thread pool (the division in `total_tasks`, then `chunks(0)`). Nothing rejects such a duration up front. `Batch.PlanJobs` therefore yields no jobs, and the folder branch returns an empty list.
- Output numbers are not consecutive across batches. With 250 clips and duration 100 (groups of 25), the groups get the numbers 0–3, 25–28 and 50–51, not 0–9.
- The folder branch returns one path per successful merge only under the intended numbering (`Editing.IntendedFolderDistinct`). As written, a number two merges share costs a path, so fewer paths come back than merges succeeded (`Editing.AsWrittenFolderLoses`). Under either numbering the result never holds a path twice, as long as the numbers stay below 2^32, because the paths are the values of a map keyed by number (`Editing.FolderDistinct`).

The counter `total_files` is set from the number of clips, not the number of merges. It only feeds progress percentages, and the model leaves it out.

## Model

| member | source | states |
|---|---|---|
| Progress.TimeToken | src-tauri/src/commands.rs:347-348 | there is a token exactly when the line contains `time=`; the token is space-free text that starts right after the first `time=`, contains no `time=`, and runs to the end of the line, to a space or to the next `time=` |
| Progress.WordAtUnique | src-tauri/src/commands.rs:347-348 | that description fixes the token: at a given start a line has at most one such word, so `TimeToken`'s contract determines its result |
| Progress.ParseSeconds | src-tauri/src/commands.rs:355-357 | `parse::<f32>` then `as u32`: a parsed value never exceeds `u32::MAX`, and a negative one becomes 0 |
| Progress.ParseClock | src-tauri/src/commands.rs:352-358 | the clock yields a value exactly when hours and minutes parse as `u32` and seconds as `f32`; the value is bounded by `u32::MAX * 3661` |
| Progress.ParseToken | src-tauri/src/commands.rs:350-358 | a token yields seconds exactly when it has three `:`-separated fields (so exactly two `:`), the first two reading as `u32` and the last as `f32` |
| Progress.ParseProgress | src-tauri/src/commands.rs:346-363 | there is a result exactly when the line has a `time=` token and that token has three fields, the first two reading as `u32` and the last as `f32`; so no marker, a wrong field count or a non-numeric field each give `None` |
| ProgressProofs.ParseProgressOfStamp | src-tauri/src/commands.rs:346-363 | round trip: a line whose first `time=` carries `HH:MM:SS.ff` (each field within `u32`) parses to `h*3600 + m*60 + s`, fraction dropped |
| ProgressProofs.TokenAfterMarker | src-tauri/src/commands.rs:347-348 | the token of `prefix time=tok tail` is `tok`, when the prefix has no `time=`, `tok` contains no space and no `time=`, and the tail starts with a space or is empty |
| ProgressProofs.SecondsParse | src-tauri/src/commands.rs:355 | `SS.ff` parses through `f32` and the cast back to the whole seconds |
| ProgressProofs.FromFields | src-tauri/src/commands.rs:350-357 | three parsed fields of the first token give `h*3600 + m*60 + s` |
| ProgressProofs.ExampleLine | src-tauri/src/commands.rs:346-363 | `frame=10 time=00:01:05.00 bitrate=...` yields 65 |
| Text.ParseU32RoundTrip | src-tauri/src/commands.rs:353-354 | `parse::<u32>` reads back any `u32` written in decimal, with any zero padding |
| Text.ParseU32Overflow | src-tauri/src/commands.rs:353-354 | a decimal value above `u32::MAX` does not parse |
| Text.SplitJoin | src-tauri/src/commands.rs:350 | splitting at a separator undoes joining pieces that do not contain it |
| Probe.IntField | src-tauri/src/commands.rs:407-412 | `get(key).and_then(as_i64)` yields exactly an integer field that fits in `i64` |
| Probe.ToI32 | src-tauri/src/commands.rs:409 | `as i32` keeps the value modulo 2^32 inside the `i32` range, and changes nothing already in range |
| Probe.StreamDimensions | src-tauri/src/commands.rs:406-415 | a missing width fails with the width message before the height is looked at; success carries both values cast to `i32` |
| Probe.SelectVideo | src-tauri/src/commands.rs:403-421 | the first stream whose `codec_type` is `video` alone decides the outcome; with no video stream the result is the no-video-stream error |
| Probe.VideoDimensions | src-tauri/src/commands.rs:403-421 | a report whose `streams` is missing or not an array gives the no-video-stream error; otherwise the result is a success exactly when the first stream whose `codec_type` is `video` has an integer width and height, and the success carries the two cast to `i32` |
| Probe.GetVideoDimensions | src-tauri/src/commands.rs:373-421 | a failed ffprobe run (spawn, UTF-8 or JSON) passes its message on unchanged; for a decoded report, the command succeeds exactly when the first video stream has an integer width and height, and returns the two cast to `i32` |
| Probe.FirstVideoDecides | src-tauri/src/commands.rs:405-416 | a later, complete video stream does not rescue a first video stream that lacks its width |
| Discovery.Extension | src-tauri/src/commands.rs:67 | `Path::extension`: none exactly for `..` or a name with no dot after its first character; otherwise the dot-free suffix after the last dot |
| Discovery.ExtensionOf | src-tauri/src/commands.rs:67 | `stem.ext` has extension `ext` |
| Discovery.HiddenFileHasNoExtension | src-tauri/src/commands.rs:67-68 | a hidden file such as `.mp4` has no extension, so it is not a clip |
| Discovery.FileNameOfJoin | src-tauri/src/commands.rs:65-67 | the file name of an entry path is the entry's name, whatever the folder |
| Discovery.VideoFilesMembers | src-tauri/src/commands.rs:61-72 | a path is collected exactly when it is the folder joined with the name of a regular-file entry whose extension is one of the six |
| Discovery.VideoFilesAppend | src-tauri/src/commands.rs:61-72 | filtering keeps the listing order |
| Discovery.Shuffle | src-tauri/src/commands.rs:80 | the shuffle is a permutation |
| Discovery.ShuffleLast | src-tauri/src/commands.rs:80 | the first Fisher–Yates step puts the drawn element last |
| Discovery.ShuffleDownStill | src-tauri/src/commands.rs:80 | draws that always pick the current position leave the list unchanged |
| Discovery.Arrange | src-tauri/src/commands.rs:78-81 | the clip order is a permutation of the listing, and is the listing itself unless the order is `random` |
| Sorting.Sort | src-tauri/src/commands.rs:113 | `sort` gives a sorted permutation |
| Sorting.SortedUnique | src-tauri/src/commands.rs:113 | two sorted permutations of the same list are equal, so the sorted result does not depend on the order it was gathered in |
| Text.NatToStringInjective | src-tauri/src/commands.rs:208 | different numbers print differently |
| Run.OutputPathDistinct | src-tauri/src/commands.rs:207-209 | different numbers below 2^32 give different output paths in one folder |
| Run.OutputPathWraps | src-tauri/src/commands.rs:167 | the `as u32` cast makes numbers 2^32 apart name the same file |
| FfmpegArgs.ChooseCanvas | src-tauri/src/commands.rs:260-264 | landscape 1920×1080 exactly when width exceeds height; portrait otherwise, squares included |
| FfmpegArgsMeaning.SingleArgsMeaning | src-tauri/src/commands.rs:229-247 | the single-file list reads back as: the clip, then the audio when present, as inputs; stream copy, or video copy with AAC 128k; the cap; `-shortest` only with audio; `-y`; the output last |
| FfmpegArgsMeaning.SingleOptionsValues | src-tauri/src/commands.rs:232-244 | single file: `-t` carries the cap exactly when it is non-zero, `-c copy` exactly without audio, `-c:a aac` exactly with audio |
| FfmpegArgsMeaning.MultiArgsMeaning | src-tauri/src/commands.rs:250-302 | the multi-file list reads back as: all clips in order, then the audio, as inputs; the filter graph and its options; `-shortest -y`; the output last |
| FfmpegArgsMeaning.MultiCapValues | src-tauri/src/commands.rs:286-288 | several files: `-t` carries the cap exactly when it is non-zero |
| FfmpegArgsMeaning.MultiMapValues | src-tauri/src/commands.rs:279-284 | several files: `[outv]` is always mapped, and the audio input, numbered after the clips, exactly when there is audio |
| FfmpegArgsMeaning.FilterComplexPieces | src-tauri/src/commands.rs:266-277 | cut at `;`, the filter graph is one scale-and-pad chain per input in input order, then the labels and the concatenation |
| Merge.RunOutcome | src-tauri/src/commands.rs:306-342 | a run succeeds exactly on a successful exit; spawn and wait errors pass their message on; any other exit gives `FFmpeg command failed` |
| Merge.MergeCommand | src-tauri/src/commands.rs:229-303 | one clip is never probed; several clips fail exactly when probing the first clip fails, with its message; a successful list names exactly the clips and the audio as inputs and the output file as output |
| Merge.MergeVideos | src-tauri/src/commands.rs:223-342 | a merge succeeds exactly when its list can be built and ffmpeg exits successfully on it; a probe failure is returned as is |
| Merge.SingleIgnoresProbe | src-tauri/src/commands.rs:229-247 | a one-clip merge does not depend on ffprobe |
| Batch.Chunks | src-tauri/src/commands.rs:84 | `chunks(n)`: piece `b` is the elements from `b*n` up to `(b+1)*n` or the end; none is empty, and together they cover the input |
| Batch.ChunkFull | src-tauri/src/commands.rs:163 | every piece but the last is full |
| Batch.BatchJobs | src-tauri/src/commands.rs:160-168 | a batch merges `len / g` groups, with group `j` being clips `j*g` up to `(j+1)*g`; the leftover clips are not merged |
| Batch.PlanJobs | src-tauri/src/commands.rs:83-101 | the folder's jobs are no more than its clips, and each merges exactly `duration / 4` clips |
| Batch.PlanJobsWindow | src-tauri/src/commands.rs:163-171 | every job merges clips that sit next to each other in the processing order |
| Batch.BatchJobAt | src-tauri/src/commands.rs:163-168 | group `j` of a batch merges the `g` clips starting at `j*g`, under the number its rule gives |
| Batch.PlanFromCount | src-tauri/src/commands.rs:160-164 | the jobs from batch `b` onwards fit in the clips from `100*b` onwards |
| Batch.IntendedIsPosition | src-tauri/src/commands.rs:165-168 | under the intended numbering, job `i` of the plan gets number `i` |
| Batch.AsWrittenCollision | src-tauri/src/commands.rs:165-168 | as written, when `g*g` is below 100 and a second batch has a full group, jobs `g` and `100/g` share number `g` |
| Batch.PlanIndexBelow | src-tauri/src/commands.rs:160-168 | under either rule every job's number is below the number of clips plus 100 |
| Batch.AsWrittenExample | src-tauri/src/commands.rs:165-168 | as written, with duration 4 and 101 clips the plan has 101 jobs and jobs 1 and 100 both get number 1 |
| Run.OutcomesAppend | src-tauri/src/commands.rs:170-178 | a merge's outcome depends on its own job alone: the outcomes of two lists of jobs run together are the outcomes of each list |
| Run.RunJobs | src-tauri/src/commands.rs:170-191 | after the run, the processed count grows by the number of successes; the recorded numbers are exactly the successful jobs' numbers, each mapped to its output path; failures are keyed by output path |
| Run.Collect | src-tauri/src/commands.rs:107-113 | the result is sorted, has one entry per recorded number, and holds exactly the recorded paths |
| Run.CollectAnyOrder | src-tauri/src/commands.rs:107-113 | every visiting order of the map gives the same sorted list |
| Run.CollectDistinct | src-tauri/src/commands.rs:107-113 | paths recorded under their own numbers below 2^32 collect into a list without duplicates |
| Run.RunDistinct | src-tauri/src/commands.rs:165-191 | whatever the numbering, a run whose numbers stay below 2^32 returns no path twice |
| Run.DistinctOutputs | src-tauri/src/commands.rs:179-184 | with pairwise different numbers below 2^32, the result has no duplicates and one path per success |
| Run.LosesOutputs | src-tauri/src/commands.rs:179-184 | two successes under one number leave fewer paths than successes counted |
| Run.SuccessKeysExact | src-tauri/src/commands.rs:180-183 | with pairwise different numbers, each success records a new number |
| Run.SuccessKeysHas | src-tauri/src/commands.rs:179-183 | every success records its number |
| Run.IntendedRunDistinct | src-tauri/src/commands.rs:160-191 | under the intended numbering, a folder of at most 2^32 clips yields one distinct path per success |
| Run.AsWrittenLosesOutputs | src-tauri/src/commands.rs:160-191 | as written, with a colliding plan and every merge succeeding, the run counts more successes than it returns paths |
| Editing.ParentOfJoin | src-tauri/src/commands.rs:198 | the parent of a folder joined with a name is the folder |
| Editing.ParentOfName | src-tauri/src/commands.rs:198 | a bare name has the empty path as parent, and the root has none |
| Editing.StartEditing | src-tauri/src/commands.rs:28-148 | a failure to prepare the output folder comes first; a folder fails exactly when its listing cannot be read, otherwise it returns sorted output paths (which ones is `Editing.FolderContents`); a single input succeeds exactly when it exists, ends in `.mp4` and its merge succeeds, and then returns `output.mp4` in the output folder |
| Editing.FolderContents | src-tauri/src/commands.rs:59-123 | a readable folder gives a sorted list whose paths are exactly the output paths of the numbers whose merge succeeded: no path of a failed or unrun merge is returned, and none is missing |
| Editing.FolderHasSuccesses | src-tauri/src/commands.rs:107-123 | every successful merge's output path is in the result |
| Editing.ClipCount | src-tauri/src/commands.rs:61-81 | the clips to process are as many as the video entries, at most the listing's length |
| Editing.IntendedFolderDistinct | src-tauri/src/commands.rs:59-123 | under the intended numbering, the folder branch returns one distinct path per successful merge |
| Editing.FolderDistinct | src-tauri/src/commands.rs:59-123 | under either numbering, a folder of at most `2^32 - 100` entries gives a result without duplicate paths |
| Editing.AsWrittenFolderLoses | src-tauri/src/commands.rs:59-123 | as written, a folder with at least `100 + g` clips and `g*g` below 100, where every merge succeeds, returns fewer paths than merges counted |

## Left out

- Progress events (`app.emit`) and the percentages computed for them (lines 221, 322-323, 336-337): they are UI updates with `f32` arithmetic, and the model assumes every `emit` succeeds. In the source each `emit` is followed by `.unwrap()`, so a failed emit panics. At line 221 the merge then ends before it runs ffmpeg. At line 337 it ends after `processed_files` has been advanced (line 335), so in the folder branch that merge is counted as processed but recorded neither as an output nor as a failure. Because `merge_videos` runs inside `process_batch`'s loop over groups (lines 163-192), such a panic also ends that pool task, so the later groups of the same 100-clip batch are never merged. The single-file command panics instead of returning. A failed emit at line 323 ends only the stderr reader thread. `total_tasks` and the total file counter are left out for the same reason.
- The stderr reader thread (lines 306-329): it only feeds progress events. `Progress.ParseProgress` is modelled as the pure function it calls.
- Concurrency: the thread pool runs batches in parallel. The model runs the jobs one after another in dispatch order. `Run.RunJobs` shows that the order matters only for which error message a doubly used output path keeps, and `Run.CollectAnyOrder` shows that the result does not depend on the map's iteration order.
- Process spawning, ffprobe's command line, UTF-8 decoding and JSON parsing: these are oracles. `Merge.Env.probe` yields a decoded report or the error message.
- File system effects (`remove_dir_all`, `create_dir_all`, `exists`, `metadata`, `read_dir`): these are oracles in `Editing.Host` and `Merge.Env.hasAudio`. Entry errors that `filter_map(Result::ok)` skips are simply absent from the listing.
- Non-UTF-8 file names (`to_str()` giving `None`): strings are sequences of Unicode scalar values.
- `Editing.Parent` follows Rust's `Path::parent` on Unix paths with trailing separators, but treats a `.` component after the first like any other name, where `Path::components` skips it: `/a/b/.` has parent `/a/b` here and `/a` in Rust, and `a/.` has parent `a` here and the empty path in Rust. Windows prefixes are not modelled.
- `Editing.StartEditing`: requires that the input path has a parent. The source panics on `unwrap()` otherwise.
- `Batch.PlanJobs`: with a duration below 4 the group size is 0 and `process_batch` panics. The model yields no jobs, which is what the caller observes once the thread pool absorbs the panic.
- `Progress.ParseClock`: computes `h*3600 + m*60 + s` without the `u32` overflow of the source (a panic in debug builds, wrap-around in release builds). Only its bound is stated.
- `Progress.ParseSeconds`: truncates the exact decimal value instead of first rounding it to the nearest `f32`, so seconds values that `f32` cannot represent exactly can differ by the rounding.
- `Discovery.Shuffle`: the `thread_rng` source is an oracle of draws. The model states which permutation a sequence of draws produces, not its distribution. The traversal order in `Discovery.Shuffle` and `Discovery.ShuffleLast` (last index first, each draw from `0..=i`) is that of `SliceRandom::shuffle` in rand 0.8; no manifest among the sources fixes the version.

## Findings

| source | as written | input that shows it | evidently intended | confidence | as-written member | corrected member |
|---|---|---|---|---|---|---|
| src-tauri/src/commands.rs:165-168 | group `j` of batch `b` is numbered `b * group_size + j`, although a batch of 100 clips holds `100 / group_size` groups | duration 4 (groups of one clip) and 101 clips: job 1 (batch 0, group 1) and job 100 (batch 1, group 0) both write `output_1.mp4`; both merges succeed, but only one path is returned | number group `j` of batch `b` as `b * (100 / group_size) + j`, its position in the whole plan, so that every job writes its own file | not executed | Batch.AsWrittenExample | Batch.IntendedIsPosition |
