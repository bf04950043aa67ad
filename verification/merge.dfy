/** `merge_videos`: one ffmpeg run that joins a group of clips, lays the
    audio file under them when there is one, and writes one output file.
    The processes themselves are oracles: what ffprobe reports for a file
    and how an ffmpeg run with a given argument list ends. */
module Merge {
  import opened Wrappers
  import opened Text
  import opened Probe
  import opened FfmpegArgs
  import FfmpegArgsMeaning

  /** How an ffmpeg run ended: it could not be started, waiting for it
      failed, or it exited with or without success. */
  datatype RunStatus = SpawnFailed(msg: string) | WaitFailed(msg: string) | Exited(success: bool)

  /** The world a merge runs in: whether the audio file exists and is
      non-empty, what ffprobe yields for a path, how ffmpeg ends for an
      argument list. */
  datatype Env = Env(hasAudio: bool, probe: string -> ProbeRun, ffmpeg: seq<string> -> RunStatus)

  const FfmpegFailed := "FFmpeg command failed"

  /** The error of an ffmpeg run, if any. */
  function RunOutcome(status: RunStatus): (r: Result<()>)
    ensures r.Ok? <==> status == Exited(true)
    ensures status.SpawnFailed? || status.WaitFailed? ==> r == Err(status.msg)
    ensures status == Exited(false) ==> r == Err(FfmpegFailed)
  {
    match status
    case SpawnFailed(msg) => Err(msg)
    case WaitFailed(msg) => Err(msg)
    case Exited(success) => if success then Ok(()) else Err(FfmpegFailed)
  }

  /** The ffmpeg argument list for a group, or the error of probing its
      first clip. A single clip is never probed; several clips take their
      canvas from the first clip's dimensions. */
  function MergeCommand(inputs: seq<string>, output: string, duration: nat, audio: string, env: Env): (r: Result<seq<string>>)
    requires |inputs| >= 1
    ensures |inputs| == 1 ==> r.Ok?
    ensures |inputs| > 1 ==> (r.Err? <==> GetVideoDimensions(env.probe(inputs[0])).Err?)
    ensures |inputs| > 1 && r.Err? ==> r.msg == GetVideoDimensions(env.probe(inputs[0])).msg
    ensures r.Ok? && IsPositional(output) ==>
      Decode(r.value).Some?
      && Decode(r.value).value.inputs == inputs + (if env.hasAudio then [audio] else [])
      && Decode(r.value).value.output == output
  {
    if |inputs| == 1 then
      var args := SingleArgs(inputs[0], audio, output, duration, env.hasAudio);
      assert IsPositional(output) ==> Decode(args).Some? && Decode(args).value.inputs == inputs + (if env.hasAudio then [audio] else [])
                                      && Decode(args).value.output == output by {
        if IsPositional(output) {
          FfmpegArgsMeaning.SingleArgsMeaning(inputs[0], audio, output, duration, env.hasAudio);
          assert [inputs[0]] == inputs;
        }
      }
      Ok(args)
    else
      match GetVideoDimensions(env.probe(inputs[0]))
      case Err(e) => Err(e)
      case Ok(info) =>
        var args := MultiArgs(inputs, audio, output, duration, env.hasAudio, info);
        assert IsPositional(output) ==> Decode(args).Some? && Decode(args).value.inputs == inputs + (if env.hasAudio then [audio] else [])
                                        && Decode(args).value.output == output by {
          if IsPositional(output) {
            FfmpegArgsMeaning.MultiArgsMeaning(inputs, audio, output, duration, env.hasAudio, info);
          }
        }
        Ok(args)
  }

  /** `merge_videos`: succeeds exactly when the argument list could be
      built and ffmpeg ran it to a successful exit. */
  function MergeVideos(inputs: seq<string>, output: string, duration: nat, audio: string, env: Env): (r: Result<()>)
    requires |inputs| >= 1
    ensures r.Ok? <==> MergeCommand(inputs, output, duration, audio, env).Ok?
                       && env.ffmpeg(MergeCommand(inputs, output, duration, audio, env).value) == Exited(true)
    ensures |inputs| > 1 && GetVideoDimensions(env.probe(inputs[0])).Err? ==>
      r == Err(GetVideoDimensions(env.probe(inputs[0])).msg)
  {
    match MergeCommand(inputs, output, duration, audio, env)
    case Err(e) => Err(e)
    case Ok(args) => RunOutcome(env.ffmpeg(args))
  }

  /** A one-clip merge succeeds or fails on the ffmpeg run alone: ffprobe
      plays no part. */
  lemma SingleIgnoresProbe(input: string, output: string, duration: nat, audio: string, env: Env, probe: string -> ProbeRun)
    ensures MergeVideos([input], output, duration, audio, env) == MergeVideos([input], output, duration, audio, env.(probe := probe))
  {
  }
}
