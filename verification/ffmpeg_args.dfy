/** The argument lists `merge_videos` hands to ffmpeg, and a reading of such
    lists back into the command they describe. */
module FfmpegArgs {
  import opened Wrappers
  import opened Text
  import opened Probe

  /** The output frame of a multi-file merge. */
  datatype Canvas = Canvas(width: nat, height: nat)

  const Landscape := Canvas(1920, 1080)
  const Portrait := Canvas(1080, 1920)

  /** Landscape exactly when the probed width strictly exceeds the height;
      a square source gets the portrait canvas. */
  function ChooseCanvas(info: VideoInfo): (c: Canvas)
    ensures c == Landscape <==> info.width > info.height
    ensures c == Portrait <==> info.width <= info.height
  {
    if info.width > info.height then Landscape else Portrait
  }

  /** `-t <duration>` when a duration cap is set (a cap of 0 means none). */
  function DurationArgs(duration: nat): seq<string>
  {
    if duration > 0 then ["-t", NatToString(duration)] else []
  }

  /** One input file: stream copy, or video copy with the audio track
      re-encoded to AAC at 128k and cut to the shorter stream. */
  function SingleArgs(input: string, audio: string, output: string, duration: nat, hasAudio: bool): seq<string>
  {
    ["-i", input]
    + (if hasAudio then ["-i", audio] else [])
    + SingleCodecArgs(hasAudio)
    + DurationArgs(duration)
    + ["-y", output]
  }

  /** Stream copy, or video copy with the audio re-encoded. */
  function SingleCodecArgs(hasAudio: bool): seq<string>
  {
    if hasAudio then ["-c:v", "copy", "-c:a", "aac", "-b:a", "128k", "-shortest"] else ["-c", "copy"]
  }

  /** `-i <file>` for every file, in order. */
  function InputArgs(files: seq<string>): (r: seq<string>)
    ensures |r| == 2 * |files|
  {
    if |files| == 0 then [] else ["-i", files[0]] + InputArgs(files[1..])
  }

  /** The filter chain for input `i`: its video stream through the fit
      filter, labelled `[vi]`. */
  function ScaleChain(i: nat, c: Canvas): string
  {
    "[" + NatToString(i) + ":v]" + FitFilter(c) + "[v" + NatToString(i) + "]"
  }

  /** Reset timestamps, scale inside the canvas keeping the aspect ratio,
      pad to the canvas centred. */
  function FitFilter(c: Canvas): string
  {
    var w, h := NatToString(c.width), NatToString(c.height);
    "setpts=PTS-STARTPTS,scale=" + w + ":" + h
      + ":force_original_aspect_ratio=decrease,pad=" + w + ":" + h + ":(ow-iw)/2:(oh-ih)/2"
  }

  /** The chains for inputs `i` up to `n`, each closed by `;`. */
  function Chains(i: nat, n: nat, c: Canvas): string
    decreases n - i
  {
    if i >= n then "" else ScaleChain(i, c) + ";" + Chains(i + 1, n, c)
  }

  /** `[v0][v1]...` for inputs `i` up to `n`. */
  function Labels(i: nat, n: nat): string
    decreases n - i
  {
    if i >= n then "" else "[v" + NatToString(i) + "]" + Labels(i + 1, n)
  }

  function ConcatFilter(n: nat): string
  {
    "concat=n=" + NatToString(n) + ":v=1:a=0[outv]"
  }

  /** The `-filter_complex` graph for `n` inputs on canvas `c`. */
  function FilterComplex(n: nat, c: Canvas): string
  {
    Chains(0, n, c) + Labels(0, n) + ConcatFilter(n)
  }

  /** The filter graph and the mapping of its output. */
  function FilterArgs(n: nat, c: Canvas): seq<string>
  {
    ["-filter_complex", FilterComplex(n, c), "-map", "[outv]"]
  }

  /** `-map <n>:a`: the audio track of input `n`, the audio file. */
  function AudioMapArgs(n: nat, hasAudio: bool): seq<string>
  {
    if hasAudio then ["-map", NatToString(n) + ":a"] else []
  }

  const VideoCodecArgs: seq<string> := ["-c:v", "libx264", "-preset", "veryfast", "-crf", "26"]

  function AudioCodecArgs(hasAudio: bool): seq<string>
  {
    if hasAudio then ["-c:a", "aac", "-b:a", "128k"] else []
  }

  const FinishArgs: seq<string> := ["-threads", "0", "-shortest", "-y"]

  /** Several input files: probe-chosen canvas, per-input scale and pad,
      concatenation, optional audio input mapped as the last input,
      H.264 re-encode. */
  function MultiArgs(inputs: seq<string>, audio: string, output: string, duration: nat, hasAudio: bool, info: VideoInfo): seq<string>
  {
    InputArgs(inputs)
    + (if hasAudio then ["-i", audio] else [])
    + MultiOutputArgs(|inputs|, ChooseCanvas(info), output, duration, hasAudio)
  }

  /** Everything after the inputs in a multi-file list. */
  function MultiOutputArgs(n: nat, c: Canvas, output: string, duration: nat, hasAudio: bool): seq<string>
  {
    FilterArgs(n, c)
    + AudioMapArgs(n, hasAudio)
    + DurationArgs(duration)
    + VideoCodecArgs
    + AudioCodecArgs(hasAudio)
    + FinishArgs
    + [output]
  }

  // Reading an argument list back.

  /** The ffmpeg options these lists use that take a value (`-i` apart). */
  const ValuedOptions: set<string> := {"-c:v", "-c:a", "-b:a", "-c", "-t", "-filter_complex", "-map", "-preset", "-crf", "-threads"}
  /** The ffmpeg options these lists use that take no value. */
  const Switches: set<string> := {"-shortest", "-y"}

  /** An argument ffmpeg reads as a file name rather than an option. */
  predicate IsPositional(a: string) { |a| > 0 && a[0] != '-' }

  /** An ffmpeg invocation with inputs, then output options, then one output file. */
  datatype Command = Command(inputs: seq<string>, options: seq<(string, string)>, switches: seq<string>, output: string)

  /** Reads `-i <file>` pairs, then output options, then the output file;
      `None` for any list not of that shape. */
  function Decode(args: seq<string>): Option<Command>
    decreases |args|
  {
    if |args| >= 2 && args[0] == "-i" then
      match Decode(args[2..])
      case None => None
      case Some(c) => Some(c.(inputs := [args[1]] + c.inputs))
    else DecodeOutput(args)
  }

  function DecodeOutput(args: seq<string>): (r: Option<Command>)
    ensures r.Some? ==> r.value.inputs == []
    decreases |args|
  {
    if |args| == 0 then None
    else if |args| >= 2 && args[0] in ValuedOptions then
      match DecodeOutput(args[2..])
      case None => None
      case Some(c) => Some(c.(options := [(args[0], args[1])] + c.options))
    else if args[0] in Switches then
      match DecodeOutput(args[1..])
      case None => None
      case Some(c) => Some(c.(switches := [args[0]] + c.switches))
    else if |args| == 1 && IsPositional(args[0]) then Some(Command([], [], [], args[0]))
    else None
  }

  /** The values given to option `name`, in order. */
  function Values(options: seq<(string, string)>, name: string): seq<string>
  {
    if |options| == 0 then []
    else (if options[0].0 == name then [options[0].1] else []) + Values(options[1..], name)
  }
}

/** What the argument lists mean: each one reads back, under `Decode`, as
    the command the Rust code intends. */
module FfmpegArgsMeaning {
  import opened Wrappers
  import opened Text
  import opened Probe
  import opened FfmpegArgs

  /** One output option or switch, before it is flattened into arguments. */
  datatype Item = Opt(name: string, value: string) | Switch(flag: string)

  function Render(items: seq<Item>): seq<string>
  {
    if |items| == 0 then []
    else
      (match items[0] case Opt(n, v) => [n, v] case Switch(f) => [f]) + Render(items[1..])
  }

  predicate Known(items: seq<Item>)
  {
    forall i | 0 <= i < |items| ::
      match items[i] case Opt(n, _) => n in ValuedOptions case Switch(f) => f in Switches
  }

  function OptionsOf(items: seq<Item>): seq<(string, string)>
  {
    if |items| == 0 then []
    else (match items[0] case Opt(n, v) => [(n, v)] case Switch(_) => []) + OptionsOf(items[1..])
  }

  function SwitchesOf(items: seq<Item>): seq<string>
  {
    if |items| == 0 then []
    else (match items[0] case Opt(_, _) => [] case Switch(f) => [f]) + SwitchesOf(items[1..])
  }

  lemma {:induction false} RenderAppend(a: seq<Item>, b: seq<Item>)
    ensures Render(a + b) == Render(a) + Render(b)
    ensures OptionsOf(a + b) == OptionsOf(a) + OptionsOf(b)
    ensures SwitchesOf(a + b) == SwitchesOf(a) + SwitchesOf(b)
  {
    if |a| > 0 {
      assert (a + b)[1..] == a[1..] + b;
      RenderAppend(a[1..], b);
    } else {
      assert a + b == b;
    }
  }

  lemma {:induction false} ValuesAppend(a: seq<(string, string)>, b: seq<(string, string)>, name: string)
    ensures Values(a + b, name) == Values(a, name) + Values(b, name)
  {
    if |a| > 0 {
      assert (a + b)[1..] == a[1..] + b;
      ValuesAppend(a[1..], b, name);
    } else {
      assert a + b == b;
    }
  }

  /** Flattened known options followed by a file name read back as themselves. */
  lemma {:induction false} DecodeRendered(items: seq<Item>, output: string)
    requires Known(items) && IsPositional(output)
    ensures DecodeOutput(Render(items) + [output]) == Some(Command([], OptionsOf(items), SwitchesOf(items), output))
  {
    if |items| > 0 {
      DecodeRendered(items[1..], output);
      var rest := Render(items[1..]) + [output];
      assert Known(items[1..]);
      match items[0]
      case Opt(n, v) =>
        assert n in ValuedOptions;
        assert Render(items) + [output] == [n, v] + rest;
        assert ([n, v] + rest)[2..] == rest;
        assert OptionsOf(items) == [(n, v)] + OptionsOf(items[1..]);
        assert SwitchesOf(items) == SwitchesOf(items[1..]);
      case Switch(f) =>
        assert f in Switches;
        assert Render(items) + [output] == [f] + rest;
        assert ([f] + rest)[1..] == rest;
        assert OptionsOf(items) == OptionsOf(items[1..]);
        assert SwitchesOf(items) == [f] + SwitchesOf(items[1..]);
    } else {
      assert Render(items) + [output] == [output];
    }
  }

  /** `-i` pairs in front of an output section read back as the inputs. */
  lemma {:induction false} DecodeInputs(files: seq<string>, rest: seq<string>)
    requires |rest| > 0 && rest[0] != "-i"
    ensures Decode(InputArgs(files) + rest) ==
      (match DecodeOutput(rest) case None => None case Some(c) => Some(c.(inputs := files)))
  {
    if |files| == 0 {
      assert InputArgs(files) + rest == rest;
    } else {
      var tail := InputArgs(files[1..]) + rest;
      DecodeInputs(files[1..], rest);
      assert InputArgs(files) + rest == ["-i", files[0]] + tail;
      DecodeCons(files[0], tail);
      assert [files[0]] + files[1..] == files;
    }
  }

  /** A leading `-i` pair adds its file in front of the inputs. */
  lemma DecodeCons(f: string, tail: seq<string>)
    ensures Decode(["-i", f] + tail) ==
      (match Decode(tail) case None => None case Some(c) => Some(c.(inputs := [f] + c.inputs)))
  {
    assert (["-i", f] + tail)[2..] == tail;
  }

  function DurationItems(duration: nat): seq<Item>
  {
    if duration > 0 then [Opt("-t", NatToString(duration))] else []
  }

  /** The output section of the single-file list. */
  function SingleItems(duration: nat, hasAudio: bool): seq<Item>
  {
    SingleCodecItems(hasAudio) + DurationItems(duration) + [Switch("-y")]
  }

  /** Stream copy, or video copy with AAC audio cut to the shorter stream. */
  function SingleCodecItems(hasAudio: bool): seq<Item>
  {
    if hasAudio then [Opt("-c:v", "copy"), Opt("-c:a", "aac"), Opt("-b:a", "128k"), Switch("-shortest")]
    else [Opt("-c", "copy")]
  }

  lemma SingleCodecItemsRendered(hasAudio: bool)
    ensures Known(SingleCodecItems(hasAudio))
    ensures Render(SingleCodecItems(hasAudio)) == SingleCodecArgs(hasAudio)
    ensures OptionsOf(SingleCodecItems(hasAudio)) == SingleCodecOptions(hasAudio)
    ensures SwitchesOf(SingleCodecItems(hasAudio)) == if hasAudio then ["-shortest"] else []
  {
    OneOpt("-c", "copy");
    if hasAudio {
      var a, b, c, d := Opt("-c:v", "copy"), Opt("-c:a", "aac"), Opt("-b:a", "128k"), Switch("-shortest");
      OneOpt("-c:v", "copy");
      OneOpt("-c:a", "aac");
      OneOpt("-b:a", "128k");
      OneSwitch("-shortest");
      ThreeItems(a, b, c);
      RenderAppend([a, b, c], [d]);
      assert [a, b, c] + [d] == SingleCodecItems(hasAudio);
    }
  }

  lemma SingleItemsRendered(duration: nat, hasAudio: bool)
    ensures Known(SingleItems(duration, hasAudio))
    ensures Render(SingleItems(duration, hasAudio)) == SingleCodecArgs(hasAudio) + DurationArgs(duration) + ["-y"]
    ensures OptionsOf(SingleItems(duration, hasAudio)) == SingleOptions(duration, hasAudio)
    ensures SwitchesOf(SingleItems(duration, hasAudio)) == (if hasAudio then ["-shortest"] else []) + ["-y"]
  {
    var head, dur, y := SingleCodecItems(hasAudio), DurationItems(duration), [Switch("-y")];
    SingleCodecItemsRendered(hasAudio);
    DurationItemsRendered(duration);
    OneSwitch("-y");
    RenderAppend(head + dur, y);
    RenderAppend(head, dur);
    KnownAppend(head, dur);
    KnownAppend(head + dur, y);
  }

  lemma OneOpt(n: string, v: string)
    ensures Render([Opt(n, v)]) == [n, v] && OptionsOf([Opt(n, v)]) == [(n, v)] && SwitchesOf([Opt(n, v)]) == []
  {
    assert [Opt(n, v)][1..] == [];
  }

  lemma OneSwitch(f: string)
    ensures Render([Switch(f)]) == [f] && OptionsOf([Switch(f)]) == [] && SwitchesOf([Switch(f)]) == [f]
  {
    assert [Switch(f)][1..] == [];
  }

  lemma TwoItems(a: Item, b: Item)
    ensures Render([a, b]) == Render([a]) + Render([b])
    ensures OptionsOf([a, b]) == OptionsOf([a]) + OptionsOf([b])
    ensures SwitchesOf([a, b]) == SwitchesOf([a]) + SwitchesOf([b])
  {
    RenderAppend([a], [b]);
    assert [a] + [b] == [a, b];
  }

  lemma ThreeItems(a: Item, b: Item, c: Item)
    ensures Render([a, b, c]) == Render([a]) + Render([b]) + Render([c])
    ensures OptionsOf([a, b, c]) == OptionsOf([a]) + OptionsOf([b]) + OptionsOf([c])
    ensures SwitchesOf([a, b, c]) == SwitchesOf([a]) + SwitchesOf([b]) + SwitchesOf([c])
  {
    TwoItems(a, b);
    RenderAppend([a, b], [c]);
    assert [a, b] + [c] == [a, b, c];
  }

  lemma {:induction false} InputArgsAppend(a: seq<string>, b: seq<string>)
    ensures InputArgs(a + b) == InputArgs(a) + InputArgs(b)
  {
    if |a| == 0 {
      assert a + b == b;
    } else {
      assert (a + b)[1..] == a[1..] + b;
      InputArgsAppend(a[1..], b);
    }
  }

  lemma InputArgsOne(f: string)
    ensures InputArgs([f]) == ["-i", f]
  {
    assert [f][1..] == [];
  }

  /** The options of a single-file invocation: stream copy, or video copy
      with audio re-encoded, then the cap. */
  function SingleOptions(duration: nat, hasAudio: bool): seq<(string, string)>
  {
    SingleCodecOptions(hasAudio) + DurationOptions(duration)
  }

  function SingleCodecOptions(hasAudio: bool): seq<(string, string)>
  {
    if hasAudio then [("-c:v", "copy"), ("-c:a", "aac"), ("-b:a", "128k")] else [("-c", "copy")]
  }

  /** The argument list of a single-file merge splits into the `-i` pairs
      and the output section. */
  lemma SingleArgsSplit(input: string, audio: string, output: string, duration: nat, hasAudio: bool)
    ensures SingleArgs(input, audio, output, duration, hasAudio) ==
      InputArgs([input] + (if hasAudio then [audio] else [])) + (Render(SingleItems(duration, hasAudio)) + [output])
  {
    var extra := if hasAudio then [audio] else [];
    SingleItemsRendered(duration, hasAudio);
    InputArgsAppend([input], extra);
    InputArgsOne(input);
    if hasAudio {
      InputArgsOne(audio);
    } else {
      assert InputArgs([]) == [];
    }
    Regroup(["-i", input], InputArgs(extra), SingleCodecArgs(hasAudio), DurationArgs(duration), "-y", output);
  }

  lemma Regroup<T>(a: seq<T>, b: seq<T>, c: seq<T>, d: seq<T>, y: T, o: T)
    ensures a + b + c + d + [y, o] == (a + b) + ((c + d + [y]) + [o])
  {
  }

  /** The single-file list reads back as: the file, and the audio file when
      there is one, as inputs in that order; stream copy without audio, or
      video copy with AAC 128k audio cut to the shorter stream; a `-t` cap
      exactly when the duration is non-zero; overwrite; the output file last. */
  lemma SingleArgsMeaning(input: string, audio: string, output: string, duration: nat, hasAudio: bool)
    requires IsPositional(output)
    ensures Decode(SingleArgs(input, audio, output, duration, hasAudio)) ==
      Some(Command([input] + (if hasAudio then [audio] else []),
                   SingleOptions(duration, hasAudio),
                   (if hasAudio then ["-shortest"] else []) + ["-y"],
                   output))
  {
    var items := SingleItems(duration, hasAudio);
    SingleItemsRendered(duration, hasAudio);
    DecodeRendered(items, output);
    var rest := Render(items) + [output];
    SingleArgsSplit(input, audio, output, duration, hasAudio);
    DecodeInputs([input] + (if hasAudio then [audio] else []), rest);
  }

  lemma {:induction false} ValuesAbsent(options: seq<(string, string)>, name: string)
    requires forall i | 0 <= i < |options| :: options[i].0 != name
    ensures Values(options, name) == []
  {
    if |options| > 0 {
      ValuesAbsent(options[1..], name);
    }
  }

  lemma ValuesOne(n: string, v: string, name: string)
    ensures Values([(n, v)], name) == if n == name then [v] else []
  {
    assert [(n, v)][1..] == [];
  }

  /** In a single-file merge `-t` carries the cap exactly when one is set,
      plain stream copy is chosen exactly when there is no audio track, and
      the audio is re-encoded as AAC exactly when there is one. */
  lemma SingleOptionsValues(duration: nat, hasAudio: bool)
    ensures Values(SingleOptions(duration, hasAudio), "-t") == (if duration > 0 then [NatToString(duration)] else [])
    ensures Values(SingleOptions(duration, hasAudio), "-c") == (if hasAudio then [] else ["copy"])
    ensures Values(SingleOptions(duration, hasAudio), "-c:a") == (if hasAudio then ["aac"] else [])
  {
    var head, cap := SingleCodecOptions(hasAudio), DurationOptions(duration);
    ValuesAppend(head, cap, "-t");
    ValuesAppend(head, cap, "-c");
    ValuesAppend(head, cap, "-c:a");
    SingleCodecValues(hasAudio);
    DurationCap(duration);
    DurationOnlyCap(duration);
  }

  /** Stream copy is chosen exactly when there is no audio track, and the
      audio is re-encoded as AAC exactly when there is one. */
  lemma SingleCodecValues(hasAudio: bool)
    ensures Values(SingleCodecOptions(hasAudio), "-t") == []
    ensures Values(SingleCodecOptions(hasAudio), "-c") == (if hasAudio then [] else ["copy"])
    ensures Values(SingleCodecOptions(hasAudio), "-c:a") == (if hasAudio then ["aac"] else [])
  {
    var head := SingleCodecOptions(hasAudio);
    assert "-t"[1] != "-c"[1];
    ValuesAbsent(head, "-t");
    if hasAudio {
      ValuesAbsent(head, "-c");
      var h1 := [("-c:v", "copy")];
      var h2 := [("-c:a", "aac"), ("-b:a", "128k")];
      assert head == h1 + h2;
      ValuesAppend(h1, h2, "-c:a");
      ValuesAbsent(h1, "-c:a");
      assert h2 == [("-c:a", "aac")] + [("-b:a", "128k")];
      ValuesAppend([("-c:a", "aac")], [("-b:a", "128k")], "-c:a");
      ValuesOne("-c:a", "aac", "-c:a");
      ValuesOne("-b:a", "128k", "-c:a");
    } else {
      ValuesOne("-c", "copy", "-c");
      ValuesOne("-c", "copy", "-c:a");
      ValuesOne("-c", "copy", "-t");
    }
  }

  lemma DurationOnlyCap(duration: nat)
    ensures Values(DurationOptions(duration), "-c") == [] && Values(DurationOptions(duration), "-c:a") == []
  {
    if duration > 0 {
      ValuesOne("-t", NatToString(duration), "-c");
      ValuesOne("-t", NatToString(duration), "-c:a");
    }
  }

  lemma {:induction false} KnownAppend(a: seq<Item>, b: seq<Item>)
    requires Known(a) && Known(b)
    ensures Known(a + b)
  {
    forall i | 0 <= i < |a + b|
      ensures match (a + b)[i] case Opt(n, _) => n in ValuedOptions case Switch(f) => f in Switches
    {
      if i < |a| {
        assert (a + b)[i] == a[i];
      } else {
        assert (a + b)[i] == b[i - |a|];
      }
    }
  }

  function FilterItems(n: nat, c: Canvas): seq<Item>
  {
    [Opt("-filter_complex", FilterComplex(n, c)), Opt("-map", "[outv]")]
  }

  function AudioMapItems(n: nat, hasAudio: bool): seq<Item>
  {
    if hasAudio then [Opt("-map", NatToString(n) + ":a")] else []
  }

  const VideoCodecItems: seq<Item> := [Opt("-c:v", "libx264"), Opt("-preset", "veryfast"), Opt("-crf", "26")]

  function AudioCodecItems(hasAudio: bool): seq<Item>
  {
    if hasAudio then [Opt("-c:a", "aac"), Opt("-b:a", "128k")] else []
  }

  const FinishItems: seq<Item> := [Opt("-threads", "0"), Switch("-shortest"), Switch("-y")]

  /** The output section of the multi-file list. */
  function MultiItems(n: nat, c: Canvas, duration: nat, hasAudio: bool): seq<Item>
  {
    FilterItems(n, c) + AudioMapItems(n, hasAudio) + DurationItems(duration)
    + VideoCodecItems + AudioCodecItems(hasAudio) + FinishItems
  }

  function FilterOptions(n: nat, c: Canvas): seq<(string, string)>
  {
    [("-filter_complex", FilterComplex(n, c)), ("-map", "[outv]")]
  }

  function AudioMapOptions(n: nat, hasAudio: bool): seq<(string, string)>
  {
    if hasAudio then [("-map", NatToString(n) + ":a")] else []
  }

  function DurationOptions(duration: nat): seq<(string, string)>
  {
    if duration > 0 then [("-t", NatToString(duration))] else []
  }

  const VideoCodecOptions: seq<(string, string)> := [("-c:v", "libx264"), ("-preset", "veryfast"), ("-crf", "26")]

  function AudioCodecOptions(hasAudio: bool): seq<(string, string)>
  {
    if hasAudio then [("-c:a", "aac"), ("-b:a", "128k")] else []
  }

  /** The options of a multi-file invocation, in order. */
  function MultiOptions(n: nat, c: Canvas, duration: nat, hasAudio: bool): seq<(string, string)>
  {
    FilterOptions(n, c) + AudioMapOptions(n, hasAudio) + DurationOptions(duration)
    + VideoCodecOptions + AudioCodecOptions(hasAudio) + [("-threads", "0")]
  }

  lemma FilterItemsRendered(n: nat, c: Canvas)
    ensures Known(FilterItems(n, c)) && Render(FilterItems(n, c)) == FilterArgs(n, c)
    ensures OptionsOf(FilterItems(n, c)) == FilterOptions(n, c) && SwitchesOf(FilterItems(n, c)) == []
  {
    OneOpt("-filter_complex", FilterComplex(n, c));
    OneOpt("-map", "[outv]");
    TwoItems(Opt("-filter_complex", FilterComplex(n, c)), Opt("-map", "[outv]"));
  }

  lemma AudioMapItemsRendered(n: nat, hasAudio: bool)
    ensures Known(AudioMapItems(n, hasAudio)) && Render(AudioMapItems(n, hasAudio)) == AudioMapArgs(n, hasAudio)
    ensures OptionsOf(AudioMapItems(n, hasAudio)) == AudioMapOptions(n, hasAudio) && SwitchesOf(AudioMapItems(n, hasAudio)) == []
  {
    if hasAudio {
      OneOpt("-map", NatToString(n) + ":a");
    }
  }

  lemma DurationItemsRendered(duration: nat)
    ensures Known(DurationItems(duration)) && Render(DurationItems(duration)) == DurationArgs(duration)
    ensures OptionsOf(DurationItems(duration)) == DurationOptions(duration) && SwitchesOf(DurationItems(duration)) == []
  {
    if duration > 0 {
      OneOpt("-t", NatToString(duration));
    }
  }

  lemma VideoCodecItemsRendered()
    ensures Known(VideoCodecItems) && Render(VideoCodecItems) == VideoCodecArgs
    ensures OptionsOf(VideoCodecItems) == VideoCodecOptions && SwitchesOf(VideoCodecItems) == []
  {
    OneOpt("-c:v", "libx264");
    OneOpt("-preset", "veryfast");
    OneOpt("-crf", "26");
    ThreeItems(Opt("-c:v", "libx264"), Opt("-preset", "veryfast"), Opt("-crf", "26"));
  }

  lemma AudioCodecItemsRendered(hasAudio: bool)
    ensures Known(AudioCodecItems(hasAudio)) && Render(AudioCodecItems(hasAudio)) == AudioCodecArgs(hasAudio)
    ensures OptionsOf(AudioCodecItems(hasAudio)) == AudioCodecOptions(hasAudio) && SwitchesOf(AudioCodecItems(hasAudio)) == []
  {
    if hasAudio {
      OneOpt("-c:a", "aac");
      OneOpt("-b:a", "128k");
      TwoItems(Opt("-c:a", "aac"), Opt("-b:a", "128k"));
    }
  }

  lemma FinishItemsRendered()
    ensures Known(FinishItems) && Render(FinishItems) == FinishArgs
    ensures OptionsOf(FinishItems) == [("-threads", "0")] && SwitchesOf(FinishItems) == ["-shortest", "-y"]
  {
    OneOpt("-threads", "0");
    OneSwitch("-shortest");
    OneSwitch("-y");
    ThreeItems(Opt("-threads", "0"), Switch("-shortest"), Switch("-y"));
  }

  lemma MultiItemsRendered(n: nat, c: Canvas, duration: nat, hasAudio: bool)
    ensures Known(MultiItems(n, c, duration, hasAudio))
    ensures Render(MultiItems(n, c, duration, hasAudio)) ==
      FilterArgs(n, c) + AudioMapArgs(n, hasAudio) + DurationArgs(duration)
      + VideoCodecArgs + AudioCodecArgs(hasAudio) + FinishArgs
    ensures OptionsOf(MultiItems(n, c, duration, hasAudio)) == MultiOptions(n, c, duration, hasAudio)
    ensures SwitchesOf(MultiItems(n, c, duration, hasAudio)) == ["-shortest", "-y"]
  {
    var s1, s2, s3 := FilterItems(n, c), AudioMapItems(n, hasAudio), DurationItems(duration);
    var s4, s5, s6 := VideoCodecItems, AudioCodecItems(hasAudio), FinishItems;
    FilterItemsRendered(n, c);
    AudioMapItemsRendered(n, hasAudio);
    DurationItemsRendered(duration);
    VideoCodecItemsRendered();
    AudioCodecItemsRendered(hasAudio);
    FinishItemsRendered();
    RenderAppend(s1, s2);
    RenderAppend(s1 + s2, s3);
    RenderAppend(s1 + s2 + s3, s4);
    RenderAppend(s1 + s2 + s3 + s4, s5);
    RenderAppend(s1 + s2 + s3 + s4 + s5, s6);
    KnownAppend(s1, s2);
    KnownAppend(s1 + s2, s3);
    KnownAppend(s1 + s2 + s3, s4);
    KnownAppend(s1 + s2 + s3 + s4, s5);
    KnownAppend(s1 + s2 + s3 + s4 + s5, s6);
  }

  /** The argument list of a multi-file merge splits into the `-i` pairs
      and the output section. */
  lemma MultiArgsSplit(inputs: seq<string>, audio: string, output: string, duration: nat, hasAudio: bool, info: VideoInfo)
    ensures MultiArgs(inputs, audio, output, duration, hasAudio, info) ==
      InputArgs(inputs + (if hasAudio then [audio] else []))
      + (Render(MultiItems(|inputs|, ChooseCanvas(info), duration, hasAudio)) + [output])
  {
    var c := ChooseCanvas(info);
    AudioInputArgs(inputs, audio, hasAudio);
    MultiOutputRendered(|inputs|, c, output, duration, hasAudio);
  }

  /** The `-i` pairs of the clips followed by the audio's pair are the pairs
      of the clips and the audio together. */
  lemma AudioInputArgs(inputs: seq<string>, audio: string, hasAudio: bool)
    ensures InputArgs(inputs) + (if hasAudio then ["-i", audio] else [])
      == InputArgs(inputs + (if hasAudio then [audio] else []))
  {
    InputArgsAppend(inputs, if hasAudio then [audio] else []);
    if hasAudio {
      InputArgsOne(audio);
    } else {
      assert InputArgs([]) == [];
    }
  }

  /** The output section of a multi-file list is its items rendered, then
      the output file. */
  lemma MultiOutputRendered(n: nat, c: Canvas, output: string, duration: nat, hasAudio: bool)
    ensures MultiOutputArgs(n, c, output, duration, hasAudio) == Render(MultiItems(n, c, duration, hasAudio)) + [output]
  {
    MultiItemsRendered(n, c, duration, hasAudio);
  }

  /** The multi-file list reads back as: every clip in order, then the audio
      file when there is one, as inputs (so the audio is input number
      `|inputs|`, the index its `-map` names); the filter graph; the
      concatenated video mapped out; the cap; H.264 re-encoding; AAC audio
      only with an audio track; cut to the shorter stream; overwrite; the
      output file last. */
  lemma MultiArgsMeaning(inputs: seq<string>, audio: string, output: string, duration: nat, hasAudio: bool, info: VideoInfo)
    requires IsPositional(output)
    ensures Decode(MultiArgs(inputs, audio, output, duration, hasAudio, info)) ==
      Some(Command(inputs + (if hasAudio then [audio] else []),
                   MultiOptions(|inputs|, ChooseCanvas(info), duration, hasAudio),
                   ["-shortest", "-y"],
                   output))
  {
    var items := MultiItems(|inputs|, ChooseCanvas(info), duration, hasAudio);
    MultiItemsRendered(|inputs|, ChooseCanvas(info), duration, hasAudio);
    DecodeRendered(items, output);
    MultiArgsSplit(inputs, audio, output, duration, hasAudio, info);
    DecodeInputs(inputs + (if hasAudio then [audio] else []), Render(items) + [output]);
  }

  lemma MultiValues(n: nat, c: Canvas, duration: nat, hasAudio: bool, name: string)
    ensures Values(MultiOptions(n, c, duration, hasAudio), name) ==
      Values(FilterOptions(n, c), name) + Values(AudioMapOptions(n, hasAudio), name)
      + Values(DurationOptions(duration), name) + Values(VideoCodecOptions, name)
      + Values(AudioCodecOptions(hasAudio), name) + Values([("-threads", "0")], name)
  {
    var a, b, d := FilterOptions(n, c), AudioMapOptions(n, hasAudio), DurationOptions(duration);
    var e, f, g := VideoCodecOptions, AudioCodecOptions(hasAudio), [("-threads", "0")];
    ValuesAppend(a, b, name);
    ValuesAppend(a + b, d, name);
    ValuesAppend(a + b + d, e, name);
    ValuesAppend(a + b + d + e, f, name);
    ValuesAppend(a + b + d + e + f, g, name);
  }

  /** In a multi-file merge `-t` carries the cap exactly when one is set. */
  lemma MultiCapValues(n: nat, c: Canvas, duration: nat, hasAudio: bool)
    ensures Values(MultiOptions(n, c, duration, hasAudio), "-t") ==
      (if duration > 0 then [NatToString(duration)] else [])
  {
    MultiValues(n, c, duration, hasAudio, "-t");
    NoCapOutsideDuration(n, c, hasAudio);
    DurationCap(duration);
    OnlyMiddle(Values(FilterOptions(n, c), "-t"), Values(AudioMapOptions(n, hasAudio), "-t"),
               Values(DurationOptions(duration), "-t"), Values(VideoCodecOptions, "-t"),
               Values(AudioCodecOptions(hasAudio), "-t"), Values([("-threads", "0")], "-t"));
  }

  /** Only the duration options mention `-t`. */
  lemma NoCapOutsideDuration(n: nat, c: Canvas, hasAudio: bool)
    ensures Values(FilterOptions(n, c), "-t") == []
    ensures Values(AudioMapOptions(n, hasAudio), "-t") == []
    ensures Values(VideoCodecOptions, "-t") == []
    ensures Values(AudioCodecOptions(hasAudio), "-t") == []
    ensures Values([("-threads", "0")], "-t") == []
  {
    ValuesAbsent(FilterOptions(n, c), "-t");
    ValuesAbsent(AudioMapOptions(n, hasAudio), "-t");
    ValuesAbsent(VideoCodecOptions, "-t");
    ValuesAbsent(AudioCodecOptions(hasAudio), "-t");
    ValuesOne("-threads", "0", "-t");
  }

  lemma DurationCap(duration: nat)
    ensures Values(DurationOptions(duration), "-t") == (if duration > 0 then [NatToString(duration)] else [])
  {
    if duration > 0 {
      ValuesOne("-t", NatToString(duration), "-t");
    }
  }

  lemma OnlyMiddle<T>(a: seq<T>, b: seq<T>, d: seq<T>, e: seq<T>, f: seq<T>, g: seq<T>)
    requires a == [] && b == [] && e == [] && f == [] && g == []
    ensures a + b + d + e + f + g == d
  {
  }

  lemma FilterMapValue(graph: string)
    ensures Values([("-filter_complex", graph), ("-map", "[outv]")], "-map") == ["[outv]"]
  {
    ValuesAppend([("-filter_complex", graph)], [("-map", "[outv]")], "-map");
    assert [("-filter_complex", graph)] + [("-map", "[outv]")] == [("-filter_complex", graph), ("-map", "[outv]")];
    ValuesOne("-filter_complex", graph, "-map");
    ValuesOne("-map", "[outv]", "-map");
  }

  /** In a multi-file merge the concatenated video `[outv]` is always
      mapped, followed by the audio input's track exactly when there is
      audio. */
  lemma MultiMapValues(n: nat, c: Canvas, duration: nat, hasAudio: bool)
    ensures Values(MultiOptions(n, c, duration, hasAudio), "-map") ==
      ["[outv]"] + (if hasAudio then [NatToString(n) + ":a"] else [])
  {
    MultiValues(n, c, duration, hasAudio, "-map");
    FilterMapValue(FilterComplex(n, c));
    AudioMapValue(n, hasAudio);
    NoMapAfterAudio(duration, hasAudio);
    FirstTwo(Values(FilterOptions(n, c), "-map"), Values(AudioMapOptions(n, hasAudio), "-map"),
             Values(DurationOptions(duration), "-map"), Values(VideoCodecOptions, "-map"),
             Values(AudioCodecOptions(hasAudio), "-map"), Values([("-threads", "0")], "-map"));
  }

  lemma AudioMapValue(n: nat, hasAudio: bool)
    ensures Values(AudioMapOptions(n, hasAudio), "-map") == if hasAudio then [NatToString(n) + ":a"] else []
  {
    if hasAudio {
      ValuesOne("-map", NatToString(n) + ":a", "-map");
    }
  }

  /** No option after the audio mapping mentions `-map`. */
  lemma NoMapAfterAudio(duration: nat, hasAudio: bool)
    ensures Values(DurationOptions(duration), "-map") == []
    ensures Values(VideoCodecOptions, "-map") == []
    ensures Values(AudioCodecOptions(hasAudio), "-map") == []
    ensures Values([("-threads", "0")], "-map") == []
  {
    assert Values(DurationOptions(duration), "-map") == [] by {
      assert "-t"[1] != "-m"[1];
      ValuesAbsent(DurationOptions(duration), "-map");
    }
    assert Values(VideoCodecOptions, "-map") == [] by {
      ValuesAbsent(VideoCodecOptions, "-map");
    }
    assert Values(AudioCodecOptions(hasAudio), "-map") == [] by {
      ValuesAbsent(AudioCodecOptions(hasAudio), "-map");
    }
    ValuesOne("-threads", "0", "-map");
  }

  lemma FirstTwo<T>(a: seq<T>, b: seq<T>, d: seq<T>, e: seq<T>, f: seq<T>, g: seq<T>)
    requires d == [] && e == [] && f == [] && g == []
    ensures a + b + d + e + f + g == a + b
  {
  }

  lemma DigitsNoSemicolon(s: string)
    requires AllDigits(s)
    ensures ';' !in s
  {
  }

  lemma NoSemicolonConcat(a: string, b: string)
    requires ';' !in a && ';' !in b
    ensures ';' !in a + b
  {
  }

  lemma ScaleChainNoSemicolon(i: nat, c: Canvas)
    ensures ';' !in ScaleChain(i, c)
  {
    var x := NatToString(i);
    DigitsNoSemicolon(x);
    FitFilterNoSemicolon(c);
    var l1, l2, l3 := "[", ":v]", "[v";
    assert ';' !in l1 && ';' !in l2 && ';' !in l3 && ';' !in "]";
    NoSemicolonConcat(l1, x);
    NoSemicolonConcat(l1 + x, l2);
    NoSemicolonConcat(l1 + x + l2, FitFilter(c));
    NoSemicolonConcat(l1 + x + l2 + FitFilter(c), l3);
    NoSemicolonConcat(l1 + x + l2 + FitFilter(c) + l3, x);
    NoSemicolonConcat(l1 + x + l2 + FitFilter(c) + l3 + x, "]");
  }

  lemma FitFilterNoSemicolon(c: Canvas)
    ensures ';' !in FitFilter(c)
  {
    var w, h := NatToString(c.width), NatToString(c.height);
    DigitsNoSemicolon(w);
    DigitsNoSemicolon(h);
    var l1, l2, l3, l4 := "setpts=PTS-STARTPTS,scale=", ":", ":force_original_aspect_ratio=decrease,pad=", ":(ow-iw)/2:(oh-ih)/2";
    assert ';' !in l1 && ';' !in l2 && ';' !in l3 && ';' !in l4;
    NoSemicolonConcat(l1, w);
    NoSemicolonConcat(l1 + w, l2);
    NoSemicolonConcat(l1 + w + l2, h);
    NoSemicolonConcat(l1 + w + l2 + h, l3);
    NoSemicolonConcat(l1 + w + l2 + h + l3, w);
    NoSemicolonConcat(l1 + w + l2 + h + l3 + w, l2);
    NoSemicolonConcat(l1 + w + l2 + h + l3 + w + l2, h);
    NoSemicolonConcat(l1 + w + l2 + h + l3 + w + l2 + h, l4);
  }

  lemma {:induction false} LabelsNoSemicolon(i: nat, n: nat)
    ensures ';' !in Labels(i, n)
    decreases n - i
  {
    if i < n {
      DigitsNoSemicolon(NatToString(i));
      LabelsNoSemicolon(i + 1, n);
    }
  }

  /** The chains from input `i` on, one per input. */
  function ChainPieces(i: nat, n: nat, c: Canvas): (r: seq<string>)
    ensures |r| == if i <= n then n - i else 0
    ensures forall k | 0 <= k < |r| :: r[k] == ScaleChain(i + k, c)
    decreases n - i
  {
    if i >= n then [] else [ScaleChain(i, c)] + ChainPieces(i + 1, n, c)
  }

  lemma ChainsStep(i: nat, n: nat, c: Canvas, last: string)
    requires i < n
    ensures Chains(i, n, c) + last == ScaleChain(i, c) + [';'] + (Chains(i + 1, n, c) + last)
  {
  }

  /** The chains followed by `last` are the chain pieces and `last` joined
      with `;`. */
  lemma {:induction false} ChainsJoin(i: nat, n: nat, c: Canvas, last: string)
    requires i <= n
    ensures Chains(i, n, c) + last == Join(ChainPieces(i, n, c) + [last], ';')
    decreases n - i
  {
    if i == n {
      assert Chains(i, n, c) + last == last;
      assert ChainPieces(i, n, c) + [last] == [last];
    } else {
      ChainsJoin(i + 1, n, c, last);
      ChainsStep(i, n, c, last);
      ChainPiecesCons(i, n, c, last);
      JoinFront(ScaleChain(i, c), ChainPieces(i + 1, n, c) + [last], ';');
    }
  }

  lemma ChainPiecesCons(i: nat, n: nat, c: Canvas, last: string)
    requires i < n
    ensures ChainPieces(i, n, c) + [last] == [ScaleChain(i, c)] + (ChainPieces(i + 1, n, c) + [last])
  {
  }

  lemma ChainsSplit(i: nat, n: nat, c: Canvas, last: string)
    requires i <= n && ';' !in last
    ensures Split(Chains(i, n, c) + last, ';') == ChainPieces(i, n, c) + [last]
  {
    var ps := ChainPieces(i, n, c) + [last];
    ChainsJoin(i, n, c, last);
    forall k | 0 <= k < |ps| ensures ';' !in ps[k] {
      if k < |ps| - 1 {
        ScaleChainNoSemicolon(i + k, c);
      }
    }
    SplitJoin(ps, ';');
  }

  /** The filter graph, cut at `;`, is one scale-and-pad chain per input,
      in input order, followed by the concatenation of their labels. */
  lemma FilterComplexPieces(n: nat, c: Canvas)
    ensures Split(FilterComplex(n, c), ';') ==
      seq(n, k requires 0 <= k < n => ScaleChain(k, c)) + [Labels(0, n) + ConcatFilter(n)]
  {
    var last := Labels(0, n) + ConcatFilter(n);
    LabelsNoSemicolon(0, n);
    ConcatNoSemicolon(n);
    NoSemicolonConcat(Labels(0, n), ConcatFilter(n));
    ChainsSplit(0, n, c, last);
    ChainPiecesFromZero(n, c);
    assert FilterComplex(n, c) == Chains(0, n, c) + last;
  }

  lemma ConcatNoSemicolon(n: nat)
    ensures ';' !in ConcatFilter(n)
  {
    DigitsNoSemicolon(NatToString(n));
    NoSemicolonConcat("concat=n=", NatToString(n));
    NoSemicolonConcat("concat=n=" + NatToString(n), ":v=1:a=0[outv]");
  }

  lemma ChainPiecesFromZero(n: nat, c: Canvas)
    ensures ChainPieces(0, n, c) == seq(n, k requires 0 <= k < n => ScaleChain(k, c))
  {
    var p, q := ChainPieces(0, n, c), seq(n, k requires 0 <= k < n => ScaleChain(k, c));
    assert |p| == |q|;
    forall k | 0 <= k < n ensures p[k] == q[k] {
    }
  }
}
