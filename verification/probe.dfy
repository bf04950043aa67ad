/** `get_video_dimensions`: choosing the width and height of a video from
    ffprobe's JSON report. Running ffprobe and decoding its output are
    outside the model; the selection over the decoded value is inside. */
module Probe {
  import opened Wrappers

  /** The part of a `serde_json::Value` the selection reads. Integers keep
      their exact value (serde_json holds them as `i64` or `u64`); a number
      with a fraction or an exponent is `JFloat`, whose value is never read. */
  datatype Json =
    | JNull
    | JBool(b: bool)
    | JInt(i: int)
    | JFloat
    | JStr(s: string)
    | JArray(items: seq<Json>)
    | JObject(fields: map<string, Json>)

  const I64Min: int := -0x8000_0000_0000_0000
  const I64Max: int := 0x7FFF_FFFF_FFFF_FFFF
  const I32Min: int := -0x8000_0000
  const I32Max: int := 0x7FFF_FFFF

  /** The error strings the Rust code returns (width missing, height
      missing, no video stream). */
  const WidthMissing := "无法获取视频宽度"
  const HeightMissing := "无法获取视频高度"
  const NoVideoStream := "未找到视频流信息"

  /** Width and height as the Rust `VideoInfo` holds them: two `i32`s. */
  datatype VideoInfo = VideoInfo(width: int, height: int)

  /** `Value::get` with a string key: only an object has fields. */
  function Get(v: Json, key: string): Option<Json>
  {
    match v
    case JObject(fields) => if key in fields then Some(fields[key]) else None
    case _ => None
  }

  /** `.get(key).and_then(|v| v.as_i64())`: an integer field that fits in `i64`. */
  function IntField(stream: Json, key: string): (r: Option<int>)
    ensures r.Some? <==> exists i | I64Min <= i <= I64Max :: Get(stream, key) == Some(JInt(i))
    ensures r.Some? ==> Get(stream, key) == Some(JInt(r.value))
  {
    match Get(stream, key)
    case Some(JInt(i)) => if I64Min <= i <= I64Max then Some(i) else None
    case _ => None
  }

  /** The cast `as i32` applied to an `i64`: keeps the low 32 bits, read as
      two's complement. */
  function ToI32(v: int): (r: int)
    ensures I32Min <= r <= I32Max
    ensures (r - v) % 0x1_0000_0000 == 0
    ensures I32Min <= v <= I32Max ==> r == v
  {
    (v + 0x8000_0000) % 0x1_0000_0000 - 0x8000_0000
  }

  /** `codec_type` is the string `video`. */
  predicate IsVideo(stream: Json)
  {
    Get(stream, "codec_type") == Some(JStr("video"))
  }

  /** `k` is the first video stream of the list. */
  predicate FirstVideoAt(streams: seq<Json>, k: int)
  {
    0 <= k < |streams| && IsVideo(streams[k]) && forall i | 0 <= i < k :: !IsVideo(streams[i])
  }

  /** The outcome once a video stream is found: its width, then its height,
      each a required `i64` cast to `i32`. */
  function StreamDimensions(stream: Json): (r: Result<VideoInfo>)
    ensures r.Ok? <==> IntField(stream, "width").Some? && IntField(stream, "height").Some?
    ensures IntField(stream, "width").None? ==> r == Err(WidthMissing)
    ensures IntField(stream, "width").Some? && IntField(stream, "height").None? ==> r == Err(HeightMissing)
    ensures r.Ok? ==> r.value == VideoInfo(ToI32(IntField(stream, "width").value), ToI32(IntField(stream, "height").value))
  {
    match IntField(stream, "width")
    case None => Err(WidthMissing)
    case Some(w) =>
      match IntField(stream, "height")
      case None => Err(HeightMissing)
      case Some(h) => Ok(VideoInfo(ToI32(w), ToI32(h)))
  }

  /** The loop over `streams`: the first video stream decides the outcome,
      whatever follows it; with no video stream at all the result is an error. */
  function SelectVideo(streams: seq<Json>): (r: Result<VideoInfo>)
    ensures forall k | FirstVideoAt(streams, k) :: r == StreamDimensions(streams[k])
    ensures (forall i | 0 <= i < |streams| :: !IsVideo(streams[i])) ==> r == Err(NoVideoStream)
    ensures r.Ok? ==> exists k :: FirstVideoAt(streams, k)
  {
    if |streams| == 0 then Err(NoVideoStream)
    else if IsVideo(streams[0]) then
      assert FirstVideoAt(streams, 0);
      StreamDimensions(streams[0])
    else
      var r := SelectVideo(streams[1..]);
      assert forall k | FirstVideoAt(streams, k) :: FirstVideoAt(streams[1..], k - 1);
      assert forall k | FirstVideoAt(streams[1..], k) :: FirstVideoAt(streams, k + 1);
      r
  }

  /** Stream `k` is the first video stream and carries an integer width
      and height. */
  predicate Usable(streams: seq<Json>, k: int)
  {
    FirstVideoAt(streams, k) && IntField(streams[k], "width").Some? && IntField(streams[k], "height").Some?
  }

  /** What `get_video_dimensions` promises about a decoded report: with no
      `streams` array the video stream is not found; otherwise the command
      succeeds exactly when the first video stream has an integer width and
      height, and then returns the two cast to `i32`. */
  predicate ReadsDimensions(report: Json, r: Result<VideoInfo>)
  {
    match Get(report, "streams")
    case Some(JArray(items)) =>
      (r.Ok? <==> exists k | 0 <= k < |items| :: Usable(items, k))
      && forall k | 0 <= k < |items| && Usable(items, k) ::
           r == Ok(VideoInfo(ToI32(IntField(items[k], "width").value), ToI32(IntField(items[k], "height").value)))
    case _ => r == Err(NoVideoStream)
  }

  /** The selection succeeds exactly when the first video stream carries
      both dimensions. */
  lemma SelectUsable(streams: seq<Json>)
    ensures SelectVideo(streams).Ok? <==> exists k | 0 <= k < |streams| :: Usable(streams, k)
  {
    if SelectVideo(streams).Ok? {
      var k :| FirstVideoAt(streams, k);
      assert Usable(streams, k);
    }
  }

  /** The whole selection over the decoded report: `streams` must be an array. */
  function VideoDimensions(report: Json): (r: Result<VideoInfo>)
    ensures ReadsDimensions(report, r)
  {
    match Get(report, "streams")
    case Some(JArray(streams)) =>
      SelectUsable(streams);
      SelectVideo(streams)
    case _ => Err(NoVideoStream)
  }

  /** What running ffprobe yields: a failure (the process could not be
      started, its output was not UTF-8 or not JSON), with the message the
      Rust code passes on, or the decoded report. */
  datatype ProbeRun = ProbeFailed(msg: string) | ProbeReport(report: Json)

  /** `get_video_dimensions` given ffprobe's outcome. */
  function GetVideoDimensions(run: ProbeRun): (r: Result<VideoInfo>)
    ensures run.ProbeFailed? ==> r == Err(run.msg)
    ensures run.ProbeReport? ==> ReadsDimensions(run.report, r)
  {
    match run
    case ProbeFailed(msg) => Err(msg)
    case ProbeReport(report) => VideoDimensions(report)
  }

  /** A later, complete video stream does not rescue a first video stream
      that lacks its width. */
  lemma FirstVideoDecides(streams: seq<Json>, k: nat, later: nat)
    requires FirstVideoAt(streams, k) && IntField(streams[k], "width").None?
    requires k < later < |streams| && IsVideo(streams[later])
    requires IntField(streams[later], "width").Some? && IntField(streams[later], "height").Some?
    ensures SelectVideo(streams) == Err(WidthMissing)
    ensures StreamDimensions(streams[later]).Ok?
  {
  }
}
