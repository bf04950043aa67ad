/** `parse_progress`: reading the elapsed time out of one line of ffmpeg's
    diagnostic output, such as `frame=10 time=00:01:05.00 bitrate=...`. */
module Progress {
  import opened Wrappers
  import opened Text

  const TimeMarker := "time="

  /** Where the text after the first `time=` (starting at `start`) ends:
      at the next `time=`, or at the end of the line. */
  function PieceEnd(line: string, start: nat): (r: nat)
    requires start <= |line|
    ensures start <= r <= |line|
    ensures r == |line| || OccursAt(line, TimeMarker, r)
    ensures forall k | start <= k < r :: !OccursAt(line, TimeMarker, k)
  {
    match IndexFrom(line, TimeMarker, start)
    case None => |line|
    case Some(j) => j
  }

  /** `tok` is a space-free word of `line` at `start`, in which no `time=`
      starts, that runs to the end of the line, to a space or to a `time=`. */
  predicate WordAt(line: string, start: nat, tok: string)
  {
    ' ' !in tok && start + |tok| <= |line| && line[start..start + |tok|] == tok
    && (forall k | start <= k < start + |tok| :: !OccursAt(line, TimeMarker, k))
    && (start + |tok| == |line| || line[start + |tok|] == ' ' || OccursAt(line, TimeMarker, start + |tok|))
  }

  /** `WordAt` pins the word down: a line has at most one at each start. */
  lemma WordAtUnique(line: string, start: nat, a: string, b: string)
    requires WordAt(line, start, a) && WordAt(line, start, b)
    ensures a == b
  {
    if |a| < |b| {
      WordGoesOn(line, start, a, b);
      assert false;
    } else if |b| < |a| {
      WordGoesOn(line, start, b, a);
      assert false;
    }
  }

  /** Where a shorter word stops, a longer word at the same start goes on:
      the line continues there with neither a space nor a `time=`. */
  lemma WordGoesOn(line: string, start: nat, a: string, b: string)
    requires WordAt(line, start, b)
    requires |a| < |b|
    ensures start + |a| < |line| && line[start + |a|] != ' ' && !OccursAt(line, TimeMarker, start + |a|)
  {
    assert line[start + |a|] == line[start..start + |b|][|a|] == b[|a|];
  }

  /** `line.split("time=").nth(1)` and then `.split(' ').next()`: the text
      after the first `time=`, cut at the next space or the next `time=`. */
  function TimeToken(line: string): (r: Option<string>)
    ensures r.None? <==> forall k: nat :: !OccursAt(line, TimeMarker, k)
    ensures r.Some? ==> WordAt(line, IndexOf(line, TimeMarker).value + |TimeMarker|, r.value)
  {
    match IndexOf(line, TimeMarker)
    case None => None
    case Some(k) =>
      Some(TokenAt(line, k + |TimeMarker|))
  }

  /** The first word of the text from `start` up to the next `time=`. */
  function TokenAt(line: string, start: nat): (tok: string)
    requires start <= |line|
    ensures WordAt(line, start, tok)
  {
    PieceToken(line, start);
    Split(line[start..PieceEnd(line, start)], ' ')[0]
  }

  lemma PieceToken(line: string, start: nat)
    requires start <= |line|
    ensures WordAt(line, start, Split(line[start..PieceEnd(line, start)], ' ')[0])
  {
    var piece := line[start..PieceEnd(line, start)];
    var tok := Split(piece, ' ')[0];
    FirstPieceEnds(piece, ' ');
    forall i | 0 <= i < |tok| ensures line[start..start + |tok|][i] == tok[i] {
      assert tok[i] == piece[..|tok|][i] == piece[i];
    }
    assert |tok| < |piece| ==> line[start + |tok|] == piece[|tok|];
  }

  /** What Rust's `f32` parser recognises once the sign is removed. */
  datatype Magnitude = Finite(whole: nat) | Infinite | NotANumber

  function LowerAscii(s: string): (r: string)
    ensures |r| == |s|
    ensures forall i | 0 <= i < |s| :: IsDigit(s[i]) ==> r[i] == s[i]
  {
    if |s| == 0 then ""
    else [if 'A' <= s[0] <= 'Z' then (s[0] as int + 32) as char else s[0]] + LowerAscii(s[1..])
  }

  /** Position of the exponent marker `e` or `E`, or `|s|` if there is none. */
  function ExponentStart(s: string): (e: nat)
    ensures e <= |s|
    ensures forall i | 0 <= i < e :: s[i] != 'e' && s[i] != 'E'
    ensures e < |s| ==> s[e] == 'e' || s[e] == 'E'
  {
    if |s| == 0 then 0
    else if s[0] == 'e' || s[0] == 'E' then 0
    else 1 + ExponentStart(s[1..])
  }

  /** An exponent: an optional sign and at least one digit. */
  function ParseExponent(s: string): Option<int>
  {
    var negative := |s| > 0 && s[0] == '-';
    var digits := if |s| > 0 && (s[0] == '+' || s[0] == '-') then s[1..] else s;
    if |digits| == 0 || !AllDigits(digits) then None
    else
      var v: int := DigitsValue(digits);
      Some(if negative then -v else v)
  }

  /** A decimal number `int[.frac][(e|E)exp]` with at least one mantissa digit,
      truncated toward zero. */
  function ParseDecimal(s: string): Option<nat>
  {
    var e := ExponentStart(s);
    var mantissa := Split(s[..e], '.');
    var exponent := if e < |s| then ParseExponent(s[e + 1..]) else Some(0);
    if |mantissa| > 2 || exponent.None? then None
    else
      var whole := mantissa[0];
      var frac := if |mantissa| == 2 then mantissa[1] else "";
      if |whole| + |frac| == 0 || !AllDigits(whole) || !AllDigits(frac) then None
      else
        Some(Truncate(whole, frac, exponent.value))
  }

  /** The value of `whole.frac` times ten to the `exp`, truncated toward zero. */
  function Truncate(whole: string, frac: string, exp: int): nat
    requires AllDigits(whole) && AllDigits(frac)
  {
    DigitsConcat(whole, frac);
    Shift(DigitsValue(whole + frac), exp - |frac|)
  }

  /** `d` times ten to the `scale`, truncated toward zero. */
  function Shift(d: nat, scale: int): nat
  {
    if scale >= 0 then d * Pow10(scale as nat) else Drop(d, Pow10((-scale) as nat))
  }

  function Drop(d: nat, p: nat): nat
    requires p >= 1
  {
    DivNat(d, p);
    d / p
  }

  lemma DivNat(d: nat, p: nat)
    requires p >= 1
    ensures 0 <= d / p <= d
  {
  }

  function ParseMagnitude(body: string): Option<Magnitude>
  {
    var low := LowerAscii(body);
    if low == "inf" || low == "infinity" then Some(Infinite)
    else if low == "nan" then Some(NotANumber)
    else match ParseDecimal(body)
      case None => None
      case Some(v) => Some(Finite(v))
  }

  /** `s.parse::<f32>()` followed by the saturating cast `as u32`: NaN and
      negative values become 0, values beyond the `u32` range become its
      maximum, everything else is truncated toward zero. */
  function ParseSeconds(s: string): (r: Option<nat>)
    ensures r.Some? ==> r.value <= U32Max
    ensures |s| > 0 && s[0] == '-' && r.Some? ==> r.value == 0
  {
    if |s| == 0 then None
    else
      var negative := s[0] == '-';
      var body := if s[0] == '+' || s[0] == '-' then s[1..] else s;
      match ParseMagnitude(body)
      case None => None
      case Some(Finite(v)) => Some(if negative then 0 else if v > U32Max then U32Max else v)
      case Some(Infinite) => Some(if negative then 0 else U32Max)
      case Some(NotANumber) => Some(0)
  }

  /** `parse_progress`: the elapsed seconds `h*3600 + m*60 + s` named by the
      first `time=` token of a line, or `None` when there is no marker, the
      token does not have exactly three `:`-separated fields, or a field
      does not parse. */
  function ParseProgress(line: string): (r: Option<nat>)
    ensures (forall k: nat :: !OccursAt(line, TimeMarker, k)) ==> r.None?
    ensures r.Some? ==> TimeToken(line).Some? && CountChar(TimeToken(line).value, ':') == 2
    ensures r.Some? ==> r.value <= U32Max * 3661
    ensures r.Some? <==> TimeToken(line).Some? && FieldsParse(TimeToken(line).value)
  {
    match TimeToken(line)
    case None => None
    case Some(tok) => ParseToken(tok)
  }

  /** A token has exactly three `:`-separated fields, the first two
      reading as `u32` and the last as `f32`. */
  predicate FieldsParse(tok: string)
  {
    var f := Split(tok, ':');
    |f| == 3 && ParseU32(f[0]).Some? && ParseU32(f[1]).Some? && ParseSeconds(f[2]).Some?
  }

  /** The seconds a `time=` token names, when it has three fields. */
  function ParseToken(tok: string): (r: Option<nat>)
    ensures r.Some? ==> CountChar(tok, ':') == 2 && r.value <= U32Max * 3661
    ensures r.Some? <==> FieldsParse(tok)
  {
    var fields := Split(tok, ':');
    if |fields| != 3 then None
    else ParseClock(fields[0], fields[1], fields[2])
  }

  /** Hours, minutes and seconds to seconds; hours and minutes as `u32`,
      seconds through `f32`. */
  function ParseClock(hours: string, minutes: string, seconds: string): (r: Option<nat>)
    ensures r.Some? ==> r.value <= U32Max * 3661
    ensures r.Some? <==> ParseU32(hours).Some? && ParseU32(minutes).Some? && ParseSeconds(seconds).Some?
  {
    match (ParseU32(hours), ParseU32(minutes), ParseSeconds(seconds))
    case (Some(h), Some(m), Some(s)) => Some(h * 3600 + m * 60 + s)
    case _ => None
  }
}

module ProgressProofs {
  import opened Wrappers
  import opened Text
  import opened Progress

  /** Zero padding to two digits, as ffmpeg prints hours, minutes and seconds. */
  function Pad2(n: nat): (r: string)
    ensures |r| >= 1 && AllDigits(r)
  {
    if n < 10 then "0" + NatToString(n) else NatToString(n)
  }

  /** The `HH:MM:SS.frac` timestamp ffmpeg writes after `time=`. */
  function Stamp(h: nat, m: nat, s: nat, frac: string): string
    requires AllDigits(frac)
  {
    Pad2(h) + ":" + Pad2(m) + ":" + Pad2(s) + "." + frac
  }

  /** `prefix` holds no `time=`, not even one that runs into a `time=` appended to it. */
  predicate MarkerFree(prefix: string)
  {
    forall k | 0 <= k < |prefix| :: !OccursAt(prefix + TimeMarker, TimeMarker, k)
  }

  lemma Pad2Value(n: nat)
    ensures DigitsValue(Pad2(n)) == n
  {
    if n < 10 {
      LeadingZeros(NatToString(n));
    }
  }

  lemma Pad2Parses(n: nat)
    requires n <= U32Max
    ensures ParseU32(Pad2(n)) == Some(n)
  {
    if n < 10 {
      assert Zeros(1) == "0";
      ParseU32RoundTrip(n, 1);
    } else {
      assert Zeros(0) + NatToString(n) == NatToString(n);
      ParseU32RoundTrip(n, 0);
    }
  }

  lemma DivShift(a: nat, b: nat, p: nat)
    requires 1 <= p && b < p
    ensures (a * p + b) / p == a
  {
    var x := a * p + b;
    var q, r := x / p, x % p;
    assert x == q * p + r && 0 <= r < p;
    Distribute(q, a, p);
    MulAtLeast(q - a, p);
    MulAtLeast(a - q, p);
  }

  lemma Distribute(q: int, a: int, p: int)
    ensures q * p == a * p + (q - a) * p
  {
  }

  lemma MulAtLeast(d: int, p: int)
    ensures d >= 1 && p >= 0 ==> d * p >= p
  {
  }

  /** A `seconds.fraction` field reads back as its whole seconds. */
  lemma SecondsParse(s: nat, frac: string)
    requires s <= U32Max && AllDigits(frac)
    ensures ParseSeconds(Pad2(s) + "." + frac) == Some(s)
  {
    var whole := Pad2(s);
    var body := whole + "." + frac;
    assert body[0] == whole[0];
    NotSpecial(body);
    DecimalWithoutExponent(whole, frac);
    TruncateFraction(s, frac);
    assert ParseMagnitude(body) == Some(Finite(s));
  }

  /** A body starting with a digit is neither an infinity nor a NaN. */
  lemma NotSpecial(body: string)
    requires |body| > 0 && IsDigit(body[0])
    ensures var low := LowerAscii(body); low != "inf" && low != "infinity" && low != "nan"
  {
    assert LowerAscii(body)[0] == body[0];
  }

  lemma DecimalWithoutExponent(whole: string, frac: string)
    requires |whole| > 0 && AllDigits(whole) && AllDigits(frac)
    ensures ParseDecimal(whole + "." + frac) == Some(Truncate(whole, frac, 0))
  {
    var body := whole + "." + frac;
    forall i | 0 <= i < |body| ensures body[i] != 'e' && body[i] != 'E' {
      if i < |whole| { assert body[i] == whole[i]; }
      else if i > |whole| { assert body[i] == frac[i - |whole| - 1]; }
    }
    assert ExponentStart(body) == |body|;
    assert body[..|body|] == body;
    SplitTwo(whole, frac, '.');
  }

  lemma SplitTwo(a: string, b: string, sep: char)
    requires sep !in a && sep !in b
    ensures Split(a + [sep] + b, sep) == [a, b]
  {
    assert [a, b][1..] == [b];
    assert Join([a, b], sep) == a + [sep] + b;
    SplitJoin([a, b], sep);
  }

  lemma JoinThree(a: string, b: string, c: string, sep: char)
    ensures Join([a, b, c], sep) == a + [sep] + b + [sep] + c
  {
    assert [a, b, c][1..] == [b, c];
    assert [b, c][1..] == [c];
    assert Join([c], sep) == c;
    assert Join([b, c], sep) == b + [sep] + c;
  }

  lemma TruncateFraction(s: nat, frac: string)
    requires AllDigits(frac)
    ensures Truncate(Pad2(s), frac, 0) == s
  {
    DigitsValueAppend(Pad2(s), frac);
    DigitsValueBound(frac);
    Pad2Value(s);
    DivShift(s, DigitsValue(frac), Pow10(|frac|));
  }

  /** An occurrence of `time=` inside `prefix + time=` is also one in any extension of it. */
  lemma OccursInExtension(a: string, b: string, k: nat)
    requires k + |TimeMarker| <= |a|
    ensures OccursAt(a + b, TimeMarker, k) <==> OccursAt(a, TimeMarker, k)
  {
    assert (a + b)[k..k + |TimeMarker|] == a[k..k + |TimeMarker|];
  }

  /** The token of `prefix time=tok tail` is `tok`, whenever the first `time=`
      is the displayed one, `tok` has no space and no `time=`, and `tail` is empty
      or starts with a space. */
  lemma TokenAfterMarker(prefix: string, tok: string, tail: string)
    requires MarkerFree(prefix)
    requires ' ' !in tok && NoMarkerIn(tok)
    requires |tail| == 0 || tail[0] == ' '
    ensures TimeToken(prefix + TimeMarker + tok + tail) == Some(tok)
  {
    var line := prefix + TimeMarker + tok + tail;
    assert line == prefix + TimeMarker + (tok + tail);
    FirstMarkerAt(prefix, tok + tail);
    WordBeforeTail(line, |prefix| + |TimeMarker|, tok, tail);
  }

  /** After a prefix without `time=`, the marker's first occurrence is the
      displayed one. */
  lemma FirstMarkerAt(prefix: string, rest: string)
    requires MarkerFree(prefix)
    ensures IndexOf(prefix + TimeMarker + rest, TimeMarker) == Some(|prefix|)
  {
    var line := prefix + TimeMarker + rest;
    var head := prefix + TimeMarker;
    assert line == head + rest;
    OccursInExtension(head, rest, |prefix|);
    assert OccursAt(head, TimeMarker, |prefix|);
    forall k | 0 <= k < |prefix| ensures !OccursAt(line, TimeMarker, k) {
      OccursInExtension(head, rest, k);
    }
  }

  /** No `time=` lies wholly inside `tok`. */
  predicate NoMarkerIn(tok: string)
  {
    forall k | 0 <= k < |tok| :: !OccursAt(tok, TimeMarker, k)
  }

  /** Text without a `t` holds no `time=`. */
  lemma NoMarkerWithoutT(tok: string)
    requires 't' !in tok
    ensures NoMarkerIn(tok)
  {
    forall k | 0 <= k < |tok| ensures !OccursAt(tok, TimeMarker, k) {
      NoOccurrenceWithoutHead(tok, TimeMarker, k);
    }
  }

  /** A `time=` of the line that starts inside `tok` (or right after it)
      would have to lie inside `tok` or run into a tail that starts with a
      space. */
  lemma NoMarkerAcross(line: string, start: nat, tok: string, tail: string, j: nat)
    requires start <= |line| && line[start..] == tok + tail
    requires NoMarkerIn(tok)
    requires |tail| == 0 || tail[0] == ' '
    requires start <= j <= start + |tok|
    ensures !OccursAt(line, TimeMarker, j)
  {
    var e := start + |tok|;
    if j + |TimeMarker| <= e {
      assert line[j..j + |TimeMarker|] == tok[j - start..j - start + |TimeMarker|];
      assert !OccursAt(tok, TimeMarker, j - start);
    } else if j + |TimeMarker| <= |line| {
      assert line[e] == line[start..][|tok|] == tail[0] == ' ';
      assert line[j..j + |TimeMarker|][e - j] == ' ' != TimeMarker[e - j];
    }
  }

  /** A word without a space or a `time=`, followed by nothing or by a
      space, is the first word of the text from `start`. */
  lemma WordBeforeTail(line: string, start: nat, tok: string, tail: string)
    requires start <= |line| && line[start..] == tok + tail
    requires ' ' !in tok && NoMarkerIn(tok)
    requires |tail| == 0 || tail[0] == ' '
    ensures Split(line[start..PieceEnd(line, start)], ' ')[0] == tok
  {
    forall j: nat | start <= j <= start + |tok| ensures !OccursAt(line, TimeMarker, j) {
      NoMarkerAcross(line, start, tok, tail, j);
    }
    var piece := line[start..PieceEnd(line, start)];
    if |piece| == |tok| {
      assert piece == tok;
      SplitNoSep(tok, ' ');
    } else {
      assert piece == tok + [' '] + piece[|tok| + 1..];
      FirstPiece(tok, piece[|tok| + 1..], ' ');
    }
  }

  /** Round trip: a line carrying a well-formed timestamp after its first
      `time=` yields that timestamp's whole seconds. */
  lemma ParseProgressOfStamp(prefix: string, h: nat, m: nat, s: nat, frac: string, tail: string)
    requires MarkerFree(prefix)
    requires h <= U32Max && m <= U32Max && s <= U32Max && AllDigits(frac)
    requires |tail| == 0 || tail[0] == ' '
    ensures ParseProgress(prefix + TimeMarker + Stamp(h, m, s, frac) + tail) == Some(h * 3600 + m * 60 + s)
  {
    var stamp := Stamp(h, m, s, frac);
    StampIsToken(h, m, s, frac);
    NoMarkerWithoutT(stamp);
    TokenAfterMarker(prefix, stamp, tail);
    var fields := [Pad2(h), Pad2(m), Pad2(s) + "." + frac];
    StampFields(h, m, s, frac);
    Pad2Parses(h);
    Pad2Parses(m);
    SecondsParse(s, frac);
    FromFields(prefix + TimeMarker + stamp + tail, stamp, fields, h, m, s);
  }

  /** The three `:`-separated fields of a timestamp. */
  lemma StampFields(h: nat, m: nat, s: nat, frac: string)
    requires AllDigits(frac)
    ensures Split(Stamp(h, m, s, frac), ':') == [Pad2(h), Pad2(m), Pad2(s) + "." + frac]
  {
    var fields := [Pad2(h), Pad2(m), Pad2(s) + "." + frac];
    JoinThree(Pad2(h), Pad2(m), Pad2(s) + "." + frac, ':');
    NoColon(Pad2(h), "");
    NoColon(Pad2(m), "");
    NoColon(Pad2(s), frac);
    assert Join(fields, ':') == Stamp(h, m, s, frac);
    assert forall i | 0 <= i < |fields| :: ':' !in fields[i];
    SplitJoin(fields, ':');
  }

  lemma FromFields(line: string, tok: string, fields: seq<string>, h: nat, m: nat, s: nat)
    requires TimeToken(line) == Some(tok) && Split(tok, ':') == fields && |fields| == 3
    requires ParseU32(fields[0]) == Some(h) && ParseU32(fields[1]) == Some(m)
    requires ParseSeconds(fields[2]) == Some(s)
    ensures ParseProgress(line) == Some(h * 3600 + m * 60 + s)
  {
    ClockOfFields(fields, h, m, s);
    assert ParseToken(tok) == Some(h * 3600 + m * 60 + s);
  }

  lemma ClockOfFields(fields: seq<string>, h: nat, m: nat, s: nat)
    requires |fields| == 3
    requires ParseU32(fields[0]) == Some(h) && ParseU32(fields[1]) == Some(m)
    requires ParseSeconds(fields[2]) == Some(s)
    ensures ParseClock(fields[0], fields[1], fields[2]) == Some(h * 3600 + m * 60 + s)
  {
  }

  lemma StampIsToken(h: nat, m: nat, s: nat, frac: string)
    requires AllDigits(frac)
    ensures ' ' !in Stamp(h, m, s, frac) && 't' !in Stamp(h, m, s, frac)
  {
    forall i | 0 <= i < |Stamp(h, m, s, frac)|
      ensures Stamp(h, m, s, frac)[i] != ' ' && Stamp(h, m, s, frac)[i] != 't'
    {
      StampChars(h, m, s, frac, i);
    }
  }

  lemma NoColon(a: string, b: string)
    requires AllDigits(a) && AllDigits(b)
    ensures ':' !in a && ':' !in a + "." + b
  {
    var x := a + "." + b;
    forall k | 0 <= k < |x| ensures x[k] != ':' {
      if k < |a| { assert x[k] == a[k]; }
      else if k > |a| { assert x[k] == b[k - |a| - 1]; }
    }
  }

  lemma StampChars(h: nat, m: nat, s: nat, frac: string, i: nat)
    requires AllDigits(frac) && i < |Stamp(h, m, s, frac)|
    ensures var c := Stamp(h, m, s, frac)[i]; c == ':' || c == '.' || IsDigit(c)
  {
    var a, b, c := Pad2(h), Pad2(m), Pad2(s);
    var st := Stamp(h, m, s, frac);
    assert st == a + ":" + b + ":" + c + "." + frac;
    if i < |a| { assert st[i] == a[i]; }
    else if i == |a| { }
    else if i < |a| + 1 + |b| { assert st[i] == b[i - |a| - 1]; }
    else if i == |a| + 1 + |b| { }
    else if i < |a| + 2 + |b| + |c| { assert st[i] == c[i - |a| - |b| - 2]; }
    else if i == |a| + 2 + |b| + |c| { }
    else { assert st[i] == frac[i - |a| - |b| - |c| - 3]; }
  }

  lemma ExampleStamp()
    ensures Stamp(0, 1, 5, "00") == "00:01:05.00"
  {
    assert NatToString(0) == "0" && NatToString(1) == "1" && NatToString(5) == "5";
    assert Pad2(0) == "00" && Pad2(1) == "01" && Pad2(5) == "05";
  }

  /** The worked example: `frame=10 time=00:01:05.00 bitrate=...` is 65 seconds in. */
  lemma ExampleLine(line: string)
    requires line == "frame=10 time=00:01:05.00 bitrate=..."
    ensures ParseProgress(line) == Some(65)
  {
    ExampleSplit(line);
    ExampleParts(line, "frame=10 ", "00", " bitrate=...");
  }

  lemma ExampleSplit(line: string)
    requires line == "frame=10 time=00:01:05.00 bitrate=..."
    ensures line == "frame=10 " + TimeMarker + Stamp(0, 1, 5, "00") + " bitrate=..."
  {
    ExampleStamp();
  }

  lemma ExampleParts(line: string, prefix: string, frac: string, tail: string)
    requires prefix == "frame=10 " && frac == "00" && tail == " bitrate=..."
    requires line == prefix + TimeMarker + Stamp(0, 1, 5, frac) + tail
    ensures ParseProgress(line) == Some(65)
  {
    forall k | 0 <= k < |prefix| ensures !OccursAt(prefix + TimeMarker, TimeMarker, k) {
      NoOccurrenceWithoutHead(prefix + TimeMarker, TimeMarker, k);
    }
    ParseProgressOfStamp(prefix, 0, 1, 5, frac, tail);
  }
}
