/** Finding the clips of a folder and putting them in processing order:
    the directory listing is filtered to regular files whose extension is
    one of six video extensions, then optionally shuffled. */
module Discovery {
  import opened Wrappers
  import opened Text

  /** One entry of a directory listing: its file name and whether it is a
      regular file (symbolic links followed). */
  datatype DirEntry = DirEntry(name: string, isFile: bool)

  /** The position of the last `c` in `s`. */
  function LastIndexOf(s: string, c: char): (r: Option<nat>)
    ensures r.Some? ==> r.value < |s| && s[r.value] == c && forall k | r.value < k < |s| :: s[k] != c
    ensures r.None? ==> c !in s
    decreases |s|
  {
    if |s| == 0 then None
    else if s[|s| - 1] == c then Some(|s| - 1)
    else
      var r := LastIndexOf(s[..|s| - 1], c);
      assert s == s[..|s| - 1] + [s[|s| - 1]];
      r
  }

  /** Rust's `Path::extension` on a file name: the text after the last dot,
      unless there is no dot, the only dot is the first character (a hidden
      file such as `.mp4`), or the name is `..`. A trailing dot gives an
      empty extension. */
  function Extension(name: string): (r: Option<string>)
    ensures r.None? <==> name == ".." || forall i | 0 < i < |name| :: name[i] != '.'
    ensures r.Some? ==> |r.value| + 2 <= |name| && name[|name| - |r.value| - 1] == '.'
                        && name[|name| - |r.value|..] == r.value && '.' !in r.value
  {
    if name == ".." then None
    else match LastIndexOf(name, '.')
      case None => None
      case Some(i) =>
        if i == 0 then None
        else
          var ext := name[i + 1..];
          assert forall k | 0 <= k < |ext| :: ext[k] == name[i + 1 + k];
          Some(ext)
  }

  /** A name made of a non-empty stem, a dot and a dot-free suffix has that
      suffix as its extension. */
  lemma ExtensionOf(stem: string, ext: string)
    requires |stem| > 0 && '.' !in ext && stem + "." + ext != ".."
    ensures Extension(stem + "." + ext) == Some(ext)
  {
    var name := stem + "." + ext;
    assert name[|stem|] == '.';
    assert name[|stem| + 1..] == ext;
    var r := Extension(name);
    assert r.Some?;
  }

  /** A hidden file such as `.mp4` has no extension at all. */
  lemma HiddenFileHasNoExtension(ext: string)
    requires '.' !in ext
    ensures Extension("." + ext) == None
  {
    var name := "." + ext;
    forall i | 0 < i < |name| ensures name[i] != '.' {
      assert name[i] == ext[i - 1];
    }
  }

  /** The extensions accepted as video, compared case-sensitively. */
  const VideoExtensions: set<string> := {"mp4", "mov", "avi", "wmv", "flv", "mkv"}

  predicate IsVideoEntry(e: DirEntry)
  {
    e.isFile && Extension(e.name).Some? && Extension(e.name).value in VideoExtensions
  }

  /** The paths of the video entries of `dir`, in listing order. */
  function VideoFiles(dir: string, entries: seq<DirEntry>): (r: seq<string>)
    ensures |r| <= |entries|
  {
    if |entries| == 0 then []
    else
      var rest := VideoFiles(dir, entries[1..]);
      if IsVideoEntry(entries[0]) then [JoinPath(dir, entries[0].name)] + rest else rest
  }

  /** A path is collected exactly when it names a video entry of the listing. */
  lemma {:induction false} VideoFilesMembers(dir: string, entries: seq<DirEntry>, p: string)
    ensures p in VideoFiles(dir, entries) <==> exists i | 0 <= i < |entries| :: IsVideoEntry(entries[i]) && p == JoinPath(dir, entries[i].name)
  {
    if |entries| > 0 {
      VideoFilesMembers(dir, entries[1..], p);
      if exists i | 0 <= i < |entries| :: IsVideoEntry(entries[i]) && p == JoinPath(dir, entries[i].name) {
        var i :| 0 <= i < |entries| && IsVideoEntry(entries[i]) && p == JoinPath(dir, entries[i].name);
        if i > 0 {
          assert entries[1..][i - 1] == entries[i];
        }
      }
      if exists i | 0 <= i < |entries| - 1 :: IsVideoEntry(entries[1..][i]) && p == JoinPath(dir, entries[1..][i].name) {
        var i :| 0 <= i < |entries| - 1 && IsVideoEntry(entries[1..][i]) && p == JoinPath(dir, entries[1..][i].name);
        assert entries[1..][i] == entries[i + 1];
      }
    }
  }

  /** Filtering a listing piece by piece gives the filtered whole, so the
      order of the listing is kept. */
  lemma {:induction false} VideoFilesAppend(dir: string, a: seq<DirEntry>, b: seq<DirEntry>)
    ensures VideoFiles(dir, a + b) == VideoFiles(dir, a) + VideoFiles(dir, b)
  {
    if |a| == 0 {
      assert a + b == b;
    } else {
      assert (a + b)[1..] == a[1..] + b;
      VideoFilesAppend(dir, a[1..], b);
    }
  }

  /** Exchanges two positions. */
  function Swap(s: seq<string>, i: nat, j: nat): (r: seq<string>)
    requires i < |s| && j < |s|
    ensures |r| == |s| && r[i] == s[j] && r[j] == s[i]
    ensures forall k | 0 <= k < |s| && k != i && k != j :: r[k] == s[k]
    ensures multiset(r) == multiset(s)
  {
    if i == j then s
    else
      var r := s[i := s[j]][j := s[i]];
      assert multiset(s[i := s[j]]) == multiset(s) - multiset{s[i]} + multiset{s[j]};
      r
  }

  /** The remaining steps of `SliceRandom::shuffle` (Fisher–Yates from the
      back): for `i` from `k - 1` down to 1, swap position `i` with position
      `draws(i) % (i + 1)`. The random number generator is the oracle `draws`. */
  function ShuffleDown(s: seq<string>, k: nat, draws: nat -> nat): (r: seq<string>)
    requires k <= |s|
    ensures |r| == |s|
    ensures multiset(r) == multiset(s)
    ensures forall i | k <= i < |s| :: r[i] == s[i]
    decreases k
  {
    if k <= 1 then s
    else ShuffleDown(Swap(s, k - 1, draws(k - 1) % k), k - 1, draws)
  }

  /** `video_files.shuffle(&mut thread_rng())`. */
  function Shuffle(s: seq<string>, draws: nat -> nat): (r: seq<string>)
    ensures |r| == |s| && multiset(r) == multiset(s)
  {
    ShuffleDown(s, |s|, draws)
  }

  /** The last position is settled by the first draw: it receives the
      element the draw picks out of the whole list. */
  lemma ShuffleLast(s: seq<string>, draws: nat -> nat)
    requires |s| >= 2
    ensures Shuffle(s, draws)[|s| - 1] == s[draws(|s| - 1) % |s|]
  {
    var t := Swap(s, |s| - 1, draws(|s| - 1) % |s|);
    assert Shuffle(s, draws) == ShuffleDown(t, |s| - 1, draws);
  }

  /** The draw at step `i` picks position `i` itself. */
  predicate Stays(draws: nat -> nat, i: nat)
  {
    draws(i) % (i + 1) == i
  }

  /** Draws that always pick the current position leave the list as it was. */
  lemma {:induction false} ShuffleDownStill(s: seq<string>, k: nat, draws: nat -> nat)
    requires k <= |s|
    requires forall i | 0 < i < k :: Stays(draws, i)
    ensures ShuffleDown(s, k, draws) == s
    decreases k
  {
    if k > 1 {
      assert Stays(draws, k - 1);
      assert Swap(s, k - 1, draws(k - 1) % k) == s;
      ShuffleDownStill(s, k - 1, draws);
    }
  }

  /** The order the clips are processed in: shuffled exactly when the order
      option is the string `random`, otherwise the listing order. */
  function Arrange(files: seq<string>, order: Option<string>, draws: nat -> nat): (r: seq<string>)
    ensures multiset(r) == multiset(files)
    ensures order != Some("random") ==> r == files
  {
    if order == Some("random") then Shuffle(files, draws) else files
  }

  /** The components of a path as `Path::components` yields them on Unix,
      leaving out empty and `.` components. */
  function Components(pieces: seq<string>): (r: seq<string>)
    ensures forall i | 0 <= i < |r| :: r[i] != "" && r[i] != "." && r[i] in pieces
  {
    if |pieces| == 0 then []
    else
      var rest := Components(pieces[1..]);
      assert forall x | x in pieces[1..] :: x in pieces;
      if pieces[0] == "" || pieces[0] == "." then rest else [pieces[0]] + rest
  }

  /** Rust's `Path::file_name` on a Unix path: the last normal component;
      none for a path ending in `..` or with no components. */
  function FileName(path: string): (r: Option<string>)
    ensures r.Some? ==> r.value != "" && r.value != "." && r.value != ".." && '/' !in r.value
  {
    var comps := Components(Split(path, '/'));
    if |comps| == 0 || comps[|comps| - 1] == ".." then None
    else
      assert comps[|comps| - 1] in Split(path, '/');
      Some(comps[|comps| - 1])
  }

  /** `Path::extension` on a whole path. */
  function PathExtension(path: string): Option<string>
  {
    match FileName(path)
    case None => None
    case Some(name) => Extension(name)
  }

  /** The last piece of a split is what follows the last separator. */
  lemma {:induction false} SplitLast(a: string, b: string, sep: char)
    requires sep !in b
    ensures var r := Split(a + [sep] + b, sep); r[|r| - 1] == b
    decreases |a|
  {
    var s := a + [sep] + b;
    if |a| == 0 {
      SplitPrefix(a, b, sep);
      SplitNoSep(b, sep);
    } else {
      assert s[1..] == a[1..] + [sep] + b;
      SplitLast(a[1..], b, sep);
      SplitPrefix([], b, sep);
      assert |Split(s[1..], sep)| >= 2 by {
        assert CountChar(s[1..], sep) >= 1 by { CountOne(a[1..], b, sep); }
      }
    }
  }

  lemma {:induction false} CountOne(a: string, b: string, sep: char)
    ensures CountChar(a + [sep] + b, sep) >= 1
    decreases |a|
  {
    var s := a + [sep] + b;
    if |a| > 0 {
      assert s[1..] == a[1..] + [sep] + b;
      CountOne(a[1..], b, sep);
    }
  }

  lemma ComponentsLast(pieces: seq<string>)
    requires |pieces| > 0 && pieces[|pieces| - 1] != "" && pieces[|pieces| - 1] != "."
    ensures var c := Components(pieces); |c| > 0 && c[|c| - 1] == pieces[|pieces| - 1]
  {
    ComponentsAppend(pieces[..|pieces| - 1], [pieces[|pieces| - 1]]);
    assert pieces == pieces[..|pieces| - 1] + [pieces[|pieces| - 1]];
    assert Components([pieces[|pieces| - 1]]) == [pieces[|pieces| - 1]];
  }

  lemma {:induction false} ComponentsAppend(a: seq<string>, b: seq<string>)
    ensures Components(a + b) == Components(a) + Components(b)
  {
    if |a| == 0 {
      assert a + b == b;
    } else {
      assert (a + b)[1..] == a[1..] + b;
      ComponentsAppend(a[1..], b);
    }
  }

  /** A file joined onto a directory is the file name of the result, so
      the extension check sees the name that was joined. */
  lemma FileNameOfJoin(dir: string, name: string)
    requires name != "" && name != "." && name != ".." && '/' !in name
    ensures FileName(JoinPath(dir, name)) == Some(name)
  {
    var p := JoinPath(dir, name);
    if |dir| == 0 {
      SplitNoSep(name, '/');
      assert p == name;
    } else if dir[|dir| - 1] == '/' {
      var a := dir[..|dir| - 1];
      assert dir == a + ['/'];
      assert p == a + ['/'] + name;
      SplitLast(a, name, '/');
    } else {
      assert p == dir + ['/'] + name;
      SplitLast(dir, name, '/');
    }
    var pieces := Split(p, '/');
    ComponentsLast(pieces);
  }
}
