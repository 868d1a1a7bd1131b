/**
 * clean.py: one pass over the files a glob pattern lists. A file tagged as
 * encoded by Beatport is renamed, in its own folder, after its tag; any
 * other file is renamed to its stem with bracketed single characters
 * removed, its artist and title are read from that name, and unless its
 * bitrate is too low they are written into its tag.
 *
 * The filesystem is a map from path to what eyed3.load gives for the file
 * there (None for a file it cannot read); a path missing from the map
 * cannot be loaded either.
 */
module Clean {
  import opened Wrappers
  import opened Text
  import opened Paths

  // ---------------------------------------------------------------- the pattern \[+.\]+

  /** How many copies of c open s. */
  function LeadingRun(s: string, c: char): (n: nat)
    ensures n <= |s|
    ensures forall i :: 0 <= i < n ==> s[i] == c
    ensures n < |s| ==> s[n] != c
  {
    if s == [] || s[0] != c then 0 else 1 + LeadingRun(s[1..], c)
  }

  /** g is one match of \[+.\]+: one or more "[", one character other than a newline, one or more "]". */
  ghost predicate IsGroup(g: string) {
    exists k :: 1 <= k && k + 2 <= |g| && g[k] != '\n'
      && (forall j :: 0 <= j < k ==> g[j] == '[')
      && (forall j :: k + 1 <= j < |g| ==> g[j] == ']')
  }

  /**
   * The length of the match of \[+.\]+ that re.sub takes at the start of s:
   * the greedy "[" run gives back at most one "[" to the single character.
   */
  function BracketGroup(s: string): (r: Option<nat>)
    ensures r.Some? ==> 3 <= r.value <= |s| && s[0] == '[' && s[r.value - 1] == ']'
    ensures (s == [] || s[0] != '[') ==> r.None?
  {
    var m := LeadingRun(s, '[');
    if m == 0 then None
    else if m + 1 < |s| && s[m] != '\n' && s[m + 1] == ']' then Some(m + 1 + LeadingRun(s[m + 1..], ']'))
    else if 2 <= m < |s| && s[m] == ']' then Some(m + LeadingRun(s[m..], ']'))
    else None
  }

  /** The greedy match is a match. */
  lemma BracketGroupMatches(s: string)
    requires BracketGroup(s).Some?
    ensures IsGroup(s[..BracketGroup(s).value])
  {
    var n := BracketGroup(s).value;
    var g := s[..n];
    var m := LeadingRun(s, '[');
    if m + 1 < |s| && s[m] != '\n' && s[m + 1] == ']' {
      var t := s[m + 1..];
      assert forall j :: m + 1 <= j < n ==> g[j] == t[j - (m + 1)];
      assert g[m] != '\n';
    } else {
      var t := s[m..];
      assert forall j :: m <= j < n ==> g[j] == t[j - m];
      assert g[m - 1] == '[';
    }
  }

  /** A run of k copies of c at the start of s is within the leading run. */
  lemma LeadingRunAtLeast(s: string, c: char, k: nat)
    requires k <= |s| && forall j :: 0 <= j < k ==> s[j] == c
    ensures k <= LeadingRun(s, c)
  {
  }

  /** No longer prefix of s matches: the greedy match is the longest one. */
  lemma BracketGroupIsLongest(s: string, n: nat)
    requires n <= |s| && IsGroup(s[..n])
    ensures BracketGroup(s).Some? && n <= BracketGroup(s).value
  {
    var g := s[..n];
    var k :| 1 <= k && k + 2 <= |g| && g[k] != '\n'
      && (forall j :: 0 <= j < k ==> g[j] == '[')
      && (forall j :: k + 1 <= j < |g| ==> g[j] == ']');
    forall j | 0 <= j < k ensures s[j] == '[' {
      assert s[j] == g[j];
    }
    forall j | k + 1 <= j < n ensures s[j] == ']' {
      assert s[j] == g[j];
    }
    assert s[k] != '\n' by {
      assert s[k] == g[k];
    }
    LeadingRunAtLeast(s, '[', k);
    var m := LeadingRun(s, '[');
    assert s[k + 1] == ']';
    assert m <= k + 1;
    if m + 1 < |s| && s[m] != '\n' && s[m + 1] == ']' {
      var t := s[m + 1..];
      forall j | 0 <= j < n - m - 1 ensures t[j] == ']' {
        assert t[j] == s[m + 1 + j];
      }
      LeadingRunAtLeast(t, ']', n - m - 1);
    } else {
      assert m == k + 1;
      var t := s[m..];
      forall j | 0 <= j < n - m ensures t[j] == ']' {
        assert t[j] == s[m + j];
      }
      LeadingRunAtLeast(t, ']', n - m);
    }
  }

  /** re.sub("\\[+.\\]+", "", s): every leftmost match removed, scanning left to right. */
  function RemoveBracketed(s: string): (r: string)
    ensures |r| <= |s|
    ensures (forall i :: 0 <= i < |s| ==> s[i] != '[') ==> r == s
    decreases |s|
  {
    if s == [] then []
    else match BracketGroup(s)
      case Some(n) => RemoveBracketed(s[n..])
      case None => [s[0]] + RemoveBracketed(s[1..])
  }

  lemma LeadingRunOne(s: string, c: char)
    requires |s| >= 1 && s[0] == c && (|s| == 1 || s[1] != c)
    ensures LeadingRun(s, c) == 1
  {
    assert LeadingRun(s[1..], c) == 0 by {
      if |s| > 1 {
        assert s[1..][0] == s[1];
      }
    }
  }

  /** "[", one character other than a newline, and a single "]" make a match of length 3. */
  lemma BracketedCharacterIsGroup(s: string)
    requires |s| >= 3 && s[0] == '[' && s[1] != '\n' && s[2] == ']'
    requires |s| == 3 || s[3] != ']'
    ensures BracketGroup(s) == Some(3)
  {
    var t := s[2..];
    assert t[0] == ']' && (|t| == 1 || t[1] == s[3]);
    LeadingRunOne(t, ']');
    if s[1] == '[' {
      assert s[1..][1] == s[2];
      LeadingRunOne(s[1..], '[');
      assert LeadingRun(s, '[') == 2;
    } else {
      LeadingRunOne(s, '[');
    }
  }

  /** A match at the start of the text is dropped. */
  lemma RemovesLeadingGroup(s: string)
    requires |s| >= 3 && s[0] == '[' && s[1] != '\n' && s[2] == ']'
    requires |s| == 3 || s[3] != ']'
    ensures RemoveBracketed(s) == RemoveBracketed(s[3..])
  {
    BracketedCharacterIsGroup(s);
  }

  /** Text that does not open with "[" keeps its first character. */
  lemma RemoveBracketedSkips(s: string)
    requires s != [] && s[0] != '['
    ensures RemoveBracketed(s) == [s[0]] + RemoveBracketed(s[1..])
  {
  }

  /** re.sub copies a stretch without "[" unchanged. */
  lemma {:induction false} RemovePlainPrefix(s: string, i: nat)
    requires i <= |s| && forall j :: 0 <= j < i ==> s[j] != '['
    ensures RemoveBracketed(s) == s[..i] + RemoveBracketed(s[i..])
  {
    if i > 0 {
      var tail := s[1..];
      forall j | 0 <= j < i - 1 ensures tail[j] != '[' {
        assert tail[j] == s[j + 1];
      }
      RemovePlainPrefix(tail, i - 1);
      assert tail[i - 1..] == s[i..];
      assert tail[..i - 1] == s[1..i];
      PlainPrefixStep(s, i, RemoveBracketed(s[i..]));
    }
  }

  lemma PlainPrefixStep(s: string, i: nat, rest: string)
    requires 0 < i <= |s| && s[0] != '['
    requires RemoveBracketed(s[1..]) == s[1..i] + rest
    ensures RemoveBracketed(s) == s[..i] + rest
  {
    RemoveBracketedSkips(s);
    ConsBeforeSlice(s, i, RemoveBracketed(s[1..]), s[1..i], rest, rest);
  }

  /** A single bracketed character after text without "[" is removed, and only it. */
  lemma RemovesBracketedCharacter(s: string, i: nat)
    requires i + 3 <= |s| && s[i] == '[' && s[i + 1] != '\n' && s[i + 2] == ']'
    requires i + 3 == |s| || s[i + 3] != ']'
    requires forall j :: 0 <= j < i ==> s[j] != '['
    ensures RemoveBracketed(s) == s[..i] + RemoveBracketed(s[i + 3..])
  {
    RemovePlainPrefix(s, i);
    var u := s[i..];
    assert u[0] == '[' && u[1] == s[i + 1] && u[2] == ']';
    assert |u| == 3 || u[3] == s[i + 3];
    RemovesLeadingGroup(u);
    assert u[3..] == s[i + 3..];
  }



  // ---------------------------------------------------------------- names

  /** What eyed3 reads from a tag; None where the frame is absent. */
  datatype Tag = Tag(encodedBy: Option<string>, artist: Option<string>, title: Option<string>)

  /** A file eyed3 loaded: its tag, if any, and its bitrate in kbps. */
  datatype Mp3 = Mp3(tag: Option<Tag>, bitrate: int)

  type FileSystem = map<string, Option<Mp3>>

  /** The new path of a Beatport file: artist + " - " + title + ".mp3" in the file's folder. */
  function BeatportTarget(f: string, artist: string, title: string): string {
    PathJoin(DirName(f), artist + " - " + title + ".mp3")
  }

  lemma NoSlashInName(artist: string, title: string)
    requires '/' !in artist && '/' !in title
    ensures '/' !in artist + " - " + title + ".mp3"
  {
    assert '/' !in " - " && '/' !in ".mp3";
  }

  /** A Beatport file keeps its folder and takes the name made from its tag. */
  lemma BeatportTargetKeepsFolder(f: string, artist: string, title: string)
    requires '/' !in artist && '/' !in title
    ensures BeatportTarget(f, artist, title) == FolderPrefix(DirName(f)) + (artist + " - " + title + ".mp3")
    ensures BaseName(BeatportTarget(f, artist, title)) == artist + " - " + title + ".mp3"
  {
    var name := artist + " - " + title + ".mp3";
    NoSlashInName(artist, title);
    JoinedBaseName(DirName(f), name);
  }

  /** The name any other file is renamed to: its stem, bracketed single characters removed. */
  function CleanedName(f: string): string {
    RemoveBracketed(SplitExt(BaseName(f)).0)
  }

  /** os.rename: the file at src is now at dst, replacing what was there; nothing else moves. */
  function Renamed(fs: FileSystem, src: string, dst: string): (r: FileSystem)
    requires src in fs
    ensures dst in r && r[dst] == fs[src]
    ensures src != dst ==> src !in r
    ensures forall p :: p != src && p != dst ==> (p in r <==> p in fs) && (p in r ==> r[p] == fs[p])
  {
    (fs - {src})[dst := fs[src]]
  }

  /**
   * os.rename(src, dst) succeeds: dst is not empty and its folder exists,
   * being the current directory (dst has no "/"), the folder src is in, or
   * one of the existing folders.
   */
  predicate CanRename(folders: set<string>, src: string, dst: string) {
    dst != [] && (DirName(dst) == [] || DirName(dst) == DirName(src) || DirName(dst) in folders)
  }

  /** Setting the tag's artist and title and saving it: only that file's tag changes. */
  function Retagged(fs: FileSystem, p: string, artist: string, title: string): (r: FileSystem)
    requires p in fs && fs[p].Some? && fs[p].value.tag.Some?
    ensures p in r && r[p].Some? && r[p].value.tag.Some?
    ensures r[p].value.bitrate == fs[p].value.bitrate
    ensures r[p].value.tag.value.artist == Some(artist) && r[p].value.tag.value.title == Some(title)
    ensures r[p].value.tag.value.encodedBy == fs[p].value.tag.value.encodedBy
    ensures forall q :: q != p ==> (q in r <==> q in fs) && (q in r ==> r[q] == fs[q])
  {
    var file := fs[p].value;
    fs[p := Some(file.(tag := Some(file.tag.value.(artist := Some(artist), title := Some(title)))))]
  }

  /**
   * tag.save() as the code calls it after the rename: eyed3 writes to the
   * path it loaded the file from. Where that path holds no tagged file any
   * more, opening it raises (FileNotFoundError); otherwise that file's tag
   * takes the artist and title.
   */
  function SaveToLoadedPath(fs: FileSystem, loaded: string, artist: string, title: string): (r: (FileSystem, bool))
    ensures r.1 <==> !(loaded in fs && fs[loaded].Some? && fs[loaded].value.tag.Some?)
    ensures r.1 ==> r.0 == fs
    ensures !r.1 ==> r.0 == Retagged(fs, loaded, artist, title)
  {
    if loaded in fs && fs[loaded].Some? && fs[loaded].value.tag.Some? then (Retagged(fs, loaded, artist, title), false)
    else (fs, true)
  }

  /**
   * Saving as the code does fails for every plain file that the rename
   * moved: the file eyed3 loaded is no longer where it was loaded from.
   */
  lemma StaleSaveRaises(st: State, f: string, artist: string, title: string)
    requires IsPlain(st.fs, f) && CleanedName(f) != f
    ensures SaveToLoadedPath(Renamed(st.fs, f, CleanedName(f)), f, artist, title).1
  {
    var moved := Renamed(st.fs, f, CleanedName(f));
    assert f !in moved;
  }

  // ---------------------------------------------------------------- the loop

  /** The bitrate classes of the loop: a warning below 320 kbps, an error and no tag change below 192. */
  datatype Grade = Fine | Warned | Rejected

  function GradeOf(bitrate: int): (g: Grade)
    ensures g != Fine <==> bitrate < 320
    ensures g == Rejected <==> bitrate < 192
  {
    if bitrate < 192 then Rejected else if bitrate < 320 then Warned else Fine
  }

  /**
   * The state the loop carries: the files, the folders that exist (the loop
   * creates none), the printed warnings and the collected errors, each with
   * a bitrate.
   */
  datatype State = State(fs: FileSystem, folders: set<string>, warnings: seq<(string, int)>, errors: seq<(string, int)>)

  /** The file loads, has a tag, and that tag does not say Beatport. */
  predicate IsPlain(fs: FileSystem, f: string) {
    f in fs && fs[f].Some? && fs[f].value.tag.Some? && fs[f].value.tag.value.encodedBy != Some("Beatport")
  }

  /**
   * One iteration for the file f. The flag is set where the iteration
   * raises: the file does not load or has no tag (AttributeError), a
   * Beatport tag lacks artist or title (TypeError), os.rename cannot move
   * the file (FileNotFoundError: an empty cleaned name, or a Beatport name
   * whose "/" puts it in a folder that does not exist), or the cleaned name
   * has no " - " to split at (ValueError, after the rename).
   */
  function Step(st: State, f: string): (r: (State, bool))
    ensures r.0.warnings != st.warnings ==>
      IsPlain(st.fs, f) && st.fs[f].value.bitrate < 320 && r.0.warnings == st.warnings + [(f, st.fs[f].value.bitrate)]
    ensures r.0.errors != st.errors ==>
      IsPlain(st.fs, f) && st.fs[f].value.bitrate < 192 && r.0.errors == st.errors + [(f, st.fs[f].value.bitrate)]
  {
    if f !in st.fs || st.fs[f].None? || st.fs[f].value.tag.None? then (st, true)
    else
      var file := st.fs[f].value;
      var tag := file.tag.value;
      if tag.encodedBy == Some("Beatport") then
        if tag.artist.None? || tag.title.None? then (st, true)
        else
          var target := BeatportTarget(f, tag.artist.value, tag.title.value);
          if !CanRename(st.folders, f, target) then (st, true)
          else (st.(fs := Renamed(st.fs, f, target)), false)
      else
        var cleaned := CleanedName(f);
        if !CanRename(st.folders, f, cleaned) then (st, true)
        else
        var fs := Renamed(st.fs, f, cleaned);
        match SplitAtLast(cleaned, " - ")
        case None => (st.(fs := fs), true)
        case Some((artist, title)) =>
          var grade := GradeOf(file.bitrate);
          var warnings := if grade != Fine then st.warnings + [(f, file.bitrate)] else st.warnings;
          if grade == Rejected then (State(fs, st.folders, warnings, st.errors + [(f, file.bitrate)]), false)
          else (State(Retagged(fs, cleaned, artist, title), st.folders, warnings, st.errors), false)
  }

  /**
   * A Beatport file is only moved: no warning, no error, no tag change. The
   * iteration raises without artist or title, or where the new name cannot
   * be moved to.
   */
  lemma BeatportStep(st: State, f: string)
    requires f in st.fs && st.fs[f].Some? && st.fs[f].value.tag.Some?
    requires st.fs[f].value.tag.value.encodedBy == Some("Beatport")
    ensures var tag := st.fs[f].value.tag.value;
      var r := Step(st, f);
      (r.1 <==> tag.artist.None? || tag.title.None?
                || !CanRename(st.folders, f, BeatportTarget(f, tag.artist.value, tag.title.value)))
      && (r.1 ==> r.0 == st)
      && (!r.1 ==> r.0 == st.(fs := Renamed(st.fs, f, BeatportTarget(f, tag.artist.value, tag.title.value))))
  {
  }

  /**
   * A Beatport artist a1 + "/" + a2 puts the new name in the folder a1 below
   * the file's own; where that folder does not exist the iteration raises
   * and changes nothing.
   */
  lemma SlashInArtistRaises(st: State, f: string, a1: string, a2: string, title: string)
    requires f in st.fs && st.fs[f].Some? && st.fs[f].value.tag == Some(Tag(Some("Beatport"), Some(a1 + "/" + a2), Some(title)))
    requires a1 != [] && a1[0] != '/' && a1[|a1| - 1] != '/'
    requires '/' !in a2 && '/' !in title
    requires FolderPrefix(DirName(f)) + a1 !in st.folders
    ensures Step(st, f) == (st, true)
  {
    var target := BeatportTarget(f, a1 + "/" + a2, title);
    TargetBelowFolder(DirName(f), a1, a2, title);
    assert DirName(target) == FolderPrefix(DirName(f)) + a1;
    assert |DirName(target)| > |DirName(f)|;
  }

  /** The folder of folder/(a1 + "/" + a2 + " - " + title + ".mp3") is folder/a1. */
  lemma TargetBelowFolder(folder: string, a1: string, a2: string, title: string)
    requires a1 != [] && a1[0] != '/' && a1[|a1| - 1] != '/'
    requires '/' !in a2 && '/' !in title
    ensures DirName(PathJoin(folder, a1 + "/" + a2 + " - " + title + ".mp3")) == FolderPrefix(folder) + a1
  {
    var name := a1 + "/" + a2 + " - " + title + ".mp3";
    assert name[0] == a1[0];
    JoinIsPrefixed(folder, name);
    var x := FolderPrefix(folder);
    var p := x + name;
    var j := |x| + |a1|;
    var tail := a2 + " - " + title + ".mp3";
    assert name == a1 + "/" + tail;
    assert '/' !in tail by { assert '/' !in " - " && '/' !in ".mp3"; }
    forall m | j < m < |p| ensures p[m] != '/' {
      assert p[m] == tail[m - j - 1];
    }
    assert p[j] == '/' && p[j - 1] == a1[|a1| - 1];
    DirNameAt(p, j);
    assert p[..j] == x + a1;
  }

  /** The stem of "[a].mp3" is one bracketed group: the cleaned name is empty and moving the file there raises. */
  lemma BracketedStemRaises(st: State)
    requires IsPlain(st.fs, "[a].mp3")
    ensures CleanedName("[a].mp3") == []
    ensures Step(st, "[a].mp3") == (st, true)
  {
    var f := "[a].mp3";
    assert '/' !in f;
    assert BaseName(f) == f;
    assert NameStart(f) == 0 && f[0..] == f;
    assert LastIndexOf(f, '.') == Some(3);
    assert !AllDots(f[0..3]) by { assert f[0..3][0] == '['; }
    assert SplitExt(f).0 == "[a]";
    RemovesLeadingGroup("[a]");
  }

  /**
   * Any other file is renamed to its cleaned name, which must split at a
   * last " - " into artist and title; the bitrate decides the warning, the
   * error, and whether the renamed file's tag takes that artist and title.
   */
  lemma PlainStep(st: State, f: string)
    requires IsPlain(st.fs, f)
    ensures var r := Step(st, f);
      var cleaned := CleanedName(f);
      var b := st.fs[f].value.bitrate;
      (r.1 <==> !CanRename(st.folders, f, cleaned) || !Contains(cleaned, " - "))
      && (!CanRename(st.folders, f, cleaned) ==> r.0 == st)
      && (CanRename(st.folders, f, cleaned) ==> cleaned in r.0.fs)
      && (CanRename(st.folders, f, cleaned) && r.1 ==> r.0.fs == Renamed(st.fs, f, cleaned))
      && (!r.1 ==>
            var parts := SplitAtLast(cleaned, " - ").value;
            parts.0 + " - " + parts.1 == cleaned && !Contains(parts.1, " - ")
            && (r.0.warnings == st.warnings + [(f, b)] <==> b < 320)
            && (r.0.errors == st.errors + [(f, b)] <==> b < 192)
            && (b < 192 ==> r.0.fs == Renamed(st.fs, f, cleaned))
            && (192 <= b ==> r.0.fs == Retagged(Renamed(st.fs, f, cleaned), cleaned, parts.0, parts.1)))
  {
    var r := Step(st, f);
    var b := st.fs[f].value.bitrate;
    assert r.0.warnings == st.warnings + [(f, b)] ==> b < 320 by {
      if 320 <= b && !r.1 {
        assert |r.0.warnings| == |st.warnings|;
      }
    }
    assert r.0.errors == st.errors + [(f, b)] ==> b < 192 by {
      if 192 <= b && !r.1 {
        assert |r.0.errors| == |st.errors|;
      }
    }
  }

  /** The loop run over the first files: the state it leaves and whether it raised. */
  function Run(files: seq<string>, st: State): (State, bool) {
    if files == [] then (st, false)
    else
      var prev := Run(files[..|files| - 1], st);
      if prev.1 then prev else Step(prev.0, files[|files| - 1])
  }

  lemma RunStep(files: seq<string>, st: State, i: nat)
    requires i < |files|
    ensures Run(files[..i + 1], st)
         == var prev := Run(files[..i], st);
            if prev.1 then prev else Step(prev.0, files[i])
  {
    assert files[..i + 1][..i] == files[..i];
  }

  lemma {:induction false} RunStops(files: seq<string>, st: State, i: nat)
    requires i <= |files| && Run(files[..i], st).1
    ensures Run(files, st) == Run(files[..i], st)
    decreases |files| - i
  {
    if i < |files| {
      RunStep(files, st, i);
      RunStops(files, st, i + 1);
    } else {
      assert files[..i] == files;
    }
  }

  /** The initial state of the loop: the files and folders, nothing reported yet. */
  function Start(fs: FileSystem, folders: set<string>): State {
    State(fs, folders, [], [])
  }

  /** main's loop, printing the errors at the end is the caller's part. */
  method CleanFiles(files: seq<string>, fs0: FileSystem, folders: set<string>)
    returns (fs: FileSystem, warnings: seq<(string, int)>, errors: seq<(string, int)>, crashed: bool)
    ensures (State(fs, folders, warnings, errors), crashed) == Run(files, Start(fs0, folders))
  {
    fs, warnings, errors := fs0, [], [];
    var i := 0;
    while i < |files|
      invariant 0 <= i <= |files|
      invariant Run(files[..i], Start(fs0, folders)) == (State(fs, folders, warnings, errors), false)
    {
      RunStep(files, Start(fs0, folders), i);
      var f := files[i];
      if f !in fs || fs[f].None? || fs[f].value.tag.None? {
        RunStops(files, Start(fs0, folders), i + 1);
        return fs, warnings, errors, true;
      }
      var file := fs[f].value;
      var tag := file.tag.value;
      if tag.encodedBy == Some("Beatport") {
        if tag.artist.None? || tag.title.None? {
          RunStops(files, Start(fs0, folders), i + 1);
          return fs, warnings, errors, true;
        }
        var target := BeatportTarget(f, tag.artist.value, tag.title.value);
        if !CanRename(folders, f, target) {
          RunStops(files, Start(fs0, folders), i + 1);
          return fs, warnings, errors, true;
        }
        fs := Renamed(fs, f, target);
      } else {
        var cleaned := CleanedName(f);
        if !CanRename(folders, f, cleaned) {
          RunStops(files, Start(fs0, folders), i + 1);
          return fs, warnings, errors, true;
        }
        fs := Renamed(fs, f, cleaned);
        var parts := SplitAtLast(cleaned, " - ");
        if parts.None? {
          RunStops(files, Start(fs0, folders), i + 1);
          return fs, warnings, errors, true;
        }
        var (artist, title) := parts.value;
        var grade := GradeOf(file.bitrate);
        if grade != Fine {
          warnings := warnings + [(f, file.bitrate)];
        }
        if grade == Rejected {
          errors := errors + [(f, file.bitrate)];
        } else {
          fs := Retagged(fs, cleaned, artist, title);
        }
      }
      i := i + 1;
    }
    assert files[..i] == files;
    crashed := false;
  }

  /** a is an initial part of b. */
  predicate IsPrefix<T(==)>(a: seq<T>, b: seq<T>) {
    |a| <= |b| && b[..|a|] == a
  }

  /** The reports of later start with those of earlier. */
  predicate Extends(later: State, earlier: State) {
    IsPrefix(earlier.errors, later.errors) && IsPrefix(earlier.warnings, later.warnings)
  }

  lemma ExtendsTransitive(a: State, b: State, c: State)
    requires Extends(b, a) && Extends(c, b)
    ensures Extends(c, a)
  {
    assert c.errors[..|a.errors|] == c.errors[..|b.errors|][..|a.errors|];
    assert c.warnings[..|a.warnings|] == c.warnings[..|b.warnings|][..|a.warnings|];
  }

  lemma StepExtends(st: State, f: string)
    ensures Extends(Step(st, f).0, st)
  {
    var x := if f in st.fs && st.fs[f].Some? then (f, st.fs[f].value.bitrate) else (f, 0);
    AppendExtends(st, Step(st, f).0, x);
  }

  /** Reports that are kept or grow by one entry extend the earlier ones. */
  lemma AppendExtends(st: State, r: State, x: (string, int))
    requires r.warnings != st.warnings ==> r.warnings == st.warnings + [x]
    requires r.errors != st.errors ==> r.errors == st.errors + [x]
    ensures Extends(r, st)
  {
    if r.errors != st.errors {
      assert r.errors[..|st.errors|] == st.errors;
    }
    if r.warnings != st.warnings {
      assert r.warnings[..|st.warnings|] == st.warnings;
    }
  }

  /** What was reported after the first files stays, in order, at the head of the final reports. */
  lemma {:induction false} ReportsOnlyGrow(files: seq<string>, st: State, i: nat)
    requires i <= |files|
    ensures Extends(Run(files, st).0, Run(files[..i], st).0)
    decreases |files| - i
  {
    if i == |files| {
      assert files[..i] == files;
    } else {
      RunStep(files, st, i);
      ReportsOnlyGrow(files, st, i + 1);
      var early := Run(files[..i], st);
      if !early.1 {
        StepExtends(early.0, files[i]);
      }
      ExtendsTransitive(early.0, Run(files[..i + 1], st).0, Run(files, st).0);
    }
  }

  /** From index from on, every error names one of files and a bitrate below 192. */
  predicate ErrorsFrom(errors: seq<(string, int)>, from: nat, files: seq<string>) {
    forall k :: from <= k < |errors| ==> errors[k].0 in files && errors[k].1 < 192
  }

  /** Every error the run adds names one of the files, with a bitrate below 192. */
  lemma {:induction false} ErrorsNameFiles(files: seq<string>, st: State)
    ensures Extends(Run(files, st).0, st)
    ensures ErrorsFrom(Run(files, st).0.errors, |st.errors|, files)
  {
    if files != [] {
      var init := files[..|files| - 1];
      ErrorsNameFiles(init, st);
      var prev := Run(init, st);
      assert forall x :: x in init ==> x in files;
      if !prev.1 {
        var last := files[|files| - 1];
        StepExtends(prev.0, last);
        ExtendsTransitive(st, prev.0, Step(prev.0, last).0);
      }
    }
  }
}
