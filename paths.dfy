/**
 * Path handling of os.path and pathlib as the scripts use it, on POSIX paths
 * written as strings, and the expansion of command-line arguments into MP3
 * files that qualitycheck.py, artwork.py and genres.py share.
 */
module Paths {
  import opened Wrappers
  import opened Text
  import opened Seqs

  /** Where the last component of p starts: just after its last "/", or 0. */
  function NameStart(p: string): (k: nat)
    ensures k <= |p| && '/' !in p[k..]
    ensures 0 < k ==> p[k - 1] == '/'
    ensures 0 < k <==> '/' in p
  {
    match LastIndexOf(p, '/')
    case None => 0
    case Some(i) => i + 1
  }

  /** os.path.basename: the text after the last "/". */
  function BaseName(p: string): string {
    p[NameStart(p)..]
  }

  predicate AllSlashes(s: string) {
    forall i :: 0 <= i < |s| ==> s[i] == '/'
  }

  function TrimSlashes(s: string): (r: string)
    ensures |r| <= |s| && r == s[..|r|]
    ensures r == [] || r[|r| - 1] != '/'
    ensures forall i :: |r| <= i < |s| ==> s[i] == '/'
  {
    if s != [] && s[|s| - 1] == '/' then TrimSlashes(s[..|s| - 1]) else s
  }

  /**
   * os.path.dirname: everything up to the last "/", without trailing
   * slashes unless it is made of slashes only.
   */
  function DirName(p: string): (r: string)
    ensures StartsWith(p, r)
    ensures '/' !in p ==> r == []
    ensures '/' in p ==> r != []
    ensures |r| <= NameStart(p) && forall m :: |r| <= m < NameStart(p) ==> p[m] == '/'
    ensures r == [] || r[|r| - 1] != '/' || AllSlashes(r)
  {
    var head := p[..NameStart(p)];
    var r := if AllSlashes(head) then head else TrimSlashes(head);
    assert r == p[..|r|];
    assert !AllSlashes(head) ==> r != [] by {
      if !AllSlashes(head) {
        var m :| 0 <= m < |head| && head[m] != '/';
        assert |r| > m;
      }
    }
    forall m | |r| <= m < NameStart(p) ensures p[m] == '/' {
      assert p[m] == head[m];
    }
    r
  }

  /** Where the last "/" of p is at j and follows a character other than "/", the folder is everything before it. */
  lemma DirNameAt(p: string, j: nat)
    requires 0 < j < |p| && p[j] == '/' && p[j - 1] != '/'
    requires forall m :: j < m < |p| ==> p[m] != '/'
    ensures DirName(p) == p[..j]
  {
    NameStartAfter(p, j);
    var head := p[..j + 1];
    assert !AllSlashes(head) by { assert head[j - 1] == p[j - 1]; }
    assert head[..j] == p[..j];
    assert TrimSlashes(head) == TrimSlashes(p[..j]);
    assert TrimSlashes(p[..j]) == p[..j];
  }

  /** os.path.join(a, b) for two parts. */
  function PathJoin(a: string, b: string): string {
    if StartsWith(b, "/") then b
    else if a == [] || EndsWith(a, "/") then a + b
    else a + "/" + b
  }

  /** A folder written so that a name can follow it: with a final "/" unless empty. */
  function FolderPrefix(folder: string): string {
    if folder == [] || EndsWith(folder, "/") then folder else folder + "/"
  }

  /** The last "/" of p is at j when none follows it. */
  lemma NameStartAfter(p: string, j: nat)
    requires j < |p| && p[j] == '/'
    requires forall m :: j < m < |p| ==> p[m] != '/'
    ensures NameStart(p) == j + 1
  {
    var r := LastIndexOf(p, '/');
    assert p[j] in p;
    var i := r.value;
    NotInSlice(p, i + 1, '/');
  }

  /** os.path.join of a folder and a name not starting with "/" is the folder prefix and the name. */
  lemma JoinIsPrefixed(folder: string, name: string)
    requires name == [] || name[0] != '/'
    ensures PathJoin(folder, name) == FolderPrefix(folder) + name
  {
    assert !StartsWith(name, "/") by {
      if |name| >= 1 { assert name[..1][0] == name[0]; }
    }
    if !(folder == [] || EndsWith(folder, "/")) {
      assert folder + "/" + name == (folder + "/") + name;
    }
  }

  /** A folder prefix that is not empty ends with "/". */
  lemma FolderPrefixEnds(folder: string)
    requires FolderPrefix(folder) != []
    ensures FolderPrefix(folder)[|FolderPrefix(folder)| - 1] == '/'
  {
    if EndsWith(folder, "/") {
      assert folder[|folder| - 1..][0] == '/';
    }
  }

  /** Joining a folder and a file name that has no "/" names that file inside the folder. */
  lemma {:induction false} JoinedBaseName(folder: string, name: string)
    requires name != [] && '/' !in name
    ensures BaseName(PathJoin(folder, name)) == name
    ensures PathJoin(folder, name) == FolderPrefix(folder) + name
  {
    JoinIsPrefixed(folder, name);
    var x := FolderPrefix(folder);
    var p := x + name;
    forall m | |x| <= m < |p| ensures p[m] != '/' {
      assert p[m] == name[m - |x|];
    }
    if x == [] {
      assert p == name;
      assert NameStart(p) == 0;
    } else {
      FolderPrefixEnds(folder);
      assert p[|x| - 1] == '/';
      NameStartAfter(p, |x| - 1);
    }
    assert p[|x|..] == name;
  }

  /**
   * os.path.splitext: splits off the last "." of the base name and what
   * follows it, provided something other than "." comes before that dot in
   * the base name; otherwise the extension is empty.
   */
  function SplitExt(p: string): (r: (string, string))
    ensures r.0 + r.1 == p
    ensures r.1 == [] || (r.1[0] == '.' && '/' !in r.1 && '.' !in r.1[1..])
    ensures r.1 != [] ==> NameStart(p) <= |r.0| && !AllDots(p[NameStart(p)..|r.0|])
    ensures r.1 == [] ==> forall i :: NameStart(p) <= i < |p| && p[i] == '.' ==> AllDots(p[NameStart(p)..i])
  {
    var k := NameStart(p);
    var dot := LastIndexOf(p[k..], '.');
    if dot.Some? && !AllDots(p[k..k + dot.value]) then
      var d := k + dot.value;
      ExtensionOfName(p, k, dot.value);
      TakeDrop(p, d);
      (p[..d], p[d..])
    else
      NoSplitDots(p, k);
      (p, [])
  }

  /** Where the last "." of the name has only dots before it, every "." of the name has. */
  lemma NoSplitDots(p: string, k: nat)
    requires k <= |p|
    requires var dot := LastIndexOf(p[k..], '.'); dot.None? || AllDots(p[k..k + dot.value])
    ensures forall i :: k <= i < |p| && p[i] == '.' ==> AllDots(p[k..i])
  {
    var q := p[k..];
    var dot := LastIndexOf(q, '.');
    forall i | k <= i < |p| && p[i] == '.' ensures AllDots(p[k..i]) {
      assert q[i - k] == '.';
      assert q[i - k] in q;
      var d := dot.value;
      NotInSlice(q, d + 1, '.');
      assert i - k <= d;
      forall m | 0 <= m < i - k ensures p[k..i][m] == '.' {
        assert p[k..i][m] == p[k..k + d][m];
      }
    }
  }

  /** What follows the last "." of a name without "/" is one "." and then neither "." nor "/". */
  lemma ExtensionOfName(p: string, k: nat, dot: nat)
    requires k + dot < |p| && '/' !in p[k..]
    requires p[k..][dot] == '.' && '.' !in p[k..][dot + 1..]
    ensures var e := p[k + dot..];
      e[0] == '.' && '/' !in e && '.' !in e[1..]
  {
    var q := p[k..];
    assert p[k + dot..] == q[dot..];
    assert q[dot..][1..] == q[dot + 1..];
    forall m | 0 <= m < |q[dot..]| ensures q[dot..][m] != '/' {
      assert q[dot..][m] == q[dot + m];
    }
  }

  predicate AllDots(s: string) {
    forall i :: 0 <= i < |s| ==> s[i] == '.'
  }

  /** pathlib's PurePath.stem for a file name: the name without its last suffix. */
  function Stem(name: string): (r: string)
    ensures |r| <= |name| && r == name[..|r|]
    ensures r != name ==> 0 < |r| < |name| - 1 && name[|r|] == '.' && '.' !in name[|r| + 1..]
    ensures r == name ==> forall i :: 0 < i < |name| - 1 && name[i] == '.' ==> name[|name| - 1] == '.'
  {
    match LastIndexOf(name, '.')
    case None => name
    case Some(i) => if 0 < i < |name| - 1 then name[..i] else name
  }

  /**
   * One command-line argument of the qualitycheck, artwork and genres
   * scripts: a directory, with the paths glob of "*.mp3" inside it lists for it in
   * glob's order, or any other path.
   */
  datatype Arg = Directory(globbed: seq<string>) | Plain(path: string)

  /** Path.name ends with ".mp3". */
  predicate IsMp3Name(p: string) {
    EndsWith(BaseName(p), ".mp3")
  }

  /** Testing the name instead of the whole path changes nothing: ".mp3" holds no "/". */
  lemma Mp3NameIsMp3Path(p: string)
    ensures IsMp3Name(p) <==> EndsWith(p, ".mp3")
  {
    var k := NameStart(p);
    if EndsWith(p, ".mp3") {
      forall j | |p| - 4 <= j < |p| ensures p[j] != '/' {
        assert p[j] == p[|p| - 4..][j - (|p| - 4)];
      }
      assert |p| - 4 >= k;
      assert p[k..][|p| - k - 4..] == p[|p| - 4..];
    }
    if IsMp3Name(p) {
      assert p[|p| - 4..] == p[k..][|p| - k - 4..];
    }
  }

  function ArgFiles(a: Arg): seq<string> {
    match a
    case Directory(g) => g
    case Plain(p) => if IsMp3Name(p) then [p] else []
  }

  /** The files the arguments stand for, argument by argument. */
  function Expanded(args: seq<Arg>): seq<string> {
    Concat(args, ArgFiles)
  }

  lemma ExpandedStep(args: seq<Arg>, i: nat)
    requires i < |args|
    ensures Expanded(args[..i + 1]) == Expanded(args[..i]) + ArgFiles(args[i])
  {
    ConcatStep(args, ArgFiles, i);
  }

  /** The inner loop that appends the globbed files of one directory. */
  method AppendGlobbed(files: seq<string>, globbed: seq<string>) returns (r: seq<string>)
    ensures r == files + globbed
  {
    r := files;
    var j := 0;
    while j < |globbed|
      invariant 0 <= j <= |globbed|
      invariant r == files + globbed[..j]
    {
      r := r + [globbed[j]];
      j := j + 1;
    }
    assert globbed[..j] == globbed;
  }

  /** One turn of the loop that builds actual_files: what one argument adds. */
  method AppendArg(files: seq<string>, arg: Arg) returns (r: seq<string>)
    ensures r == files + ArgFiles(arg)
  {
    if arg.Directory? {
      r := AppendGlobbed(files, arg.globbed);
    } else if IsMp3Name(arg.path) {
      r := files + [arg.path];
    } else {
      r := files;
    }
  }

  /** The loop that builds actual_files. */
  method ExpandArgs(args: seq<Arg>) returns (files: seq<string>)
    ensures files == Expanded(args)
  {
    files := [];
    var i := 0;
    while i < |args|
      invariant 0 <= i <= |args|
      invariant files == Expanded(args[..i])
    {
      ExpandedStep(args, i);
      files := AppendArg(files, args[i]);
      i := i + 1;
    }
    assert args[..i] == args;
  }

  /** A file is selected exactly when one of the arguments yields it. */
  lemma ExpandedMembers(args: seq<Arg>, f: string)
    ensures f in Expanded(args) <==> exists i :: 0 <= i < |args| && f in ArgFiles(args[i])
  {
    ConcatMembers(args, ArgFiles, f);
  }
}
