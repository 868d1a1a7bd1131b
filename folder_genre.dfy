/**
 * folder2genre.py: walk a tree, pair every ".mp3" file with the name of
 * the folder that holds it, and write that name into the file's genre tag
 * wherever the tag says something else.
 *
 * The walk is an input: os.walk's (root, files) pairs in its order. The
 * files are a map from path to what eyed3.load gives; saving a tag may fail,
 * as a predicate on paths says.
 */
module FolderGenre {
  import opened Wrappers
  import opened Text
  import opened Paths
  import opened Seqs

  // ---------------------------------------------------------------- selection

  /** One step of os.walk: a folder and the names of the files directly in it. */
  datatype WalkEntry = WalkEntry(root: string, files: seq<string>)

  /** A (genre, path) pair of the audios list. */
  type Audio = (string, string)

  /** The test of the inner loop: the extension splitext gives is exactly ".mp3". */
  predicate IsMp3(f: string) {
    SplitExt(f).1 == ".mp3"
  }

  /** A file name of the folder root as the pair the loop appends. */
  function InFolder(root: string): string -> Audio {
    f => (BaseName(root), PathJoin(root, f))
  }

  /** The pairs a folder contributes; a folder whose own name starts with "_" contributes none. */
  function EntryAudios(e: WalkEntry): seq<Audio> {
    if StartsWith(BaseName(e.root), "_") then [] else Keep(e.files, IsMp3, InFolder(e.root))
  }

  /** The audios list: the contributions of the folders, in walk order. */
  function Selected(walk: seq<WalkEntry>): seq<Audio> {
    Concat(walk, EntryAudios)
  }

  /** The folders select independently, in walk order: skipping a "_" folder does not skip what is walked after it. */
  lemma SelectedAppend(w1: seq<WalkEntry>, w2: seq<WalkEntry>)
    ensures Selected(w1 + w2) == Selected(w1) + Selected(w2)
  {
    ConcatAppend(w1, w2, EntryAudios);
  }

  /**
   * A pair is selected exactly when a folder of the walk whose name does
   * not start with "_" holds a file with extension ".mp3" whose path the
   * pair names, and the pair's genre is that folder's name.
   */
  lemma SelectedMembers(walk: seq<WalkEntry>, a: Audio)
    ensures a in Selected(walk)
        <==> exists i, j :: 0 <= i < |walk| && 0 <= j < |walk[i].files|
               && !StartsWith(BaseName(walk[i].root), "_") && IsMp3(walk[i].files[j])
               && a == (BaseName(walk[i].root), PathJoin(walk[i].root, walk[i].files[j]))
  {
    ConcatMembers(walk, EntryAudios, a);
    forall i | 0 <= i < |walk| {
      KeepMembers(walk[i].files, IsMp3, InFolder(walk[i].root), a);
    }
  }

  /** The inner loop of the first loop of main: the files of one folder. */
  method FolderAudios(root: string, files: seq<string>) returns (audios: seq<Audio>)
    ensures audios == Keep(files, IsMp3, InFolder(root))
  {
    var leaf := BaseName(root);
    audios := [];
    var j := 0;
    while j < |files|
      invariant 0 <= j <= |files|
      invariant audios == Keep(files[..j], IsMp3, InFolder(root))
    {
      KeepStep(files, IsMp3, InFolder(root), j);
      var ext := SplitExt(files[j]).1;
      if ext == ".mp3" {
        audios := audios + [(leaf, PathJoin(root, files[j]))];
      }
      j := j + 1;
    }
    assert files[..j] == files;
  }

  /** The first loop of main: folders in walk order, appending to audios. */
  method SelectAudios(walk: seq<WalkEntry>) returns (audios: seq<Audio>)
    ensures audios == Selected(walk)
  {
    audios := [];
    var i := 0;
    while i < |walk|
      invariant 0 <= i <= |walk|
      invariant audios == Selected(walk[..i])
    {
      ConcatStep(walk, EntryAudios, i);
      var leaf := BaseName(walk[i].root);
      if !StartsWith(leaf, "_") {
        var found := FolderAudios(walk[i].root, walk[i].files);
        audios := audios + found;
      }
      i := i + 1;
    }
    assert walk[..i] == walk;
  }

  // ---------------------------------------------------------------- tagging

  /** What eyed3.load gives for a file: nothing readable, a file without a tag, or a tag and its genre. */
  datatype Loaded = NotAudio | Untagged | Tagged(genre: Option<string>)

  type Files = map<string, Loaded>

  /** What happened to one file: its tag already had the genre, it was rewritten, or an exception was reported. */
  datatype Outcome = Kept | Rewritten | Reported

  /**
   * One iteration of the second loop. Loading a path that does not exist
   * raises outside the try block and ends the program (None); any other
   * failure is printed and the loop goes on.
   */
  function TagStep(files: Files, a: Audio, saves: string -> bool): (r: Option<(Files, Outcome)>)
    ensures r.None? <==> a.1 !in files
    ensures r.Some? ==> a.1 in r.value.0 && (r.value.0[a.1].Tagged? <==> files[a.1].Tagged?)
    ensures r.Some? ==> forall p :: p != a.1 ==> (p in r.value.0 <==> p in files) && (p in r.value.0 ==> r.value.0[p] == files[p])
    ensures r.Some? ==> (r.value.1 == Rewritten <==> files[a.1].Tagged? && files[a.1].genre != Some(a.0) && saves(a.1))
    ensures r.Some? && r.value.1 == Rewritten ==> r.value.0[a.1] == Tagged(Some(a.0))
    ensures r.Some? && r.value.1 != Rewritten ==> r.value.0 == files
    ensures r.Some? && files[a.1].Tagged? && saves(a.1) ==> r.value.0[a.1] == Tagged(Some(a.0))
  {
    var (genre, f) := a;
    if f !in files then None
    else match files[f]
      case NotAudio => Some((files, Reported))
      case Untagged => Some((files, Reported))
      case Tagged(current) =>
        if current == Some(genre) then Some((files, Kept))
        else if saves(f) then Some((files[f := Tagged(Some(genre))], Rewritten))
        else Some((files, Reported))
  }

  /** How the second loop ends: the files, each audio's outcome in order, and whether it raised. */
  datatype Tagging = Tagging(files: Files, outcomes: seq<Outcome>, crashed: bool)

  function TagAll(audios: seq<Audio>, files: Files, saves: string -> bool): Tagging {
    if audios == [] then Tagging(files, [], false)
    else
      var prev := TagAll(audios[..|audios| - 1], files, saves);
      if prev.crashed then prev
      else match TagStep(prev.files, audios[|audios| - 1], saves)
        case None => prev.(crashed := true)
        case Some((next, outcome)) => Tagging(next, prev.outcomes + [outcome], false)
  }

  lemma TagAllStep(audios: seq<Audio>, files: Files, saves: string -> bool, i: nat)
    requires i < |audios|
    ensures TagAll(audios[..i + 1], files, saves)
         == var prev := TagAll(audios[..i], files, saves);
            if prev.crashed then prev
            else match TagStep(prev.files, audios[i], saves)
              case None => prev.(crashed := true)
              case Some((next, outcome)) => Tagging(next, prev.outcomes + [outcome], false)
  {
    assert audios[..i + 1][..i] == audios[..i];
  }

  lemma {:induction false} TagAllStops(audios: seq<Audio>, files: Files, saves: string -> bool, i: nat)
    requires i <= |audios| && TagAll(audios[..i], files, saves).crashed
    ensures TagAll(audios, files, saves) == TagAll(audios[..i], files, saves)
    decreases |audios| - i
  {
    if i < |audios| {
      TagAllStep(audios, files, saves, i);
      TagAllStops(audios, files, saves, i + 1);
    } else {
      assert audios[..i] == audios;
    }
  }

  /** The second loop of main. */
  method TagAudios(audios: seq<Audio>, files0: Files, saves: string -> bool) returns (result: Tagging)
    ensures result == TagAll(audios, files0, saves)
  {
    var files := files0;
    var outcomes: seq<Outcome> := [];
    var i := 0;
    while i < |audios|
      invariant 0 <= i <= |audios|
      invariant TagAll(audios[..i], files0, saves) == Tagging(files, outcomes, false)
    {
      TagAllStep(audios, files0, saves, i);
      var (genre, f) := audios[i];
      if f !in files {
        TagAllStops(audios, files0, saves, i + 1);
        return Tagging(files, outcomes, true);
      }
      var outcome := Reported;
      match files[f] {
        case NotAudio =>
        case Untagged =>
        case Tagged(current) =>
          if current == Some(genre) {
            outcome := Kept;
          } else if saves(f) {
            files := files[f := Tagged(Some(genre))];
            outcome := Rewritten;
          }
      }
      outcomes := outcomes + [outcome];
      i := i + 1;
    }
    assert audios[..i] == audios;
    return Tagging(files, outcomes, false);
  }

  /** main: select the audios of the walk, then tag them. */
  method SetGenres(walk: seq<WalkEntry>, files: Files, saves: string -> bool) returns (result: Tagging)
    ensures result == TagAll(Selected(walk), files, saves)
  {
    var audios := SelectAudios(walk);
    result := TagAudios(audios, files, saves);
  }

  /**
   * When every path exists the loop never stops: a file that cannot be read
   * or saved is reported and the next one is processed, and the set of
   * paths stays the same.
   */
  lemma {:induction false} FailuresDoNotStop(audios: seq<Audio>, files: Files, saves: string -> bool)
    requires forall k :: 0 <= k < |audios| ==> audios[k].1 in files
    ensures var r := TagAll(audios, files, saves);
      !r.crashed && |r.outcomes| == |audios| && forall p :: p in r.files <==> p in files
  {
    if audios != [] {
      var init := audios[..|audios| - 1];
      assert forall k :: 0 <= k < |init| ==> init[k] == audios[k];
      FailuresDoNotStop(init, files, saves);
    }
  }

  // ---------------------------------------------------------------- idempotence

  /** No two audios name the same path, as with the paths of one walk. */
  predicate DistinctPaths(audios: seq<Audio>) {
    forall i, j :: 0 <= i < j < |audios| ==> audios[i].1 != audios[j].1
  }

  /** Every audio's file exists and, where it is tagged, already has the audio's genre. */
  predicate Settled(audios: seq<Audio>, files: Files) {
    forall k :: 0 <= k < |audios| ==>
      audios[k].1 in files && (files[audios[k].1].Tagged? ==> files[audios[k].1].genre == Some(audios[k].0))
  }

  /** A run in which every save succeeds and nothing raises leaves every audio settled. */
  lemma {:induction false} RunSettles(audios: seq<Audio>, files: Files, saves: string -> bool)
    requires DistinctPaths(audios) && forall k :: 0 <= k < |audios| ==> saves(audios[k].1)
    requires !TagAll(audios, files, saves).crashed
    ensures Settled(audios, TagAll(audios, files, saves).files)
  {
    if audios != [] {
      var init := audios[..|audios| - 1];
      var last := audios[|audios| - 1];
      var prev := TagAll(init, files, saves);
      assert !prev.crashed;
      assert DistinctPaths(init);
      RunSettles(init, files, saves);
      var next := TagStep(prev.files, last, saves).value.0;
      forall k | 0 <= k < |audios|
        ensures audios[k].1 in next
             && (next[audios[k].1].Tagged? ==> next[audios[k].1].genre == Some(audios[k].0))
      {
        if k < |init| {
          assert init[k] == audios[k];
          assert audios[k].1 != last.1;
        }
      }
    }
  }

  /** On settled files the loop changes nothing and rewrites no tag. */
  lemma {:induction false} SettledRunWritesNothing(audios: seq<Audio>, files: Files, saves: string -> bool)
    requires Settled(audios, files)
    ensures var r := TagAll(audios, files, saves);
      !r.crashed && r.files == files && |r.outcomes| == |audios|
      && forall k :: 0 <= k < |r.outcomes| ==> r.outcomes[k] != Rewritten
  {
    if audios != [] {
      var init := audios[..|audios| - 1];
      assert Settled(init, files) by {
        assert forall k :: 0 <= k < |init| ==> init[k] == audios[k];
      }
      SettledRunWritesNothing(init, files, saves);
    }
  }

  /** Running the script twice: when the first run raised nothing and saved every tag, the second writes nothing. */
  lemma SecondRunWritesNothing(audios: seq<Audio>, files: Files, saves: string -> bool)
    requires DistinctPaths(audios) && forall k :: 0 <= k < |audios| ==> saves(audios[k].1)
    requires !TagAll(audios, files, saves).crashed
    ensures var once := TagAll(audios, files, saves).files;
      var twice := TagAll(audios, once, saves);
      !twice.crashed && twice.files == once && forall k :: 0 <= k < |twice.outcomes| ==> twice.outcomes[k] != Rewritten
  {
    RunSettles(audios, files, saves);
    SettledRunWritesNothing(audios, TagAll(audios, files, saves).files, saves);
  }
}
