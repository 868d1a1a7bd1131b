/**
 * genres.py: the Beatport search for each song, the shaping of the tracks
 * it returns, the rule that picks the track whose genre decides the move,
 * the destination folder, how main reads a song from a file and the order
 * in which the songs are searched.
 *
 * The Beatport page is an input: for the encoded keywords it gives the
 * track lists of the page's queries, or None when the request or the
 * page's parsing fails. Loading a file's tag is an input too.
 */
module Genres {
  import opened Wrappers
  import opened Text
  import opened Paths
  import opened Seqs
  import opened Ordering

  // ---------------------------------------------------------------- Beatport

  /** Beatport.fetch: the keywords go into the URL with every space written as "+". */
  function EncodeKeywords(keywords: string): string {
    ReplaceChar(keywords, ' ', '+')
  }

  /** A track of the page data: its artists' names, its name and its genres' names. */
  datatype Track = Track(artistNames: seq<string>, trackName: string, genreNames: seq<string>)

  /** A song found on Beatport: artists joined by ", ", title and genres. */
  datatype Found = Found(artist: string, title: string, genres: seq<string>)

  function FoundOf(t: Track): Found {
    Found(Join(t.artistNames, ", "), t.trackName, t.genreNames)
  }

  function Min(a: int, b: int): int {
    if a < b then a else b
  }

  /**
   * The songs Beatport.search returns for the track lists of the page's
   * queries: the first five tracks of the first query; None where the page
   * has no query and indexing it raises.
   */
  function TopFive(queries: seq<seq<Track>>): (r: Option<seq<Found>>)
    ensures r.None? <==> queries == []
    ensures r.Some? ==> |r.value| == Min(5, |queries[0]|) && |r.value| <= 5
    ensures r.Some? ==> forall i :: 0 <= i < |r.value| ==> r.value[i] == FoundOf(queries[0][i])
  {
    if queries == [] then None
    else Some(seq(Min(5, |queries[0]|), i requires 0 <= i < Min(5, |queries[0]|) => FoundOf(queries[0][i])))
  }

  /** Beatport.search after the page is parsed: the loop that collects the songs. */
  method BeatportSearch(queries: seq<seq<Track>>) returns (songs: Option<seq<Found>>)
    ensures songs == TopFive(queries)
  {
    if queries == [] {
      return None;
    }
    var tracks := queries[0];
    var n := Min(5, |tracks|);
    var acc: seq<Found> := [];
    var i := 0;
    while i < n
      invariant 0 <= i <= n
      invariant |acc| == i && forall k :: 0 <= k < i ==> acc[k] == FoundOf(tracks[k])
    {
      acc := acc + [FoundOf(tracks[i])];
      i := i + 1;
    }
    assert acc == TopFive(queries).value;
    return Some(acc);
  }

  // ---------------------------------------------------------------- search_all

  /** The found song has exactly the local artist and title. */
  predicate IsExact(f: Found, artist: string, title: string) {
    f.artist == artist && f.title == title
  }

  function ExactTest(artist: string, title: string): Found -> bool {
    f => IsExact(f, artist, title)
  }

  /** The list search_all walks: the exact matches when there is exactly one, otherwise all that was found. */
  function Displayed(found: seq<Found>, artist: string, title: string): seq<Found> {
    var exact := Filter(found, ExactTest(artist, title));
    if |exact| == 1 then exact else found
  }

  /** Narrowing the list to the single exact match never changes which song is the first exact one. */
  lemma DisplayedKeepsTrigger(found: seq<Found>, artist: string, title: string)
    ensures var p := ExactTest(artist, title);
      var d := Displayed(found, artist, title);
      (FirstIndex(d, p).None? <==> FirstIndex(found, p).None?)
      && (FirstIndex(d, p).Some? ==> d[FirstIndex(d, p).value] == found[FirstIndex(found, p).value])
  {
    var p := ExactTest(artist, title);
    var exact := Filter(found, p);
    if |exact| == 1 {
      assert exact[0] in exact;
      FirstIndexIs(exact, p, 0);
      var i := FirstIndex(found, p);
      assert i.Some? by {
        assert exact[0] in found;
        var k :| 0 <= k < |found| && found[k] == exact[0];
        assert p(found[k]);
      }
      assert found[i.value] in exact;
    }
  }

  /** genres[0].replace("/", "-"): a genre made into one folder name. */
  function GenreFolder(genre: string): string {
    ReplaceChar(genre, '/', '-')
  }

  /** path.parent / folder / path.name. */
  function Destination(path: string, genre: string): string {
    PathJoin(PathJoin(DirName(path), GenreFolder(genre)), BaseName(path))
  }

  /** The folder path.parent stands for, ready to have a name appended. */
  function ParentPrefix(path: string): string {
    FolderPrefix(DirName(path))
  }

  lemma NotEndingInSlash(x: string, g: string)
    requires g != [] && '/' !in g
    ensures !EndsWith(x + g, "/")
  {
    assert g[|g| - 1] in g;
    assert (x + g)[|x + g| - 1..] == [g[|g| - 1]];
  }

  /** The file keeps its name and moves into a sub-folder, named after the genre, of its own folder. */
  lemma DestinationIsGenreSubfolder(path: string, genre: string)
    requires BaseName(path) != [] && genre != []
    ensures Destination(path, genre) == ParentPrefix(path) + GenreFolder(genre) + "/" + BaseName(path)
    ensures BaseName(Destination(path, genre)) == BaseName(path)
  {
    var g := GenreFolder(genre);
    JoinedBaseName(DirName(path), g);
    NotEndingInSlash(ParentPrefix(path), g);
    JoinedBaseName(ParentPrefix(path) + g, BaseName(path));
  }

  datatype Decision = Stay | MoveTo(destination: string)

  /**
   * What search_all does for one song with the songs Beatport found: walk
   * the displayed list and move the file on the first exact match, into
   * the folder of that match's first genre; None where that match has no
   * genre and genres[0] raises.
   */
  function Decide(path: string, artist: string, title: string, found: seq<Found>): (r: Option<Decision>)
    ensures var i := FirstIndex(found, ExactTest(artist, title));
      (i.None? ==> r == Some(Stay))
      && (i.Some? && found[i.value].genres == [] ==> r.None?)
      && (i.Some? && found[i.value].genres != [] ==> r == Some(MoveTo(Destination(path, found[i.value].genres[0]))))
  {
    var d := Displayed(found, artist, title);
    DisplayedKeepsTrigger(found, artist, title);
    match FirstIndex(d, ExactTest(artist, title))
    case None => Some(Stay)
    case Some(i) =>
      if d[i].genres == [] then None else Some(MoveTo(Destination(path, d[i].genres[0])))
  }

  /** The inner loop of search_all for one song: walk the displayed list up to the first exact match. */
  method DecideSong(path: string, artist: string, title: string, found: seq<Found>) returns (d: Option<Decision>)
    ensures d == Decide(path, artist, title, found)
  {
    var shown := Displayed(found, artist, title);
    var hit := FindFirst(shown, ExactTest(artist, title));
    if hit.None? {
      return Some(Stay);
    }
    if shown[hit.value].genres == [] {
      return None;
    }
    return Some(MoveTo(Destination(path, shown[hit.value].genres[0])));
  }

  /** A file moves only when a found song has exactly its artist and title, and a genre. */
  lemma MoveNeedsExactMatch(path: string, artist: string, title: string, found: seq<Found>)
    requires Decide(path, artist, title, found) != Some(Stay)
    ensures exists f :: f in found && IsExact(f, artist, title)
  {
    var i := FirstIndex(found, ExactTest(artist, title));
    assert found[i.value] in found;
  }

  // ---------------------------------------------------------------- main

  /** A path and the song read for it: [artist, title], or the pieces of the stem. */
  type Entry = (string, seq<string>)

  /** The tag eyed3 reads. */
  datatype Tag = Tag(artist: Option<string>, title: Option<string>)

  /** path.stem.rsplit("-", 1). */
  function StemPieces(stem: string): (r: seq<string>)
    ensures 1 <= |r| <= 2
    ensures |r| == 1 <==> !Contains(stem, "-")
    ensures |r| == 1 ==> r[0] == stem
    ensures |r| == 2 ==> r[0] + "-" + r[1] == stem && !Contains(r[1], "-")
  {
    match SplitAtLast(stem, "-")
    case None => [stem]
    case Some((before, after)) => [before, after]
  }

  /**
   * The song main records for a file, given what eyed3.load returned (None
   * when the file cannot be loaded, where reading its tag raises): the
   * stripped tag artist and title when the tag has an artist, else the
   * pieces of the file's stem; None where an exception ends main.
   */
  function SongOf(path: string, loaded: Option<Option<Tag>>): (r: Option<seq<string>>)
    ensures loaded.None? ==> r.None?
    ensures loaded.Some? && loaded.value.Some? && loaded.value.value.artist.Some?
            && loaded.value.value.artist.value != [] ==>
      r == (if loaded.value.value.title.None? then None
            else Some([Strip(loaded.value.value.artist.value), Strip(loaded.value.value.title.value)]))
    ensures loaded.Some? && (loaded.value.None? || loaded.value.value.artist.None? || loaded.value.value.artist.value == []) ==>
      r == Some(StemPieces(Stem(BaseName(path))))
  {
    match loaded
    case None => None
    case Some(tag) =>
      if tag.Some? && tag.value.artist.Some? && tag.value.artist.value != [] then
        match tag.value.title
        case None => None
        case Some(title) => Some([Strip(tag.value.artist.value), Strip(title)])
      else Some(StemPieces(Stem(BaseName(path))))
  }

  /** Python compares characters by code point. */
  const CharLe: (char, char) -> bool := (a: char, b: char) => a <= b

  /** A path compares as the list of its "/"-separated parts. */
  function EntryKey(e: Entry): seq<seq<string>> {
    [SplitOn(e.0, '/'), e.1]
  }

  /** The order of sorted(songs): by path, then by song, each lexicographically. */
  function EntryLe(): (Entry, Entry) -> bool {
    By(LexOrder(LexOrder(LexOrder(CharLe))), EntryKey)
  }

  lemma EntryOrderIsTotal()
    ensures TotalOrder(EntryLe())
  {
    LexIsTotalOrder(CharLe);
    LexIsTotalOrder(LexOrder(CharLe));
    LexIsTotalOrder(LexOrder(LexOrder(CharLe)));
    forall x: Entry, y: Entry | EntryKey(x) == EntryKey(y) ensures x == y {
      assert EntryKey(x)[0] == EntryKey(y)[0] && EntryKey(x)[1] == EntryKey(y)[1];
      SplitOnInjective(x.0, y.0, '/');
    }
    ByIsTotalOrder(LexOrder(LexOrder(LexOrder(CharLe))), EntryKey);
  }

  /** sorted(songs): ascending, the same entries, and the only such arrangement. */
  function SortedEntries(entries: seq<Entry>): (r: seq<Entry>)
    ensures SortedBy(EntryLe(), r) && multiset(r) == multiset(entries)
  {
    EntryOrderIsTotal();
    Sort(EntryLe(), entries)
  }

  /** Every arrangement in ascending order is the one SortedEntries gives. */
  lemma SortedEntriesIsUnique(entries: seq<Entry>, s: seq<Entry>)
    requires SortedBy(EntryLe(), s) && multiset(s) == multiset(entries)
    ensures s == SortedEntries(entries)
  {
    EntryOrderIsTotal();
    SortedIsUnique(EntryLe(), s, SortedEntries(entries));
  }

  /** The keywords search_all searches for a song. */
  function Keywords(song: seq<string>): string
    requires |song| == 2
  {
    song[0] + " " + song[1]
  }

  /** The songs Beatport returns for a song, through the page function. */
  function Lookup(song: seq<string>, page: string -> Option<seq<seq<Track>>>): Option<seq<Found>>
    requires |song| == 2
  {
    match page(EncodeKeywords(Keywords(song)))
    case None => None
    case Some(queries) => TopFive(queries)
  }

  /** Every song unpacks into (artist, title). */
  predicate AllPairs(entries: seq<Entry>) {
    forall i :: 0 <= i < |entries| ==> |entries[i].1| == 2
  }

  /** Some song's search fails. */
  predicate SomeSearchFails(entries: seq<Entry>, page: string -> Option<seq<seq<Track>>>)
    requires AllPairs(entries)
  {
    exists i :: 0 <= i < |entries| && Lookup(entries[i].1, page).None?
  }

  /** Decide for an entry, searching its song. */
  function DecideStep(page: string -> Option<seq<seq<Track>>>): Entry -> Option<Decision> {
    (e: Entry) =>
      if |e.1| != 2 then None
      else match Lookup(e.1, page)
           case None => None
           case Some(found) => Decide(e.0, e.1[0], e.1[1], found)
  }

  /** How a run of genres.py ends. */
  datatype Outcome =
    | Aborted                                               // an exception before any file moved
    | Ran(decisions: seq<(Entry, Decision)>, stopped: bool) // the decisions in order; stopped: genres[0] raised

  /**
   * search_all: every song is unpacked and searched before anything moves,
   * so a song that is not an (artist, title) pair or a search that fails
   * aborts the whole run; then the songs are decided in order until one
   * whose match has no genre.
   */
  function SearchAllOutcome(entries: seq<Entry>, page: string -> Option<seq<seq<Track>>>): Outcome {
    if !AllPairs(entries) || SomeSearchFails(entries, page) then Aborted
    else
      var run := RunUntilNone(entries, DecideStep(page));
      Ran(run.0, run.1)
  }

  /** Songs are decided in sorted order, one decision each, until the first that raises. */
  lemma SearchAllDecidesInOrder(entries: seq<Entry>, page: string -> Option<seq<seq<Track>>>)
    requires SearchAllOutcome(entries, page).Ran?
    ensures var o := SearchAllOutcome(entries, page);
      |o.decisions| <= |entries|
      && (forall k :: 0 <= k < |o.decisions| ==>
            o.decisions[k].0 == entries[k]
            && Decide(entries[k].0, entries[k].1[0], entries[k].1[1], Lookup(entries[k].1, page).value)
               == Some(o.decisions[k].1))
      && (o.stopped <==> |o.decisions| < |entries|)
  {
    RunUntilNoneFollows(entries, DecideStep(page));
  }

  /** The unpacking in search_all's generator expression. */
  method CheckPairs(entries: seq<Entry>) returns (ok: bool)
    ensures ok <==> AllPairs(entries)
  {
    var i := 0;
    while i < |entries|
      invariant 0 <= i <= |entries|
      invariant forall k :: 0 <= k < i ==> |entries[k].1| == 2
    {
      if |entries[i].1| != 2 {
        return false;
      }
      i := i + 1;
    }
    return true;
  }

  /** asyncio.gather over the searches: all results, or failure when one search fails. */
  method Gather(entries: seq<Entry>, page: string -> Option<seq<seq<Track>>>) returns (results: Option<seq<seq<Found>>>)
    requires AllPairs(entries)
    ensures results.None? <==> SomeSearchFails(entries, page)
    ensures results.Some? ==> |results.value| == |entries|
    ensures results.Some? ==> forall k :: 0 <= k < |entries| ==> Lookup(entries[k].1, page) == Some(results.value[k])
  {
    var acc: seq<seq<Found>> := [];
    var i := 0;
    while i < |entries|
      invariant 0 <= i <= |entries|
      invariant |acc| == i && forall k :: 0 <= k < i ==> Lookup(entries[k].1, page) == Some(acc[k])
    {
      var found := Lookup(entries[i].1, page);
      if found.None? {
        return None;
      }
      acc := acc + [found.value];
      i := i + 1;
    }
    return Some(acc);
  }

  /** search_all's last loop: decide song by song with the gathered results. */
  method DecideAll(entries: seq<Entry>, results: seq<seq<Found>>, page: string -> Option<seq<seq<Track>>>)
    returns (decisions: seq<(Entry, Decision)>, stopped: bool)
    requires AllPairs(entries) && |results| == |entries|
    requires forall k :: 0 <= k < |entries| ==> Lookup(entries[k].1, page) == Some(results[k])
    ensures (decisions, stopped) == RunUntilNone(entries, DecideStep(page))
  {
    var step := DecideStep(page);
    decisions := [];
    var i := 0;
    while i < |entries|
      invariant 0 <= i <= |entries|
      invariant RunUntilNone(entries[..i], step) == (decisions, false)
    {
      RunUntilNoneStep(entries, step, i);
      var e := entries[i];
      var d := DecideSong(e.0, e.1[0], e.1[1], results[i]);
      assert step(e) == d;
      if d.None? {
        RunUntilNoneStops(entries, step, i + 1);
        return decisions, true;
      }
      decisions := decisions + [(e, d.value)];
      i := i + 1;
    }
    assert entries[..i] == entries;
    stopped := false;
  }

  /** search_all. */
  method SearchAll(entries: seq<Entry>, page: string -> Option<seq<seq<Track>>>) returns (outcome: Outcome)
    ensures outcome == SearchAllOutcome(entries, page)
  {
    var ok := CheckPairs(entries);
    if !ok {
      return Aborted;
    }
    var results := Gather(entries, page);
    if results.None? {
      return Aborted;
    }
    var decisions, stopped := DecideAll(entries, results.value, page);
    return Ran(decisions, stopped);
  }

  function SongStep(load: string -> Option<Option<Tag>>): string -> Option<seq<string>> {
    path => SongOf(path, load(path))
  }

  /** main after the files are expanded: read every song (an exception aborts), sort, and search. */
  function GenresOutcome(files: seq<string>, load: string -> Option<Option<Tag>>,
                         page: string -> Option<seq<seq<Track>>>): Outcome
  {
    var read := RunUntilNone(files, SongStep(load));
    if read.1 then Aborted else SearchAllOutcome(SortedEntries(read.0), page)
  }

  /** A file whose song cannot be read stops the run before any search. */
  lemma UnreadableSongAborts(files: seq<string>, load: string -> Option<Option<Tag>>,
                             page: string -> Option<seq<seq<Track>>>, i: nat)
    requires i < |files| && SongOf(files[i], load(files[i])).None?
    ensures GenresOutcome(files, load, page) == Aborted
  {
    RunUntilNoneFollows(files, SongStep(load));
  }

  /** Otherwise every file is searched, with its song, in sorted order. */
  lemma ReadableSongsAreAllSorted(files: seq<string>, load: string -> Option<Option<Tag>>)
    requires forall i :: 0 <= i < |files| ==> SongOf(files[i], load(files[i])).Some?
    ensures var read := RunUntilNone(files, SongStep(load));
      !read.1 && |read.0| == |files|
      && (forall k :: 0 <= k < |files| ==> read.0[k] == (files[k], SongOf(files[k], load(files[k])).value))
      && multiset(SortedEntries(read.0)) == multiset(read.0)
  {
    RunUntilNoneFollows(files, SongStep(load));
  }

  /** The loop of main that reads the songs. */
  method ReadSongs(files: seq<string>, load: string -> Option<Option<Tag>>)
    returns (entries: seq<Entry>, crashed: bool)
    ensures (entries, crashed) == RunUntilNone(files, SongStep(load))
  {
    var step := SongStep(load);
    entries := [];
    var i := 0;
    while i < |files|
      invariant 0 <= i <= |files|
      invariant RunUntilNone(files[..i], step) == (entries, false)
    {
      RunUntilNoneStep(files, step, i);
      var song := SongOf(files[i], load(files[i]));
      if song.None? {
        RunUntilNoneStops(files, step, i + 1);
        return entries, true;
      }
      entries := entries + [(files[i], song.value)];
      i := i + 1;
    }
    assert files[..i] == files;
    crashed := false;
  }

  /** main: expands the arguments, reads each file's song, sorts the songs and runs search_all. */
  method GuessGenres(args: seq<Arg>, load: string -> Option<Option<Tag>>, page: string -> Option<seq<seq<Track>>>)
    returns (outcome: Outcome)
    ensures outcome == GenresOutcome(Expanded(args), load, page)
  {
    var files := ExpandArgs(args);
    var entries, crashed := ReadSongs(files, load);
    if crashed {
      return Aborted;
    }
    outcome := SearchAll(SortedEntries(entries), page);
  }
}
