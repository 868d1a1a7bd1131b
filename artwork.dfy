/**
 * artwork.py: how a song found in the iTunes search results is matched
 * against the file's tags, the search query built from those tags, the
 * choice among the results, the rewrite of the artwork URL to the large
 * image, and the rules by which main skips a file.
 *
 * The HTTP request is an input (the results it returned, or a failure), and
 * so are the ID3 tags of each file.
 */
module Artwork {
  import opened Wrappers
  import opened Text
  import opened Paths
  import opened Seqs

  // ---------------------------------------------------------------- match_song

  /** An artist as match_song compares it: stripped, lowercased, every " &" turned into ",". */
  function NormalizeArtist(artist: string): string {
    ReplaceAll(Lower(Strip(artist)), " &", ",")
  }

  predicate IsTitleDelimiter(c: char) {
    c == '-' || c == ',' || c == '[' || c == '('
  }

  /** Where the pattern ([\-,\[\(]|feat) matches. */
  predicate AtRemoteBreak(s: string) {
    s != [] && (IsTitleDelimiter(s[0]) || StartsWith(s, "feat"))
  }

  /** Where the pattern [\-,\[\(] matches. */
  predicate AtLocalBreak(s: string) {
    s != [] && IsTitleDelimiter(s[0])
  }

  lemma CutHasNoDelimiter(s: string, r: string)
    requires r == PrefixBefore(s, AtRemoteBreak)
    ensures forall i :: 0 <= i < |r| ==> !IsTitleDelimiter(r[i])
  {
    forall i | 0 <= i < |r| ensures !IsTitleDelimiter(r[i]) {
      assert s[i..][0] == s[i];
    }
  }

  lemma PrefixOfLowered(s: string, r: string)
    requires IsLowered(s) && |r| <= |s| && r == s[..|r|]
    ensures IsLowered(r)
  {
    forall i | 0 <= i < |r| ensures !IsUpper(r[i]) {
      assert s[i] == r[i];
    }
  }

  /**
   * The remote title as match_song cuts it: stripped, lowercased and cut
   * before the first delimiter or "feat"; what remains holds no delimiter.
   */
  function RemoteTitle(title: string): (r: string)
    ensures var s := Lower(Strip(title));
      |r| <= |s| && r == s[..|r|] && (|r| < |s| ==> AtRemoteBreak(s[|r|..]))
    ensures var s := Lower(Strip(title));
      forall i :: 0 <= i < |r| ==> !AtRemoteBreak(s[i..])
    ensures forall i :: 0 <= i < |r| ==> !IsTitleDelimiter(r[i])
    ensures IsLowered(r)
  {
    var s := Lower(Strip(title));
    var r := PrefixBefore(s, AtRemoteBreak);
    CutHasNoDelimiter(s, r);
    PrefixOfLowered(s, r);
    r
  }

  /** The local title of match_song, computed (as in the source) from the remote title. */
  function LocalTitle(remoteTitle: string): string {
    PrefixBefore(Lower(Strip(remoteTitle)), AtLocalBreak)
  }

  /** match_song(local, remote). */
  predicate MatchSong(local: (string, string), remote: (string, string)) {
    var remoteArtist := NormalizeArtist(remote.0);
    var remoteTitle := RemoteTitle(remote.1);
    var localArtist := NormalizeArtist(local.0);
    var localTitle := LocalTitle(remoteTitle);
    Strip(localArtist) == Strip(remoteArtist) && Strip(localTitle) == Strip(remoteTitle)
  }

  /** A stripped, lowercased text without delimiters is its own local title. */
  lemma LocalTitleOfPlain(t: string)
    requires IsLowered(t) && IsStripped(t)
    requires forall i :: 0 <= i < |t| ==> !IsTitleDelimiter(t[i])
    ensures PrefixBefore(t, AtLocalBreak) == t
  {
    var lt := PrefixBefore(t, AtLocalBreak);
    forall i | 0 <= i < |t| ensures !AtLocalBreak(t[i..]) {
      assert t[i..][0] == t[i];
    }
    assert |lt| == |t|;
  }

  lemma StripOfPlain(rt: string)
    requires IsLowered(rt) && forall i :: 0 <= i < |rt| ==> !IsTitleDelimiter(rt[i])
    ensures var st := Strip(rt);
      IsLowered(st) && IsStripped(st) && forall i :: 0 <= i < |st| ==> !IsTitleDelimiter(st[i])
  {
    var st := Strip(rt);
    var k := LeadingSpaces(rt);
    forall i | 0 <= i < |st| ensures !IsTitleDelimiter(st[i]) && !IsUpper(st[i]) {
      assert st[i] == rt[k + i];
    }
  }

  /** The title comparison is always true: matching depends on the artists alone. */
  lemma MatchSongIgnoresTitles(local: (string, string), remote: (string, string))
    ensures MatchSong(local, remote) <==> Strip(NormalizeArtist(local.0)) == Strip(NormalizeArtist(remote.0))
  {
    TitlesAgree(RemoteTitle(remote.1));
  }

  /** A cut remote title and the local title computed from it agree once stripped. */
  lemma TitlesAgree(rt: string)
    requires IsLowered(rt) && forall i :: 0 <= i < |rt| ==> !IsTitleDelimiter(rt[i])
    ensures Strip(LocalTitle(rt)) == Strip(rt)
  {
    var st := Strip(rt);
    StripOfPlain(rt);
    assert Lower(st) == st;
    LocalTitleOfPlain(st);
    assert LocalTitle(rt) == st;
  }

  // ---------------------------------------------------------------- search_itunes_artwork

  predicate AtParen(s: string) {
    s != [] && s[0] == '('
  }

  /** title.split("(", 1)[0]: the title up to its first "(". */
  function BeforeParen(title: string): (r: string)
    ensures |r| <= |title| && r == title[..|r|]
    ensures '(' !in r
    ensures |r| < |title| ==> title[|r|] == '('
  {
    var r := PrefixBefore(title, AtParen);
    assert forall i :: 0 <= i < |r| ==> title[i..][0] == r[i];
    assert |r| < |title| ==> title[|r|..][0] == title[|r|];
    r
  }

  function NonEmptyParts(parts: seq<string>): seq<string> {
    if parts == [] then []
    else if parts[0] == [] then NonEmptyParts(parts[1..])
    else [parts[0]] + NonEmptyParts(parts[1..])
  }

  /** The search term: the non-empty ones of artist and shortened title, joined by one space. */
  function SearchQuery(artist: string, title: string): (q: string)
    ensures var t := BeforeParen(title);
      (artist != [] && t != [] ==> q == artist + " " + t)
      && (artist == [] ==> q == t)
      && (t == [] ==> q == artist)
  {
    var t := BeforeParen(title);
    var parts := NonEmptyParts([artist, t]);
    assert NonEmptyParts([t]) == (if t == [] then [] else [t]) by {
      assert [t][1..] == [];
    }
    assert parts == (if artist == [] then [] else [artist]) + NonEmptyParts([t]) by {
      assert [artist, t][1..] == [t];
    }
    assert artist != [] && t != [] ==> parts == [artist, t] && parts[1..] == [t] && Join([t], " ") == t;
    Join(parts, " ")
  }

  /** One entry of the iTunes "results" list. */
  datatype ItunesResult = ItunesResult(artistName: string, collectionCensoredName: string, artworkUrl100: string)

  /** The large image: every "100x100" in the URL becomes "1000x1000". */
  function Enlarge(url: string): (r: string)
    ensures !Contains(url, "100x100") ==> r == url
  {
    ReplaceAll(url, "100x100", "1000x1000")
  }

  /** An iTunes thumbnail URL with one size marker gets the large size in its place. */
  lemma EnlargeReplacesSize(before: string, after: string)
    requires FirstOccurrence(before + "100x100" + after, "100x100", |before|)
    requires !Contains(after, "100x100")
    ensures Enlarge(before + "100x100" + after) == before + "1000x1000" + after
  {
    var url := before + "100x100" + after;
    ReplaceAtFirstOccurrence(url, "100x100", "1000x1000", |before|);
    assert url[..|before|] == before;
    assert url[|before| + 7..] == after;
  }

  /** How search_itunes_artwork ends. */
  datatype Choice =
    | Chosen(url: string)   // an artwork URL is returned
    | NoArtwork             // None is returned
    | AskUser               // the interactive index prompt takes over

  /** The result matches the searched song. */
  predicate ResultMatches(r: ItunesResult, artist: string, title: string) {
    MatchSong((r.artistName, r.collectionCensoredName), (artist, title))
  }

  /** ResultMatches as a test on results. */
  function Matcher(artist: string, title: string): ItunesResult -> bool {
    r => ResultMatches(r, artist, title)
  }

  /**
   * What search_itunes_artwork decides once the results are in: nothing
   * for no result, the only result unchecked, else the first matching
   * result, else nothing with noInput and the prompt without it.
   */
  function Choose(results: seq<ItunesResult>, artist: string, title: string, noInput: bool): Choice {
    if |results| == 0 then NoArtwork
    else if |results| == 1 then Chosen(Enlarge(results[0].artworkUrl100))
    else
      match FirstIndex(results, Matcher(artist, BeforeParen(title)))
      case Some(i) => Chosen(Enlarge(results[i].artworkUrl100))
      case None => if noInput then NoArtwork else AskUser
  }

  /** Whether a result matches comes down to its artist. */
  lemma MatcherFollowsArtist(artist: string, title: string, r: ItunesResult)
    ensures Matcher(artist, title)(r) <==> Strip(NormalizeArtist(r.artistName)) == Strip(NormalizeArtist(artist))
  {
    MatchSongIgnoresTitles((r.artistName, r.collectionCensoredName), (artist, title));
  }

  /** With several results, the choice is the first result whose normalised artist is the searched one. */
  lemma ChoiceFollowsArtist(results: seq<ItunesResult>, artist: string, title: string, noInput: bool, i: nat)
    requires 2 <= |results| && i < |results|
    requires Strip(NormalizeArtist(results[i].artistName)) == Strip(NormalizeArtist(artist))
    requires forall j :: 0 <= j < i ==> Strip(NormalizeArtist(results[j].artistName)) != Strip(NormalizeArtist(artist))
    ensures Choose(results, artist, title, noInput) == Chosen(Enlarge(results[i].artworkUrl100))
  {
    var p := Matcher(artist, BeforeParen(title));
    MatcherFollowsArtist(artist, BeforeParen(title), results[i]);
    forall j | 0 <= j < i ensures !p(results[j]) {
      MatcherFollowsArtist(artist, BeforeParen(title), results[j]);
    }
    FirstIndexIs(results, p, i);
  }

  /** With several results and none by the searched artist, noInput gives nothing and otherwise the prompt. */
  lemma NoArtistNoChoice(results: seq<ItunesResult>, artist: string, title: string, noInput: bool)
    requires 2 <= |results|
    requires forall j :: 0 <= j < |results| ==> Strip(NormalizeArtist(results[j].artistName)) != Strip(NormalizeArtist(artist))
    ensures Choose(results, artist, title, noInput) == if noInput then NoArtwork else AskUser
  {
    var p := Matcher(artist, BeforeParen(title));
    forall j | 0 <= j < |results| ensures !p(results[j]) {
      MatcherFollowsArtist(artist, BeforeParen(title), results[j]);
    }
    FirstIndexNone(results, p);
  }

  /**
   * search_itunes_artwork after the request: the query it sends and the
   * choice it makes from the results the request returned.
   */
  method SearchItunesArtwork(artist: string, title: string, results: seq<ItunesResult>, noInput: bool)
    returns (query: string, choice: Choice)
    ensures query == SearchQuery(artist, title)
    ensures choice == Choose(results, artist, title, noInput)
    ensures |results| == 0 ==> choice == NoArtwork
    ensures |results| == 1 ==> choice == Chosen(Enlarge(results[0].artworkUrl100))
    ensures choice.Chosen? ==> exists i :: 0 <= i < |results| && choice.url == Enlarge(results[i].artworkUrl100)
    ensures choice == AskUser ==> !noInput && |results| >= 2
  {
    query := SearchQuery(artist, title);
    if |results| == 0 {
      return query, NoArtwork;
    }
    if |results| == 1 {
      return query, Chosen(Enlarge(results[0].artworkUrl100));
    }
    var first := FindFirst(results, Matcher(artist, BeforeParen(title)));
    if first.Some? {
      return query, Chosen(Enlarge(results[first.value].artworkUrl100));
    }
    if noInput {
      return query, NoArtwork;
    }
    return query, AskUser;
  }

  // ---------------------------------------------------------------- main

  /** The parts of a file's ID3 tag that main reads. */
  datatype Id3 = Id3(frameKeys: seq<string>, artist: Option<string>, title: Option<string>)

  /** has_artwork: some frame key starts with "APIC". */
  predicate HasArtwork(tag: Id3) {
    exists k :: k in tag.frameKeys && StartsWith(k, "APIC")
  }

  /** str(frame or "").strip(). */
  function TagText(frame: Option<string>): string {
    match frame
    case None => []
    case Some(text) => Strip(text)
  }

  /** What main does with one file. */
  datatype Outcome =
    | SkippedHasArtwork
    | MissingMetadata
    | SearchFailed        // the request raised; the error is printed
    | ArtworkSet(url: string)
    | NoMatch
    | Prompted            // the choice is left to the user

  /** The file is neither skipped for its artwork nor missing artist or title, so main searches for it. */
  predicate Searches(tag: Option<Id3>, overwrite: bool) {
    tag.Some? && (overwrite || !HasArtwork(tag.value))
    && TagText(tag.value.artist) != [] && TagText(tag.value.title) != []
  }

  /**
   * main's handling of one file whose tag is `tag` (None when the file
   * has no ID3 tag, where reading it raises and ends main); `search`
   * gives the results for a query, or None when the request fails.
   */
  function ProcessFile(tag: Option<Id3>, search: string -> Option<seq<ItunesResult>>, overwrite: bool, noInput: bool)
    : (r: Option<Outcome>)
    ensures r.None? <==> tag.None?
    ensures tag.Some? && !overwrite && HasArtwork(tag.value) ==> r == Some(SkippedHasArtwork)
    ensures r == Some(MissingMetadata) <==>
      tag.Some? && (overwrite || !HasArtwork(tag.value))
      && (TagText(tag.value.artist) == [] || TagText(tag.value.title) == [])
    ensures r.Some? && r.value.ArtworkSet? ==>
      (overwrite || !HasArtwork(tag.value)) && TagText(tag.value.artist) != [] && TagText(tag.value.title) != []
    ensures r.Some? && r.value.ArtworkSet? ==> r.value.url != []
    ensures Searches(tag, overwrite) ==>
      var artist := TagText(tag.value.artist);
      var title := TagText(tag.value.title);
      var found := search(SearchQuery(artist, title));
      (r == Some(SearchFailed) <==> found.None?)
      && (found.Some? ==>
            var choice := Choose(found.value, artist, title, noInput);
            && (r.value.ArtworkSet? <==> choice.Chosen? && choice.url != [])
            && (r.value.ArtworkSet? ==> r.value.url == choice.url)
            && (r == Some(Prompted) <==> choice == AskUser)
            && (r == Some(NoMatch) <==> choice == NoArtwork || choice == Chosen([])))
  {
    match tag
    case None => None
    case Some(t) =>
      if !overwrite && HasArtwork(t) then Some(SkippedHasArtwork)
      else
        var artist := TagText(t.artist);
        var title := TagText(t.title);
        if artist == [] || title == [] then Some(MissingMetadata)
        else
          match search(SearchQuery(artist, title))
          case None => Some(SearchFailed)
          case Some(results) =>
            match Choose(results, artist, title, noInput)
            case Chosen(url) => if url != [] then Some(ArtworkSet(url)) else Some(NoMatch)
            case NoArtwork => Some(NoMatch)
            case AskUser => Some(Prompted)
  }

  /** ProcessFile for the file at a path. */
  function FileStep(tags: string -> Option<Id3>, search: string -> Option<seq<ItunesResult>>, overwrite: bool, noInput: bool)
    : string -> Option<Outcome>
  {
    file => ProcessFile(tags(file), search, overwrite, noInput)
  }

  /**
   * main: expands the arguments and handles each file in turn, up to the
   * first file whose tag cannot be read; returns the outcomes, in order,
   * and whether such a file ended the run.
   */
  method ProcessFiles(args: seq<Arg>, tags: string -> Option<Id3>, search: string -> Option<seq<ItunesResult>>,
              overwrite: bool, noInput: bool)
    returns (outcomes: seq<(string, Outcome)>, crashed: bool)
    ensures (outcomes, crashed) == RunUntilNone(Expanded(args), FileStep(tags, search, overwrite, noInput))
  {
    var step := FileStep(tags, search, overwrite, noInput);
    var files := ExpandArgs(args);
    outcomes := [];
    var i := 0;
    while i < |files|
      invariant 0 <= i <= |files|
      invariant RunUntilNone(files[..i], step) == (outcomes, false)
    {
      RunUntilNoneStep(files, step, i);
      var outcome := step(files[i]);
      if outcome.None? {
        RunUntilNoneStops(files, step, i + 1);
        return outcomes, true;
      }
      outcomes := outcomes + [(files[i], outcome.value)];
      i := i + 1;
    }
    assert files[..i] == files;
    crashed := false;
  }
}
