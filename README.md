# music_inbox decision rules in Dafny

music_inbox is a set of small command-line helpers for filing MP3s:

- `qualitycheck.py` grades a file's quality.
- `artwork.py` looks up cover art on iTunes.
- `genres.py` files songs into genre folders from Beatport search results.
- `clean.py` renames files and writes artist and title tags.
- `folder2genre.py` writes a folder's name into the genre tag of its files.
- `playlist2delete.py` deletes the files a playlist names.

Around the decoding, tagging, network and filesystem calls sits a layer of deterministic decision rules. This project models that layer and proves what it promises.

Everything the scripts get from outside is an input of the model:

- decoded audio figures, FFT magnitudes, ID3 tags;
- iTunes results, Beatport page data;
- directory listings, glob results;
- typed answers and the set of files present.

An exception that ends a script is an explicit outcome (`None`, `Raised`, `Aborted`, a `crashed` flag), never a precondition. The loops of the scripts are methods with `while` loops. Each is proved equal to a specification function, and the properties are lemmas about those functions.

Modules:

- `Wrappers` holds `Option`.
- `Text` covers ASCII `strip`/`lower`, `str.replace`, `split`, `rsplit(sep, 1)` and `join`.
- `Paths` covers `os.path` and the argument expansion the three `main`s share.
- `Seqs` holds generic searches, filters and runs that stop at the first failure.
- `Ordering` holds the lexicographic order and the insertion sort standing for `sorted`.
- `Quality`, `Artwork`, `Genres`, `Clean`, `FolderGenre` and `Playlist` model one script each.

Some behaviour of the quality check worth knowing:

- The code does not reject a non-positive bitrate. An empty sample buffer makes the FFT raise, and a frame rate of 0 makes the sample spacing 1.0 / frame_rate raise; either ends the batch run.
- The fake-bitrate floor of 256 kbps is fixed rather than a threshold parameter.
- The ratio lies in [0, 1] only because FFT magnitudes are non-negative. The bound is proved under that hypothesis.
- The batch run sets no exit code.

## Model

| member | source | states |
|---|---|---|
| Quality.CheckBitrate | music_inbox/qualitycheck.py:10-13 | the kbps is the bitrate divided by 1000 and rounded down; it is low exactly when strictly below the minimum |
| Quality.CheckVolume | music_inbox/qualitycheck.py:16-19 | low volume exactly when the dBFS level is strictly below the minimum; silence (minus infinity) is always low |
| Quality.Downmix | music_inbox/qualitycheck.py:24-27 | stereo samples become one mean per left/right pair, half as many; an odd stereo buffer raises; other channel counts pass unchanged |
| Quality.HighBinIsAboveCutoff | music_inbox/qualitycheck.py:31-38 | the integer test k*frameRate > cutoff*n is exactly "bin k's frequency k*frameRate/n exceeds the cutoff" |
| Quality.HighEnergy | music_inbox/qualitycheck.py:38-39 | the high-frequency energy of non-negative magnitudes lies between 0 and the total energy |
| Quality.HighBinsFromFirst | music_inbox/qualitycheck.py:31-38 | the bins above the cutoff are exactly those from (cutoff*n) div frameRate + 1 on |
| Quality.HighEnergyIsTopBand | music_inbox/qualitycheck.py:34-38 | the high-frequency energy is the sum of the positive-half magnitudes from the first high bin on |
| Quality.Ratio | music_inbox/qualitycheck.py:41 | ratio times total is the high energy when total > 0, 0 otherwise, and in [0, 1] when 0 <= high <= total |
| Quality.SpectrumRatio | music_inbox/qualitycheck.py:34-41 | over the first n div 2 bins, ratio times total energy is the high-frequency energy when the total is positive; the ratio is in [0, 1] for non-negative magnitudes and 0 when their total is not positive |
| Quality.RatioIsTopBandShare | music_inbox/qualitycheck.py:31-41 | for a positive frame rate, the ratio times the total energy of the first n div 2 bins is the energy of the bins from the first one above the cutoff on |
| Quality.ZeroSpectrumIsBad | music_inbox/qualitycheck.py:39-42 | a spectrum without energy has ratio 0 and is flagged by any positive threshold |
| Quality.CheckSpectrum | music_inbox/qualitycheck.py:22-42 | raises exactly when the downmix does, the buffer is empty or the frame rate is 0; the ratio is the spectrum ratio of the downmixed buffer's FFT; bad spectrum exactly when the ratio is below the threshold; ratio in [0, 1] |
| Quality.DetectFakeHighBitrate | music_inbox/qualitycheck.py:45-52 | true exactly when kbps >= 256 and ratio < cutoff; falsifying either condition alone makes it false |
| Quality.AnalyzeMp3 | music_inbox/qualitycheck.py:22-85 | raises exactly for an odd stereo buffer, an empty buffer or a frame rate of 0; otherwise the ratio is the spectrum ratio above 14 kHz, and it passes exactly when none of low bitrate, low volume, bad spectrum and fake high bitrate holds; each flag is its own check's comparison |
| Quality.FakeNeverDecidesVerdict | music_inbox/qualitycheck.py:64-80 | with the default thresholds the fake flag implies the bad-spectrum flag, so the verdict is the same without it |
| Quality.LowBitrateFails | music_inbox/qualitycheck.py:58-85 | a declared bitrate under 128 kbps fails whatever the signal |
| Quality.SilenceFails | music_inbox/qualitycheck.py:61-85 | a silent, non-empty file with a non-zero frame rate and an energy-free spectrum is flagged low volume and bad spectrum and fails |
| Quality.CheckFiles | music_inbox/qualitycheck.py:88-99 | main's loops give the failing files of the expanded arguments, in processing order, or the crash |
| Quality.CrashPersists | music_inbox/qualitycheck.py:97-99 | once a file's analysis raises, later files do not undo the crash |
| Quality.BadFilesAreTheFailures | music_inbox/qualitycheck.py:96-99 | without a crash every file was analysed, and a file is reported exactly when its verdict is a failure |
| Quality.CrashIffUnanalysable | music_inbox/qualitycheck.py:97-99 | main raises exactly when some expanded file cannot be analysed |
| Paths.ExpandArgs | music_inbox/qualitycheck.py:89-95 | the loop lists each directory's globbed files, then a plain path only if its name ends with ".mp3", argument by argument |
| Paths.ExpandedMembers | music_inbox/qualitycheck.py:89-95 | a file is selected exactly when one of the arguments yields it |
| Paths.Mp3NameIsMp3Path | music_inbox/qualitycheck.py:94 | testing path.name for ".mp3" is the same as testing the whole path |
| Paths.DirName | music_inbox/clean.py:14 | os.path.dirname is a prefix of the path, empty exactly when the path has no "/"; only slashes lie between it and the last component; it ends in "/" only when it is all slashes |
| Paths.DirNameAt | music_inbox/clean.py:14 | where the last "/" follows a character other than "/", os.path.dirname is everything before it |
| Paths.SplitExt | music_inbox/clean.py:16 | os.path.splitext splits the path into two parts that concatenate back; the extension is empty or one dot followed by no "." or "/"; it is non-empty exactly when the last component has a "." preceded by something other than dots |
| Paths.Stem | music_inbox/genres.py:101 | Path.stem is a prefix of the name; when shorter, a "." follows it, with none after, and it is neither empty nor the whole name; it is the whole name only when the name has no inner "." or ends in "." |
| Paths.JoinedBaseName | music_inbox/genres.py:71 | joining a folder and a name without "/" gives the folder, a "/" where needed, and the name, whose basename is the name |
| Text.Strip | music_inbox/artwork.py:22 | str.strip leaves a stripped slice of the input, the input itself when already stripped, empty exactly for all-space input; everything cut off at either end is whitespace |
| Text.Lower | music_inbox/artwork.py:22 | str.lower maps every character to lower case and keeps the length; lowered text is unchanged |
| Text.ReplaceAll | music_inbox/artwork.py:22 | str.replace leaves text without the pattern unchanged and maps a one-character pattern character by character |
| Text.ReplaceAtFirstOccurrence | music_inbox/artwork.py:67 | str.replace rewrites the leftmost occurrence and carries on after it |
| Text.SplitAtLast | music_inbox/clean.py:28 | rsplit(sep, 1) into two parts fails exactly when sep is absent; otherwise the parts rejoin with sep and the split is at the last occurrence of sep, overlapping ones included |
| Text.SplitOn | music_inbox/genres.py:104 | the parts of a path between "/" hold no "/" and join back to the path |
| Ordering.LexIsTotalOrder | music_inbox/genres.py:104 | Python's lexicographic comparison of sequences is a total order when its element order is |
| Ordering.ByIsTotalOrder | music_inbox/genres.py:104 | comparing by an injective key is a total order |
| Ordering.Sort | music_inbox/genres.py:104 | sorted gives an ascending arrangement of the same elements |
| Ordering.SortedIsUnique | music_inbox/genres.py:104 | under a total order, two ascending arrangements of the same elements are equal |
| Artwork.RemoteTitle | music_inbox/artwork.py:23 | the stripped, lowercased title is cut where the first "-", ",", "[", "(" or "feat" starts: no break starts before the cut and one starts at it unless the whole title is kept; the remainder holds no delimiter |
| Artwork.LocalTitleOfPlain | music_inbox/artwork.py:26 | re.split on "-", ",", "[" or "(" leaves a lowercased, stripped title that holds none of them whole |
| Artwork.TitlesAgree | music_inbox/artwork.py:23-31 | for a lowercased remote title without delimiters, the local title computed from it strips to the same text |
| Artwork.MatchSongIgnoresTitles | music_inbox/artwork.py:20-31 | because the local title is computed from the remote title, match_song holds exactly when the normalised artists are equal |
| Artwork.BeforeParen | music_inbox/artwork.py:52 | title.split("(", 1)[0] is the prefix before the first "(" and holds none |
| Artwork.SearchQuery | music_inbox/artwork.py:52-54 | the query joins the non-empty ones of artist and shortened title with one space |
| Artwork.Enlarge | music_inbox/artwork.py:67 | a URL without "100x100" is unchanged |
| Artwork.EnlargeReplacesSize | music_inbox/artwork.py:67 | a URL with one "100x100" gets "1000x1000" in its place and nothing else changes |
| Artwork.MatcherFollowsArtist | music_inbox/artwork.py:69-73 | a result matches exactly when its normalised artist equals the searched one |
| Artwork.ChoiceFollowsArtist | music_inbox/artwork.py:69-75 | with several results, the first result by the searched artist is chosen, its URL enlarged |
| Artwork.NoArtistNoChoice | music_inbox/artwork.py:69-78 | with several results and none by the artist, no_input gives None and otherwise the prompt |
| Artwork.SearchItunesArtwork | music_inbox/artwork.py:50-78 | the query sent and the choice: None for no result, the single result unchecked, a chosen URL is an enlarged result URL, the prompt only without no_input |
| Artwork.ProcessFile | music_inbox/artwork.py:134-156 | a file with artwork is skipped unless overwrite; an empty stripped artist or title skips it; otherwise the search for "artist title" decides: a search that raises is reported, and the choice among the results gives artwork set from its non-empty URL, a prompt, or no match |
| Artwork.ProcessFiles | music_inbox/artwork.py:125-156 | main handles the expanded files in order up to the first whose tag cannot be read |
| Text.ReplaceChar | music_inbox/genres.py:17 | str.replace of one character by another (a space by "+" here, "/" by "-" for the genre folder at genres.py:69): every occurrence is replaced, every other character stays, and none remains |
| Genres.TopFive | music_inbox/genres.py:28-38 | the first min(5, n) tracks of the first query, each as artists joined by ", ", title and genres; raises when there is no query |
| Genres.BeatportSearch | music_inbox/genres.py:32-38 | the collecting loop gives exactly TopFive |
| Genres.DisplayedKeepsTrigger | music_inbox/genres.py:59-73 | narrowing to the single exact match never changes which found song is the first exact one |
| Genres.DestinationIsGenreSubfolder | music_inbox/genres.py:69-71 | the destination is the file's folder, the genre folder and the unchanged file name |
| Genres.Decide | music_inbox/genres.py:57-73 | no exact artist-and-title match leaves the file; otherwise it moves to the first exact match's first genre folder, and a match without genre raises |
| Genres.DecideSong | music_inbox/genres.py:65-73 | the loop with break over the displayed songs decides as Decide |
| Genres.MoveNeedsExactMatch | music_inbox/genres.py:65-73 | a file moves only when a found song has exactly its artist and title |
| Genres.StemPieces | music_inbox/genres.py:101 | rsplit("-", 1) of the stem gives one piece exactly when there is no "-", else two pieces rejoining with "-", the second without "-" |
| Genres.SongOf | music_inbox/genres.py:97-101 | a tagged artist gives the stripped artist and title, a missing title raising; otherwise the stem's pieces; an unloadable file raises |
| Genres.EntryOrderIsTotal | music_inbox/genres.py:104 | comparing (path, song) pairs, paths by their "/" parts then songs, is a total order |
| Genres.SortedEntries | music_inbox/genres.py:104 | the songs are sorted ascending by that order and keep the same elements |
| Genres.SortedEntriesIsUnique | music_inbox/genres.py:104 | every ascending arrangement of the songs is that one |
| Genres.SearchAllDecidesInOrder | music_inbox/genres.py:48-73 | the songs are decided in sorted order, one decision each, until the first whose match has no genre |
| Genres.CheckPairs | music_inbox/genres.py:50-52 | the unpacking succeeds exactly when every song is an (artist, title) pair |
| Genres.Gather | music_inbox/genres.py:50-53 | gather fails exactly when some search fails, else gives every song's search results in order |
| Genres.DecideAll | music_inbox/genres.py:55-73 | the decision loop runs Decide song by song until one raises |
| Genres.SearchAll | music_inbox/genres.py:48-73 | any song that is not a pair, or any failed search, aborts before a move; otherwise the decisions in order |
| Genres.UnreadableSongAborts | music_inbox/genres.py:94-104 | a file whose song cannot be read ends main before any search |
| Genres.ReadableSongsAreAllSorted | music_inbox/genres.py:94-104 | otherwise every file is paired with its song, and sorting keeps exactly those pairs |
| Genres.ReadSongs | music_inbox/genres.py:94-102 | the reading loop pairs files with their songs up to the first that raises |
| Genres.GuessGenres | music_inbox/genres.py:80-104 | main expands, reads, sorts and searches as the specification functions say |
| Clean.BracketGroup | music_inbox/clean.py:25 | a match of the pattern at the start of the text opens with "[", closes with "]" and has at least 3 characters |
| Clean.BracketGroupMatches | music_inbox/clean.py:25 | the length found is a match of \[+.\]+ |
| Clean.BracketGroupIsLongest | music_inbox/clean.py:25 | no longer prefix matches \[+.\]+, and a prefix that matches means a match is found |
| Clean.RemoveBracketed | music_inbox/clean.py:25 | re.sub never lengthens the name and leaves a name without "[" unchanged |
| Clean.RemovePlainPrefix | music_inbox/clean.py:25 | re.sub copies a stretch without "[" unchanged and carries on with the rest |
| Clean.RemovesBracketedCharacter | music_inbox/clean.py:25 | a single bracketed character after text without "[" is removed, and the text before it kept |
| Clean.BeatportTargetKeepsFolder | music_inbox/clean.py:19-23 | a Beatport file stays in its folder under the name artist + " - " + title + ".mp3" |
| Clean.Renamed | music_inbox/clean.py:23 | os.rename puts the file at the destination and removes the source; no other path changes |
| Clean.Retagged | music_inbox/clean.py:40-43 | setting and saving artist and title changes only that file's tag, and only those two frames |
| Clean.SaveToLoadedPath | music_inbox/clean.py:43 | saving as written targets the path the file was loaded from: it raises when no tagged file is there, and otherwise retags that file |
| Clean.StaleSaveRaises | music_inbox/clean.py:17-43 | for a plain file the rename moved, saving to the loaded path always raises |
| Clean.GradeOf | music_inbox/clean.py:33-38 | a bitrate under 320 is warned about and one under 192 is rejected |
| Clean.Step | music_inbox/clean.py:12-43 | one iteration adds at most one warning and one error, each naming the file with its bitrate, and only for a plain file under 320 or 192 |
| Clean.BeatportStep | music_inbox/clean.py:19-23 | a Beatport file is only renamed; the iteration raises, changing nothing, without artist or title or when os.rename cannot move it (an empty name or a missing folder) |
| Clean.SlashInArtistRaises | music_inbox/clean.py:19-23 | a Beatport artist a1/a2 (as in "AC/DC") puts the new name in the folder a1 below the file's; where that folder is missing the iteration raises and changes nothing |
| Clean.TargetBelowFolder | music_inbox/clean.py:22-23 | os.path.dirname of the joined target whose artist is a1/a2 is the file's folder followed by a1 |
| Clean.PlainStep | music_inbox/clean.py:24-43 | any other file is renamed to its cleaned stem; the iteration raises, changing nothing, when os.rename cannot move it, and after the rename when the name has no " - "; else warned under 320, rejected under 192, and otherwise the renamed file's tag gets the split artist and title |
| Clean.BracketedStemRaises | music_inbox/clean.py:25-26 | the stem of "[a].mp3" is removed whole, so os.rename to the empty name raises and the iteration changes nothing |
| Clean.CleanFiles | music_inbox/clean.py:9-43 | main's loop leaves the files, warnings and errors the iterations give, up to the first that raises |
| Clean.ReportsOnlyGrow | music_inbox/clean.py:34-45 | the warnings and errors so far stay, in order, at the head of the final lists |
| Clean.ErrorsNameFiles | music_inbox/clean.py:36-45 | every collected error names one of the files and a bitrate under 192 |
| FolderGenre.SelectedAppend | music_inbox/folder2genre.py:21-29 | the folders select independently in walk order; skipping a "_" folder does not stop the folders walked after it |
| FolderGenre.SelectedMembers | music_inbox/folder2genre.py:21-29 | a pair is selected exactly when a folder not starting with "_" holds a file with extension exactly ".mp3", the pair's genre being the folder's name |
| FolderGenre.FolderAudios | music_inbox/folder2genre.py:25-29 | the inner loop keeps the ".mp3" files of a folder in order, each joined to the folder |
| FolderGenre.SelectAudios | music_inbox/folder2genre.py:20-29 | the nested loops build the audios list the selection describes |
| FolderGenre.TagStep | music_inbox/folder2genre.py:31-39 | a missing path raises; a tag is rewritten exactly when it differs and saving works, and nothing else changes |
| FolderGenre.TagAudios | music_inbox/folder2genre.py:31-39 | the tagging loop follows TagStep file by file |
| FolderGenre.SetGenres | music_inbox/folder2genre.py:12-39 | main selects the audios of the walk and tags them |
| FolderGenre.FailuresDoNotStop | music_inbox/folder2genre.py:31-39 | when every path exists, every file gets an outcome and failures do not stop the loop |
| FolderGenre.RunSettles | music_inbox/folder2genre.py:34-37 | after a run in which every save succeeds, each tagged file has its folder's genre |
| FolderGenre.SettledRunWritesNothing | music_inbox/folder2genre.py:34-37 | on settled files the loop rewrites nothing and changes nothing |
| FolderGenre.SecondRunWritesNothing | music_inbox/folder2genre.py:31-39 | running the script a second time writes no tag |
| Playlist.EntriesAreTheNamingLines | music_inbox/playlist2delete.py:19-22 | the entries are exactly the stripped lines that are neither empty nor "#" comments, each stripped, and exactly the files the loop acts on |
| Playlist.Ask | music_inbox/playlist2delete.py:16-17 | a confirmation has read between 1 and all the answers |
| Playlist.AskStopsAtFirstYes | music_inbox/playlist2delete.py:16-17 | question confirms exactly when a yes comes before any blank answer, and stops at the first yes; it never answers no |
| Playlist.DeletesExactlyTheListed | music_inbox/playlist2delete.py:19-27 | only files the playlist names are deleted, and without an exception every named file is gone |
| Playlist.MissingAreListedAndAbsent | music_inbox/playlist2delete.py:23-27 | each reported missing file is named by the playlist and absent at the end |
| Playlist.AbsentAtItsTurnIsReported | music_inbox/playlist2delete.py:19-27 | without an exception, an entry whose file is absent at its turn is reported, including a repeated entry whose earlier line deleted the file |
| Playlist.YesToAllFinishes | music_inbox/playlist2delete.py:16-23 | with a yes to every question the loop runs to the end |
| Playlist.DeletePlaylist | music_inbox/playlist2delete.py:19-27 | main's loop skips, asks, deletes or reports in file order as the specification function says |

## Left out

- FFT magnitudes (scipy's `fft`, `fftfreq`) and pydub's `dBFS` are inputs. Floating-point rounding of bin frequencies is not modelled: bin k's frequency is the exact k*frame_rate/n, and reals are mathematical.
- Decoding and saving of MP3s and tags (mutagen, eyed3) is out of scope. Tags are plain records and decoders are function parameters.
- The HTTP requests to iTunes and Beatport, and the extraction of Beatport's page data, are not modelled. A KeyError on a missing JSON key and the URL quoting of the query are left out too: the model works on the query before quoting.
- asyncio's concurrency is not modelled. The searches run one after the other; as in the code, a failing search aborts the run before any move.
- Filesystem effects are abstract: glob, os.walk, rename, mkdir and remove work on given lists, maps and sets. Paths are compared as written, with no pathlib normalisation of "." or doubled "/".
- Failures of mkdir and rename in genres.py, and of os.remove for reasons other than a missing file, are not modelled.
- The interactive index prompt of artwork.py is only its entry, the AskUser outcome. The iTerm2 image display, the artwork download and console printing are left out. Printed lists that matter are kept as sequences: failures, warnings, errors and missing files.
- lower and strip are modelled for ASCII letters and whitespace only.
- Playlist.Ask: Python's recursion limit on question (after about a thousand refusals) is not modelled.
- Genres.SortedEntries: the tagged song is a tuple and the fallback song a list. Python raises TypeError when it must compare the two for the same path; the model compares both as sequences.
- Clean.PlainStep: writes the new tag to the renamed file, as evidently intended; the code as written saves to the path the file was loaded from (see Findings). A file whose audio info is missing is not modelled; the bitrate is always present.
- Clean.Step: of os.rename's failures only an empty destination and a destination folder that does not exist are modelled. A destination that is an existing folder, and permission errors, are not. The folders that exist are given as a set, and the current directory and the file's own folder always exist.
- Clean.Renamed: the non-Beatport target is the cleaned stem alone. It is taken as a path string, without resolving it against the working directory.
- FolderGenre.TagStep: eyed3 keeps the genre as a Genre object. Its comparison with the folder name is modelled as string equality of the genre name.
- FolderGenre.SelectAudios: the walk is given as its full list of folders, so pruning of `dirs` plays no part. The code does not prune either.

## Findings

| source | as written | input that shows it | evidently intended | confidence | as-written member | corrected member |
|---|---|---|---|---|---|---|
| music_inbox/clean.py:26-43 | the file is renamed, then `audiofile.tag.save()` writes to the path eyed3 loaded it from, where no file remains | a non-Beatport file "music/A - T.mp3" at 320 kbps: it is renamed to "A - T", and the save opens "music/A - T.mp3" | the renamed file gets the new artist and title tags | not executed; medium (it depends on eyed3 opening the loaded path when saving) | Clean.StaleSaveRaises | Clean.PlainStep |
