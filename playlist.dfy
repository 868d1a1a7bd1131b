/**
 * playlist2delete.py: read a playlist, ask for each file it names whether
 * to delete it, and delete it, reporting the files that are already gone.
 *
 * The playlist's lines, the answers typed at the prompt (in order) and the
 * set of files present are inputs.
 */
module Playlist {
  import opened Text
  import opened Seqs

  // ---------------------------------------------------------------- lines

  /** A stripped line names a file when it is not empty and not a "#" comment. */
  predicate IsEntry(line: string) {
    line != [] && !StartsWith(line, "#")
  }

  predicate IsEntryLine(line: string) {
    IsEntry(Strip(line))
  }

  /** The files the playlist names, stripped, in file order. */
  function Entries(lines: seq<string>): seq<string> {
    Keep(lines, IsEntryLine, Strip)
  }

  /** The entries are exactly the stripped lines that are neither empty nor comments, and each is stripped. */
  lemma EntriesAreTheNamingLines(lines: seq<string>, e: string)
    ensures e in Entries(lines) <==> exists i :: 0 <= i < |lines| && IsEntry(Strip(lines[i])) && e == Strip(lines[i])
    ensures e in Entries(lines) ==> IsEntry(e) && IsStripped(e)
    ensures e in Entries(lines) <==> Listed(Names(lines), e)
  {
    KeepMembers(lines, IsEntryLine, Strip, e);
    var names := Names(lines);
    if e in Entries(lines) {
      var i :| 0 <= i < |lines| && IsEntry(Strip(lines[i])) && e == Strip(lines[i]);
      assert names[i] == e;
    }
    if Listed(names, e) {
      var i :| 0 <= i < |names| && IsEntry(names[i]) && names[i] == e;
      assert Strip(lines[i]) == e;
    }
  }

  // ---------------------------------------------------------------- question

  /** An answer as question reads it: lowercased, then stripped. */
  function Reply(answer: string): string {
    Strip(Lower(answer))
  }

  /** Indexing the first character of an empty reply raises IndexError. */
  predicate Blank(answer: string) {
    Reply(answer) == []
  }

  predicate IsYes(answer: string) {
    !Blank(answer) && Reply(answer)[0] == 'y'
  }

  /** How a question ends: confirmed after reading some answers, or an exception. There is no "no". */
  datatype Asked = Confirmed(used: nat) | Raised

  /** Reading answers until one is a yes; a blank answer or the end of the input raises. */
  function Ask(answers: seq<string>, blank: string -> bool, yes: string -> bool): (r: Asked)
    ensures r.Confirmed? ==> 1 <= r.used <= |answers|
    decreases |answers|
  {
    if answers == [] || blank(answers[0]) then Raised
    else if yes(answers[0]) then Confirmed(1)
    else match Ask(answers[1..], blank, yes)
      case Raised => Raised
      case Confirmed(n) => Confirmed(n + 1)
  }

  lemma {:induction false} AskStopsAtFirstYes(answers: seq<string>, blank: string -> bool, yes: string -> bool)
    ensures Ask(answers, blank, yes).Confirmed?
        <==> exists i :: 0 <= i < |answers| && !blank(answers[i]) && yes(answers[i])
                         && forall k :: 0 <= k < i ==> !blank(answers[k])
    ensures Ask(answers, blank, yes).Confirmed? ==>
      var i := Ask(answers, blank, yes).used - 1;
      yes(answers[i]) && forall k :: 0 <= k < i ==> !blank(answers[k]) && !yes(answers[k])
    decreases |answers|
  {
    if answers != [] && !blank(answers[0]) && !yes(answers[0]) {
      var tail := answers[1..];
      AskStopsAtFirstYes(tail, blank, yes);
      assert forall k :: 0 <= k < |tail| ==> tail[k] == answers[k + 1];
      if exists i :: 0 <= i < |answers| && !blank(answers[i]) && yes(answers[i])
                     && forall k :: 0 <= k < i ==> !blank(answers[k]) {
        var i :| 0 <= i < |answers| && !blank(answers[i]) && yes(answers[i])
                 && forall k :: 0 <= k < i ==> !blank(answers[k]);
        assert 0 < i;
        assert !blank(tail[i - 1]) && yes(tail[i - 1]) && forall k :: 0 <= k < i - 1 ==> !blank(tail[k]);
      }
      if Ask(tail, blank, yes).Confirmed? {
        var j := Ask(tail, blank, yes).used - 1;
        assert answers[j + 1] == tail[j];
      }
    }
  }

  /**
   * question(q): an answer whose reply starts with "y" confirms, an empty
   * reply raises IndexError, running out of input raises EOFError, and any
   * other answer asks again. AskStopsAtFirstYes, with Blank and IsYes,
   * says when it confirms and after how many answers.
   */
  function Question(answers: seq<string>): Asked {
    Ask(answers, Blank, IsYes)
  }

  // ---------------------------------------------------------------- deleting

  /** How main ends: the files left, the entries reported missing in order, and whether it raised. */
  datatype Deletion = Deletion(files: set<string>, missing: seq<string>, crashed: bool)

  /** The lines as the loop sees them: stripped. */
  function Names(lines: seq<string>): (r: seq<string>)
    ensures |r| == |lines| && forall i :: 0 <= i < |lines| ==> r[i] == Strip(lines[i])
  {
    seq(|lines|, i requires 0 <= i < |lines| => Strip(lines[i]))
  }

  /** The loop of main from the given stripped lines on, with the answers not yet read. */
  function Run(names: seq<string>, answers: seq<string>, files: set<string>): Deletion
    decreases |names|
  {
    if names == [] then Deletion(files, [], false)
    else
      var line := names[0];
      if !IsEntry(line) then Run(names[1..], answers, files)
      else match Question(answers)
        case Raised => Deletion(files, [], true)
        case Confirmed(n) =>
          var rest := Run(names[1..], answers[n..], files - {line});
          Deletion(rest.files, (if line in files then [] else [line]) + rest.missing, rest.crashed)
  }

  /** Some stripped line names p. */
  ghost predicate Listed(names: seq<string>, p: string) {
    exists i :: 0 <= i < |names| && IsEntry(names[i]) && names[i] == p
  }

  lemma ListedInTail(names: seq<string>, p: string)
    requires names != [] && Listed(names[1..], p)
    ensures Listed(names, p)
  {
    var i :| 0 <= i < |names[1..]| && IsEntry(names[1..][i]) && names[1..][i] == p;
    assert names[1..][i] == names[i + 1];
  }

  lemma ListedHeadOrTail(names: seq<string>, p: string)
    requires names != [] && Listed(names, p) && !(IsEntry(names[0]) && names[0] == p)
    ensures Listed(names[1..], p)
  {
    var i :| 0 <= i < |names| && IsEntry(names[i]) && names[i] == p;
    assert names[1..][i - 1] == names[i];
  }

  /**
   * Only files the playlist names are deleted, and when the loop is not cut
   * short by an exception every named file is gone: question never says no.
   */
  lemma {:induction false} DeletesExactlyTheListed(names: seq<string>, answers: seq<string>, files: set<string>, p: string)
    ensures var r := Run(names, answers, files);
      (p in r.files ==> p in files)
      && (p in files && p !in r.files ==> Listed(names, p))
      && (!r.crashed ==> (p in r.files <==> p in files && !Listed(names, p)))
    decreases |names|
  {
    if names != [] {
      var line := names[0];
      var tail := names[1..];
      if !IsEntry(line) {
        DeletesExactlyTheListed(tail, answers, files, p);
        if Listed(tail, p) { ListedInTail(names, p); }
        if Listed(names, p) { ListedHeadOrTail(names, p); }
      } else if Question(answers).Confirmed? {
        var n := Question(answers).used;
        DeletesExactlyTheListed(tail, answers[n..], files - {line}, p);
        if Listed(tail, p) { ListedInTail(names, p); }
        if Listed(names, p) && p != line { ListedHeadOrTail(names, p); }
      }
    }
  }

  /** A reported file is one the playlist names and is absent at the end. */
  lemma {:induction false} MissingAreListedAndAbsent(names: seq<string>, answers: seq<string>, files: set<string>, k: nat)
    requires k < |Run(names, answers, files).missing|
    ensures var r := Run(names, answers, files);
      Listed(names, r.missing[k]) && r.missing[k] !in r.files
    decreases |names|
  {
    var line := names[0];
    var tail := names[1..];
    if !IsEntry(line) {
      MissingAreListedAndAbsent(tail, answers, files, k);
      ListedInTail(names, Run(names, answers, files).missing[k]);
    } else {
      var n := Question(answers).used;
      var rest := Run(tail, answers[n..], files - {line});
      if line in files || 0 < k {
        var j := if line in files then k else k - 1;
        MissingAreListedAndAbsent(tail, answers[n..], files - {line}, j);
        ListedInTail(names, rest.missing[j]);
      } else {
        DeletesExactlyTheListed(tail, answers[n..], files - {line}, line);
      }
    }
  }

  /**
   * The converse: when the loop is not cut short, an entry whose file is
   * absent at its turn is reported, whether it was never there or an earlier
   * line naming the same file deleted it.
   */
  lemma {:induction false} AbsentAtItsTurnIsReported(names: seq<string>, answers: seq<string>, files: set<string>, i: nat)
    requires i < |names| && IsEntry(names[i]) && !Run(names, answers, files).crashed
    requires names[i] !in files || Listed(names[..i], names[i])
    ensures names[i] in Run(names, answers, files).missing
    decreases |names|
  {
    var line := names[0];
    var tail := names[1..];
    var p := names[i];
    if 0 < i {
      assert tail[i - 1] == p;
      assert names[..i][1..] == tail[..i - 1];
      if Listed(names[..i], p) && !(IsEntry(line) && line == p) {
        ListedHeadOrTail(names[..i], p);
      }
    }
    if IsEntry(line) {
      var n := Question(answers).used;
      if 0 < i {
        AbsentAtItsTurnIsReported(tail, answers[n..], files - {line}, i - 1);
      }
    } else {
      AbsentAtItsTurnIsReported(tail, answers, files, i - 1);
    }
  }

  /** With a yes for every line there is nothing to raise: the loop runs to the end. */
  lemma {:induction false} YesToAllFinishes(names: seq<string>, answers: seq<string>, files: set<string>)
    requires |names| <= |answers| && forall k :: 0 <= k < |answers| ==> IsYes(answers[k])
    ensures !Run(names, answers, files).crashed
    decreases |names|
  {
    if names != [] {
      var line := names[0];
      if !IsEntry(line) {
        YesToAllFinishes(names[1..], answers, files);
      } else {
        assert IsYes(answers[0]);
        var rest := answers[1..];
        assert forall k :: 0 <= k < |rest| ==> rest[k] == answers[k + 1];
        YesToAllFinishes(names[1..], rest, files - {line});
      }
    }
  }

  /** The missing reports so far in front of what the rest of the loop does. */
  function After(missing: seq<string>, rest: Deletion): Deletion {
    rest.(missing := missing + rest.missing)
  }

  lemma RunSkips(names: seq<string>, i: nat, answers: seq<string>, files: set<string>)
    requires i < |names| && !IsEntry(names[i])
    ensures Run(names[i..], answers, files) == Run(names[i + 1..], answers, files)
  {
    assert names[i..][1..] == names[i + 1..];
  }

  lemma RunConfirms(names: seq<string>, i: nat, answers: seq<string>, files: set<string>, n: nat)
    requires i < |names| && IsEntry(names[i]) && Question(answers) == Confirmed(n)
    ensures Run(names[i..], answers, files)
         == After(if names[i] in files then [] else [names[i]], Run(names[i + 1..], answers[n..], files - {names[i]}))
  {
    assert names[i..][1..] == names[i + 1..];
  }

  lemma AfterAfter(m1: seq<string>, m2: seq<string>, r: Deletion)
    ensures After(m1, After(m2, r)) == After(m1 + m2, r)
  {
    assert m1 + (m2 + r.missing) == (m1 + m2) + r.missing;
  }

  /** main's loop over the lines: skip, ask, delete or report the missing file. */
  method DeletePlaylist(lines: seq<string>, answers0: seq<string>, files0: set<string>)
    returns (files: set<string>, missing: seq<string>, crashed: bool)
    ensures Deletion(files, missing, crashed) == Run(Names(lines), answers0, files0)
  {
    var names := Names(lines);
    files, missing := files0, [];
    var answers := answers0;
    var i := 0;
    while i < |lines|
      invariant 0 <= i <= |lines|
      invariant Run(names, answers0, files0) == After(missing, Run(names[i..], answers, files))
    {
      var line := Strip(lines[i]);
      assert line == names[i];
      if IsEntry(line) {
        var asked := Question(answers);
        if asked.Raised? {
          assert names[i..][1..] == names[i + 1..];
          return files, missing, true;
        }
        var n := asked.used;
        ghost var rest := Run(names[i + 1..], answers[n..], files - {line});
        var report: seq<string> := if line in files then [] else [line];
        RunConfirms(names, i, answers, files, n);
        AfterAfter(missing, report, rest);
        answers := answers[n..];
        files := files - {line};
        missing := missing + report;
        assert Run(names, answers0, files0) == After(missing, Run(names[i + 1..], answers, files));
      } else {
        RunSkips(names, i, answers, files);
      }
      i := i + 1;
    }
    return files, missing, false;
  }
}
