/**
 * The string operations of Python that the scripts use, restricted to ASCII:
 * str.strip, str.lower, str.replace, str.startswith/endswith, str.rfind,
 * str.rsplit(sep, 1), str.join and "cut at the first delimiter".
 */
module Text {
  import opened Wrappers

  /** str.isspace on ASCII: space, \t \n \v \f \r and the separators \x1c-\x1f. */
  predicate IsSpace(c: char) {
    c == ' ' || ('\t' <= c <= '\r') || ('\U{1C}' <= c <= '\U{1F}')
  }

  predicate IsUpper(c: char) {
    'A' <= c <= 'Z'
  }

  function LowerChar(c: char): char {
    if IsUpper(c) then (c as int - 'A' as int + 'a' as int) as char else c
  }

  /** No upper-case ASCII letter occurs in s. */
  predicate IsLowered(s: string) {
    forall i :: 0 <= i < |s| ==> !IsUpper(s[i])
  }

  /** str.lower() on ASCII. */
  function Lower(s: string): (r: string)
    ensures |r| == |s|
    ensures forall i :: 0 <= i < |s| ==> r[i] == LowerChar(s[i])
    ensures IsLowered(r)
    ensures IsLowered(s) ==> r == s
  {
    if s == [] then [] else [LowerChar(s[0])] + Lower(s[1..])
  }

  /** Every character of s from lo up to hi is whitespace. */
  predicate AllSpace(s: string, lo: int, hi: int) {
    forall i :: lo <= i < hi && 0 <= i < |s| ==> IsSpace(s[i])
  }

  /** Neither end of s is whitespace. */
  predicate IsStripped(s: string) {
    s == [] || (!IsSpace(s[0]) && !IsSpace(s[|s| - 1]))
  }

  /** How many whitespace characters str.lstrip() drops. */
  function LeadingSpaces(s: string): (k: nat)
    ensures k <= |s| && AllSpace(s, 0, k)
    ensures k == |s| || !IsSpace(s[k])
  {
    if s != [] && IsSpace(s[0]) then 1 + LeadingSpaces(s[1..]) else 0
  }

  /** Where the whitespace that str.rstrip() drops begins. */
  function TrailingStart(s: string): (j: nat)
    ensures j <= |s| && AllSpace(s, j, |s|)
    ensures j == 0 || !IsSpace(s[j - 1])
  {
    if s != [] && IsSpace(s[|s| - 1]) then TrailingStart(s[..|s| - 1]) else |s|
  }

  /** str.strip(): drops whitespace at both ends, leaving a slice of s. */
  function Strip(s: string): (r: string)
    ensures OccursAt(s, r, LeadingSpaces(s))
    ensures IsStripped(r)
    ensures IsStripped(s) ==> r == s
    ensures r == [] <==> AllSpace(s, 0, |s|)
    ensures AllSpace(s, 0, LeadingSpaces(s)) && AllSpace(s, LeadingSpaces(s) + |r|, |s|)
  {
    var k := LeadingSpaces(s);
    if k == |s| then []
    else
      var j := TrailingStart(s);
      assert k < j;
      assert IsStripped(s) ==> k == 0 && j == |s|;
      s[k..j]
  }

  lemma NotInSlice(s: string, k: nat, c: char)
    requires k <= |s| && c !in s[k..]
    ensures forall m :: k <= m < |s| ==> s[m] != c
  {
    forall m | k <= m < |s| ensures s[m] != c {
      assert s[m] == s[k..][m - k];
    }
  }

  lemma Snoc<T>(s: seq<T>)
    requires s != []
    ensures s == s[..|s| - 1] + [s[|s| - 1]]
  {
  }

  lemma SnocSlice<T>(s: seq<T>, i: nat)
    requires i < |s|
    ensures s[i..] == s[..|s| - 1][i..] + [s[|s| - 1]]
  {
  }

  lemma TakeDrop<T>(s: seq<T>, d: nat)
    requires d <= |s|
    ensures s[..d] + s[d..] == s
  {
  }

  lemma SliceOfSuffix<T>(s: seq<T>, k: nat, n: nat)
    requires k + n <= |s|
    ensures s[k..][..n] == s[k..k + n]
  {
  }

  lemma StripIdempotent(s: string)
    ensures Strip(Strip(s)) == Strip(s)
  {
  }

  predicate StartsWith(s: string, p: string) {
    |p| <= |s| && s[..|p|] == p
  }

  predicate EndsWith(s: string, p: string) {
    |p| <= |s| && s[|s| - |p|..] == p
  }

  /** p occurs in s starting at index i. */
  predicate OccursAt(s: string, p: string, i: nat) {
    i + |p| <= |s| && s[i..i + |p|] == p
  }

  /** Python's `p in s`. */
  predicate Contains(s: string, p: string) {
    exists i: nat | i <= |s| :: OccursAt(s, p, i)
  }

  lemma OccursInSuffix(s: string, k: nat, p: string, j: nat)
    requires k <= |s| && OccursAt(s[k..], p, j)
    ensures OccursAt(s, p, k + j)
  {
    assert s[k + j..k + j + |p|] == s[k..][j..j + |p|];
  }

  lemma AbsentFromSuffix(s: string, k: nat, p: string)
    requires k <= |s|
    ensures !Contains(s, p) ==> !Contains(s[k..], p)
  {
    if !Contains(s, p) {
      forall j: nat | OccursAt(s[k..], p, j) ensures false {
        OccursInSuffix(s, k, p, j);
      }
    }
  }

  lemma OccursInPrefix(s: string, k: nat, p: string, j: nat)
    requires k <= |s| && OccursAt(s[..k], p, j)
    ensures OccursAt(s, p, j)
  {
    assert s[j..j + |p|] == s[..k][j..j + |p|];
  }

  /**
   * The prefix of s that ends just before the first index i at which
   * atBreak(s[i..]) holds (all of s when there is none); this is
   * re.split(pattern, s, 1)[0] for a pattern whose matches atBreak recognises.
   */
  function PrefixBefore(s: string, atBreak: string -> bool): (r: string)
    ensures |r| <= |s| && r == s[..|r|]
    ensures forall i :: 0 <= i < |r| ==> !atBreak(s[i..])
    ensures |r| < |s| ==> atBreak(s[|r|..])
  {
    if s == [] || atBreak(s) then []
    else
      var rest := PrefixBefore(s[1..], atBreak);
      assert forall i :: 1 <= i <= |s| ==> s[1..][i - 1..] == s[i..];
      [s[0]] + rest
  }

  /**
   * str.replace(pat, rep): scans left to right and replaces every
   * non-overlapping occurrence of pat.
   */
  function ReplaceAll(s: string, pat: string, rep: string): (r: string)
    requires pat != []
    ensures !Contains(s, pat) ==> r == s
    ensures |pat| == 1 && |rep| == 1 ==>
      |r| == |s| && forall i :: 0 <= i < |s| ==> r[i] == if s[i] == pat[0] then rep[0] else s[i]
    decreases |s|
  {
    if |s| < |pat| then s
    else if s[..|pat|] == pat then
      assert OccursAt(s, pat, 0);
      rep + ReplaceAll(s[|pat|..], pat, rep)
    else
      var rest := ReplaceAll(s[1..], pat, rep);
      AbsentFromSuffix(s, 1, pat);
      assert |pat| == 1 ==> s[..1] == [s[0]] && pat == [pat[0]];
      [s[0]] + rest
  }

  /**
   * str.replace for a one-character pattern: every `from` becomes `to`,
   * every other character stays, and no `from` remains.
   */
  function ReplaceChar(s: string, from: char, to: char): (r: string)
    requires from != to
    ensures |r| == |s| && from !in r
    ensures forall i :: 0 <= i < |r| ==> r[i] == (if s[i] == from then to else s[i])
  {
    var r := ReplaceAll(s, [from], [to]);
    assert forall i :: 0 <= i < |r| ==> r[i] != from;
    r
  }

  /** i is the leftmost place where p occurs in s. */
  predicate FirstOccurrence(s: string, p: string, i: nat) {
    OccursAt(s, p, i) && forall j: nat :: j < i ==> !OccursAt(s, p, j)
  }

  lemma ReplaceAllSkipsFirst(s: string, pat: string, rep: string)
    requires pat != [] && s != [] && !OccursAt(s, pat, 0)
    ensures ReplaceAll(s, pat, rep) == [s[0]] + ReplaceAll(s[1..], pat, rep)
  {
  }

  lemma ConsBeforeSlice(s: string, i: nat, t: string, a: string, b: string, rest: string)
    requires 0 < i <= |s| && t == a + b && a == s[1..i] && b == rest
    ensures [s[0]] + t == s[..i] + rest
  {
    assert s[..i] == [s[0]] + s[1..i];
  }

  lemma NoOccurrenceInTail(s: string, pat: string, i: nat)
    requires 0 < i <= |s| && forall j: nat :: j < i ==> !OccursAt(s, pat, j)
    ensures forall j: nat :: j < i - 1 ==> !OccursAt(s[1..], pat, j)
  {
    var tail := s[1..];
    forall j: nat | j < i - 1 ensures !OccursAt(tail, pat, j) {
      assert !OccursAt(s, pat, j + 1);
      if j + |pat| <= |tail| {
        assert tail[j..j + |pat|] == s[j + 1..j + 1 + |pat|];
      }
    }
  }

  /** str.replace copies a stretch that holds no occurrence unchanged. */
  lemma {:induction false} ReplaceAfterPlainPrefix(s: string, pat: string, rep: string, i: nat)
    requires pat != [] && i <= |s| && forall j: nat :: j < i ==> !OccursAt(s, pat, j)
    ensures ReplaceAll(s, pat, rep) == s[..i] + ReplaceAll(s[i..], pat, rep)
  {
    if i == 0 {
      assert s[i..] == s;
    } else {
      var tail := s[1..];
      ReplaceAllSkipsFirst(s, pat, rep);
      NoOccurrenceInTail(s, pat, i);
      ReplaceAfterPlainPrefix(tail, pat, rep, i - 1);
      assert tail[i - 1..] == s[i..];
      SliceOfSuffix(s, 1, i - 1);
      ConsBeforeSlice(s, i, ReplaceAll(tail, pat, rep), tail[..i - 1], ReplaceAll(tail[i - 1..], pat, rep),
                      ReplaceAll(s[i..], pat, rep));
    }
  }

  lemma ReplaceAllAtOccurrence(s: string, pat: string, rep: string, i: nat)
    requires pat != [] && OccursAt(s, pat, i)
    ensures ReplaceAll(s[i..], pat, rep) == rep + ReplaceAll(s[i + |pat|..], pat, rep)
  {
    var t := s[i..];
    assert t[..|pat|] == pat;
    assert t[|pat|..] == s[i + |pat|..];
  }

  lemma ConcatAssociates(a: string, b: string, c: string)
    ensures a + (b + c) == (a + b) + c
  {
  }

  /** str.replace rewrites the leftmost occurrence first and carries on after it. */
  lemma ReplaceAtFirstOccurrence(s: string, pat: string, rep: string, i: nat)
    requires pat != [] && FirstOccurrence(s, pat, i)
    ensures ReplaceAll(s, pat, rep) == s[..i] + rep + ReplaceAll(s[i + |pat|..], pat, rep)
  {
    ReplaceAfterPlainPrefix(s, pat, rep, i);
    ReplaceAllAtOccurrence(s, pat, rep, i);
    ConcatAssociates(s[..i], rep, ReplaceAll(s[i + |pat|..], pat, rep));
  }

  lemma AbsentAfterLast(s: string, sep: string, i: nat)
    requires OccursAt(s, sep, i)
    requires forall j: nat :: i < j ==> !OccursAt(s, sep, j)
    requires sep != []
    ensures !Contains(s[i + |sep|..], sep)
  {
    var after := s[i + |sep|..];
    forall j: nat | OccursAt(after, sep, j) ensures false {
      OccursInSuffix(s, i + |sep|, sep, j);
    }
  }

  /** str.join: the parts with sep between neighbours. */
  function Join(parts: seq<string>, sep: string): string {
    if parts == [] then []
    else if |parts| == 1 then parts[0]
    else parts[0] + sep + Join(parts[1..], sep)
  }

  /** str.split(c) for one character: the pieces between the occurrences of c. */
  function SplitOn(s: string, c: char): (r: seq<string>)
    ensures |r| >= 1
    ensures forall i :: 0 <= i < |r| ==> c !in r[i]
    ensures Join(r, [c]) == s
  {
    if s == [] then [[]]
    else
      var rest := SplitOn(s[1..], c);
      if s[0] == c then
        assert Join([[]] + rest, [c]) == [c] + Join(rest, [c]) by {
          assert ([[]] + rest)[1..] == rest;
        }
        [[]] + rest
      else
        var r := [[s[0]] + rest[0]] + rest[1..];
        assert r[1..] == rest[1..];
        assert |rest| > 1 ==> Join(rest, [c]) == rest[0] + [c] + Join(rest[1..], [c]);
        r
  }

  /** Splitting loses nothing: two strings with the same pieces are equal. */
  lemma SplitOnInjective(s: string, t: string, c: char)
    requires SplitOn(s, c) == SplitOn(t, c)
    ensures s == t
  {
  }

  /** The last index of c in s (str.rfind for one character). */
  function LastIndexOf(s: string, c: char): (r: Option<nat>)
    ensures r.None? <==> c !in s
    ensures r.Some? ==> r.value < |s| && s[r.value] == c && c !in s[r.value + 1..]
  {
    if s == [] then None
    else if s[|s| - 1] == c then Some(|s| - 1)
    else
      var r := LastIndexOf(s[..|s| - 1], c);
      Snoc(s);
      if r.Some? then
        SnocSlice(s, r.value + 1);
        r
      else
        r
  }

  /** The last index at which p occurs in s (str.rfind). */
  function LastOccurrence(s: string, p: string): (r: Option<nat>)
    ensures r.Some? ==> OccursAt(s, p, r.value) && forall j: nat :: r.value < j ==> !OccursAt(s, p, j)
    ensures r.None? <==> !Contains(s, p)
  {
    LastOccurrenceBelow(s, p, |s| + 1)
  }

  function LastOccurrenceBelow(s: string, p: string, k: nat): (r: Option<nat>)
    ensures r.Some? ==> r.value < k && OccursAt(s, p, r.value)
    ensures r.Some? ==> forall j: nat :: r.value < j < k ==> !OccursAt(s, p, j)
    ensures r.None? ==> forall j: nat :: j < k ==> !OccursAt(s, p, j)
    decreases k
  {
    if k == 0 then None
    else if OccursAt(s, p, k - 1) then Some(k - 1)
    else LastOccurrenceBelow(s, p, k - 1)
  }

  /**
   * str.rsplit(sep, 1) when it yields two parts: the text before and after
   * the last occurrence of sep; None when sep does not occur (Python then
   * yields a one-element list).
   */
  function SplitAtLast(s: string, sep: string): (r: Option<(string, string)>)
    requires sep != []
    ensures r.None? <==> !Contains(s, sep)
    ensures r.Some? ==> r.value.0 + sep + r.value.1 == s
    ensures r.Some? ==> !Contains(r.value.1, sep)
    ensures r.Some? ==> forall j: nat :: |r.value.0| < j ==> !OccursAt(s, sep, j)
  {
    match LastOccurrence(s, sep)
    case None => None
    case Some(i) =>
      var after := s[i + |sep|..];
      assert s == s[..i] + sep + after;
      AbsentAfterLast(s, sep, i);
      Some((s[..i], after))
  }
}
