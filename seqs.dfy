/** Searching and filtering sequences by a predicate, as the scripts' loops and comprehensions do. */
module Seqs {
  import opened Wrappers

  /** The index of the first element satisfying p. */
  function FirstIndex<T>(s: seq<T>, p: T -> bool): (r: Option<nat>)
    ensures r.Some? ==> r.value < |s| && p(s[r.value])
    ensures r.Some? ==> forall j :: 0 <= j < r.value ==> !p(s[j])
    ensures r.None? ==> forall j :: 0 <= j < |s| ==> !p(s[j])
  {
    if s == [] then None
    else if p(s[0]) then Some(0)
    else
      match FirstIndex(s[1..], p)
      case None => None
      case Some(i) => Some(i + 1)
  }

  /** The first satisfying element is the one FirstIndex finds. */
  lemma FirstIndexNone<T>(s: seq<T>, p: T -> bool)
    requires forall j :: 0 <= j < |s| ==> !p(s[j])
    ensures FirstIndex(s, p) == None
  {
  }

  lemma FirstIndexIs<T>(s: seq<T>, p: T -> bool, i: nat)
    requires i < |s| && p(s[i]) && forall j :: 0 <= j < i ==> !p(s[j])
    ensures FirstIndex(s, p) == Some(i)
  {
    var r := FirstIndex(s, p);
    assert r.Some? by {
      assert p(s[i]);
    }
    assert !(r.value < i);
    assert !(r.value > i);
  }

  /** The elements satisfying p, in their order in s. */
  function Filter<T(!new)>(s: seq<T>, p: T -> bool): (r: seq<T>)
    ensures |r| <= |s|
    ensures forall x :: x in r <==> x in s && p(x)
  {
    if s == [] then []
    else
      var init := Filter(s[..|s| - 1], p);
      assert s == s[..|s| - 1] + [s[|s| - 1]];
      if p(s[|s| - 1]) then init + [s[|s| - 1]] else init
  }

  lemma FilterStep<T(!new)>(s: seq<T>, p: T -> bool, i: nat)
    requires i < |s|
    ensures Filter(s[..i + 1], p) == Filter(s[..i], p) + (if p(s[i]) then [s[i]] else [])
  {
    assert s[..i + 1][..i] == s[..i];
  }

  /** Filtering keeps every satisfying element and drops the others, so a second filter changes nothing. */
  lemma {:induction false} FilterIdempotent<T(!new)>(s: seq<T>, p: T -> bool)
    ensures Filter(Filter(s, p), p) == Filter(s, p)
  {
    if s != [] {
      var init := s[..|s| - 1];
      var f := Filter(init, p);
      FilterIdempotent(init, p);
      if p(s[|s| - 1]) {
        var g := f + [s[|s| - 1]];
        assert g[..|g| - 1] == f;
      }
    }
  }

  /** The loop that looks for the first satisfying element and returns as soon as it finds it. */
  method FindFirst<T>(s: seq<T>, p: T -> bool) returns (r: Option<nat>)
    ensures r == FirstIndex(s, p)
  {
    var i := 0;
    while i < |s|
      invariant 0 <= i <= |s|
      invariant forall j :: 0 <= j < i ==> !p(s[j])
    {
      if p(s[i]) {
        FirstIndexIs(s, p, i);
        return Some(i);
      }
      i := i + 1;
    }
    return None;
  }

  /**
   * Applies f to the elements of xs in order and pairs each element with its
   * result, stopping at the first element for which f yields None; the flag
   * says whether it stopped there.
   */
  function RunUntilNone<T, U>(xs: seq<T>, f: T -> Option<U>): (seq<(T, U)>, bool) {
    if xs == [] then ([], false)
    else
      var prev := RunUntilNone(xs[..|xs| - 1], f);
      var x := xs[|xs| - 1];
      if prev.1 then prev
      else
        match f(x)
        case None => (prev.0, true)
        case Some(y) => (prev.0 + [(x, y)], false)
  }

  lemma RunUntilNoneStep<T, U>(xs: seq<T>, f: T -> Option<U>, i: nat)
    requires i < |xs|
    ensures RunUntilNone(xs[..i + 1], f)
         == var prev := RunUntilNone(xs[..i], f);
            if prev.1 then prev
            else match f(xs[i])
                 case None => (prev.0, true)
                 case Some(y) => (prev.0 + [(xs[i], y)], false)
  {
    assert xs[..i + 1][..i] == xs[..i];
  }

  /** Once the run has stopped, later elements change nothing. */
  lemma {:induction false} RunUntilNoneStops<T, U>(xs: seq<T>, f: T -> Option<U>, i: nat)
    requires i <= |xs| && RunUntilNone(xs[..i], f).1
    ensures RunUntilNone(xs, f) == RunUntilNone(xs[..i], f)
    decreases |xs| - i
  {
    if i < |xs| {
      RunUntilNoneStep(xs, f, i);
      RunUntilNoneStops(xs, f, i + 1);
    } else {
      assert xs[..i] == xs;
    }
  }

  /**
   * The run pairs the first elements, in order, with their results; it
   * stops early exactly at an element for which f yields None.
   */
  lemma {:induction false} RunUntilNoneFollows<T, U>(xs: seq<T>, f: T -> Option<U>)
    ensures var run := RunUntilNone(xs, f);
      |run.0| <= |xs|
      && (forall k :: 0 <= k < |run.0| ==> run.0[k].0 == xs[k] && f(xs[k]) == Some(run.0[k].1))
      && (run.1 <==> |run.0| < |xs|)
      && (run.1 ==> f(xs[|run.0|]).None?)
  {
    if xs != [] {
      var init := xs[..|xs| - 1];
      RunUntilNoneFollows(init, f);
      assert forall k :: 0 <= k < |init| ==> init[k] == xs[k];
    }
  }

  /** [f(x) for x in s if p(x)]. */
  function Keep<T, U>(s: seq<T>, p: T -> bool, f: T -> U): (r: seq<U>)
    ensures |r| <= |s|
  {
    if s == [] then []
    else Keep(s[..|s| - 1], p, f) + (if p(s[|s| - 1]) then [f(s[|s| - 1])] else [])
  }

  lemma KeepStep<T, U>(s: seq<T>, p: T -> bool, f: T -> U, i: nat)
    requires i < |s|
    ensures Keep(s[..i + 1], p, f) == Keep(s[..i], p, f) + (if p(s[i]) then [f(s[i])] else [])
  {
    assert s[..i + 1][..i] == s[..i];
  }

  /** y is kept exactly when it is the image of an element that passes the test. */
  lemma {:induction false} KeepMembers<T, U>(s: seq<T>, p: T -> bool, f: T -> U, y: U)
    ensures y in Keep(s, p, f) <==> exists j :: 0 <= j < |s| && p(s[j]) && y == f(s[j])
  {
    if s != [] {
      var init := s[..|s| - 1];
      KeepMembers(init, p, f, y);
      assert forall j :: 0 <= j < |init| ==> init[j] == s[j];
    }
  }

  /** The pieces f gives for the elements of s, one after the other. */
  function Concat<T, U>(s: seq<T>, f: T -> seq<U>): seq<U> {
    if s == [] then [] else Concat(s[..|s| - 1], f) + f(s[|s| - 1])
  }

  lemma ConcatStep<T, U>(s: seq<T>, f: T -> seq<U>, i: nat)
    requires i < |s|
    ensures Concat(s[..i + 1], f) == Concat(s[..i], f) + f(s[i])
  {
    assert s[..i + 1][..i] == s[..i];
  }

  /** Concat works piece by piece: each part of s contributes on its own, in order. */
  lemma {:induction false} ConcatAppend<T, U>(s1: seq<T>, s2: seq<T>, f: T -> seq<U>)
    ensures Concat(s1 + s2, f) == Concat(s1, f) + Concat(s2, f)
    decreases |s2|
  {
    if s2 == [] {
      assert s1 + s2 == s1;
    } else {
      var init := s2[..|s2| - 1];
      var last := s2[|s2| - 1];
      var whole := s1 + s2;
      ConcatAppend(s1, init, f);
      assert whole[..|whole| - 1] == s1 + init && whole[|whole| - 1] == last;
      assert Concat(whole, f) == Concat(s1 + init, f) + f(last);
      assert Concat(s2, f) == Concat(init, f) + f(last);
      AppendAssociates(Concat(s1, f), Concat(init, f), f(last));
    }
  }

  lemma AppendAssociates<U>(a: seq<U>, b: seq<U>, c: seq<U>)
    ensures (a + b) + c == a + (b + c)
  {
  }

  lemma {:induction false} ConcatMembers<T, U>(s: seq<T>, f: T -> seq<U>, y: U)
    ensures y in Concat(s, f) <==> exists i :: 0 <= i < |s| && y in f(s[i])
  {
    if s != [] {
      var init := s[..|s| - 1];
      ConcatMembers(init, f, y);
      assert forall i :: 0 <= i < |init| ==> init[i] == s[i];
    }
  }
}
