/** Sequence searches shared by the data store, the whitelist gate and the update checker. */
module Seqs {
  import opened Wrappers

  /** Index of the first element satisfying `p`, as a `for ... if ...: return` scan finds it. */
  function FirstIndex<T>(s: seq<T>, p: T -> bool): (r: Option<nat>)
    ensures r.Some? ==> r.value < |s| && p(s[r.value])
    ensures r.Some? ==> forall k :: 0 <= k < r.value ==> !p(s[k])
    ensures r.None? <==> forall k :: 0 <= k < |s| ==> !p(s[k])
  {
    if s == [] then None
    else if p(s[0]) then Some(0)
    else match FirstIndex(s[1..], p)
      case None => None
      case Some(k) => Some(k + 1)
  }

  /** No element occurs twice. */
  predicate NoDuplicates<T(==)>(s: seq<T>) {
    forall i, j :: 0 <= i < j < |s| ==> s[i] != s[j]
  }

  /** Position of the first occurrence of `x`. */
  function IndexOf<T(==)>(s: seq<T>, x: T): (i: nat)
    requires x in s
    ensures i < |s| && s[i] == x
  {
    if s[0] == x then 0 else 1 + IndexOf(s[1..], x)
  }

  /** The first occurrence of every element, in input order. */
  function Unique<T(==)>(s: seq<T>): seq<T> {
    if s == [] then []
    else
      var init := s[..|s| - 1];
      if s[|s| - 1] in init then Unique(init) else Unique(init) + [s[|s| - 1]]
  }

  /** `IndexOf` finds the first occurrence: `x` does not occur before it. */
  lemma {:induction false} IndexOfIsFirst<T>(s: seq<T>, x: T)
    requires x in s
    ensures forall k :: 0 <= k < IndexOf(s, x) ==> s[k] != x
  {
    if s[0] != x {
      IndexOfIsFirst(s[1..], x);
    }
  }

  /** Appending leaves the first occurrence of an element already present where it was. */
  lemma {:induction false} IndexOfSnoc<T>(s: seq<T>, x: T, y: T)
    requires y in s
    ensures IndexOf(s + [x], y) == IndexOf(s, y)
  {
    if s[0] != y {
      assert (s + [x])[1..] == s[1..] + [x];
      IndexOfSnoc(s[1..], x, y);
    }
  }

  /** Deduplication loses no element and invents none. */
  lemma {:induction false} UniqueSameElements<T>(s: seq<T>)
    ensures forall x :: x in Unique(s) ==> x in s
    ensures forall x :: x in s ==> x in Unique(s)
  {
    if s != [] {
      var init := s[..|s| - 1];
      assert s == init + [s[|s| - 1]];
      UniqueSameElements(init);
    }
  }

  /** Deduplication keeps one copy of every element and orders the copies by first occurrence. */
  lemma {:induction false} UniqueKeepsFirstOccurrences<T>(s: seq<T>)
    ensures NoDuplicates(Unique(s))
    ensures forall x :: x in Unique(s) ==> x in s
    ensures forall i, j :: 0 <= i < j < |Unique(s)| ==> IndexOf(s, Unique(s)[i]) < IndexOf(s, Unique(s)[j])
  {
    UniqueSameElements(s);
    if s != [] {
      var init, x := s[..|s| - 1], s[|s| - 1];
      assert s == init + [x];
      UniqueKeepsFirstOccurrences(init);
      UniqueSameElements(init);
      OrderSurvivesSnoc(init, Unique(init), x);
    }
  }

  /** Appending to a sequence moves no first occurrence of an element already present. */
  lemma IndicesSurviveSnoc<T>(init: seq<T>, u: seq<T>, x: T)
    requires forall y :: y in u ==> y in init
    ensures forall y :: y in u ==> IndexOf(init + [x], y) == IndexOf(init, y) < |init|
  {
    forall y | y in u ensures IndexOf(init + [x], y) == IndexOf(init, y) < |init| {
      IndexOfSnoc(init, x, y);
    }
  }

  /**
   * The inductive step of `UniqueKeepsFirstOccurrences`: appending `x` to the
   * input keeps the order of the copies kept so far, and a new `x` comes last.
   */
  lemma OrderSurvivesSnoc<T>(init: seq<T>, u: seq<T>, x: T)
    requires NoDuplicates(u) && (forall y :: y in u ==> y in init)
    requires forall i, j :: 0 <= i < j < |u| ==> IndexOf(init, u[i]) < IndexOf(init, u[j])
    ensures x !in init ==> NoDuplicates(u + [x])
    ensures forall i, j :: 0 <= i < j < |u| ==> IndexOf(init + [x], u[i]) < IndexOf(init + [x], u[j])
    ensures x !in init ==>
      forall i, j :: 0 <= i < j < |u + [x]| ==> IndexOf(init + [x], (u + [x])[i]) < IndexOf(init + [x], (u + [x])[j])
  {
    var s := init + [x];
    IndicesSurviveSnoc(init, u, x);
    if x !in init {
      assert IndexOf(s, x) == |init|;
      forall i, j | 0 <= i < j < |u + [x]|
        ensures IndexOf(s, (u + [x])[i]) < IndexOf(s, (u + [x])[j])
      {
        assert (u + [x])[i] == u[i];
        if j == |u| {
          assert (u + [x])[j] == x;
        } else {
          assert (u + [x])[j] == u[j];
        }
      }
    }
  }
}
