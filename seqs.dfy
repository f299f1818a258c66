/**
 * Facts about slicing and appending sequences, and the first/last element with a property (the
 * layouts' "remember the first match" and "keep overwriting" loops), for any element type.
 */
module Seqs {
  import opened Wrappers

  lemma PrefixSlice<T>(a: seq<T>, b: seq<T>, i: nat, j: nat)
    requires i <= j <= |a|
    ensures (a + b)[i..j] == a[i..j]
  {
  }

  lemma SuffixSnoc<T>(a: seq<T>, x: T, i: nat)
    requires i <= |a|
    ensures (a + [x])[i..] == a[i..] + [x]
  {
  }

  lemma SuffixAt<T>(a: seq<T>, i: nat, e: nat)
    requires i <= e <= |a|
    ensures a[i..e] + a[e..] == a[i..]
  {
  }

  lemma SplitAt<T>(a: seq<T>, k: nat, s: nat)
    requires k <= s <= |a|
    ensures a[..k] + a[k..s] == a[..s]
  {
  }

  lemma SplitAround<T>(a: seq<T>, s: nat)
    requires s < |a|
    ensures a == a[..s] + ([a[s]] + a[s + 1..])
  {
  }

  lemma SnocInit<T>(a: seq<T>, x: T)
    ensures (a + [x])[..|a|] == a
    ensures (a + [x])[|a|] == x
    ensures |a + [x]| == |a| + 1
  {
  }

  /** Appending an element keeps every prefix and extends every suffix by it. */
  lemma SnocSlices<T>(a: seq<T>, x: T, k: nat)
    requires k <= |a|
    ensures (a + [x])[..k] == a[..k]
    ensures (a + [x])[k..|a| + 1] == a[k..|a|] + [x]
  {
  }

  lemma AppendAssoc<T>(a: seq<T>, b: seq<T>, c: seq<T>)
    ensures a + (b + c) == (a + b) + c
  {
  }

  /** Dropping one more element of a suffix drops one more of the whole. */
  lemma DropAfterDrop<T>(s: seq<T>, i: nat)
    requires i < |s|
    ensures s[i..][1..] == s[i + 1..]
  {
  }

  /** Dropping `i > 0` elements of `[x] + s` drops `i - 1` of `s`. */
  lemma DropCons<T>(x: T, s: seq<T>, i: nat)
    requires 0 < i <= |s| + 1
    ensures ([x] + s)[i..] == s[i - 1..]
  {
  }

  /** Index of the first element satisfying `p`. */
  function FirstIndex<T>(s: seq<T>, p: T -> bool): (r: Option<nat>)
    ensures r.Some? ==> r.value < |s| && p(s[r.value])
  {
    if s == [] then None
    else
      match FirstIndex(s[..|s| - 1], p)
      case Some(i) => Some(i)
      case None => if p(s[|s| - 1]) then Some(|s| - 1) else None
  }

  /** Index of the last element satisfying `p`. */
  function LastIndex<T>(s: seq<T>, p: T -> bool): (r: Option<nat>)
    ensures r.Some? ==> r.value < |s| && p(s[r.value])
  {
    if s == [] then None
    else if p(s[|s| - 1]) then Some(|s| - 1)
    else LastIndex(s[..|s| - 1], p)
  }

  /** No element before the first match satisfies `p`; no match means no element does. */
  lemma {:induction false} FirstIndexSpec<T>(s: seq<T>, p: T -> bool)
    ensures FirstIndex(s, p).Some? ==> forall j :: 0 <= j < FirstIndex(s, p).value ==> !p(s[j])
    ensures FirstIndex(s, p).None? ==> forall j :: 0 <= j < |s| ==> !p(s[j])
  {
    if s != [] {
      var init := s[..|s| - 1];
      FirstIndexSpec(init, p);
      assert forall j :: 0 <= j < |init| ==> s[j] == init[j];
    }
  }

  /** No element after the last match satisfies `p`; no match means no element does. */
  lemma {:induction false} LastIndexSpec<T>(s: seq<T>, p: T -> bool)
    ensures LastIndex(s, p).Some? ==> forall j :: LastIndex(s, p).value < j < |s| ==> !p(s[j])
    ensures LastIndex(s, p).None? ==> forall j :: 0 <= j < |s| ==> !p(s[j])
  {
    if s != [] {
      var init := s[..|s| - 1];
      LastIndexSpec(init, p);
      assert forall j :: 0 <= j < |init| ==> s[j] == init[j];
    }
  }

  /** There is a first match exactly when there is a last one. */
  lemma FirstLastAgree<T>(s: seq<T>, p: T -> bool)
    ensures FirstIndex(s, p).Some? <==> LastIndex(s, p).Some?
  {
    FirstIndexSpec(s, p);
    LastIndexSpec(s, p);
  }

  /** The first element satisfying `p`. */
  function FirstOf<T>(s: seq<T>, p: T -> bool): (r: Option<T>)
    ensures r.Some? ==> r.value in s && p(r.value)
  {
    match FirstIndex(s, p)
    case None => None
    case Some(i) => Some(s[i])
  }

  /** The last element satisfying `p`. */
  function LastOf<T>(s: seq<T>, p: T -> bool): (r: Option<T>)
    ensures r.Some? ==> r.value in s && p(r.value)
  {
    match LastIndex(s, p)
    case None => None
    case Some(i) => Some(s[i])
  }

  /** Appending keeps an existing first match and otherwise may supply one. */
  lemma FirstOfSnoc<T>(s: seq<T>, x: T, p: T -> bool)
    ensures FirstIndex(s + [x], p) == if FirstIndex(s, p).Some? then FirstIndex(s, p) else if p(x) then Some(|s|) else None
    ensures FirstOf(s + [x], p) == if FirstOf(s, p).Some? then FirstOf(s, p) else if p(x) then Some(x) else None
  {
    assert (s + [x])[..|s|] == s;
  }

  /** Appending a match makes it the last one; anything else keeps the last match. */
  lemma LastOfSnoc<T>(s: seq<T>, x: T, p: T -> bool)
    ensures LastOf(s + [x], p) == if p(x) then Some(x) else LastOf(s, p)
  {
    assert (s + [x])[..|s|] == s;
  }
}
