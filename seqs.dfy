/** `Array.prototype.filter` and `Array.prototype.find` on sequences. */
module Seqs {
  import opened Wrappers

  /** The elements satisfying `p`, in their original order. */
  function Filter<T(!new)>(s: seq<T>, p: T -> bool): (r: seq<T>)
    ensures |r| <= |s|
    ensures forall x :: x in r <==> x in s && p(x)
  {
    if s == [] then []
    else
      var rest := Filter(s[1..], p);
      if p(s[0]) then [s[0]] + rest else rest
  }

  /** Filtering a sequence with a known first element. */
  lemma FilterCons<T(!new)>(h: T, t: seq<T>, p: T -> bool)
    ensures Filter([h] + t, p) == (if p(h) then [h] else []) + Filter(t, p)
  {
    assert ([h] + t)[0] == h && ([h] + t)[1..] == t;
  }

  /** Filtering keeps order: it distributes over concatenation. */
  lemma {:induction false} FilterAppend<T(!new)>(a: seq<T>, b: seq<T>, p: T -> bool)
    ensures Filter(a + b, p) == Filter(a, p) + Filter(b, p)
  {
    if a == [] {
      assert a + b == b;
    } else {
      var ab := a + b;
      assert ab[0] == a[0] && ab[1..] == a[1..] + b;
      FilterAppend(a[1..], b, p);
      if p(a[0]) {
        assert Filter(ab, p) == [a[0]] + Filter(a[1..] + b, p);
        assert Filter(a, p) == [a[0]] + Filter(a[1..], p);
      } else {
        assert Filter(ab, p) == Filter(a[1..] + b, p);
        assert Filter(a, p) == Filter(a[1..], p);
      }
    }
  }

  /** Filtering keeps every satisfying element as often as it occurs, and no other. */
  lemma {:induction false} FilterCount<T(!new)>(s: seq<T>, p: T -> bool)
    ensures forall x :: multiset(Filter(s, p))[x] == if p(x) then multiset(s)[x] else 0
  {
    if s != [] {
      FilterCount(s[1..], p);
      assert s == [s[0]] + s[1..];
    }
  }

  /** The first element satisfying `p`, if any. */
  function Find<T>(s: seq<T>, p: T -> bool): (r: Option<T>)
    ensures r.None? <==> forall k :: 0 <= k < |s| ==> !p(s[k])
    ensures r.Some? ==> exists k :: 0 <= k < |s| && s[k] == r.value && p(s[k])
                                   && forall j :: 0 <= j < k ==> !p(s[j])
  {
    if s == [] then None
    else if p(s[0]) then Some(s[0])
    else
      var r := Find(s[1..], p);
      assert r.Some? ==> exists k :: 0 < k < |s| && s[k] == r.value && p(s[k])
                                   && forall j :: 0 <= j < k ==> !p(s[j]) by {
        if r.Some? {
          var k :| 0 <= k < |s| - 1 && s[1..][k] == r.value && p(s[1..][k])
                   && forall j :: 0 <= j < k ==> !p(s[1..][j]);
          assert forall j :: 0 < j < k + 1 ==> !p(s[j]) by {
            forall j | 0 < j < k + 1 ensures !p(s[j]) {
              assert s[j] == s[1..][j - 1];
            }
          }
        }
      }
      r
  }

  /** `f` applied to each element in order, or the error of the first element it fails on. */
  function MapAll<T, U, E>(s: seq<T>, f: T -> Result<U, E>): (r: Result<seq<U>, E>)
    ensures r.Success? ==> |r.value| == |s| && forall k :: 0 <= k < |s| ==> f(s[k]) == Success(r.value[k])
  {
    if s == [] then Success([])
    else
      match MapAll(s[..|s| - 1], f)
      case Failure(e) => Failure(e)
      case Success(us) =>
        match f(s[|s| - 1])
        case Failure(e) => Failure(e)
        case Success(u) =>
          assert forall k :: 0 <= k < |s| - 1 ==> s[..|s| - 1][k] == s[k];
          Success(us + [u])
  }

  /** The traversal succeeds exactly when `f` succeeds on every element. */
  lemma {:induction false} MapAllSucceeds<T, U, E>(s: seq<T>, f: T -> Result<U, E>)
    ensures MapAll(s, f).Success? <==> forall k :: 0 <= k < |s| ==> f(s[k]).Success?
    decreases |s|
  {
    if s != [] {
      var init := s[..|s| - 1];
      MapAllSucceeds(init, f);
      assert forall k :: 0 <= k < |init| ==> init[k] == s[k];
    }
  }

  /** One more element: its value is appended, or its error ends the traversal. */
  lemma MapAllStep<T, U, E>(s: seq<T>, k: nat, f: T -> Result<U, E>)
    requires k < |s| && MapAll(s[..k], f).Success?
    ensures f(s[k]).Failure? ==> MapAll(s[..k + 1], f) == Failure(f(s[k]).error)
    ensures f(s[k]).Success? ==> MapAll(s[..k + 1], f) == Success(MapAll(s[..k], f).value + [f(s[k]).value])
  {
    assert s[..k + 1][..k] == s[..k];
  }

  /** An error on a prefix is the error of the whole traversal. */
  lemma {:induction false} MapAllKeepsFailure<T, U, E>(s: seq<T>, k: nat, f: T -> Result<U, E>)
    requires k <= |s| && MapAll(s[..k], f).Failure?
    ensures MapAll(s, f) == MapAll(s[..k], f)
    decreases |s| - k
  {
    if k < |s| {
      assert s[..k + 1][..k] == s[..k];
      MapAllKeepsFailure(s, k + 1, f);
    } else {
      assert s[..k] == s;
    }
  }

  lemma FirstTwo<T>(s: seq<T>)
    requires |s| >= 2
    ensures s[..2] == [s[0], s[1]]
  {
  }
}
