/**
 * The resolver behind fetchImportMeta in imports.go: a cache of fetched
 * package metadata and the list of queries whose fetch is under way, run
 * one call at a time. The lock, the done channel and the context are not
 * modelled; an inflight entry is its query string, and the result a waiter
 * receives is a parameter.
 */
module Resolver {
  import opened Wrappers
  import opened Text
  import opened Imports

  /** Either query string is a prefix of the other. */
  predicate Overlaps(a: string, b: string)
  {
    HasPrefix(a, b) || HasPrefix(b, a)
  }

  /** The first cached result whose root is a prefix of the query. */
  function FirstCached(results: seq<PkgMeta>, pkg: string): (m: Option<PkgMeta>)
    ensures m.Some? ==> m.value in results && HasPrefix(pkg, m.value.root)
  {
    if results == [] then None
    else if HasPrefix(pkg, results[0].root) then Some(results[0])
    else FirstCached(results[1..], pkg)
  }

  /** The first inflight query that overlaps the query. */
  function FirstOverlap(inflight: seq<string>, pkg: string): (k: Option<string>)
    ensures k.Some? ==> k.value in inflight && Overlaps(pkg, k.value)
  {
    if inflight == [] then None
    else if Overlaps(pkg, inflight[0]) then Some(inflight[0])
    else FirstOverlap(inflight[1..], pkg)
  }

  /** What the first, locked part of fetchImportMeta decides. */
  datatype Plan =
    | Cached(meta: PkgMeta)   // a cached result answers the query
    | Waiting(key: string)    // an inflight query will answer it
    | Owner                   // this call registers the query and fetches

  function PlanFor(results: seq<PkgMeta>, inflight: seq<string>, pkg: string): Plan
  {
    match FirstCached(results, pkg)
    case Some(m) => Cached(m)
    case None =>
      match FirstOverlap(inflight, pkg)
      case Some(k) => Waiting(k)
      case None => Owner
  }

  /** The inflight list without the entries equal to `pkg`, the others in order. */
  function Without(s: seq<string>, pkg: string): (r: seq<string>)
    ensures |r| <= |s|
  {
    if s == [] then []
    else if s[0] == pkg then Without(s[1..], pkg)
    else [s[0]] + Without(s[1..], pkg)
  }

  /** No two entries of the list overlap. */
  predicate Unrelated(s: seq<string>)
  {
    s == [] || ((forall k :: k in s[1..] ==> !Overlaps(s[0], k)) && Unrelated(s[1..]))
  }

  class Resolver {
    var results: seq<PkgMeta>
    var inflight: seq<string>

    /** Inflight queries are pairwise prefix-unrelated. */
    predicate Valid()
      reads this
    {
      Unrelated(inflight)
    }

    constructor()
      ensures Valid() && results == [] && inflight == []
    {
      results, inflight := [], [];
    }

    /**
     * The locked first part of fetchImportMeta: answer from the cache, join
     * an overlapping inflight query, or register the query as inflight.
     */
    method Begin(pkg: string) returns (plan: Plan)
      requires Valid()
      modifies this
      ensures Valid()
      ensures plan == PlanFor(old(results), old(inflight), pkg)
      ensures results == old(results)
      ensures inflight == if plan.Owner? then old(inflight) + [pkg] else old(inflight)
    {
      for i := 0 to |results|
        invariant FirstCached(results, pkg) == FirstCached(results[i..], pkg)
      {
        if HasPrefix(pkg, results[i].root) {
          assert results[i..][0] == results[i];
          return Cached(results[i]);
        }
        assert results[i..][1..] == results[i + 1..];
      }
      for i := 0 to |inflight|
        invariant FirstOverlap(inflight, pkg) == FirstOverlap(inflight[i..], pkg)
      {
        if HasPrefix(pkg, inflight[i]) || HasPrefix(inflight[i], pkg) {
          assert inflight[i..][0] == inflight[i];
          return Waiting(inflight[i]);
        }
        assert inflight[i..][1..] == inflight[i + 1..];
      }
      NoOverlapUnrelated(inflight, pkg);
      inflight := inflight + [pkg];
      plan := Owner;
    }

    /**
     * The locked last part of fetchImportMeta: record the result if the
     * fetch succeeded, then compact away the entries equal to the query.
     */
    method Finish(pkg: string, outcome: Result<PkgMeta, FetchError>)
      requires Valid()
      modifies this
      ensures Valid()
      ensures results == old(results) + if outcome.Success? then [outcome.value] else []
      ensures inflight == Without(old(inflight), pkg)
    {
      if outcome.Success? {
        results := results + [outcome.value];
      }
      ghost var orig := inflight;
      ghost var recorded := results;
      var n := 0;
      for i := 0 to |inflight|
        invariant results == recorded
        invariant |inflight| == |orig| && n <= i
        invariant inflight[..n] == Without(orig[..i], pkg)
        invariant inflight[i..] == orig[i..]
      {
        var inf := inflight[i];
        WithoutSnoc(orig[..i], pkg, inf);
        assert orig[..i + 1] == orig[..i] + [inf];
        if inf != pkg {
          inflight := inflight[n := inf];
          n := n + 1;
        }
      }
      assert orig[..|orig|] == orig;
      inflight := inflight[..n];
      WithoutUnrelated(orig, pkg);
    }

    /**
     * fetchImportMeta, one call alone: the cache, then an inflight query
     * (whose result `published` gives), then a fetch of its own.
     */
    method FetchImportMeta(pkg: string, get: string -> Option<Reply>, published: string -> Result<PkgMeta, FetchError>)
      returns (r: Result<PkgMeta, FetchError>)
      requires Valid()
      modifies this
      ensures Valid() && inflight == old(inflight)
      ensures match PlanFor(old(results), old(inflight), pkg)
        case Cached(m) => r == Success(m) && results == old(results)
        case Waiting(k) => r == published(k) && results == old(results)
        case Owner =>
          r == FetchOutcome(pkg, get(GoGetUrl(pkg)))
          && results == old(results) + if r.Success? then [r.value] else []
    {
      var plan := Begin(pkg);
      match plan {
        case Cached(m) =>
          return Success(m);
        case Waiting(k) =>
          return published(k);
        case Owner =>
          r := Imports.FetchImportMeta(pkg, get);
          LoneQueryRestores(old(inflight), pkg);
          Finish(pkg, r);
      }
    }
  }

  // ---------------------------------------------------------------------
  // Properties
  // ---------------------------------------------------------------------

  /** A query string overlaps itself. */
  lemma OverlapsSelf(a: string)
    ensures Overlaps(a, a)
  {
    assert a[..|a|] == a;
  }

  /** A cache hit is the first result whose root prefixes the query. */
  lemma {:induction false} FirstCachedAt(results: seq<PkgMeta>, pkg: string, i: nat)
    requires i < |results| && HasPrefix(pkg, results[i].root)
    requires forall j :: 0 <= j < i ==> !HasPrefix(pkg, results[j].root)
    ensures FirstCached(results, pkg) == Some(results[i])
    decreases i
  {
    if i > 0 {
      assert forall j :: 0 <= j < i - 1 ==> results[1..][j] == results[j + 1];
      FirstCachedAt(results[1..], pkg, i - 1);
    }
  }

  /** The cache misses exactly when no cached root prefixes the query. */
  lemma {:induction false} FirstCachedNone(results: seq<PkgMeta>, pkg: string)
    ensures FirstCached(results, pkg).None? <==> forall j :: 0 <= j < |results| ==> !HasPrefix(pkg, results[j].root)
    decreases |results|
  {
    if results != [] {
      FirstCachedNone(results[1..], pkg);
      assert forall j :: 1 <= j < |results| ==> results[j] == results[1..][j - 1];
    }
  }

  /** A query registers itself exactly when nothing cached or inflight covers it. */
  lemma {:induction false} OwnerWhenUncovered(results: seq<PkgMeta>, inflight: seq<string>, pkg: string)
    ensures PlanFor(results, inflight, pkg).Owner? <==>
      (forall j :: 0 <= j < |results| ==> !HasPrefix(pkg, results[j].root))
      && (forall k :: k in inflight ==> !Overlaps(pkg, k))
  {
    FirstCachedNone(results, pkg);
    FirstOverlapNone(inflight, pkg);
  }

  lemma {:induction false} FirstOverlapNone(inflight: seq<string>, pkg: string)
    ensures FirstOverlap(inflight, pkg).None? <==> forall k :: k in inflight ==> !Overlaps(pkg, k)
    decreases |inflight|
  {
    if inflight != [] {
      FirstOverlapNone(inflight[1..], pkg);
      assert forall k :: k in inflight <==> k == inflight[0] || k in inflight[1..];
    }
  }

  /**
   * While a query's fetch is under way, no overlapping query fetches again:
   * it is answered from the cache or joins an inflight query.
   */
  lemma SecondQueryWaits(results: seq<PkgMeta>, inflight: seq<string>, pkg: string, other: string)
    requires Overlaps(pkg, other)
    ensures !PlanFor(results, inflight + [pkg], other).Owner?
  {
    assert pkg in inflight + [pkg];
    OwnerWhenUncovered(results, inflight + [pkg], other);
  }

  /** Adding a query that overlaps no inflight query keeps them unrelated. */
  lemma {:induction false} NoOverlapUnrelated(s: seq<string>, pkg: string)
    requires Unrelated(s) && FirstOverlap(s, pkg).None?
    ensures Unrelated(s + [pkg])
    decreases |s|
  {
    FirstOverlapNone(s, pkg);
    if s != [] {
      assert (s + [pkg])[1..] == s[1..] + [pkg];
      assert forall k :: k in s[1..] ==> k in s;
      FirstOverlapNone(s[1..], pkg);
      NoOverlapUnrelated(s[1..], pkg);
      assert s[0] in s;
      assert forall k :: k in s[1..] + [pkg] ==> k in s[1..] || k == pkg;
    }
  }

  /** Removing entries keeps the rest unrelated. */
  lemma {:induction false} WithoutUnrelated(s: seq<string>, pkg: string)
    requires Unrelated(s)
    ensures Unrelated(Without(s, pkg))
    decreases |s|
  {
    if s != [] {
      WithoutUnrelated(s[1..], pkg);
      if s[0] != pkg {
        var r := Without(s, pkg);
        WithoutSubset(s[1..], pkg);
        assert r[1..] == Without(s[1..], pkg);
      }
    }
  }

  /** Every entry left was in the list and is not the query; every other entry is left. */
  lemma {:induction false} WithoutSubset(s: seq<string>, pkg: string)
    ensures forall k :: k in Without(s, pkg) <==> k in s && k != pkg
    decreases |s|
  {
    if s != [] {
      WithoutSubset(s[1..], pkg);
      assert forall k :: k in s <==> k == s[0] || k in s[1..];
    }
  }

  /** Removal works entry by entry, in order. */
  lemma {:induction false} WithoutAppend(a: seq<string>, b: seq<string>, pkg: string)
    ensures Without(a + b, pkg) == Without(a, pkg) + Without(b, pkg)
    decreases |a|
  {
    if a == [] {
      assert a + b == b;
    } else {
      assert (a + b)[0] == a[0];
      assert (a + b)[1..] == a[1..] + b;
      WithoutAppend(a[1..], b, pkg);
    }
  }

  lemma WithoutSnoc(a: seq<string>, pkg: string, x: string)
    ensures Without(a + [x], pkg) == Without(a, pkg) + if x == pkg then [] else [x]
  {
    WithoutAppend(a, [x], pkg);
    assert [x][1..] == [];
  }

  /** A list without the query is left as it is. */
  lemma {:induction false} WithoutAbsent(s: seq<string>, pkg: string)
    requires pkg !in s
    ensures Without(s, pkg) == s
    decreases |s|
  {
    if s != [] {
      assert pkg !in s[1..] by {
        assert forall k :: k in s[1..] ==> k in s;
      }
      WithoutAbsent(s[1..], pkg);
      assert [s[0]] + s[1..] == s;
    }
  }

  /**
   * Inflight queries are unrelated, so the query occurs at most once and
   * completion removes exactly that one entry.
   */
  lemma {:induction false} WithoutRemovesOne(a: seq<string>, b: seq<string>, pkg: string)
    requires Unrelated(a + [pkg] + b)
    ensures Without(a + [pkg] + b, pkg) == a + b
    decreases |a|
  {
    OverlapsSelf(pkg);
    if a == [] {
      assert a + [pkg] + b == [pkg] + b;
      assert ([pkg] + b)[1..] == b;
      assert pkg !in b;
      WithoutAbsent(b, pkg);
    } else {
      var s := a + [pkg] + b;
      assert s[0] == a[0] && s[1..] == a[1..] + [pkg] + b;
      assert pkg in s[1..];
      assert a[0] != pkg;
      WithoutRemovesOne(a[1..], b, pkg);
      assert [a[0]] + (a[1..] + b) == a + b;
    }
  }

  /** A query that registered itself and completed leaves the inflight list as it found it. */
  lemma LoneQueryRestores(inflight: seq<string>, pkg: string)
    requires Unrelated(inflight + [pkg])
    ensures Without(inflight + [pkg], pkg) == inflight
  {
    assert inflight + [pkg] + [] == inflight + [pkg];
    WithoutRemovesOne(inflight, [], pkg);
    assert inflight + [] == inflight;
  }
}
