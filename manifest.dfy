/**
 * parseGodeps in manifest.go: the dependency records of a Godeps.json file,
 * already decoded, are checked, grouped by revision (one import path per
 * revision, the last record winning), and each revision's import path is
 * looked up once. The errgroup's goroutines become a sequential loop that
 * visits the revisions in an order it chooses, as map iteration does.
 */
module Manifest {
  import opened Wrappers
  import opened Imports

  /** A record of the Deps list. */
  datatype Dep = Dep(importPath: string, rev: string)

  /** pinnedPackage: a package's repository and the revision to check out. */
  datatype Pinned = Pinned(meta: PkgMeta, version: string)

  /** Why parseGodeps fails. */
  datatype GodepsError =
    | MissingRev(importPath: string)                  // a record with a path has no rev
    | LookupFailed(importPath: string, cause: string)  // the lookup of a revision's path failed

  /** The lookup function parseGodeps is given, with its error as text. */
  type Lookup = string -> Result<PkgMeta, string>

  // ---------------------------------------------------------------------
  // Grouping
  // ---------------------------------------------------------------------

  /** The grouping loop from map `m` on: skip pathless records, fail on a missing rev, else record rev -> path. */
  function GroupFrom(deps: seq<Dep>, m: map<string, string>): Result<map<string, string>, GodepsError>
    decreases |deps|
  {
    if deps == [] then Success(m)
    else if deps[0].importPath == "" then GroupFrom(deps[1..], m)
    else if deps[0].rev == "" then Failure(MissingRev(deps[0].importPath))
    else GroupFrom(deps[1..], m[deps[0].rev := deps[0].importPath])
  }

  /** The rev -> importPath map parseGodeps builds, or the error it stops with. */
  function GroupOf(deps: seq<Dep>): Result<map<string, string>, GodepsError>
  {
    GroupFrom(deps, map[])
  }

  /** The grouping loop of parseGodeps. */
  method Group(deps: seq<Dep>) returns (r: Result<map<string, string>, GodepsError>)
    ensures r == GroupOf(deps)
  {
    var toLookup: map<string, string> := map[];
    for i := 0 to |deps|
      invariant GroupFrom(deps[i..], toLookup) == GroupOf(deps)
    {
      assert deps[i..][0] == deps[i] && deps[i..][1..] == deps[i + 1..];
      var dep := deps[i];
      if dep.importPath == "" {
        continue;
      }
      if dep.rev == "" {
        return Failure(MissingRev(dep.importPath));
      }
      toLookup := toLookup[dep.rev := dep.importPath];
    }
    assert deps[|deps|..] == [];
    return Success(toLookup);
  }

  /** A record that takes part in the grouping: its path is not empty. */
  predicate Counts(d: Dep)
  {
    d.importPath != ""
  }

  /** The path of the last counted record with revision `rev`: a later record overrides an earlier one. */
  function LastFor(deps: seq<Dep>, rev: string): (p: Option<string>)
    decreases |deps|
  {
    if deps == [] then None
    else
      var later := LastFor(deps[1..], rev);
      if later.Some? then later
      else if Counts(deps[0]) && deps[0].rev == rev then Some(deps[0].importPath)
      else None
  }

  /** Every counted record has a revision. */
  ghost predicate AllPinned(deps: seq<Dep>)
  {
    forall i :: 0 <= i < |deps| && Counts(deps[i]) ==> deps[i].rev != ""
  }

  /** Grouping from `m` gives, for each revision, the last counted path, and `m` for revisions no record names. */
  lemma {:induction false} GroupFromLast(deps: seq<Dep>, m: map<string, string>)
    requires AllPinned(deps)
    ensures GroupFrom(deps, m).Success?
    ensures forall rev :: rev in GroupFrom(deps, m).value <==> LastFor(deps, rev).Some? || rev in m
    ensures forall rev :: rev in GroupFrom(deps, m).value ==>
      GroupFrom(deps, m).value[rev] == if LastFor(deps, rev).Some? then LastFor(deps, rev).value else m[rev]
    decreases |deps|
  {
    if deps != [] {
      assert AllPinned(deps[1..]) by {
        assert forall i :: 0 <= i < |deps| - 1 ==> deps[1..][i] == deps[i + 1];
      }
      if !Counts(deps[0]) {
        GroupFromLast(deps[1..], m);
      } else {
        assert deps[0].rev != "";
        GroupFromLast(deps[1..], m[deps[0].rev := deps[0].importPath]);
      }
    }
  }

  /** The grouping map holds, for each revision a counted record names, the path of the last such record. */
  lemma GroupIsLastWins(deps: seq<Dep>)
    requires AllPinned(deps)
    ensures GroupOf(deps).Success?
    ensures forall rev :: rev in GroupOf(deps).value <==> LastFor(deps, rev).Some?
    ensures forall rev :: rev in GroupOf(deps).value ==> GroupOf(deps).value[rev] == LastFor(deps, rev).value
  {
    GroupFromLast(deps, map[]);
  }

  /** A revision has a last path exactly when some counted record names it. */
  lemma {:induction false} LastForSome(deps: seq<Dep>, rev: string)
    ensures LastFor(deps, rev).Some? <==> exists i :: 0 <= i < |deps| && Counts(deps[i]) && deps[i].rev == rev
    decreases |deps|
  {
    if deps != [] {
      LastForSome(deps[1..], rev);
      if LastFor(deps[1..], rev).Some? {
        var i :| 0 <= i < |deps[1..]| && Counts(deps[1..][i]) && deps[1..][i].rev == rev;
        assert deps[i + 1] == deps[1..][i];
      } else if exists i :: 0 <= i < |deps| && Counts(deps[i]) && deps[i].rev == rev {
        var i :| 0 <= i < |deps| && Counts(deps[i]) && deps[i].rev == rev;
        if i > 0 {
          assert deps[1..][i - 1] == deps[i];
        }
      }
    }
  }

  /** Record `i` is counted, has path `path` and revision `rev`, and no later counted record has `rev`. */
  ghost predicate LastAt(deps: seq<Dep>, i: int, path: string, rev: string)
  {
    0 <= i < |deps| && Counts(deps[i]) && deps[i] == Dep(path, rev)
    && forall j :: i < j < |deps| && Counts(deps[j]) ==> deps[j].rev != rev
  }

  /** The last path for a revision is the path of a counted record with it that no later counted record overrides. */
  lemma {:induction false} LastForIsLast(deps: seq<Dep>, rev: string)
    requires LastFor(deps, rev).Some?
    ensures exists i :: LastAt(deps, i, LastFor(deps, rev).value, rev)
    decreases |deps|
  {
    var later := LastFor(deps[1..], rev);
    if later.Some? {
      LastForIsLast(deps[1..], rev);
      var i :| LastAt(deps[1..], i, later.value, rev);
      assert forall j :: i + 1 < j < |deps| ==> deps[j] == deps[1..][j - 1];
      assert deps[i + 1] == deps[1..][i];
      assert LastAt(deps, i + 1, later.value, rev);
    } else {
      LastForSome(deps[1..], rev);
      assert forall j :: 0 < j < |deps| ==> deps[j] == deps[1..][j - 1];
      assert deps[0] == Dep(LastFor(deps, rev).value, rev);
      assert LastAt(deps, 0, LastFor(deps, rev).value, rev);
    }
  }

  /** Grouping fails exactly when some counted record has no revision, and then names the first such record's path. */
  lemma {:induction false} GroupFromFails(deps: seq<Dep>, m: map<string, string>)
    ensures GroupFrom(deps, m).Failure? <==> !AllPinned(deps)
    ensures GroupFrom(deps, m).Failure? ==>
      exists i :: 0 <= i < |deps| && Counts(deps[i]) && deps[i].rev == ""
        && AllPinned(deps[..i]) && GroupFrom(deps, m).error == MissingRev(deps[i].importPath)
    decreases |deps|
  {
    if deps != [] {
      var m' := if Counts(deps[0]) then m[deps[0].rev := deps[0].importPath] else m;
      GroupFromFails(deps[1..], m');
      assert forall i :: 0 <= i < |deps| - 1 ==> deps[1..][i] == deps[i + 1];
      if Counts(deps[0]) && deps[0].rev == "" {
        assert AllPinned(deps[..0]);
      } else if GroupFrom(deps, m).Failure? {
        var i :| 0 <= i < |deps[1..]| && Counts(deps[1..][i]) && deps[1..][i].rev == ""
          && AllPinned(deps[1..][..i]) && GroupFrom(deps[1..], m').error == MissingRev(deps[1..][i].importPath);
        assert forall j :: 0 <= j < i ==> deps[1..][..i][j] == deps[j + 1];
        assert forall j :: 0 <= j <= i ==> deps[..i + 1][j] == deps[j];
        assert AllPinned(deps[..i + 1]);
      }
    }
  }

  // ---------------------------------------------------------------------
  // Resolution
  // ---------------------------------------------------------------------

  /** The elements of a sequence. */
  ghost function Elems(s: seq<string>): set<string>
  {
    set x | x in s
  }

  /** No revision appears twice. */
  ghost predicate Distinct(s: seq<string>)
  {
    forall i, j :: 0 <= i < j < |s| ==> s[i] != s[j]
  }

  /** The packages pinned after looking up the revisions of `order`, in that order. */
  function PinnedIn(order: seq<string>, toLookup: map<string, string>, lookup: Lookup): seq<Pinned>
    requires forall k :: 0 <= k < |order| ==> order[k] in toLookup
  {
    if order == [] then []
    else
      var rev := order[|order| - 1];
      var done := PinnedIn(order[..|order| - 1], toLookup, lookup);
      match lookup(toLookup[rev])
      case Success(meta) => done + [Pinned(meta, rev)]
      case Failure(_) => done
  }

  /** The first error of the lookups of `order`, as errgroup's Wait reports it. */
  function FirstFailure(order: seq<string>, toLookup: map<string, string>, lookup: Lookup): Option<GodepsError>
    requires forall k :: 0 <= k < |order| ==> order[k] in toLookup
  {
    if order == [] then None
    else
      var rev := order[|order| - 1];
      var earlier := FirstFailure(order[..|order| - 1], toLookup, lookup);
      if earlier.Some? then earlier
      else match lookup(toLookup[rev])
        case Success(_) => None
        case Failure(e) => Some(LookupFailed(toLookup[rev], e))
  }

  /**
   * The lookup loop of parseGodeps: every revision is looked up once, in an
   * order of the loop's choosing (`order`); the packages of the successful
   * lookups are collected, and the first failure is reported.
   */
  method ResolveAll(toLookup: map<string, string>, lookup: Lookup)
    returns (packages: seq<Pinned>, err: Option<GodepsError>, ghost order: seq<string>)
    ensures Distinct(order) && Elems(order) == toLookup.Keys && |order| == |toLookup.Keys|
    ensures forall k :: 0 <= k < |order| ==> order[k] in toLookup
    ensures packages == PinnedIn(order, toLookup, lookup)
    ensures err == FirstFailure(order, toLookup, lookup)
  {
    var remaining := toLookup.Keys;
    packages, err, order := [], None, [];
    while remaining != {}
      invariant remaining <= toLookup.Keys
      invariant Elems(order) !! remaining && Elems(order) + remaining == toLookup.Keys
      invariant Distinct(order) && |order| + |remaining| == |toLookup.Keys|
      invariant forall k :: 0 <= k < |order| ==> order[k] in toLookup
      invariant packages == PinnedIn(order, toLookup, lookup)
      invariant err == FirstFailure(order, toLookup, lookup)
      decreases |remaining|
    {
      var rev :| rev in remaining;
      var importPath := toLookup[rev];
      var meta := lookup(importPath);
      if meta.Failure? {
        if err.None? {
          err := Some(LookupFailed(importPath, meta.error));
        }
      } else {
        packages := packages + [Pinned(meta.value, rev)];
      }
      LookupStep(order, rev, toLookup, lookup);
      OrderStep(order, rev, remaining, toLookup.Keys);
      order := order + [rev];
      remaining := remaining - {rev};
    }
  }

  /** Looking up one more revision adds its package, or its error if none came before. */
  lemma LookupStep(order: seq<string>, rev: string, toLookup: map<string, string>, lookup: Lookup)
    requires rev in toLookup && forall k :: 0 <= k < |order| ==> order[k] in toLookup
    ensures forall k :: 0 <= k < |order + [rev]| ==> (order + [rev])[k] in toLookup
    ensures PinnedIn(order + [rev], toLookup, lookup) == PinnedIn(order, toLookup, lookup)
      + if lookup(toLookup[rev]).Success? then [Pinned(lookup(toLookup[rev]).value, rev)] else []
    ensures FirstFailure(order + [rev], toLookup, lookup) ==
      if FirstFailure(order, toLookup, lookup).Some? || lookup(toLookup[rev]).Success? then FirstFailure(order, toLookup, lookup)
      else Some(LookupFailed(toLookup[rev], lookup(toLookup[rev]).error))
  {
    assert (order + [rev])[..|order|] == order;
  }

  /** Moving a revision from the remaining set to the end of the order keeps the bookkeeping. */
  lemma OrderStep(order: seq<string>, rev: string, remaining: set<string>, keys: set<string>)
    requires rev in remaining && Elems(order) !! remaining && Elems(order) + remaining == keys
    requires Distinct(order) && |order| + |remaining| == |keys|
    ensures Elems(order + [rev]) !! remaining - {rev} && Elems(order + [rev]) + (remaining - {rev}) == keys
    ensures Distinct(order + [rev]) && |order + [rev]| + |remaining - {rev}| == |keys|
  {
    assert Elems(order + [rev]) == Elems(order) + {rev};
    assert rev !in order;
  }

  /**
   * parseGodeps on decoded records: group them, then look up each
   * revision's path; no lookup happens when grouping fails.
   */
  method ParseGodeps(deps: seq<Dep>, lookup: Lookup)
    returns (packages: seq<Pinned>, err: Option<GodepsError>, ghost order: seq<string>)
    ensures GroupOf(deps).Failure? ==> packages == [] && err == Some(GroupOf(deps).error) && order == []
    ensures GroupOf(deps).Success? ==>
      var toLookup := GroupOf(deps).value;
      Distinct(order) && Elems(order) == toLookup.Keys && |order| == |toLookup.Keys|
      && (forall k :: 0 <= k < |order| ==> order[k] in toLookup)
      && packages == PinnedIn(order, toLookup, lookup)
      && err == FirstFailure(order, toLookup, lookup)
  {
    var group := Group(deps);
    if group.Failure? {
      return [], Some(group.error), [];
    }
    packages, err, order := ResolveAll(group.value, lookup);
  }

  // ---------------------------------------------------------------------
  // Properties of the lookups
  // ---------------------------------------------------------------------

  /**
   * The pinned packages are exactly the successful lookups: each has a
   * revision of `order` and that revision's lookup result, and each
   * successful revision is pinned.
   */
  lemma {:induction false} PinnedInExactly(order: seq<string>, toLookup: map<string, string>, lookup: Lookup)
    requires forall k :: 0 <= k < |order| ==> order[k] in toLookup
    ensures forall p :: p in PinnedIn(order, toLookup, lookup) ==>
      p.version in Elems(order) && lookup(toLookup[p.version]) == Success(p.meta)
    ensures forall k :: 0 <= k < |order| && lookup(toLookup[order[k]]).Success? ==>
      Pinned(lookup(toLookup[order[k]]).value, order[k]) in PinnedIn(order, toLookup, lookup)
    decreases |order|
  {
    if order != [] {
      var init := order[..|order| - 1];
      PinnedInExactly(init, toLookup, lookup);
      assert forall k :: 0 <= k < |init| ==> init[k] == order[k];
      assert Elems(order) == Elems(init) + {order[|order| - 1]};
    }
  }

  /** With distinct revisions that all resolve, there is one package per revision, in order. */
  lemma {:induction false} PinnedInAll(order: seq<string>, toLookup: map<string, string>, lookup: Lookup)
    requires forall k :: 0 <= k < |order| ==> order[k] in toLookup
    requires forall k :: 0 <= k < |order| ==> lookup(toLookup[order[k]]).Success?
    ensures |PinnedIn(order, toLookup, lookup)| == |order|
    ensures forall k :: 0 <= k < |order| ==>
      PinnedIn(order, toLookup, lookup)[k] == Pinned(lookup(toLookup[order[k]]).value, order[k])
    decreases |order|
  {
    if order != [] {
      var init := order[..|order| - 1];
      assert forall k :: 0 <= k < |init| ==> init[k] == order[k];
      PinnedInAll(init, toLookup, lookup);
    }
  }

  /** Wait reports no error exactly when every lookup succeeded. */
  lemma {:induction false} FirstFailureNone(order: seq<string>, toLookup: map<string, string>, lookup: Lookup)
    requires forall k :: 0 <= k < |order| ==> order[k] in toLookup
    ensures FirstFailure(order, toLookup, lookup).None? <==>
      forall k :: 0 <= k < |order| ==> lookup(toLookup[order[k]]).Success?
    ensures FirstFailure(order, toLookup, lookup).Some? ==>
      exists k :: 0 <= k < |order| && lookup(toLookup[order[k]]).Failure?
        && FirstFailure(order, toLookup, lookup) == Some(LookupFailed(toLookup[order[k]], lookup(toLookup[order[k]]).error))
    decreases |order|
  {
    if order != [] {
      var init := order[..|order| - 1];
      assert forall k :: 0 <= k < |init| ==> init[k] == order[k];
      FirstFailureNone(init, toLookup, lookup);
      if FirstFailure(init, toLookup, lookup).Some? {
        var k :| 0 <= k < |init| && lookup(toLookup[init[k]]).Failure?
          && FirstFailure(init, toLookup, lookup) == Some(LookupFailed(toLookup[init[k]], lookup(toLookup[init[k]]).error));
        assert init[k] == order[k];
      }
    }
  }

  /** The lookups of `order` went through the whole map, once per revision, and none failed. */
  ghost predicate AllResolved(order: seq<string>, toLookup: map<string, string>, lookup: Lookup)
  {
    Distinct(order) && Elems(order) == toLookup.Keys && |order| == |toLookup.Keys|
    && (forall k :: 0 <= k < |order| ==> order[k] in toLookup)
    && forall k :: 0 <= k < |order| ==> lookup(toLookup[order[k]]).Success?
  }

  /** Without failures, the k-th package is the k-th revision's, and there is one per revision. */
  lemma PackagesOfOrder(order: seq<string>, toLookup: map<string, string>, lookup: Lookup)
    requires AllResolved(order, toLookup, lookup)
    ensures var packages := PinnedIn(order, toLookup, lookup);
      |packages| == |toLookup.Keys|
      && forall k :: 0 <= k < |order| ==> packages[k] == Pinned(lookup(toLookup[order[k]]).value, order[k])
  {
    PinnedInAll(order, toLookup, lookup);
  }

  /**
   * A successful parseGodeps gives one package per revision named by a
   * counted record, each pinned to that revision with the lookup of the
   * revision's last path.
   */
  lemma OnePackagePerRev(deps: seq<Dep>, toLookup: map<string, string>, lookup: Lookup, order: seq<string>)
    requires GroupOf(deps) == Success(toLookup) && AllResolved(order, toLookup, lookup)
    ensures var packages := PinnedIn(order, toLookup, lookup);
      |packages| == |toLookup.Keys|
      && (forall i, j :: 0 <= i < j < |packages| ==> packages[i].version != packages[j].version)
      && (forall k :: 0 <= k < |packages| ==>
            LastFor(deps, packages[k].version).Some?
            && lookup(LastFor(deps, packages[k].version).value) == Success(packages[k].meta))
      && (forall rev :: LastFor(deps, rev).Some? <==> exists k :: 0 <= k < |packages| && packages[k].version == rev)
  {
    var packages := PinnedIn(order, toLookup, lookup);
    PackagesOfOrder(order, toLookup, lookup);
    assert AllPinned(deps) by {
      GroupFromFails(deps, map[]);
    }
    GroupIsLastWins(deps);
    forall i, j | 0 <= i < j < |packages|
      ensures packages[i].version != packages[j].version
    {
      assert packages[i].version == order[i] && packages[j].version == order[j];
    }
    forall k | 0 <= k < |packages|
      ensures LastFor(deps, packages[k].version).Some?
      ensures lookup(LastFor(deps, packages[k].version).value) == Success(packages[k].meta)
    {
      var rev := order[k];
      assert packages[k] == Pinned(lookup(toLookup[rev]).value, rev);
      assert rev in toLookup;
      assert toLookup[rev] == LastFor(deps, rev).value;
    }
    forall rev | LastFor(deps, rev).Some?
      ensures exists k :: 0 <= k < |packages| && packages[k].version == rev
    {
      assert rev in Elems(order);
      var k :| 0 <= k < |order| && order[k] == rev;
      assert packages[k].version == rev;
    }
    forall rev | exists k :: 0 <= k < |packages| && packages[k].version == rev
      ensures LastFor(deps, rev).Some?
    {
      var k :| 0 <= k < |packages| && packages[k].version == rev;
      assert order[k] == rev && rev in toLookup;
    }
  }

  /** One step of the grouping loop. */
  lemma GroupCons(d: Dep, rest: seq<Dep>, m: map<string, string>)
    requires Counts(d) && d.rev != ""
    ensures GroupFrom([d] + rest, m) == GroupFrom(rest, m[d.rev := d.importPath])
  {
    assert ([d] + rest)[0] == d && ([d] + rest)[1..] == rest;
  }

  /**
   * The TestParseGodeps shape: seven records over three revisions,
   * grouped to one path per revision, the last of each.
   */
  lemma SevenRecordsThreeRevs(p: seq<string>, a: string, b: string, c: string)
    requires |p| == 7 && forall i :: 0 <= i < 7 ==> p[i] != ""
    requires a != "" && b != "" && c != "" && a != b && b != c && a != c
    ensures var deps := [Dep(p[0], a), Dep(p[1], a), Dep(p[2], a), Dep(p[3], a), Dep(p[4], b), Dep(p[5], b), Dep(p[6], c)];
      GroupOf(deps) == Success(map[a := p[3], b := p[5], c := p[6]])
  {
    var d := [Dep(p[0], a), Dep(p[1], a), Dep(p[2], a), Dep(p[3], a), Dep(p[4], b), Dep(p[5], b), Dep(p[6], c)];
    var m := map[];
    assert d == [d[0]] + ([d[1]] + ([d[2]] + ([d[3]] + ([d[4]] + ([d[5]] + ([d[6]] + []))))));
    GroupCons(d[0], [d[1]] + ([d[2]] + ([d[3]] + ([d[4]] + ([d[5]] + ([d[6]] + []))))), m);
    var m0 := m[a := p[0]];
    GroupCons(d[1], [d[2]] + ([d[3]] + ([d[4]] + ([d[5]] + ([d[6]] + [])))), m0);
    var m1 := m0[a := p[1]];
    GroupCons(d[2], [d[3]] + ([d[4]] + ([d[5]] + ([d[6]] + []))), m1);
    var m2 := m1[a := p[2]];
    GroupCons(d[3], [d[4]] + ([d[5]] + ([d[6]] + [])), m2);
    var m3 := m2[a := p[3]];
    GroupCons(d[4], [d[5]] + ([d[6]] + []), m3);
    var m4 := m3[b := p[4]];
    GroupCons(d[5], [d[6]] + [], m4);
    var m5 := m4[b := p[5]];
    GroupCons(d[6], [], m5);
    var m6 := m5[c := p[6]];
    assert m6 == map[a := p[3], b := p[5], c := p[6]];
  }

  /**
   * In that shape, when every lookup succeeds there are three packages, one
   * for each of the three revisions, each with the metadata looked up for
   * the last path of its revision.
   */
  lemma SevenRecordsThreePackages(p: seq<string>, a: string, b: string, c: string, lookup: Lookup, order: seq<string>)
    requires |p| == 7 && forall i :: 0 <= i < 7 ==> p[i] != ""
    requires a != "" && b != "" && c != "" && a != b && b != c && a != c
    requires AllResolved(order, map[a := p[3], b := p[5], c := p[6]], lookup)
    ensures var m := map[a := p[3], b := p[5], c := p[6]];
      var packages := PinnedIn(order, m, lookup);
      |packages| == 3
      && (set k | 0 <= k < 3 :: packages[k].version) == {a, b, c}
      && forall k :: 0 <= k < 3 ==>
           packages[k].version in m && lookup(m[packages[k].version]) == Success(packages[k].meta)
  {
    var m := map[a := p[3], b := p[5], c := p[6]];
    var packages := PinnedIn(order, m, lookup);
    assert m.Keys == {a, b, c};
    assert |{a, b, c}| == 3;
    PackagesOfOrder(order, m, lookup);
    assert |order| == 3;
    forall k | 0 <= k < 3
      ensures packages[k].version == order[k] && order[k] in m
      ensures lookup(m[packages[k].version]) == Success(packages[k].meta)
    {
      assert order[k] in Elems(order);
    }
    assert (set k | 0 <= k < 3 :: packages[k].version) == Elems(order);
  }
}
