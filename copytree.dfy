/**
 * copyDir of goget.go: a walk over a checked-out repository that recreates,
 * below a destination directory, every directory and file the vendoring
 * filter keeps.  Directories are made with Mkdir (the parent must already
 * exist) and files are created exclusively (O_CREATE|O_EXCL), so a target
 * that already exists makes the copy fail.
 *
 * The source tree is a value (an Entry); the destination file system is a
 * Disk object whose map from paths to nodes the walk updates in place.
 */
module CopyTree {
  import opened Wrappers
  import opened Filter

  /** A path is its sequence of components; [] is the file system root. */
  type Path = seq<string>

  /** An entry of the source tree; a directory's children are in walk order. */
  datatype Entry = File(name: string, data: string) | Dir(name: string, children: seq<Entry>)

  /** What a destination path holds. */
  datatype Node = DirNode | FileNode(data: string)

  /** The error copyDir wraps, with the failing entry's path relative to the source root. */
  datatype CopyError = CopyingDirectory(rel: Path) | CreatingCopy(rel: Path)

  /** A directory whose entries all have different names. */
  ghost predicate DistinctNames(e: Entry)
  {
    e.Dir? ==> forall i, j :: 0 <= i < j < |e.children| ==> e.children[i].name != e.children[j].name
  }

  /**
   * A real directory never holds two entries of the same name: every entry
   * reached from `e` by following names has distinctly named children.
   */
  ghost predicate WellFormed(e: Entry)
  {
    forall rel :: Lookup(e, rel).Some? ==> DistinctNames(Lookup(e, rel).value)
  }

  /** The root of a well-formed tree has distinctly named children. */
  lemma WellFormedRoot(e: Entry)
    requires WellFormed(e)
    ensures DistinctNames(e)
  {
    assert Lookup(e, []) == Some(e);
  }

  /** In a directory with distinct names, looking up a child's name finds that child. */
  lemma {:induction false} ChildFound(cs: seq<Entry>, i: nat)
    requires i < |cs|
    requires forall a, b :: 0 <= a < b < |cs| ==> cs[a].name != cs[b].name
    ensures Child(cs, cs[i].name) == Some(cs[i])
    decreases |cs|
  {
    if i != |cs| - 1 {
      var front := cs[..|cs| - 1];
      assert front[i] == cs[i];
      ChildFound(front, i);
    }
  }

  /** Every child of a well-formed directory is well formed. */
  lemma ChildWellFormed(d: Entry, i: nat)
    requires d.Dir? && i < |d.children| && WellFormed(d)
    ensures WellFormed(d.children[i])
  {
    var c := d.children[i];
    WellFormedRoot(d);
    ChildFound(d.children, i);
    forall rel | Lookup(c, rel).Some? ensures DistinctNames(Lookup(c, rel).value) {
      var r := [c.name] + rel;
      assert r[1..] == rel;
      assert Lookup(d, r) == Lookup(c, rel);
    }
  }

  /** Whether the vendoring filter lets an entry through, judged by its own name. */
  predicate Admitted(e: Entry)
  {
    if e.File? then !IgnoreFile(e.name) else !IgnoreDir(e.name)
  }

  /** A directory passes the filter exactly when ignoreDir rejects its name. */
  lemma AdmittedDir(e: Entry)
    requires e.Dir?
    ensures Admitted(e) <==> !IgnoreDir(e.name)
  {
  }

  /**
   * The walk is stated for an arbitrary admission rule; copyDir's own rule is
   * Admitted.
   */
  type Rule = Entry -> bool

  /** What copying an admitted entry leaves at its target. */
  function NodeOf(e: Entry): (n: Node)
    ensures n.DirNode? <==> e.Dir?
    ensures e.File? ==> n.data == e.data
  {
    if e.File? then FileNode(e.data) else DirNode
  }

  /**
   * What the walk creates for the non-root entry `e` copied to `at`: nothing
   * when the rule drops it (for a directory, its whole subtree), else the
   * entry itself and, for a directory, what its children create below `at`.
   */
  function Planned(keep: Rule, e: Entry, at: Path): (plan: map<Path, Node>)
    decreases e, 1
  {
    if !keep(e) then map[]
    else if e.File? then map[at := FileNode(e.data)]
    else map[at := DirNode] + PlannedChildren(keep, e, |e.children|, at)
  }

  /** What the first k children of directory `d`, copied below `at`, create. */
  function PlannedChildren(keep: Rule, d: Entry, k: nat, at: Path): (plan: map<Path, Node>)
    requires d.Dir? && k <= |d.children|
    decreases d, 0, k
  {
    if k == 0 then map[]
    else
      var c := d.children[k - 1];
      PlannedChildren(keep, d, k - 1, at) + Planned(keep, c, at + [c.name])
  }

  /** Everything copyDir(to, from) creates when it succeeds, under rule `keep`. */
  function CopyPlan(keep: Rule, from: Entry, to: Path): (plan: map<Path, Node>)
  {
    if from.File? then map[] else PlannedChildren(keep, from, |from.children|, to)
  }

  /** Every target of an entry's plan lies at or below the entry's own target. */
  lemma {:induction false} PlannedUnder(keep: Rule, e: Entry, at: Path)
    ensures forall p :: p in Planned(keep, e, at) ==> |at| <= |p| && p[..|at|] == at
    decreases e, 1
  {
    if keep(e) && e.Dir? {
      ChildrenUnder(keep, e, |e.children|, at);
    }
  }

  /** Every target of the children's plan lies strictly below the directory's target. */
  lemma {:induction false} ChildrenUnder(keep: Rule, d: Entry, k: nat, at: Path)
    requires d.Dir? && k <= |d.children|
    ensures forall p :: p in PlannedChildren(keep, d, k, at) ==> |at| < |p| && p[..|at|] == at
    decreases d, 0, k
  {
    if k > 0 {
      var c := d.children[k - 1];
      ChildrenUnder(keep, d, k - 1, at);
      PlannedUnder(keep, c, at + [c.name]);
      forall p | p in Planned(keep, c, at + [c.name]) ensures p[..|at|] == at {
        assert p[..|at|] == p[..|at| + 1][..|at|];
      }
    }
  }

  /** Everything copyDir(to, from) creates lies strictly below `to`. */
  lemma CopyPlanUnder(keep: Rule, from: Entry, to: Path)
    ensures forall p :: p in CopyPlan(keep, from, to) ==> |to| < |p| && p[..|to|] == to
  {
    if from.Dir? {
      ChildrenUnder(keep, from, |from.children|, to);
    }
  }

  /** Every target of a child's plan continues its parent's target with the child's name. */
  lemma PlannedNamed(keep: Rule, c: Entry, at: Path, n: string)
    ensures forall p :: p in Planned(keep, c, at + [n]) ==> |at| < |p| && p[|at|] == n
  {
    PlannedUnder(keep, c, at + [n]);
    forall p | p in Planned(keep, c, at + [n]) ensures |at| < |p| && p[|at|] == n {
      assert p[..|at| + 1] == at + [n];
      assert p[..|at| + 1][|at|] == p[|at|];
    }
  }

  /** Every target of the children's plan continues `at` with the name of one of them. */
  lemma {:induction false} ChildrenNamed(keep: Rule, d: Entry, k: nat, at: Path)
    requires d.Dir? && k <= |d.children|
    ensures forall p :: p in PlannedChildren(keep, d, k, at) ==>
      |at| < |p| && exists j :: 0 <= j < k && p[|at|] == d.children[j].name
    decreases k
  {
    if k > 0 {
      ChildrenNamed(keep, d, k - 1, at);
      var c := d.children[k - 1];
      PlannedNamed(keep, c, at, c.name);
    }
  }

  /** The child of a directory called `n` (names are unique in a well-formed tree). */
  ghost function Child(cs: seq<Entry>, n: string): (r: Option<Entry>)
    ensures r.Some? ==> r.value in cs && r.value.name == n
    ensures r.None? ==> forall i :: 0 <= i < |cs| ==> cs[i].name != n
    decreases |cs|
  {
    if cs == [] then None
    else if cs[|cs| - 1].name == n then Some(cs[|cs| - 1])
    else Child(cs[..|cs| - 1], n)
  }

  /** The entry reached from `e` by following the names in `rel`. */
  ghost function Lookup(e: Entry, rel: Path): (r: Option<Entry>)
    ensures r.Some? && rel != [] ==> r.value.name == rel[|rel| - 1]
    decreases |rel|
  {
    if rel == [] then Some(e)
    else if e.File? then None
    else match Child(e.children, rel[0])
      case None => None
      case Some(c) => Lookup(c, rel[1..])
  }

  /**
   * The reference description of the copy: `rel` names an entry below the
   * source root, and that entry and every directory on the way to it, the
   * root excepted, pass the rule.
   */
  ghost predicate InCopy(keep: Rule, from: Entry, rel: Path)
  {
    rel != [] &&
    forall i :: 1 <= i <= |rel| ==> Lookup(from, rel[..i]).Some? && keep(Lookup(from, rel[..i]).value)
  }

  /** The same description for a subtree whose own root `e` is judged by the rule too. */
  ghost predicate Survives(keep: Rule, e: Entry, rel: Path)
  {
    forall i :: 0 <= i <= |rel| ==> Lookup(e, rel[..i]).Some? && keep(Lookup(e, rel[..i]).value)
  }

  /** Following a path from a directory is following the rest of it from the named child. */
  lemma LookupStep(e: Entry, c: Entry, rel: Path, i: nat)
    requires e.Dir? && rel != [] && Child(e.children, rel[0]) == Some(c) && 1 <= i <= |rel|
    ensures Lookup(e, rel[..i]) == Lookup(c, rel[1..][..i - 1])
  {
    assert rel[..i][1..] == rel[1..][..i - 1];
  }

  /** A path survives below a directory when the directory passes and the rest survives below its child. */
  lemma SurvivesStep(keep: Rule, e: Entry, c: Entry, rel: Path)
    requires e.Dir? && rel != [] && Child(e.children, rel[0]) == Some(c)
    ensures Survives(keep, e, rel) <==> keep(e) && Survives(keep, c, rel[1..])
    ensures InCopy(keep, e, rel) <==> Survives(keep, c, rel[1..])
  {
    var rest := rel[1..];
    assert rel[..0] == [];
    if Survives(keep, e, rel) || InCopy(keep, e, rel) {
      forall j | 0 <= j <= |rest|
        ensures Lookup(c, rest[..j]).Some? && keep(Lookup(c, rest[..j]).value)
      {
        LookupStep(e, c, rel, j + 1);
      }
    }
    if Survives(keep, c, rest) {
      forall i | 1 <= i <= |rel|
        ensures Lookup(e, rel[..i]).Some? && keep(Lookup(e, rel[..i]).value)
      {
        LookupStep(e, c, rel, i);
      }
    }
  }

  /** The children's plan holds a path exactly when the child it names plans it. */
  lemma {:induction false} ChildrenAt(keep: Rule, d: Entry, k: nat, at: Path, rel: Path)
    requires d.Dir? && k <= |d.children| && WellFormed(d) && rel != []
    ensures var c := Child(d.children[..k], rel[0]);
      (at + rel in PlannedChildren(keep, d, k, at)) <==>
        (c.Some? && at + rel in Planned(keep, c.value, at + [rel[0]]))
    ensures var c := Child(d.children[..k], rel[0]);
      at + rel in PlannedChildren(keep, d, k, at) ==>
        PlannedChildren(keep, d, k, at)[at + rel] == Planned(keep, c.value, at + [rel[0]])[at + rel]
    decreases k
  {
    if k > 0 {
      WellFormedRoot(d);
      var cs := d.children;
      var c := cs[k - 1];
      assert cs[..k][..k - 1] == cs[..k - 1];
      assert cs[..k][k - 1] == c;
      ChildrenAt(keep, d, k - 1, at, rel);
      PlannedNamed(keep, c, at, c.name);
      assert (at + rel)[|at|] == rel[0];
      if c.name == rel[0] {
        assert at + [c.name] == at + [rel[0]];
        var prior := cs[..k - 1];
        forall j | 0 <= j < |prior| ensures prior[j].name != rel[0] {
          assert prior[j] == cs[j];
        }
      }
    }
  }

  /** A subtree's plan holds exactly the entries that survive the rule, each as it is copied. */
  lemma {:induction false} PlannedAt(keep: Rule, e: Entry, at: Path, rel: Path)
    requires WellFormed(e)
    ensures (at + rel in Planned(keep, e, at)) <==> Survives(keep, e, rel)
    ensures at + rel in Planned(keep, e, at) ==>
      Lookup(e, rel).Some? && Planned(keep, e, at)[at + rel] == NodeOf(Lookup(e, rel).value)
    decreases |rel|
  {
    assert rel[..0] == [] && rel[..|rel|] == rel;
    if rel == [] {
      assert at + rel == at;
      if e.Dir? && keep(e) {
        ChildrenUnder(keep, e, |e.children|, at);
      }
    } else {
      assert at + rel != at by { assert |at + rel| > |at|; }
      if e.Dir? && keep(e) {
        var cs := e.children;
        ChildrenAt(keep, e, |cs|, at, rel);
        assert cs[..|cs|] == cs;
        var c := Child(cs, rel[0]);
        if c.Some? {
          var i :| 0 <= i < |cs| && cs[i] == c.value;
          ChildWellFormed(e, i);
          assert at + [rel[0]] + rel[1..] == at + rel;
          PlannedAt(keep, c.value, at + [rel[0]], rel[1..]);
          SurvivesStep(keep, e, c.value, rel);
        }
      }
    }
  }

  /**
   * The plan of copyDir(to, from) is exactly the set of targets `to + rel` of
   * the entries InCopy describes, each holding what the entry holds.
   */
  lemma {:induction false} CopyPlanAt(keep: Rule, from: Entry, to: Path, rel: Path)
    requires WellFormed(from)
    ensures (to + rel in CopyPlan(keep, from, to)) <==> InCopy(keep, from, rel)
    ensures to + rel in CopyPlan(keep, from, to) ==>
      Lookup(from, rel).Some? && CopyPlan(keep, from, to)[to + rel] == NodeOf(Lookup(from, rel).value)
  {
    assert rel[..|rel|] == rel;
    if rel == [] {
      assert to + rel == to;
      CopyPlanUnder(keep, from, to);
    } else if from.Dir? {
      var cs := from.children;
      ChildrenAt(keep, from, |cs|, to, rel);
      assert cs[..|cs|] == cs;
      var c := Child(cs, rel[0]);
      if c.Some? {
        var i :| 0 <= i < |cs| && cs[i] == c.value;
        ChildWellFormed(from, i);
        assert to + [rel[0]] + rel[1..] == to + rel;
        PlannedAt(keep, c.value, to + [rel[0]], rel[1..]);
        SurvivesStep(keep, from, c.value, rel);
      }
    }
  }

  /** Every proper prefix of a path that leads somewhere leads to a directory. */
  lemma {:induction false} LookupPrefix(e: Entry, rel: Path, i: nat)
    requires Lookup(e, rel).Some? && i < |rel|
    ensures Lookup(e, rel[..i]).Some? && Lookup(e, rel[..i]).value.Dir?
    decreases |rel|
  {
    if i == 0 {
      assert rel[..i] == [];
    } else {
      var c := Child(e.children, rel[0]).value;
      LookupStep(e, c, rel, i);
      LookupPrefix(c, rel[1..], i - 1);
    }
  }

  /**
   * For a rule that judges directories by their name alone: the copy holds
   * exactly the entries below the source root that the rule keeps and whose
   * ancestor directories all have names the rule accepts.
   */
  lemma CopiedExactlyBy(keep: Rule, dirOk: string -> bool, from: Entry, to: Path, rel: Path)
    requires WellFormed(from)
    requires forall e: Entry :: e.Dir? ==> (keep(e) <==> dirOk(e.name))
    ensures (to + rel in CopyPlan(keep, from, to)) <==>
      rel != [] && Lookup(from, rel).Some? && keep(Lookup(from, rel).value)
      && forall i :: 0 <= i < |rel| - 1 ==> dirOk(rel[i])
    ensures to + rel in CopyPlan(keep, from, to) ==>
      Lookup(from, rel).Some? && CopyPlan(keep, from, to)[to + rel] == NodeOf(Lookup(from, rel).value)
  {
    CopyPlanAt(keep, from, to, rel);
    assert rel[..|rel|] == rel;
    if rel != [] && Lookup(from, rel).Some? {
      if InCopy(keep, from, rel) {
        forall j | 0 <= j < |rel| - 1 ensures dirOk(rel[j]) {
          AncestorKept(keep, dirOk, from, rel, j);
        }
      }
      if keep(Lookup(from, rel).value) && forall j :: 0 <= j < |rel| - 1 ==> dirOk(rel[j]) {
        forall i | 1 <= i <= |rel|
          ensures Lookup(from, rel[..i]).Some? && keep(Lookup(from, rel[..i]).value)
        {
          if i < |rel| {
            AncestorKept(keep, dirOk, from, rel, i - 1);
          }
        }
      }
    }
  }

  /** The ancestor directory named rel[j] is kept exactly when its name is accepted. */
  lemma AncestorKept(keep: Rule, dirOk: string -> bool, from: Entry, rel: Path, j: nat)
    requires forall e: Entry :: e.Dir? ==> (keep(e) <==> dirOk(e.name))
    requires Lookup(from, rel).Some? && j < |rel| - 1
    ensures Lookup(from, rel[..j + 1]).Some?
    ensures keep(Lookup(from, rel[..j + 1]).value) <==> dirOk(rel[j])
  {
    LookupPrefix(from, rel, j + 1);
  }

  /**
   * With copyDir's own rule: the copy holds exactly the entries below the
   * source root that the filter admits (directories by ignoreDir, files by
   * ignoreFile) and whose ancestor directories all pass ignoreDir.
   */
  lemma CopiedExactly(from: Entry, to: Path, rel: Path)
    requires WellFormed(from)
    ensures (to + rel in CopyPlan(Admitted, from, to)) <==>
      rel != [] && Lookup(from, rel).Some? && Admitted(Lookup(from, rel).value)
      && forall i :: 0 <= i < |rel| - 1 ==> !IgnoreDir(rel[i])
    ensures to + rel in CopyPlan(Admitted, from, to) ==>
      Lookup(from, rel).Some? && CopyPlan(Admitted, from, to)[to + rel] == NodeOf(Lookup(from, rel).value)
  {
    forall e: Entry | e.Dir? ensures Admitted(e) <==> !IgnoreDir(e.name) {
      AdmittedDir(e);
    }
    CopiedExactlyBy(Admitted, n => !IgnoreDir(n), from, to, rel);
  }

  /** An ignored directory's whole subtree is absent from the copy. */
  lemma PrunedSubtree(from: Entry, to: Path, rel: Path, q: Path)
    requires WellFormed(from) && rel != []
    requires Lookup(from, rel).Some? && Lookup(from, rel).value.Dir?
    requires IgnoreDir(rel[|rel| - 1])
    ensures to + (rel + q) !in CopyPlan(Admitted, from, to)
  {
    CopyPlanAt(Admitted, from, to, rel + q);
    assert (rel + q)[..|rel|] == rel;
    AdmittedDir(Lookup(from, rel).value);
  }

  /** Whether `p` is a directory of the file system `m`. */
  ghost predicate IsDir(m: map<Path, Node>, p: Path)
  {
    p in m && m[p] == DirNode
  }

  /** Mkdir and exclusive create both need the parent directory to exist. */
  ghost predicate ParentIsDir(m: map<Path, Node>, p: Path)
  {
    |p| > 0 && IsDir(m, p[..|p| - 1])
  }

  /**
   * Whether a plan rooted below `parent` can be carried out on `m`: none of
   * its targets exists yet, and `parent` is a directory unless there is
   * nothing to do.
   */
  ghost predicate Fits(plan: map<Path, Node>, m: map<Path, Node>, parent: Path)
  {
    plan.Keys !! m.Keys && (plan == map[] || IsDir(m, parent))
  }

  /** `after` is `before` with some entries of `plan` added and nothing else changed. */
  ghost predicate Extends(before: map<Path, Node>, after: map<Path, Node>, plan: map<Path, Node>)
  {
    (forall p :: p in before ==> p in after && after[p] == before[p])
    && forall p :: p in after && p !in before ==> p in plan && after[p] == plan[p]
  }

  /** Whether the file system `m` has an entry at `p`. */
  ghost predicate Listed(m: map<Path, Node>, p: Path)
  {
    p in m
  }

  /** The destination file system. */
  class Disk {
    var entries: map<Path, Node>

    /** The root is a directory and every other entry sits in a directory. */
    ghost predicate Valid()
      reads this
    {
      IsDir(entries, [])
      && forall p {:trigger Listed(entries, p)} :: Listed(entries, p) && p != [] ==> IsDir(entries, p[..|p| - 1])
    }

    /** A file system holding only its root directory. */
    constructor ()
      ensures Valid() && entries == map[[] := DirNode]
    {
      entries := map[[] := DirNode];
    }

    /** os.Mkdir: fails when the target exists or its parent is not a directory. */
    method Mkdir(p: Path) returns (ok: bool)
      requires Valid()
      modifies this
      ensures Valid()
      ensures ok <==> p !in old(entries) && ParentIsDir(old(entries), p)
      ensures entries == if ok then old(entries)[p := DirNode] else old(entries)
    {
      ok := p !in entries && |p| > 0 && p[..|p| - 1] in entries && entries[p[..|p| - 1]] == DirNode;
      if ok {
        ghost var before := entries;
        entries := entries[p := DirNode];
        assert forall q :: Listed(entries, q) ==> q == p || Listed(before, q);
      }
    }

    /** os.OpenFile with O_CREATE|O_EXCL, followed by the copy of the contents. */
    method CreateExclusive(p: Path, data: string) returns (ok: bool)
      requires Valid()
      modifies this
      ensures Valid()
      ensures ok <==> p !in old(entries) && ParentIsDir(old(entries), p)
      ensures entries == if ok then old(entries)[p := FileNode(data)] else old(entries)
    {
      ok := p !in entries && |p| > 0 && p[..|p| - 1] in entries && entries[p[..|p| - 1]] == DirNode;
      if ok {
        ghost var before := entries;
        entries := entries[p := FileNode(data)];
        assert forall q :: Listed(entries, q) ==> q == p || Listed(before, q);
      }
    }
  }

  /** A later child's plan never touches an earlier child's. */
  lemma {:induction false} ChildrenGrow(keep: Rule, d: Entry, i: nat, k: nat, at: Path)
    requires d.Dir? && i <= k <= |d.children| && WellFormed(d)
    ensures forall p :: p in PlannedChildren(keep, d, i, at) ==>
      p in PlannedChildren(keep, d, k, at)
      && PlannedChildren(keep, d, k, at)[p] == PlannedChildren(keep, d, i, at)[p]
    decreases k
  {
    if i < k {
      ChildrenGrow(keep, d, i, k - 1, at);
      LaterChildDisjoint(keep, d, i, k - 1, at);
    }
  }

  /** The plan of child i lies, unchanged, inside the plan of any k > i children. */
  lemma ChildInChildren(keep: Rule, d: Entry, i: nat, k: nat, at: Path)
    requires d.Dir? && i < k <= |d.children| && WellFormed(d)
    ensures var c := d.children[i];
      forall p :: p in Planned(keep, c, at + [c.name]) ==>
        p in PlannedChildren(keep, d, k, at)
        && PlannedChildren(keep, d, k, at)[p] == Planned(keep, c, at + [c.name])[p]
  {
    ChildrenGrow(keep, d, i + 1, k, at);
  }

  /** A child's plan does not overlap what the children before it planned. */
  lemma LaterChildDisjoint(keep: Rule, d: Entry, i: nat, j: nat, at: Path)
    requires d.Dir? && i <= j < |d.children| && WellFormed(d)
    ensures var c := d.children[j];
      Planned(keep, c, at + [c.name]).Keys !! PlannedChildren(keep, d, i, at).Keys
  {
    var c := d.children[j];
    WellFormedRoot(d);
    ChildrenNamed(keep, d, i, at);
    PlannedNamed(keep, c, at, c.name);
    forall p | p in Planned(keep, c, at + [c.name]) ensures p !in PlannedChildren(keep, d, i, at) {
      assert forall j' :: 0 <= j' < i ==> p[|at|] != d.children[j'].name;
    }
  }

  /** Carrying out the first i+1 children is carrying out i of them and then the next. */
  lemma FitsStep(keep: Rule, d: Entry, i: nat, at: Path, m: map<Path, Node>)
    requires d.Dir? && i < |d.children| && WellFormed(d)
    requires Fits(PlannedChildren(keep, d, i, at), m, at)
    ensures var c := d.children[i];
      Fits(Planned(keep, c, at + [c.name]), m + PlannedChildren(keep, d, i, at), at) <==>
        Fits(PlannedChildren(keep, d, i + 1, at), m, at)
  {
    LaterChildDisjoint(keep, d, i, i, at);
    var before := PlannedChildren(keep, d, i, at);
    ChildrenUnder(keep, d, i, at);
    var c := d.children[i];
    var here := Planned(keep, c, at + [c.name]);
    assert PlannedChildren(keep, d, i + 1, at) == before + here;
    if here != map[] {
      var p :| p in here;
      assert p in before + here;
    }
  }

  /** A plan that fits keeps fitting when fewer children are copied. */
  lemma FitsFewer(keep: Rule, d: Entry, i: nat, k: nat, at: Path, m: map<Path, Node>)
    requires d.Dir? && i <= k <= |d.children| && WellFormed(d)
    ensures Fits(PlannedChildren(keep, d, k, at), m, at) ==> Fits(PlannedChildren(keep, d, i, at), m, at)
  {
    ChildrenGrow(keep, d, i, k, at);
    if Fits(PlannedChildren(keep, d, k, at), m, at) && PlannedChildren(keep, d, i, at) != map[] {
      var p :| p in PlannedChildren(keep, d, i, at);
      assert p in PlannedChildren(keep, d, k, at);
    }
  }

  /** A single-target plan fits exactly when Mkdir or the exclusive create would succeed. */
  lemma SingleTarget(m: map<Path, Node>, target: Path, node: Node)
    requires |target| > 0
    ensures Fits(map[target := node], m, target[..|target| - 1]) <==>
      target !in m && ParentIsDir(m, target)
    ensures m[target := node] == m + map[target := node]
    ensures Extends(m, m, map[target := node])
    ensures target !in m ==> Extends(m, m[target := node], map[target := node])
  {
    var one := map[target := node];
    assert forall p :: p in m + one <==> p in m[target := node];
    assert forall p :: p in m + one ==> (m + one)[p] == m[target := node][p];
  }

  /** A directory whose Mkdir fails makes its whole plan fail, and nothing was written. */
  lemma DirFails(m: map<Path, Node>, target: Path, rest: map<Path, Node>)
    requires |target| > 0 && !(target !in m && ParentIsDir(m, target))
    ensures !Fits(map[target := DirNode] + rest, m, target[..|target| - 1])
    ensures Extends(m, m, map[target := DirNode] + rest)
  {
    assert target in map[target := DirNode] + rest;
  }

  /** A directory made by Mkdir, followed by its children's plan, is the directory's plan. */
  lemma DirCase(m: map<Path, Node>, after: map<Path, Node>, target: Path, rest: map<Path, Node>)
    requires |target| > 0 && target !in rest && target !in m && ParentIsDir(m, target)
    ensures Fits(rest, m[target := DirNode], target) <==>
      Fits(map[target := DirNode] + rest, m, target[..|target| - 1])
    ensures m[target := DirNode] + rest == m + (map[target := DirNode] + rest)
    ensures Extends(m[target := DirNode], after, rest) ==>
      Extends(m, after, map[target := DirNode] + rest)
    ensures forall p :: p in rest ==>
      p in map[target := DirNode] + rest && (map[target := DirNode] + rest)[p] == rest[p]
  {
  }

  /** A walk that stops in the middle of the children leaves a part of the whole plan. */
  lemma LoopFail(m: map<Path, Node>, lo: map<Path, Node>, here: map<Path, Node>,
                 all: map<Path, Node>, after: map<Path, Node>)
    requires lo.Keys !! m.Keys
    requires forall p :: p in lo ==> p in all && all[p] == lo[p]
    requires forall p :: p in here ==> p in all && all[p] == here[p]
    requires Extends(m + lo, after, here)
    ensures Extends(m, after, all)
  {
  }

  /** A plan whose targets are all new, added to the disk, only adds planned entries. */
  lemma ExtendsByUnion(m: map<Path, Node>, plan: map<Path, Node>)
    requires plan.Keys !! m.Keys
    ensures Extends(m, m + plan, plan)
  {
  }

  /**
   * What a visit promises about a disk that went from `before` to `after`
   * while carrying out `plan` below `parent`: it fails exactly when the plan
   * does not fit; on success it has carried out the whole plan; either way
   * it has written only planned entries; and a failure names a planned
   * target, as a directory error exactly when that target is a directory.
   */
  ghost predicate Outcome(err: Option<CopyError>, to: Path, before: map<Path, Node>,
                          after: map<Path, Node>, plan: map<Path, Node>, parent: Path)
  {
    (err.None? <==> Fits(plan, before, parent))
    && (err.None? ==> after == before + plan)
    && Extends(before, after, plan)
    && (err.Some? ==>
          to + err.value.rel in plan
          && (err.value.CopyingDirectory? <==> plan[to + err.value.rel].DirNode?))
  }

  /** The walk over the children has carried out the plan of the first i of them, which fits. */
  ghost predicate Progress(keep: Rule, d: Entry, i: nat, at: Path, m: map<Path, Node>, now: map<Path, Node>)
    requires d.Dir? && i <= |d.children|
  {
    now == m + PlannedChildren(keep, d, i, at) && Fits(PlannedChildren(keep, d, i, at), m, at)
  }

  /**
   * When the visit of child i fails, the walk over the children fails with
   * the same error, and what was written so far is part of the children's plan.
   */
  lemma ChildFails(keep: Rule, d: Entry, i: nat, to: Path, at: Path, m: map<Path, Node>,
                   before: map<Path, Node>, after: map<Path, Node>, err: Option<CopyError>)
    requires d.Dir? && i < |d.children| && WellFormed(d)
    requires Progress(keep, d, i, at, m, before)
    requires var c := d.children[i];
      err.Some? && Outcome(err, to, before, after, Planned(keep, c, at + [c.name]), at)
    ensures Outcome(err, to, m, after, PlannedChildren(keep, d, |d.children|, at), at)
  {
    var c := d.children[i];
    var lo := PlannedChildren(keep, d, i, at);
    var here := Planned(keep, c, at + [c.name]);
    var all := PlannedChildren(keep, d, |d.children|, at);
    FitsStep(keep, d, i, at, m);
    FitsFewer(keep, d, i + 1, |d.children|, at, m);
    ChildrenGrow(keep, d, i, |d.children|, at);
    ChildInChildren(keep, d, i, |d.children|, at);
    LoopFail(m, lo, here, all, after);
    assert to + err.value.rel in here;
  }

  /** When the visit of child i succeeds, the first i+1 children's plan is carried out. */
  lemma ChildFits(keep: Rule, d: Entry, i: nat, to: Path, at: Path, m: map<Path, Node>,
                  before: map<Path, Node>, after: map<Path, Node>)
    requires d.Dir? && i < |d.children| && WellFormed(d)
    requires Progress(keep, d, i, at, m, before)
    requires var c := d.children[i];
      Outcome(None, to, before, after, Planned(keep, c, at + [c.name]), at)
    ensures Progress(keep, d, i + 1, at, m, after)
  {
    var c := d.children[i];
    var lo := PlannedChildren(keep, d, i, at);
    var here := Planned(keep, c, at + [c.name]);
    FitsStep(keep, d, i, at, m);
    assert PlannedChildren(keep, d, i + 1, at) == lo + here;
    assert m + lo + here == m + (lo + here);
  }

  /** After the visit of child i, the walk stops with its error or goes on to child i+1. */
  lemma ChildStep(keep: Rule, d: Entry, i: nat, to: Path, at: Path, m: map<Path, Node>,
                  before: map<Path, Node>, after: map<Path, Node>, err: Option<CopyError>)
    requires d.Dir? && i < |d.children| && WellFormed(d)
    requires Progress(keep, d, i, at, m, before)
    requires var c := d.children[i];
      Outcome(err, to, before, after, Planned(keep, c, at + [c.name]), at)
    ensures err.Some? ==> Outcome(err, to, m, after, PlannedChildren(keep, d, |d.children|, at), at)
    ensures err.None? ==> Progress(keep, d, i + 1, at, m, after)
  {
    if err.Some? {
      ChildFails(keep, d, i, to, at, m, before, after, err);
    } else {
      ChildFits(keep, d, i, to, at, m, before, after);
    }
  }

  /** A walk that carried out a whole plan that fits keeps the promise of a visit. */
  lemma AllFit(to: Path, m: map<Path, Node>, plan: map<Path, Node>, parent: Path)
    requires Fits(plan, m, parent)
    ensures Outcome(None, to, m, m + plan, plan, parent)
  {
    ExtendsByUnion(m, plan);
  }

  /**
   * The walk's visit of one non-root entry `e` whose parent is at `dir`
   * relative to the source root.  It fails exactly when the entry's plan does
   * not fit the disk, and then reports the entry whose Mkdir or exclusive
   * create failed.
   */
  method Visit(disk: Disk, keep: Rule, e: Entry, to: Path, dir: Path, parent: Path)
    returns (err: Option<CopyError>)
    requires parent == to + dir
    requires disk.Valid() && WellFormed(e)
    modifies disk
    ensures disk.Valid()
    ensures Outcome(err, to, old(disk.entries), disk.entries, Planned(keep, e, parent + [e.name]), parent)
    decreases e, 2
  {
    var target := parent + [e.name];
    ghost var plan := Planned(keep, e, target);
    ghost var m := disk.entries;
    assert target[..|target| - 1] == parent;
    assert to + (dir + [e.name]) == target;
    if !keep(e) {
      assert m + plan == m;
      return None;
    }
    if e.File? {
      assert plan == map[target := FileNode(e.data)];
      SingleTarget(m, target, FileNode(e.data));
      var ok := disk.CreateExclusive(target, e.data);
      if !ok {
        return Some(CreatingCopy(dir + [e.name]));
      }
      return None;
    }
    ghost var rest := PlannedChildren(keep, e, |e.children|, target);
    assert plan == map[target := DirNode] + rest;
    ChildrenUnder(keep, e, |e.children|, target);
    var ok := disk.Mkdir(target);
    if !ok {
      DirFails(m, target, rest);
      return Some(CopyingDirectory(dir + [e.name]));
    }
    err := VisitChildren(disk, keep, e, to, dir + [e.name], target);
    DirCase(m, disk.entries, target, rest);
  }

  /**
   * The walk's visit of the children of directory `d`, which sits at `dir`
   * relative to the source root, in the order the walk meets them.
   */
  method VisitChildren(disk: Disk, keep: Rule, d: Entry, to: Path, dir: Path, at: Path)
    returns (err: Option<CopyError>)
    requires at == to + dir
    requires disk.Valid() && d.Dir? && WellFormed(d)
    modifies disk
    ensures disk.Valid()
    ensures Outcome(err, to, old(disk.entries), disk.entries, PlannedChildren(keep, d, |d.children|, at), at)
    decreases d, 1
  {
    var cs := d.children;
    ghost var m := disk.entries;
    for i := 0 to |cs|
      invariant disk.Valid()
      invariant Progress(keep, d, i, at, m, disk.entries)
    {
      err := VisitChild(disk, keep, d, i, to, dir, at, m);
      if err.Some? {
        return;
      }
    }
    AllFit(to, m, PlannedChildren(keep, d, |cs|, at), at);
    err := None;
  }

  /**
   * One step of the walk over the children of `d`: the visit of child i,
   * after the first i children have been copied onto the disk `m` the walk
   * over the children started from.
   */
  method VisitChild(disk: Disk, keep: Rule, d: Entry, i: nat, to: Path, dir: Path, at: Path,
                    ghost m: map<Path, Node>)
    returns (err: Option<CopyError>)
    requires at == to + dir
    requires disk.Valid() && d.Dir? && i < |d.children| && WellFormed(d)
    requires Progress(keep, d, i, at, m, disk.entries)
    modifies disk
    ensures disk.Valid()
    ensures err.Some? ==> Outcome(err, to, m, disk.entries, PlannedChildren(keep, d, |d.children|, at), at)
    ensures err.None? ==> Progress(keep, d, i + 1, at, m, disk.entries)
    decreases d, 0
  {
    ChildWellFormed(d, i);
    ghost var before := disk.entries;
    err := Visit(disk, keep, d.children[i], to, dir, at);
    ChildStep(keep, d, i, to, at, m, before, disk.entries, err);
  }

  /**
   * copyDir(to, from): the walk skips the source root itself (when the root
   * is a plain file nothing else is visited) and visits all its children,
   * admitting entries by ignoreDir and ignoreFile.
   */
  method CopyDir(disk: Disk, to: Path, from: Entry) returns (err: Option<CopyError>)
    requires disk.Valid() && WellFormed(from)
    modifies disk
    ensures disk.Valid()
    ensures Outcome(err, to, old(disk.entries), disk.entries, CopyPlan(Admitted, from, to), to)
  {
    if from.File? {
      AllFit(to, disk.entries, map[], to);
      assert disk.entries + map[] == disk.entries;
      return None;
    }
    err := VisitChildren(disk, Admitted, from, to, [], to);
  }

  /** Copying into a destination that already holds a target of the copy fails. */
  lemma ExistingTargetFails(from: Entry, to: Path, m: map<Path, Node>, rel: Path)
    requires WellFormed(from) && to + rel in m
    requires InCopy(Admitted, from, rel)
    ensures !Fits(CopyPlan(Admitted, from, to), m, to)
  {
    CopyPlanAt(Admitted, from, to, rel);
  }

  /** Because creation is exclusive, copying the same tree twice fails unless nothing is copied. */
  lemma SecondCopyFails(keep: Rule, from: Entry, to: Path, m: map<Path, Node>)
    requires CopyPlan(keep, from, to) != map[]
    ensures !Fits(CopyPlan(keep, from, to), m + CopyPlan(keep, from, to), to)
  {
    var p :| p in CopyPlan(keep, from, to);
    assert p in (m + CopyPlan(keep, from, to)).Keys;
  }
}
