/**
 * goGet and cacheKey of goget.go: checking out one version of a package's
 * repository in the cache and copying the filtered tree to a destination.
 *
 * The version control library is an oracle: every call the checkout makes is
 * an Op, and whether it succeeds is decided by the repository's `answer`
 * function from the calls made so far.  The working tree the checkout leaves
 * for a version is `checkout(version)`.
 */
module GoGet {
  import opened Wrappers
  import opened CopyTree
  import opened Filter
  import opened Imports

  /** Characters cacheKey keeps: ASCII letters and digits. */
  predicate IsAlnum(c: char)
  {
    'A' <= c <= 'Z' || 'a' <= c <= 'z' || '0' <= c <= '9'
  }

  function KeyChar(c: char): char
  {
    if IsAlnum(c) then c else '-'
  }

  /**
   * The cache directory name of a remote: letters and digits stay, every
   * other character becomes one '-'.
   */
  function CacheKey(remote: string): (key: string)
    ensures |key| == |remote|
    ensures forall i :: 0 <= i < |remote| ==>
      (IsAlnum(remote[i]) ==> key[i] == remote[i]) && (!IsAlnum(remote[i]) ==> key[i] == '-')
  {
    seq(|remote|, i requires 0 <= i < |remote| => KeyChar(remote[i]))
  }

  /** A cache key is made only of letters, digits and '-'. */
  lemma CacheKeyAlphabet(remote: string)
    ensures forall i :: 0 <= i < |CacheKey(remote)| ==>
      IsAlnum(CacheKey(remote)[i]) || CacheKey(remote)[i] == '-'
  {
  }

  /** Sanitising a cache key again changes nothing. */
  lemma CacheKeyIdempotent(remote: string)
    ensures CacheKey(CacheKey(remote)) == CacheKey(remote)
  {
    var k := CacheKey(remote);
    assert forall i :: 0 <= i < |k| ==> CacheKey(k)[i] == k[i];
  }

  /** The first cacheKey case of goget_test.go. */
  lemma CacheKeyHttpsExample(remote: string)
    requires remote == "https://github.com/camlistore/go4"
    ensures CacheKey(remote) == "https---github-com-camlistore-go4"
  {
    var want := "https---github-com-camlistore-go4";
    assert forall i :: 0 <= i < |remote| ==> CacheKey(remote)[i] == want[i];
  }

  /** The second cacheKey case of goget_test.go. */
  lemma CacheKeyScpExample(remote: string)
    requires remote == "git@github.com:foo/bar"
    ensures CacheKey(remote) == "git-github-com-foo-bar"
  {
    var want := "git-github-com-foo-bar";
    assert forall i :: 0 <= i < |remote| ==> CacheKey(remote)[i] == want[i];
  }

  /** The repository implementation newRepo picks for a VCS name. */
  datatype RepoKind = GitRepo | SvnRepo | BzrRepo | HgRepo | DetectedRepo

  /** newRepo's choice: the four known names pick their system, anything else is detected. */
  function KindOf(vcs: string): (k: RepoKind)
    ensures k == DetectedRepo <==> vcs !in {"git", "svn", "bzr", "hg"}
  {
    match vcs
    case "git" => GitRepo
    case "svn" => SvnRepo
    case "bzr" => BzrRepo
    case "hg" => HgRepo
    case _ => DetectedRepo
  }

  /** A step of the checkout that can fail. */
  datatype Op =
    | EnterCache(key: string)              // cache.dir: find or make the directory, then lock it
    | NewRepo(kind: RepoKind, remote: string, local: string)
    | CheckLocal                           // answered true when a clone is already there
    | Clone                                // repo.Get
    | UpdateVersion(version: string)
    | Update

  /** A step together with the answer it got. */
  datatype Call = Call(op: Op, ok: bool)

  /** The errors goGet reports. */
  datatype GetError =
    | NoVersion
    | CacheFailed
    | CreatingRepo
    | CloningRepo
    | UpdatingRepo
    | UpdatingToRevision(version: string)
    | CopyingRepo(cause: CopyError)

  type Answers = (seq<Call>, Op) -> bool

  /** The calls of a checkout and the error it stops with, if any. */
  datatype Run = Run(calls: seq<Call>, failure: Option<GetError>)

  /** Performs `op` after history `h`. */
  function Ask(answer: Answers, h: seq<Call>, op: Op): Call
  {
    Call(op, answer(h, op))
  }

  /** Entering the cache, creating the repository and cloning it when it is not there. */
  function Setup(answer: Answers, h: seq<Call>, meta: PkgMeta): Run
  {
    var key := CacheKey(meta.remote);
    var enter := Ask(answer, h, EnterCache(key));
    if !enter.ok then Run([enter], Some(CacheFailed))
    else
      var create := Ask(answer, h + [enter], NewRepo(KindOf(meta.vcs), meta.remote, key));
      if !create.ok then Run([enter, create], Some(CreatingRepo))
      else
        var check := Ask(answer, h + [enter, create], CheckLocal);
        if check.ok then Run([enter, create, check], None)
        else
          var clone := Ask(answer, h + [enter, create, check], Clone);
          Run([enter, create, check, clone], if clone.ok then None else Some(CloningRepo))
  }

  /** Moving the working copy to `version`, updating once and trying again if that fails. */
  function Retry(answer: Answers, h: seq<Call>, version: string): Run
  {
    var first := Ask(answer, h, UpdateVersion(version));
    if first.ok then Run([first], None)
    else
      var update := Ask(answer, h + [first], Update);
      if !update.ok then Run([first, update], Some(UpdatingRepo))
      else
        var second := Ask(answer, h + [first, update], UpdateVersion(version));
        Run([first, update, second], if second.ok then None else Some(UpdatingToRevision(version)))
  }

  /** Everything goGet asks of the cache and the repository, for a non-empty version. */
  function Session(answer: Answers, h: seq<Call>, meta: PkgMeta, version: string): Run
  {
    var setup := Setup(answer, h, meta);
    if setup.failure.Some? then setup
    else
      var retry := Retry(answer, h + setup.calls, version);
      Run(setup.calls + retry.calls, retry.failure)
  }

  /** The calls that move the working copy: UpdateVersion and Update. */
  function Updates(calls: seq<Call>): (u: seq<Call>)
    ensures |u| <= |calls|
  {
    if calls == [] then []
    else if calls[0].op.UpdateVersion? || calls[0].op.Update? then [calls[0]] + Updates(calls[1..])
    else Updates(calls[1..])
  }

  lemma {:induction false} UpdatesAppend(a: seq<Call>, b: seq<Call>)
    ensures Updates(a + b) == Updates(a) + Updates(b)
    decreases |a|
  {
    if a != [] {
      assert (a + b)[0] == a[0];
      assert (a + b)[1..] == a[1..] + b;
      UpdatesAppend(a[1..], b);
    } else {
      assert a + b == b;
    }
  }

  ghost predicate IsMove(c: Call)
  {
    c.op.UpdateVersion? || c.op.Update?
  }

  lemma {:induction false} NoMoves(calls: seq<Call>)
    requires forall i :: 0 <= i < |calls| ==> !IsMove(calls[i])
    ensures Updates(calls) == []
    decreases |calls|
  {
    if calls != [] {
      NoMoves(calls[1..]);
    }
  }

  lemma {:induction false} AllMoves(calls: seq<Call>)
    requires forall i :: 0 <= i < |calls| ==> IsMove(calls[i])
    ensures Updates(calls) == calls
    decreases |calls|
  {
    if calls != [] {
      AllMoves(calls[1..]);
    }
  }

  /** The setup phase moves nothing. */
  lemma SetupNoUpdates(answer: Answers, h: seq<Call>, meta: PkgMeta)
    ensures Updates(Setup(answer, h, meta).calls) == []
  {
    NoMoves(Setup(answer, h, meta).calls);
  }

  /** The retry phase is all moves. */
  lemma RetryAllUpdates(answer: Answers, h: seq<Call>, version: string)
    ensures Updates(Retry(answer, h, version).calls) == Retry(answer, h, version).calls
  {
    AllMoves(Retry(answer, h, version).calls);
  }

  /** The first thing goGet does is to enter the cache directory named by the remote's cache key. */
  lemma SessionEntersCacheFirst(answer: Answers, h: seq<Call>, meta: PkgMeta, version: string)
    ensures var run := Session(answer, h, meta, version);
      |run.calls| > 0 && run.calls[0] == Ask(answer, h, EnterCache(CacheKey(meta.remote)))
  {
  }

  /**
   * The moves of the retry phase: UpdateVersion, and only when it fails
   * Update, and only when that succeeds UpdateVersion once more.
   */
  lemma RetryShape(answer: Answers, h: seq<Call>, version: string)
    ensures var r := Retry(answer, h, version);
      var v := UpdateVersion(version);
      && (r.calls == [Call(v, true)] || r.calls == [Call(v, false), Call(Update, false)]
          || r.calls == [Call(v, false), Call(Update, true), Call(v, true)]
          || r.calls == [Call(v, false), Call(Update, true), Call(v, false)])
      && (r.failure.None? <==> r.calls[|r.calls| - 1] == Call(v, true))
      && (r.failure == Some(UpdatingRepo) <==> r.calls == [Call(v, false), Call(Update, false)])
      && (r.failure == Some(UpdatingToRevision(version)) <==>
            r.calls == [Call(v, false), Call(Update, true), Call(v, false)])
  {
  }

  /** The setup phase fails only with a cache, creation or clone error. */
  lemma SetupFailures(answer: Answers, h: seq<Call>, meta: PkgMeta)
    ensures Setup(answer, h, meta).failure in {None, Some(CacheFailed), Some(CreatingRepo), Some(CloningRepo)}
  {
  }

  /**
   * The retry protocol of a whole session: nothing is moved when setup
   * fails, and otherwise the moves are exactly the retry phase's.
   */
  lemma {:induction false} RetryProtocol(answer: Answers, h: seq<Call>, meta: PkgMeta, version: string)
    ensures var run := Session(answer, h, meta, version);
      var setup := Setup(answer, h, meta);
      && (setup.failure.Some? ==> Updates(run.calls) == [] && run == setup)
      && (setup.failure.None? ==>
            var retry := Retry(answer, h + setup.calls, version);
            Updates(run.calls) == retry.calls && run.failure == retry.failure)
  {
    var setup := Setup(answer, h, meta);
    SetupNoUpdates(answer, h, meta);
    if setup.failure.None? {
      var retry := Retry(answer, h + setup.calls, version);
      UpdatesAppend(setup.calls, retry.calls);
      RetryAllUpdates(answer, h + setup.calls, version);
    }
  }

  /** The repository is cloned exactly when it is not already present. */
  lemma CloneOnlyWhenMissing(answer: Answers, h: seq<Call>, meta: PkgMeta, version: string)
    ensures var calls := Session(answer, h, meta, version).calls;
      (exists i :: 0 <= i < |calls| && calls[i].op == Clone) <==>
      |calls| > 2 && calls[2] == Call(CheckLocal, false)
  {
    var setup := Setup(answer, h, meta);
    var calls := Session(answer, h, meta, version).calls;
    assert forall i :: 0 <= i < |setup.calls| ==> calls[i] == setup.calls[i];
    if |setup.calls| == 4 {
      assert calls[3].op == Clone;
    }
    if setup.failure.None? {
      var retry := Retry(answer, h + setup.calls, version);
      assert calls == setup.calls + retry.calls;
      assert forall i :: |setup.calls| <= i < |calls| ==> calls[i] == retry.calls[i - |setup.calls|];
    }
  }

  /** A repository of the cache, driven through its oracle. */
  class Repo {
    var log: seq<Call>
    const answer: Answers
    const checkout: string -> Entry

    constructor(answer: Answers, checkout: string -> Entry)
      ensures log == [] && this.answer == answer && this.checkout == checkout
    {
      log := [];
      this.answer := answer;
      this.checkout := checkout;
    }

    /** Performs one step and records it with its answer. */
    method Perform(op: Op) returns (ok: bool)
      modifies this
      ensures ok == answer(old(log), op)
      ensures log == old(log) + [Call(op, ok)]
    {
      ok := answer(log, op);
      log := log + [Call(op, ok)];
    }
  }

  /** The setup steps of goGet, in order. */
  method RunSetup(repo: Repo, meta: PkgMeta) returns (failure: Option<GetError>)
    modifies repo
    ensures var run := Setup(repo.answer, old(repo.log), meta);
      repo.log == old(repo.log) + run.calls && failure == run.failure
  {
    ghost var h := repo.log;
    var key := CacheKey(meta.remote);
    var ok := repo.Perform(EnterCache(key));
    ghost var enter := Call(EnterCache(key), ok);
    if !ok {
      return Some(CacheFailed);
    }
    ok := repo.Perform(NewRepo(KindOf(meta.vcs), meta.remote, key));
    ghost var create := Call(NewRepo(KindOf(meta.vcs), meta.remote, key), ok);
    assert repo.log == h + [enter, create];
    if !ok {
      return Some(CreatingRepo);
    }
    var local := repo.Perform(CheckLocal);
    ghost var check := Call(CheckLocal, local);
    assert repo.log == h + [enter, create, check];
    if !local {
      ok := repo.Perform(Clone);
      assert repo.log == h + [enter, create, check, Call(Clone, ok)];
      if !ok {
        return Some(CloningRepo);
      }
    }
    return None;
  }

  /** UpdateVersion, and on failure Update followed by one more UpdateVersion. */
  method RunRetry(repo: Repo, version: string) returns (failure: Option<GetError>)
    modifies repo
    ensures var run := Retry(repo.answer, old(repo.log), version);
      repo.log == old(repo.log) + run.calls && failure == run.failure
  {
    ghost var h := repo.log;
    var ok := repo.Perform(UpdateVersion(version));
    if !ok {
      ghost var first := Call(UpdateVersion(version), false);
      ok := repo.Perform(Update);
      ghost var update := Call(Update, ok);
      assert repo.log == h + [first, update];
      if !ok {
        return Some(UpdatingRepo);
      }
      ok := repo.Perform(UpdateVersion(version));
      assert repo.log == h + [first, update, Call(UpdateVersion(version), ok)];
      if !ok {
        return Some(UpdatingToRevision(version));
      }
    }
    return None;
  }

  /** The copy error a goGet error wraps, if it is one. */
  function CopyCause(err: Option<GetError>): Option<CopyError>
  {
    if err.Some? && err.value.CopyingRepo? then Some(err.value.cause) else None
  }

  /**
   * goGet: with an empty version nothing happens; otherwise the session
   * runs, and only when it succeeds is the checked-out tree of `version`
   * copied to `to`.
   */
  method GoGetPackage(repo: Repo, disk: Disk, meta: PkgMeta, to: Path, version: string)
    returns (err: Option<GetError>)
    requires disk.Valid() && WellFormed(repo.checkout(version))
    modifies repo, disk
    ensures disk.Valid()
    ensures version == "" ==>
      err == Some(NoVersion) && repo.log == old(repo.log) && disk.entries == old(disk.entries)
    ensures version != "" ==>
      var run := Session(repo.answer, old(repo.log), meta, version);
      && repo.log == old(repo.log) + run.calls
      && (run.failure.Some? ==> err == run.failure && disk.entries == old(disk.entries))
      && (run.failure.None? ==>
            (err.None? || err.value.CopyingRepo?)
            && Outcome(CopyCause(err), to, old(disk.entries), disk.entries,
                       CopyPlan(Admitted, repo.checkout(version), to), to))
  {
    if version == "" {
      return Some(NoVersion);
    }
    var failure := RunSetup(repo, meta);
    if failure.Some? {
      return failure;
    }
    failure := RunRetry(repo, version);
    if failure.Some? {
      return failure;
    }
    var copyErr := CopyDir(disk, to, repo.checkout(version));
    if copyErr.Some? {
      return Some(CopyingRepo(copyErr.value));
    }
    return None;
  }
}
