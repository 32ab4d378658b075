/**
 * The ten root-package patterns of vcsList in imports.go, each written out as
 * a scanner that returns the pattern's first capture (the root package) when
 * the whole import path matches.
 *
 * Each greedy repetition here is scanned to the end of its run of class
 * characters.  Most are followed by a character outside their class (or by
 * the end of the path), so they can stop nowhere else.  Two are not: the
 * googlecode host [a-z0-9_\-.]+ before \.googlecode\.com, and the generic
 * host ([a-z0-9.\-]+\.)+[a-z0-9.\-]+.  A backtracking engine could end those
 * earlier, but what follows them ('/' or ':') is outside the class, so any
 * match must take the whole run, and the scanner then checks how the run
 * ends.  The one lazy repetition, in the generic pattern, is scanned
 * shortest-first.  Scanners work on positions of the whole path.
 */
module Patterns {
  import opened Wrappers
  import opened Text

  /** The bracket expressions the patterns use. */
  datatype CharClass =
    | Word            // [A-Za-z0-9_.\-]
    | LowerDigit      // [a-z0-9]
    | LowerDigitDash  // [a-z0-9\-]
    | GoogleHost      // [a-z0-9_\-.]
    | Host            // [a-z0-9.\-]
    | Digit           // [0-9]
    | PathChar        // [A-Za-z0-9_.\-/]

  predicate In(cl: CharClass, c: char)
  {
    var lower := 'a' <= c <= 'z';
    var digit := '0' <= c <= '9';
    match cl
    case Word => lower || digit || 'A' <= c <= 'Z' || c == '_' || c == '.' || c == '-'
    case LowerDigit => lower || digit
    case LowerDigitDash => lower || digit || c == '-'
    case GoogleHost => lower || digit || c == '_' || c == '-' || c == '.'
    case Host => lower || digit || c == '.' || c == '-'
    case Digit => digit
    case PathChar => lower || digit || 'A' <= c <= 'Z' || c == '_' || c == '.' || c == '-' || c == '/'
  }

  /** One path segment: [A-Za-z0-9_.\-]+ */
  ghost predicate IsSeg(s: string)
  {
    s != [] && forall i :: 0 <= i < |s| ==> In(Word, s[i])
  }

  /** `lit` occurs in `s` at position `i`. */
  predicate LitAt(s: string, i: nat, lit: string)
  {
    i + |lit| <= |s| && s[i..i + |lit|] == lit
  }

  /** The length of the run of class characters in `s` that starts at `i`. */
  function Span(cl: CharClass, s: string, i: nat): (n: nat)
    requires i <= |s|
    ensures i + n <= |s|
    decreases |s| - i
  {
    if i < |s| && In(cl, s[i]) then 1 + Span(cl, s, i + 1) else 0
  }

  /** A run of class characters from `i` to `j`, ended by the end of `s` or another character, is the span. */
  lemma {:induction false} SpanIs(cl: CharClass, s: string, i: nat, j: nat)
    requires i <= j <= |s|
    requires forall k :: i <= k < j ==> In(cl, s[k])
    requires j == |s| || !In(cl, s[j])
    ensures Span(cl, s, i) == j - i
    decreases j - i
  {
    if i < j {
      SpanIs(cl, s, i + 1, j);
    }
  }

  /** Every character of the span is in the class, and the one after it is not. */
  lemma {:induction false} SpanRun(cl: CharClass, s: string, i: nat)
    requires i <= |s|
    ensures forall k :: i <= k < i + Span(cl, s, i) ==> In(cl, s[k])
    ensures i + Span(cl, s, i) < |s| ==> !In(cl, s[i + Span(cl, s, i)])
    decreases |s| - i
  {
    if i < |s| && In(cl, s[i]) {
      SpanRun(cl, s, i + 1);
    }
  }

  /** Every character of `s` from `i` up to `j` is in the class. */
  predicate AllIn(cl: CharClass, s: string, i: nat, j: nat)
    requires i <= j <= |s|
  {
    forall k :: i <= k < j ==> In(cl, s[k])
  }

  /** Any stretch from the start of a span is made of class characters. */
  lemma SpanAll(cl: CharClass, s: string, i: nat, j: nat)
    requires i <= j && i <= |s| && j <= i + Span(cl, s, i)
    ensures AllIn(cl, s, i, j)
  {
    SpanRun(cl, s, i);
  }

  /** A span depends only on what follows its start. */
  lemma {:induction false} SpanShift(cl: CharClass, x: string, y: string, j: nat)
    requires j <= |y|
    ensures Span(cl, x + y, |x| + j) == Span(cl, y, j)
    decreases |y| - j
  {
    if j < |y| {
      assert (x + y)[|x| + j] == y[j];
      SpanShift(cl, x, y, j + 1);
    }
  }

  /** (/[A-Za-z0-9_.\-]+)*$ from position `i`: the rest is zero or more '/'-led segments. */
  predicate TailFrom(s: string, i: nat)
    requires i <= |s|
    decreases |s| - i
  {
    i == |s| || (s[i] == '/' && var k := Span(Word, s, i + 1); k > 0 && TailFrom(s, i + 1 + k))
  }

  /** A whole string of '/'-led segments. */
  predicate Tail(s: string)
  {
    TailFrom(s, 0)
  }

  /** A segment between `x` and a non-segment character (or the end) is the span that starts after `x`. */
  lemma SegSpan(x: string, seg: string, y: string)
    requires IsSeg(seg) && (y == [] || !In(Word, y[0]))
    ensures Span(Word, x + seg + y, |x|) == |seg|
  {
    var s := x + seg + y;
    forall k | |x| <= k < |x| + |seg|
      ensures In(Word, s[k])
    {
      assert s[k] == seg[k - |x|];
    }
    if y != [] {
      assert s[|x| + |seg|] == y[0];
    }
    SpanIs(Word, s, |x|, |x| + |seg|);
  }

  /** A tail depends only on what follows its start. */
  lemma {:induction false} TailShift(x: string, y: string, j: nat)
    requires j <= |y|
    ensures TailFrom(x + y, |x| + j) == TailFrom(y, j)
    decreases |y| - j
  {
    if j < |y| {
      assert (x + y)[|x| + j] == y[j];
      SpanShift(Word, x, y, j + 1);
      var k := Span(Word, y, j + 1);
      if k > 0 {
        TailShift(x, y, j + 1 + k);
      }
    }
  }

  /** The tail of `s` from `i` is the tail of `s[i..]`. */
  lemma TailOfSuffix(s: string, i: nat)
    requires i <= |s|
    ensures TailFrom(s, i) == Tail(s[i..])
  {
    assert s == s[..i] + s[i..];
    TailShift(s[..i], s[i..], 0);
  }

  /** A segment in front of a tail makes a longer tail. */
  lemma TailCons(x: string, t: string)
    requires IsSeg(x) && Tail(t)
    ensures Tail("/" + x + t)
  {
    var s := "/" + x + t;
    assert forall k :: 1 <= k < 1 + |x| ==> s[k] == x[k - 1];
    assert t != [] ==> s[1 + |x|] == t[0];
    SpanIs(Word, s, 1, 1 + |x|);
    assert s == ("/" + x) + t;
    TailShift("/" + x, t, 0);
  }

  /** (/.*)?$ from position `i`: nothing, or a '/' followed by a line. */
  predicate AnyTail(s: string, i: nat)
    requires i <= |s|
  {
    i == |s| || (s[i] == '/' && '\n' !in s[i + 1..])
  }

  /** [A-Za-z0-9_.\-]+/[A-Za-z0-9_.\-]+ followed by a tail, from position `i`: where the two segments end. */
  function SegPair(s: string, i: nat): (e: Option<nat>)
    requires i <= |s|
    ensures e.Some? ==> i < e.value <= |s|
  {
    var a := Span(Word, s, i);
    if a == 0 || i + a == |s| || s[i + a] != '/' then None
    else
      var b := Span(Word, s, i + a + 1);
      if b == 0 || !TailFrom(s, i + a + 1 + b) then None
      else Some(i + a + 1 + b)
  }

  /** prefix[A-Za-z0-9_.\-]+/[A-Za-z0-9_.\-]+ followed by a tail: github.com and bitbucket.org. */
  function TwoSegs(prefix: string, pkg: string): (m: Option<string>)
  {
    if !HasPrefix(pkg, prefix) then None
    else
      match SegPair(pkg, |prefix|)
      case Some(e) => Some(pkg[..e])
      case None => None
  }

  /** A path made of the prefix, two segments and a tail has those two segments as its root. */
  lemma TwoSegsOf(prefix: string, owner: string, repo: string, rest: string)
    requires IsSeg(owner) && IsSeg(repo) && Tail(rest)
    ensures TwoSegs(prefix, prefix + owner + "/" + repo + rest) == Some(prefix + owner + "/" + repo)
  {
    var root := prefix + owner + "/" + repo;
    var pkg := root + rest;
    var p, a := |prefix|, |owner|;
    var e := p + a + 1 + |repo|;
    assert pkg == prefix + owner + ("/" + repo + rest);
    SegSpan(prefix, owner, "/" + repo + rest);
    assert pkg == (prefix + owner + "/") + repo + rest;
    SegSpan(prefix + owner + "/", repo, rest);
    assert pkg[p + a] == '/';
    TailShift(root, rest, 0);
    assert pkg[..p] == prefix && pkg[..e] == root;
  }


  /** A root the scan finds is the prefix and two segments, and the rest of the path is a tail. */
  lemma TwoSegsSplits(prefix: string, pkg: string)
    requires TwoSegs(prefix, pkg).Some?
    ensures var root := TwoSegs(prefix, pkg).value;
      && Tail(pkg[|root|..])
      && exists owner, repo :: IsSeg(owner) && IsSeg(repo) && root == prefix + owner + "/" + repo
  {
    var p := |prefix|;
    var a := Span(Word, pkg, p);
    var e := SegPair(pkg, p).value;
    var owner, repo := pkg[p..p + a], pkg[p + a + 1..e];
    assert IsSeg(owner) && IsSeg(repo) by {
      SpanRun(Word, pkg, p);
      SpanRun(Word, pkg, p + a + 1);
    }
    assert pkg[..e] == prefix + owner + "/" + repo by {
      assert pkg[..p] == prefix;
      assert pkg[..e] == pkg[..p] + pkg[p..p + a] + [pkg[p + a]] + pkg[p + a + 1..e];
    }
    TailOfSuffix(pkg, e);
  }

  /**
   * ~[A-Za-z0-9_.\-]+/(special|[A-Za-z0-9_.\-]+)/[A-Za-z0-9_.\-]+ from
   * position `i`: where it ends.
   */
  function Tilde(s: string, i: nat, special: string): (e: Option<nat>)
    requires i <= |s|
    ensures e.Some? ==> i < e.value <= |s|
  {
    if i == |s| || s[i] != '~' then None
    else
      var a := Span(Word, s, i + 1);
      if a == 0 || i + 1 + a == |s| || s[i + 1 + a] != '/' then None
      else
        var m := i + 2 + a;
        var mid := if LitAt(s, m, special) then |special| else Span(Word, s, m);
        if mid == 0 || m + mid == |s| || s[m + mid] != '/' then None
        else
          var b := Span(Word, s, m + mid + 1);
          if b == 0 then None else Some(m + mid + 1 + b)
  }

  /** (/[A-Za-z0-9_.\-]+)? from position `j`, taken when present: where it ends. */
  function OptSeg(s: string, j: nat): (e: nat)
    requires j <= |s|
    ensures j <= e <= |s|
  {
    if j < |s| && s[j] == '/' && Span(Word, s, j + 1) > 0 then j + 1 + Span(Word, s, j + 1) else j
  }

  /** launchpad\.net/(([Word]+)(/[Word]+)?|~[Word]+/(\+junk|[Word]+)/[Word]+) followed by a tail. */
  function Launchpad(pkg: string): (m: Option<string>)
  {
    var p := "launchpad.net/";
    if !HasPrefix(pkg, p) then None
    else
      var i := |p|;
      var a := Span(Word, pkg, i);
      if a > 0 then
        var e := OptSeg(pkg, i + a);
        if TailFrom(pkg, e) then Some(pkg[..e]) else None
      else
        match Tilde(pkg, i, "+junk")
        case Some(e) => if TailFrom(pkg, e) then Some(pkg[..e]) else None
        case None => None
  }

  /** git\.launchpad\.net/(([Word]+)|~[Word]+/(\+git|[Word]+)/[Word]+), the whole path. */
  function GitLaunchpad(pkg: string): (m: Option<string>)
  {
    var p := "git.launchpad.net/";
    if !HasPrefix(pkg, p) then None
    else
      var i := |p|;
      var a := Span(Word, pkg, i);
      if a > 0 then (if i + a == |pkg| then Some(pkg) else None)
      else
        match Tilde(pkg, i, "+git")
        case Some(e) => if e == |pkg| then Some(pkg) else None
        case None => None
  }

  /** hub\.jazz\.net/git/[a-z0-9]+/[Word]+ followed by a tail. */
  function Jazz(pkg: string): (m: Option<string>)
  {
    var p := "hub.jazz.net/git/";
    if !HasPrefix(pkg, p) then None
    else
      var i := |p|;
      var a := Span(LowerDigit, pkg, i);
      if a == 0 || i + a == |pkg| || pkg[i + a] != '/' then None
      else
        var b := Span(Word, pkg, i + a + 1);
        if b == 0 || !TailFrom(pkg, i + a + 1 + b) then None
        else Some(pkg[..i + a + 1 + b])
  }

  /** go\.googlesource\.com/[Word]+/?, the whole path. */
  function GoogleSource(pkg: string): (m: Option<string>)
  {
    var p := "go.googlesource.com/";
    if !HasPrefix(pkg, p) then None
    else
      var j := |p| + Span(Word, pkg, |p|);
      if j > |p| && (j == |pkg| || (j + 1 == |pkg| && pkg[j] == '/')) then Some(pkg) else None
  }

  /** code\.google\.com/[pr]/([a-z0-9\-]+)(\.([a-z0-9\-]+))? followed by a tail. */
  function CodeGoogle(pkg: string): (m: Option<string>)
  {
    var p := "code.google.com/";
    if !HasPrefix(pkg, p) then None
    else
      var i := |p|;
      if i + 2 > |pkg| || (pkg[i] != 'p' && pkg[i] != 'r') || pkg[i + 1] != '/' then None
      else
        var n := Span(LowerDigitDash, pkg, i + 2);
        if n == 0 then None
        else
          var j := i + 2 + n;
          var e := if j < |pkg| && pkg[j] == '.' && Span(LowerDigitDash, pkg, j + 1) > 0
            then j + 1 + Span(LowerDigitDash, pkg, j + 1) else j;
          if TailFrom(pkg, e) then Some(pkg[..e]) else None
  }

  /** [a-z0-9_\-.]+\.googlecode\.com at the start of the path: where it ends. */
  function GoogleCodeHost(pkg: string): (k: Option<nat>)
    ensures k.Some? ==> k.value <= |pkg|
  {
    var k := Span(GoogleHost, pkg, 0);
    var suffix := ".googlecode.com";
    if k > |suffix| && pkg[k - |suffix|..k] == suffix then Some(k) else None
  }

  /** [a-z0-9_\-.]+\.googlecode\.com/svn(/.*)?, the whole path. */
  function GoogleCodeSvn(pkg: string): (m: Option<string>)
  {
    match GoogleCodeHost(pkg)
    case None => None
    case Some(k) => if LitAt(pkg, k, "/svn") && AnyTail(pkg, k + 4) then Some(pkg) else None
  }

  /** [a-z0-9_\-.]+\.googlecode\.com/(git|hg) followed by (/.*)? */
  function GoogleCodeGitHg(pkg: string): (m: Option<string>)
  {
    match GoogleCodeHost(pkg)
    case None => None
    case Some(k) =>
      var v := if LitAt(pkg, k, "/git") then 4 else if LitAt(pkg, k, "/hg") then 3 else 0;
      if v > 0 && AnyTail(pkg, k + v) then Some(pkg[..k + v]) else None
  }

  /** The length of the first of .bzr, .git, .hg, .svn (in alternation order) at position `j`, or 0. */
  function SuffixAt(s: string, j: nat): (n: nat)
    ensures j + n <= |s| || n == 0
  {
    if LitAt(s, j, ".bzr") then 4
    else if LitAt(s, j, ".git") then 4
    else if LitAt(s, j, ".hg") then 3
    else if LitAt(s, j, ".svn") then 4
    else 0
  }

  /**
   * [A-Za-z0-9_.\-/]*?\.(bzr|git|hg|svn) followed by a tail, from position
   * `i`, with the lazy repetition taking `l` characters first, then more:
   * where the shortest such match ends.
   */
  function LazyRepo(s: string, i: nat, l: nat): (e: Option<nat>)
    requires i <= |s|
    ensures e.Some? ==> i + l < e.value <= |s|
    decreases |s| - i - l
  {
    if l > Span(PathChar, s, i) || i + l >= |s| then None
    else if RepoEndsAt(s, i + l) then Some(i + l + SuffixAt(s, i + l))
    else LazyRepo(s, i, l + 1)
  }

  /** A version control suffix begins at `j`, and the rest of the path after it is a tail. */
  predicate RepoEndsAt(s: string, j: nat)
  {
    j <= |s| && SuffixAt(s, j) > 0 && TailFrom(s, j + SuffixAt(s, j))
  }

  /** ([a-z0-9.\-]+\.)+[a-z0-9.\-]+ : a host name with a '.' that is neither first nor last. */
  predicate DottedHost(h: string)
  {
    |h| >= 3 && '.' in h[1..|h| - 1]
  }

  /** (:[0-9]+)? from position `h`, taken when present: where it ends. */
  function PortEnd(s: string, h: nat): (p: nat)
    requires h <= |s|
    ensures h <= p <= |s|
  {
    if h < |s| && s[h] == ':' && Span(Digit, s, h + 1) > 0 then h + 1 + Span(Digit, s, h + 1) else h
  }

  /**
   * The generic pattern:
   * (([a-z0-9.\-]+\.)+[a-z0-9.\-]+(:[0-9]+)?/[A-Za-z0-9_.\-/]*?)\.(bzr|git|hg|svn)
   * followed by a tail.
   */
  function Generic(pkg: string): (m: Option<string>)
  {
    var h := Span(Host, pkg, 0);
    if !DottedHost(pkg[..h]) then None
    else
      var p := PortEnd(pkg, h);
      if p == |pkg| || pkg[p] != '/' then None
      else
        match LazyRepo(pkg, p + 1, 0)
        case Some(e) => Some(pkg[..e])
        case None => None
  }

  /** A go.googlesource.com path of one segment, with or without a trailing '/', is its own root. */
  lemma GoogleSourceOf(prefix: string, repo: string, slash: string)
    requires prefix == "go.googlesource.com/"
    requires IsSeg(repo) && (slash == "" || slash == "/")
    ensures GoogleSource(prefix + repo + slash) == Some(prefix + repo + slash)
  {
    var pkg := prefix + repo + slash;
    var p := |prefix|;
    assert pkg[..p] == prefix;
    assert Span(Word, pkg, p) == |repo| by {
      assert forall k :: p <= k < p + |repo| ==> pkg[k] == repo[k - p];
      assert slash != "" ==> pkg[p + |repo|] == '/';
      SpanIs(Word, pkg, p, p + |repo|);
    }
  }

  /** A launchpad.net project and series followed by a tail has the project and series as its root. */
  lemma LaunchpadSeriesOf(prefix: string, project: string, series: string, rest: string)
    requires prefix == "launchpad.net/"
    requires IsSeg(project) && IsSeg(series) && Tail(rest)
    ensures Launchpad(prefix + project + "/" + series + rest) == Some(prefix + project + "/" + series)
  {
    var root := prefix + project + "/" + series;
    var pkg := root + rest;
    var p, a := |prefix|, |project|;
    var e := p + a + 1 + |series|;
    assert pkg == prefix + project + ("/" + series + rest);
    SegSpan(prefix, project, "/" + series + rest);
    assert pkg == (prefix + project + "/") + series + rest;
    SegSpan(prefix + project + "/", series, rest);
    assert pkg[p + a] == '/';
    assert OptSeg(pkg, p + a) == e;
    TailShift(root, rest, 0);
    assert pkg[..p] == prefix && pkg[..e] == root;
  }


  /** A launchpad.net project alone is its own root. */
  lemma LaunchpadProjectOf(prefix: string, project: string)
    requires prefix == "launchpad.net/"
    requires IsSeg(project)
    ensures Launchpad(prefix + project) == Some(prefix + project)
  {
    var pkg := prefix + project;
    var p := |prefix|;
    assert pkg[..p] == prefix;
    assert Span(Word, pkg, p) == |project| by {
      assert forall k :: p <= k < p + |project| ==> pkg[k] == project[k - p];
      SpanIs(Word, pkg, p, |pkg|);
    }
    assert pkg[..|pkg|] == pkg;
  }

  /**
   * The lazy scan stops at the FIRST position, from `i + l` on, where a
   * version control suffix followed by a tail begins, and all it skips over
   * is path characters.
   */
  lemma {:induction false} LazyRepoShortest(s: string, i: nat, l: nat) returns (j: nat)
    requires i <= |s| && LazyRepo(s, i, l).Some?
    ensures i + l <= j <= i + Span(PathChar, s, i)
    ensures RepoEndsAt(s, j) && LazyRepo(s, i, l).value == j + SuffixAt(s, j)
    ensures forall k :: i + l <= k < j ==> !RepoEndsAt(s, k)
    decreases |s| - i - l
  {
    if RepoEndsAt(s, i + l) {
      j := i + l;
    } else {
      assert LazyRepo(s, i, l) == LazyRepo(s, i, l + 1);
      j := LazyRepoShortest(s, i, l + 1);
      forall k | i + l <= k < j
        ensures !RepoEndsAt(s, k)
      {
        if k == i + l {
        }
      }
    }
  }

  /**
   * A root the generic pattern finds is a dotted host of host characters, an
   * optional port of digits, '/', path characters and the first version
   * control suffix after which the rest of the path is a tail.
   */
  lemma GenericSplits(pkg: string) returns (p: nat, j: nat)
    requires Generic(pkg).Some?
    ensures RepoEndsAt(pkg, j) && Span(Host, pkg, 0) <= p < j && pkg[p] == '/'
    ensures DottedHost(pkg[..Span(Host, pkg, 0)]) && AllIn(Host, pkg, 0, Span(Host, pkg, 0))
    ensures var h := Span(Host, pkg, 0);
      p == h || (pkg[h] == ':' && h + 1 < p && AllIn(Digit, pkg, h + 1, p))
    ensures Generic(pkg) == Some(pkg[..j + SuffixAt(pkg, j)])
    ensures Tail(pkg[j + SuffixAt(pkg, j)..])
    ensures forall k :: p < k < j ==> !RepoEndsAt(pkg, k)
    ensures AllIn(PathChar, pkg, p + 1, j)
  {
    p := GenericPort(pkg);
    j := LazyRootSplits(pkg, p + 1);
  }

  /** The steps of the generic scanner up to the lazy repetition. */
  lemma GenericPort(pkg: string) returns (p: nat)
    requires Generic(pkg).Some?
    ensures Span(Host, pkg, 0) <= p < |pkg| && pkg[p] == '/'
    ensures DottedHost(pkg[..Span(Host, pkg, 0)]) && AllIn(Host, pkg, 0, Span(Host, pkg, 0))
    ensures var h := Span(Host, pkg, 0);
      p == h || (pkg[h] == ':' && h + 1 < p && AllIn(Digit, pkg, h + 1, p))
    ensures LazyRepo(pkg, p + 1, 0).Some? && Generic(pkg) == Some(pkg[..LazyRepo(pkg, p + 1, 0).value])
  {
    var h := Span(Host, pkg, 0);
    p := PortEnd(pkg, h);
    SpanAll(Host, pkg, 0, h);
    if p != h {
      SpanAll(Digit, pkg, h + 1, p);
    }
  }

  /**
   * The lazy scan from `i` stops at the first suffix position and leaves a
   * tail after the suffix, having passed over path characters only.
   */
  lemma LazyRootSplits(s: string, i: nat) returns (j: nat)
    requires i <= |s| && LazyRepo(s, i, 0).Some?
    ensures RepoEndsAt(s, j) && i <= j
    ensures LazyRepo(s, i, 0).value == j + SuffixAt(s, j)
    ensures Tail(s[j + SuffixAt(s, j)..])
    ensures forall k :: i <= k < j ==> !RepoEndsAt(s, k)
    ensures AllIn(PathChar, s, i, j)
  {
    j := LazyRepoShortest(s, i, 0);
    TailOfSuffix(s, j + SuffixAt(s, j));
    SpanAll(PathChar, s, i, j);
  }
}
