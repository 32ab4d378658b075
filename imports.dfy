/**
 * The package-metadata side of imports.go: the static table lookup
 * (importMeta), the go-get discovery request (fetchImportMeta: its URL and
 * status check) and the scan of the discovery page (parseImportMeta with
 * attrValue and charsetReader).
 *
 * The XML decoder is modelled by the token sequence it would produce and the
 * error, if any, that follows the last token; the HTTP client is a function
 * from URL to an optional (status, page) reply.
 */
module Imports {
  import opened Wrappers
  import opened Text
  import opened Patterns

  /** A package's repository: its root import path, remote address and version control system. */
  datatype PkgMeta = PkgMeta(root: string, remote: string, vcs: string)

  // ---------------------------------------------------------------------
  // importMeta
  // ---------------------------------------------------------------------

  /** The root-package patterns of vcsList, in list order. */
  datatype Pattern =
    | GitHubPattern | BitbucketPattern | LaunchpadPattern | GitLaunchpadPattern | JazzPattern
    | GoogleSourcePattern | CodeGooglePattern | GoogleCodeSvnPattern | GoogleCodePattern | GenericPattern

  /** An entry of vcsList: host (documentation only), pattern and version control system. */
  datatype Template = Template(host: string, pattern: Pattern, vcs: string)

  /** Capture group 1 of a pattern matched against the whole path, when it matches. */
  function Capture(p: Pattern, pkg: string): Option<string>
  {
    match p
    case GitHubPattern => TwoSegs("github.com/", pkg)
    case BitbucketPattern => TwoSegs("bitbucket.org/", pkg)
    case LaunchpadPattern => Launchpad(pkg)
    case GitLaunchpadPattern => GitLaunchpad(pkg)
    case JazzPattern => Jazz(pkg)
    case GoogleSourcePattern => GoogleSource(pkg)
    case CodeGooglePattern => CodeGoogle(pkg)
    case GoogleCodeSvnPattern => GoogleCodeSvn(pkg)
    case GoogleCodePattern => GoogleCodeGitHg(pkg)
    case GenericPattern => Generic(pkg)
  }

  /** vcsList, with each entry's vcs value as written (including "svc"). */
  const VcsList: seq<Template> := [
    Template("github.com", GitHubPattern, "git"),
    Template("bitbucket.org", BitbucketPattern, ""),
    Template("launchpad.net", LaunchpadPattern, "bzr"),
    Template("git.launchpad.net", GitLaunchpadPattern, "git"),
    Template("hub.jazz.net", JazzPattern, "git"),
    Template("go.googlesource.com", GoogleSourcePattern, ""),
    Template("code.google.com", CodeGooglePattern, "git"),
    Template("", GoogleCodeSvnPattern, "svc"),
    Template("", GoogleCodePattern, ""),
    Template("", GenericPattern, "")
  ]

  /** A template importMeta accepts for `pkg`: it matches with a non-empty capture. */
  predicate Accepts(t: Template, pkg: string)
  {
    var m := Capture(t.pattern, pkg);
    m.Some? && m.value != ""
  }

  /** The metadata importMeta builds from an accepting template. */
  function MetaFrom(t: Template, pkg: string): PkgMeta
    requires Accepts(t, pkg)
  {
    var root := Capture(t.pattern, pkg).value;
    PkgMeta(root, "https://" + root, t.vcs)
  }

  /** The first-match scan of importMeta over a template list. */
  function FirstMeta(list: seq<Template>, pkg: string): (m: Option<PkgMeta>)
    ensures m.Some? ==> m.value.root != "" && m.value.remote == "https://" + m.value.root
  {
    if list == [] then None
    else if Accepts(list[0], pkg) then Some(MetaFrom(list[0], pkg))
    else FirstMeta(list[1..], pkg)
  }

  /** importMeta(pkg): the static lookup. */
  function ImportMeta(pkg: string): (m: Option<PkgMeta>)
  {
    FirstMeta(VcsList, pkg)
  }

  /** The first template to accept `pkg` is at `i`. */
  ghost predicate FirstAccepting(list: seq<Template>, pkg: string, i: int)
  {
    0 <= i < |list| && Accepts(list[i], pkg) && forall j :: 0 <= j < i ==> !Accepts(list[j], pkg)
  }

  /**
   * importMeta returns the metadata of the first accepting template, with
   * that template's vcs, and nothing when no template accepts.
   */
  lemma {:induction false} FirstMetaIsFirst(list: seq<Template>, pkg: string)
    ensures FirstMeta(list, pkg).None? <==> forall i :: 0 <= i < |list| ==> !Accepts(list[i], pkg)
    ensures FirstMeta(list, pkg).Some? ==>
      exists i :: FirstAccepting(list, pkg, i) && FirstMeta(list, pkg) == Some(MetaFrom(list[i], pkg))
    decreases |list|
  {
    if list != [] && !Accepts(list[0], pkg) {
      FirstMetaIsFirst(list[1..], pkg);
      assert forall i :: 1 <= i < |list| ==> list[i] == list[1..][i - 1];
      if FirstMeta(list[1..], pkg).Some? {
        var i :| FirstAccepting(list[1..], pkg, i) && FirstMeta(list[1..], pkg) == Some(MetaFrom(list[1..][i], pkg));
        assert FirstAccepting(list, pkg, i + 1);
      }
    } else if list != [] {
      assert FirstAccepting(list, pkg, 0);
    }
  }

  /** Conversely, the first accepting template decides the result. */
  lemma {:induction false} FirstMetaAt(list: seq<Template>, pkg: string, i: int)
    requires FirstAccepting(list, pkg, i)
    ensures FirstMeta(list, pkg) == Some(MetaFrom(list[i], pkg))
    decreases i
  {
    if i > 0 {
      assert forall j :: 0 <= j < i - 1 ==> list[1..][j] == list[j + 1];
      FirstMetaAt(list[1..], pkg, i - 1);
    }
  }

  /** A github.com path of an owner, a repository and more segments has the owner and repository as root. */
  lemma ImportMetaGitHub(owner: string, repo: string, rest: string)
    requires IsSeg(owner) && IsSeg(repo) && Tail(rest)
    ensures var root := "github.com/" + owner + "/" + repo;
      ImportMeta(root + rest) == Some(PkgMeta(root, "https://" + root, "git"))
  {
    var root := "github.com/" + owner + "/" + repo;
    TwoSegsOf("github.com/", owner, repo, rest);
    var pkg := root + rest;
    assert "github.com/" + owner + "/" + repo + rest == pkg;
    assert Capture(GitHubPattern, pkg) == Some(root);
    assert |root| > 0;
    assert VcsList[0] == Template("github.com", GitHubPattern, "git");
    assert Accepts(VcsList[0], pkg);
    assert FirstAccepting(VcsList, pkg, 0);
    FirstMetaAt(VcsList, pkg, 0);
    assert MetaFrom(VcsList[0], pkg) == PkgMeta(root, "https://" + root, "git");
  }

  /** A bitbucket.org path is looked up by the second template, whose vcs is empty. */
  lemma ImportMetaBitbucket(owner: string, repo: string, rest: string)
    requires IsSeg(owner) && IsSeg(repo) && Tail(rest)
    ensures var root := "bitbucket.org/" + owner + "/" + repo;
      ImportMeta(root + rest) == Some(PkgMeta(root, "https://" + root, ""))
  {
    var root := "bitbucket.org/" + owner + "/" + repo;
    var pkg := root + rest;
    TwoSegsOf("bitbucket.org/", owner, repo, rest);
    assert "bitbucket.org/" + owner + "/" + repo + rest == pkg;
    assert Capture(BitbucketPattern, pkg) == Some(root);
    assert |root| > 0;
    assert pkg[0] == 'b';
    assert !HasPrefix(pkg, "github.com/");
    assert VcsList[0] == Template("github.com", GitHubPattern, "git");
    assert VcsList[1] == Template("bitbucket.org", BitbucketPattern, "");
    assert !Accepts(VcsList[0], pkg);
    assert Accepts(VcsList[1], pkg);
    assert FirstAccepting(VcsList, pkg, 1);
    FirstMetaAt(VcsList, pkg, 1);
    assert MetaFrom(VcsList[1], pkg) == PkgMeta(root, "https://" + root, "");
  }

  /** ImportMetaGitHub for a path given whole, as a test case states it. */
  lemma ImportMetaGitHubPath(pkg: string, owner: string, repo: string, rest: string, root: string)
    requires IsSeg(owner) && IsSeg(repo) && Tail(rest)
    requires root == "github.com/" + owner + "/" + repo && pkg == root + rest
    ensures ImportMeta(pkg) == Some(PkgMeta(root, "https://" + root, "git"))
  {
    ImportMetaGitHub(owner, repo, rest);
  }

  /** The cobra case of imports_test.go. */
  lemma ImportMetaCobraExample(pkg: string)
    requires pkg == "github.com/spf13/cobra"
    ensures ImportMeta(pkg) == Some(PkgMeta(pkg, "https://" + pkg, "git"))
  {
    assert IsSeg("spf13") && IsSeg("cobra");
    assert pkg == "github.com/" + "spf13" + "/" + "cobra";
    assert pkg == pkg + "";
    ImportMetaGitHubPath(pkg, "spf13", "cobra", "", pkg);
  }

  /** The dnsutil case of imports_test.go: the root stops after the repository. */
  lemma ImportMetaDnsutilExample(pkg: string)
    requires pkg == "github.com/miekg/dns/dnsutil"
    ensures var root := "github.com/miekg/dns"; ImportMeta(pkg) == Some(PkgMeta(root, "https://" + root, "git"))
  {
    var root := "github.com/miekg/dns";
    assert IsSeg("miekg") && IsSeg("dns") && IsSeg("dnsutil");
    TailCons("dnsutil", "");
    assert "/dnsutil" == "/" + "dnsutil" + "";
    assert root == "github.com/" + "miekg" + "/" + "dns";
    assert pkg == root + "/dnsutil";
    ImportMetaGitHubPath(pkg, "miekg", "dns", "/dnsutil", root);
  }

  // ---------------------------------------------------------------------
  // fetchImportMeta: URL and status
  // ---------------------------------------------------------------------

  /** The query parameter that asks a server for its go-get page. */
  const GoGetFlag: string := "go-get=1"

  /** The discovery URL: https:// and the package, with go-get=1 added to its query. */
  function GoGetUrl(pkg: string): (u: string)
    ensures HasPrefix(u, "https://" + pkg)
  {
    var a := "https://" + pkg;
    var sep := if '?' in a then '&' else '?';
    assert (a + [sep] + GoGetFlag)[..|a|] == a;
    a + [sep] + GoGetFlag
  }

  /** Where the query of a URL starts: the index of its first '?'. */
  function QueryStart(s: string): (i: Option<nat>)
    ensures i.Some? ==> i.value < |s| && s[i.value] == '?' && '?' !in s[..i.value]
    ensures i.None? <==> '?' !in s
  {
    if s == [] then None
    else if s[0] == '?' then Some(0)
    else match QueryStart(s[1..])
      case Some(k) => assert s[..k + 1] == [s[0]] + s[1..][..k]; Some(k + 1)
      case None => assert s == [s[0]] + s[1..]; None
  }

  lemma QueryStartOf(a: string, y: string)
    requires '?' !in a
    ensures QueryStart(a + ['?'] + y) == Some(|a|)
  {
    var s := a + ['?'] + y;
    assert s[|a|] == '?';
    assert s[..|a|] == a;
    var j := QueryStart(s).value;
    assert forall k :: 0 <= k < j ==> s[..j][k] == s[k];
    assert forall k :: 0 <= k < |a| ==> s[k] == a[k];
  }

  /** The part of a URL before its query. */
  function Address(s: string): string
  {
    match QueryStart(s)
    case Some(i) => s[..i]
    case None => s
  }

  /** The query of a URL, "" when it has none. */
  function Query(s: string): string
  {
    match QueryStart(s)
    case Some(i) => s[i + 1..]
    case None => ""
  }

  lemma QueryStartAppend(a: string, b: string)
    requires '?' in a
    ensures QueryStart(a + b) == QueryStart(a)
  {
    var i := QueryStart(a).value;
    assert (a + b)[..i] == a[..i];
    assert (a + b)[i] == '?';
    var j := QueryStart(a + b).value;
    assert forall k :: 0 <= k < j ==> (a + b)[..j][k] == (a + b)[k];
    assert forall k :: 0 <= k < i ==> a[..i][k] == (a + b)[k];
  }

  /** Text added after a URL that has a query extends the query and leaves the address. */
  lemma QueryAppend(a: string, b: string)
    requires '?' in a
    ensures Address(a + b) == Address(a) && Query(a + b) == Query(a) + b
  {
    QueryStartAppend(a, b);
    var i := QueryStart(a).value;
    assert (a + b)[..i] == a[..i];
    assert (a + b)[i + 1..] == a[i + 1..] + b;
  }

  /** Splitting at the separator added between two strings splits each of them. */
  lemma {:induction false} SplitAppend(a: string, sep: char, y: string)
    ensures Split(a + [sep] + y, sep) == Split(a, sep) + Split(y, sep)
    decreases |a|
  {
    if a == [] {
      assert a + [sep] + y == [sep] + y;
      assert ([sep] + y)[1..] == y;
    } else {
      assert (a + [sep] + y)[0] == a[0];
      assert (a + [sep] + y)[1..] == a[1..] + [sep] + y;
      SplitAppend(a[1..], sep, y);
    }
  }

  /** A string without the separator is one piece. */
  lemma {:induction false} SplitNoSep(y: string, sep: char)
    requires sep !in y
    ensures Split(y, sep) == [y]
    decreases |y|
  {
    if y != [] {
      assert sep !in y[1..] by {
        assert forall k :: 0 <= k < |y| - 1 ==> y[1..][k] == y[k + 1];
      }
      SplitNoSep(y[1..], sep);
      assert [y[0]] + y[1..] == y;
    }
  }

  /** A package path that already has a query gets go-get=1 as its last parameter. */
  lemma GoGetUrlExtendsQuery(pkg: string)
    requires '?' in "https://" + pkg
    ensures var u := GoGetUrl(pkg);
      Address(u) == Address("https://" + pkg) && Query(u) == Query("https://" + pkg) + ['&'] + GoGetFlag
  {
    var a := "https://" + pkg;
    assert GoGetUrl(pkg) == a + (['&'] + GoGetFlag);
    QueryAppend(a, ['&'] + GoGetFlag);
  }

  /** Either way, go-get=1 is the last parameter of the query. */
  lemma GoGetUrlLastParam(pkg: string)
    ensures var params := Split(Query(GoGetUrl(pkg)), '&');
      params[|params| - 1] == GoGetFlag
  {
    assert '&' !in GoGetFlag;
    SplitNoSep(GoGetFlag, '&');
    if '?' in "https://" + pkg {
      GoGetUrlExtendsQuery(pkg);
      SplitAppend(Query("https://" + pkg), '&', GoGetFlag);
    } else {
      GoGetUrlAddsQuery(pkg);
    }
  }

  /** A package path without a query gets go-get=1 as its whole query. */
  lemma GoGetUrlAddsQuery(pkg: string)
    requires '?' !in "https://" + pkg
    ensures var u := GoGetUrl(pkg);
      Address(u) == "https://" + pkg && Query(u) == GoGetFlag
  {
    var a := "https://" + pkg;
    var u := GoGetUrl(pkg);
    assert u == a + ['?'] + GoGetFlag;
    QueryStartOf(a, GoGetFlag);
    assert u[..|a|] == a;
    assert u[|a| + 1..] == GoGetFlag;
  }

  /** Go's integer division, which truncates toward zero. */
  function GoDiv(a: int, b: int): int
    requires b > 0
  {
    if a >= 0 then a / b else -((-a) / b)
  }

  /** The status check, code/100 == 2: exactly the 2xx codes pass. */
  predicate StatusOk(code: int): (ok: bool)
    ensures ok <==> 200 <= code <= 299
  {
    GoDiv(code, 100) == 2
  }

  // ---------------------------------------------------------------------
  // attrValue and charsetReader
  // ---------------------------------------------------------------------

  /** An XML attribute: local name and value. */
  datatype Attr = Attr(local: string, value: string)

  /** attrValue: the value of the first attribute named `name`, ignoring case; "" if none. */
  function AttrValue(attrs: seq<Attr>, name: string): string
  {
    if attrs == [] then ""
    else if EqualFold(attrs[0].local, name) then attrs[0].value
    else AttrValue(attrs[1..], name)
  }

  /** attrValue is "" when no attribute has the name. */
  lemma {:induction false} AttrValueMissing(attrs: seq<Attr>, name: string)
    requires forall i :: 0 <= i < |attrs| ==> !EqualFold(attrs[i].local, name)
    ensures AttrValue(attrs, name) == ""
    decreases |attrs|
  {
    if attrs != [] {
      assert forall i :: 1 <= i < |attrs| ==> attrs[i] == attrs[1..][i - 1];
      AttrValueMissing(attrs[1..], name);
    }
  }

  /** attrValue is the value of the first attribute with the name. */
  lemma {:induction false} AttrValueFirst(attrs: seq<Attr>, name: string, i: nat)
    requires i < |attrs| && EqualFold(attrs[i].local, name)
    requires forall j :: 0 <= j < i ==> !EqualFold(attrs[j].local, name)
    ensures AttrValue(attrs, name) == attrs[i].value
    decreases i
  {
    if i > 0 {
      assert forall j :: 0 <= j < i - 1 ==> attrs[1..][j] == attrs[j + 1];
      AttrValueFirst(attrs[1..], name, i - 1);
    }
  }

  /** The error charsetReader returns. */
  datatype CharsetError = CantDecode(charset: string)

  /** charsetReader: only "ascii", in any case, is read (unchanged). */
  function CharsetReader(charset: string): (r: Result<(), CharsetError>)
    ensures r.Success? <==> EqualFold(charset, "ascii")
    ensures r.Failure? ==> r.error == CantDecode(charset)
  {
    if ToLower(charset) == "ascii" then Success(()) else Failure(CantDecode(charset))
  }

  // ---------------------------------------------------------------------
  // parseImportMeta
  // ---------------------------------------------------------------------

  /** The tokens of the XML decoder that parseImportMeta looks at; everything else is Other. */
  datatype Token =
    | StartElement(local: string, attrs: seq<Attr>)
    | EndElement(local: string)
    | ProcInst(target: string, encoding: string)
    | Other

  /** Errors of the decoder: a syntax error in the page, or a charset it cannot open. */
  datatype XmlError = Syntax(msg: string) | OpeningCharset(encoding: string, cause: CharsetError)

  /**
   * What a decoder has still to read: the tokens it will deliver, and what
   * ends them (None: the end of the input; Some: a syntax error).
   */
  datatype Page = Page(tokens: seq<Token>, fault: Option<XmlError>)

  /** What one call of Token gives. */
  datatype Step = Tok(t: Token) | Eof | Bad(err: XmlError)

  /**
   * The encoding declaration of `t` names a charset the decoder must open
   * through charsetReader, and charsetReader refuses it.
   */
  predicate CharsetFails(t: Token)
  {
    t.ProcInst? && t.target == "xml" && t.encoding != "" && !EqualFold(t.encoding, "utf-8")
    && CharsetReader(t.encoding).Failure?
  }

  /**
   * Decoder.Token: the next token, the end of input, or the error; an error
   * is kept, so every later call gives it again.
   */
  function NextToken(d: Page): (r: (Step, Page))
    ensures r.0.Tok? ==> d.tokens != [] && r.0.t == d.tokens[0] && r.1 == Page(d.tokens[1..], d.fault)
    ensures r.0.Eof? <==> d.tokens == [] && d.fault.None?
    ensures r.0.Bad? ==> r.1 == Page([], Some(r.0.err))
  {
    if d.tokens == [] then
      match d.fault
      case None => (Eof, d)
      case Some(e) => (Bad(e), d)
    else
      var t := d.tokens[0];
      if CharsetFails(t) then
        var e := OpeningCharset(t.encoding, CharsetReader(t.encoding).error);
        (Bad(e), Page([], Some(e)))
      else
        (Tok(t), Page(d.tokens[1..], d.fault))
  }

  /** The XML decoder, reduced to the state its Token method reads and changes. */
  class Decoder {
    var tokens: seq<Token>
    var fault: Option<XmlError>

    constructor(page: Page)
      ensures tokens == page.tokens && fault == page.fault
    {
      tokens := page.tokens;
      fault := page.fault;
    }

    /** What the decoder has still to read. */
    function Rest(): Page
      reads this
    {
      Page(tokens, fault)
    }

    /** Decoder.Token. */
    method Token() returns (s: Step)
      modifies this
      ensures (s, Rest()) == NextToken(old(Rest()))
    {
      if tokens == [] {
        s := if fault.None? then Eof else Bad(fault.value);
      } else {
        var t := tokens[0];
        if t.ProcInst? && t.target == "xml" && t.encoding != "" && !EqualFold(t.encoding, "utf-8") {
          var reader := CharsetReader(t.encoding);
          if reader.Failure? {
            var e := OpeningCharset(t.encoding, reader.error);
            tokens, fault := [], Some(e);
            return Bad(e);
          }
        }
        tokens := tokens[1..];
        s := Tok(t);
      }
    }
  }

  /** Why parseImportMeta fails. */
  datatype ParseError = NoGoImport | Parsing(cause: XmlError)

  /** A `meta` start element named go-import whose content has three fields. */
  predicate GoImport(t: Token)
  {
    t.StartElement? && EqualFold(t.local, "meta") && AttrValue(t.attrs, "name") == "go-import"
    && |Fields(AttrValue(t.attrs, "content"))| == 3
  }

  /** The metadata of a go-import element: root, vcs and remote, in that order in the content. */
  function MetaOf(t: Token): PkgMeta
    requires GoImport(t)
  {
    var f := Fields(AttrValue(t.attrs, "content"));
    PkgMeta(f[0], f[2], f[1])
  }

  /** A token that ends the scan: a charset refused, the body's start, the head's end, or a go-import element. */
  predicate Decisive(t: Token)
  {
    CharsetFails(t) || (t.StartElement? && EqualFold(t.local, "body"))
    || (t.EndElement? && EqualFold(t.local, "head")) || GoImport(t)
  }

  /** An element named meta is not the body, so the two tests never both hold. */
  lemma MetaIsNotBody(local: string)
    ensures !(EqualFold(local, "meta") && EqualFold(local, "body"))
  {
    assert ToLower("meta")[0] != ToLower("body")[0];
  }

  /** The result a decisive token gives. */
  function Verdict(t: Token): Result<PkgMeta, ParseError>
    requires Decisive(t)
  {
    if CharsetFails(t) then Failure(Parsing(OpeningCharset(t.encoding, CharsetReader(t.encoding).error)))
    else if GoImport(t) then Success(MetaOf(t))
    else Failure(NoGoImport)
  }

  /** The result a stream without decisive tokens gives: what ends it. */
  function EndVerdict(fault: Option<XmlError>): Result<PkgMeta, ParseError>
  {
    match fault
    case None => Failure(NoGoImport)
    case Some(e) => Failure(Parsing(e))
  }

  /**
   * What parseImportMeta returns for a page: the verdict of the first
   * decisive token, or, when there is none, of the way the stream ends.
   */
  function ParsedMeta(d: Page): Result<PkgMeta, ParseError>
    decreases |d.tokens|
  {
    if d.tokens == [] then EndVerdict(d.fault)
    else if Decisive(d.tokens[0]) then Verdict(d.tokens[0])
    else ParsedMeta(Page(d.tokens[1..], d.fault))
  }

  /** parseImportMeta: read tokens from the decoder until one decides the result. */
  method ParseImportMeta(d: Decoder) returns (r: Result<PkgMeta, ParseError>)
    modifies d
    ensures r == ParsedMeta(old(d.Rest()))
  {
    while true
      invariant ParsedMeta(d.Rest()) == ParsedMeta(old(d.Rest()))
      decreases |d.tokens|
    {
      var step := d.Token();
      match step {
        case Eof =>
          return Failure(NoGoImport);
        case Bad(e) =>
          return Failure(Parsing(e));
        case Tok(t) =>
          if t.StartElement? && EqualFold(t.local, "body") {
            MetaIsNotBody(t.local);
            return Failure(NoGoImport);
          }
          if t.EndElement? && EqualFold(t.local, "head") {
            return Failure(NoGoImport);
          }
          if t.StartElement? && EqualFold(t.local, "meta") && AttrValue(t.attrs, "name") == "go-import" {
            var f := Fields(AttrValue(t.attrs, "content"));
            if |f| == 3 {
              return Success(PkgMeta(f[0], f[2], f[1]));
            }
          }
      }
    }
  }

  /** No token before index `i` is decisive. */
  ghost predicate Undecided(tokens: seq<Token>, i: int)
  {
    forall j :: 0 <= j < i && j < |tokens| ==> !Decisive(tokens[j])
  }

  /** The first decisive token decides the result. */
  lemma {:induction false} ParsedMetaAt(tokens: seq<Token>, fault: Option<XmlError>, i: nat)
    requires i < |tokens| && Decisive(tokens[i]) && Undecided(tokens, i)
    ensures ParsedMeta(Page(tokens, fault)) == Verdict(tokens[i])
    decreases i
  {
    if i > 0 {
      assert forall j :: 0 <= j < i - 1 ==> tokens[1..][j] == tokens[j + 1];
      ParsedMetaAt(tokens[1..], fault, i - 1);
    }
  }

  /** Without a decisive token, the end of the stream decides. */
  lemma {:induction false} ParsedMetaAtEnd(tokens: seq<Token>, fault: Option<XmlError>)
    requires Undecided(tokens, |tokens|)
    ensures ParsedMeta(Page(tokens, fault)) == EndVerdict(fault)
    decreases |tokens|
  {
    if tokens != [] {
      assert forall j :: 0 <= j < |tokens| - 1 ==> tokens[1..][j] == tokens[j + 1];
      ParsedMetaAtEnd(tokens[1..], fault);
    }
  }

  /**
   * parseImportMeta succeeds exactly when a go-import element comes before
   * every other decisive token, and then returns that element's fields.
   */
  lemma {:induction false} ParsedMetaSuccess(d: Page)
    ensures ParsedMeta(d).Success? <==>
      exists i :: 0 <= i < |d.tokens| && GoImport(d.tokens[i]) && Undecided(d.tokens, i)
    ensures ParsedMeta(d).Success? ==>
      exists i :: 0 <= i < |d.tokens| && GoImport(d.tokens[i]) && Undecided(d.tokens, i)
        && ParsedMeta(d).value == MetaOf(d.tokens[i])
  {
    var ts := d.tokens;
    if ParsedMeta(d).Success? {
      var i := ParsedMetaFound(ts, d.fault);
      assert ParsedMeta(d).value == MetaOf(ts[i]);
    } else if exists i :: 0 <= i < |ts| && GoImport(ts[i]) && Undecided(ts, i) {
      var i :| 0 <= i < |ts| && GoImport(ts[i]) && Undecided(ts, i);
      ParsedMetaAt(ts, d.fault, i);
      assert false;
    }
  }

  /** The go-import element a successful scan stopped at. */
  lemma {:induction false} ParsedMetaFound(ts: seq<Token>, fault: Option<XmlError>) returns (i: nat)
    requires ParsedMeta(Page(ts, fault)).Success?
    ensures i < |ts| && GoImport(ts[i]) && Undecided(ts, i)
    ensures ParsedMeta(Page(ts, fault)) == Success(MetaOf(ts[i]))
    decreases |ts|
  {
    if Decisive(ts[0]) {
      i := 0;
    } else {
      var k := ParsedMetaFound(ts[1..], fault);
      i := k + 1;
      assert forall j :: 1 <= j <= i ==> ts[j] == ts[1..][j - 1];
    }
  }

  /**
   * A page whose head holds a go-import element with three words, after
   * tokens that decide nothing, yields those words as root, vcs and remote.
   */
  lemma GoImportPage(before: seq<Token>, root: string, vcs: string, remote: string, attrs: seq<Attr>, after: seq<Token>, fault: Option<XmlError>)
    requires Undecided(before, |before|)
    requires IsWord(root) && IsWord(vcs) && IsWord(remote)
    requires AttrValue(attrs, "name") == "go-import" && AttrValue(attrs, "content") == Unwords([root, vcs, remote])
    ensures ParsedMeta(Page(before + [StartElement("meta", attrs)] + after, fault)) == Success(PkgMeta(root, remote, vcs))
  {
    var ws := [root, vcs, remote];
    FieldsOfUnwords(ws);
    var t := StartElement("meta", attrs);
    assert EqualFold(t.local, "meta");
    MetaIsNotBody(t.local);
    assert GoImport(t);
    assert MetaOf(t) == PkgMeta(root, remote, vcs);
    var tokens := before + [t] + after;
    assert tokens[|before|] == t;
    assert forall j :: 0 <= j < |before| ==> tokens[j] == before[j];
    ParsedMetaAt(tokens, fault, |before|);
  }

  /** A go-import element after the body starts is never seen. */
  lemma BodyEndsScan(before: seq<Token>, attrs: seq<Attr>, after: seq<Token>, fault: Option<XmlError>)
    requires Undecided(before, |before|)
    ensures ParsedMeta(Page(before + [StartElement("body", attrs)] + after, fault)) == Failure(NoGoImport)
  {
    var t := StartElement("body", attrs);
    assert EqualFold(t.local, "body");
    MetaIsNotBody(t.local);
    var tokens := before + [t] + after;
    assert tokens[|before|] == t;
    assert forall j :: 0 <= j < |before| ==> tokens[j] == before[j];
    ParsedMetaAt(tokens, fault, |before|);
  }

  /** A go-import element whose content does not have three fields is skipped. */
  lemma WrongFieldCountSkipped(t: Token, rest: seq<Token>, fault: Option<XmlError>)
    requires t.StartElement? && EqualFold(t.local, "meta") && AttrValue(t.attrs, "name") == "go-import"
    requires |Fields(AttrValue(t.attrs, "content"))| != 3
    ensures ParsedMeta(Page([t] + rest, fault)) == ParsedMeta(Page(rest, fault))
  {
    MetaIsNotBody(t.local);
    assert ([t] + rest)[1..] == rest;
  }

  /** An xml declaration with an encoding other than UTF-8 or ASCII ends the scan with an error. */
  lemma CharsetRefused(encoding: string, rest: seq<Token>, fault: Option<XmlError>)
    requires encoding != "" && !EqualFold(encoding, "utf-8") && !EqualFold(encoding, "ascii")
    ensures ParsedMeta(Page([ProcInst("xml", encoding)] + rest, fault))
      == Failure(Parsing(OpeningCharset(encoding, CantDecode(encoding))))
  {
  }

  /** An xml declaration of ASCII, in any case, is read past. */
  lemma CharsetAscii(encoding: string, rest: seq<Token>, fault: Option<XmlError>)
    requires EqualFold(encoding, "ascii")
    ensures ParsedMeta(Page([ProcInst("xml", encoding)] + rest, fault)) == ParsedMeta(Page(rest, fault))
  {
    assert ([ProcInst("xml", encoding)] + rest)[1..] == rest;
  }

  // ---------------------------------------------------------------------
  // fetchImportMeta (package level)
  // ---------------------------------------------------------------------

  /** An HTTP reply: its status code and the page its body holds. */
  datatype Reply = Reply(status: int, body: Page)

  /** Why fetchImportMeta fails; each error names the URL. */
  datatype FetchError =
    | GettingUrl(url: string)
    | BadStatus(url: string, status: int)
    | ParsingResponse(url: string, cause: ParseError)

  /** What fetchImportMeta returns, given the reply (None: the request failed). */
  function FetchOutcome(pkg: string, reply: Option<Reply>): (r: Result<PkgMeta, FetchError>)
  {
    var u := GoGetUrl(pkg);
    match reply
    case None => Failure(GettingUrl(u))
    case Some(resp) =>
      if !StatusOk(resp.status) then Failure(BadStatus(u, resp.status))
      else match ParsedMeta(resp.body)
        case Success(m) => Success(m)
        case Failure(e) => Failure(ParsingResponse(u, e))
  }

  /** fetchImportMeta: request the go-get URL through `get`, check the status, parse the body. */
  method FetchImportMeta(pkg: string, get: string -> Option<Reply>) returns (r: Result<PkgMeta, FetchError>)
    ensures r == FetchOutcome(pkg, get(GoGetUrl(pkg)))
  {
    var u := "https://" + pkg;
    if '?' in u {
      u := u + "&go-get=1";
    } else {
      u := u + "?go-get=1";
    }
    assert u == GoGetUrl(pkg);
    var resp := get(u);
    if resp.None? {
      return Failure(GettingUrl(u));
    }
    if GoDiv(resp.value.status, 100) != 2 {
      return Failure(BadStatus(u, resp.value.status));
    }
    var d := new Decoder(resp.value.body);
    var meta := ParseImportMeta(d);
    if meta.Failure? {
      return Failure(ParsingResponse(u, meta.error));
    }
    return Success(meta.value);
  }

  /**
   * fetchImportMeta succeeds exactly when the request gets a 2xx reply whose
   * page parses, and returns the page's metadata.
   */
  lemma FetchOutcomeSuccess(pkg: string, reply: Option<Reply>)
    ensures FetchOutcome(pkg, reply).Success? <==>
      reply.Some? && 200 <= reply.value.status <= 299 && ParsedMeta(reply.value.body).Success?
    ensures FetchOutcome(pkg, reply).Success? ==> FetchOutcome(pkg, reply).value == ParsedMeta(reply.value.body).value
  {
  }
}
