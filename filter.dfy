/**
 * The vendoring filter of goget.go: which directories and files of a
 * checked-out repository are copied into the destination tree.
 */
module Filter {
  import opened Text

  /**
   * ignoreDir: a directory is skipped, with everything below it, when it is
   * named testdata or vendor or its name starts with '.' or '_'.
   */
  predicate IgnoreDir(dirname: string)
    ensures IgnoreDir(dirname) <==>
      dirname in {"testdata", "vendor"} || (|dirname| > 0 && dirname[0] in {'.', '_'})
  {
    if dirname == "testdata" || dirname == "vendor" then true
    else if HasPrefix(dirname, ".") then true
    else HasPrefix(dirname, "_")
  }

  /** versionFiles: dependency manifests that are always copied. */
  const VersionFiles: seq<string> := ["godeps.json", "glide.yaml"]

  /** licenseFilePrefix: name prefixes of files that may hold a software license. */
  const LicenseFilePrefix: seq<string> :=
    ["licence", "license", "copying", "unlicense", "copyright", "copyleft"]

  /** legalFileSubstring: name parts of files that may hold a legal declaration. */
  const LegalFileSubstring: seq<string> :=
    ["legal", "notice", "disclaimer", "patent", "third-party", "thirdparty"]

  /** The loop over versionFiles: some listed name equals `name` up to case. */
  predicate EqualsAnyFold(name: string, names: seq<string>)
    decreases |names|
  {
    if names == [] then false
    else if EqualFold(name, names[0]) then true
    else
      assert forall i :: 1 <= i < |names| ==> names[i] == names[1..][i - 1];
      EqualsAnyFold(name, names[1..])
  }

  /** The loop over licenseFilePrefix: `s` starts with some listed prefix. */
  predicate HasAnyPrefix(s: string, prefixes: seq<string>)
    decreases |prefixes|
  {
    if prefixes == [] then false
    else if HasPrefix(s, prefixes[0]) then true
    else
      assert forall i :: 1 <= i < |prefixes| ==> prefixes[i] == prefixes[1..][i - 1];
      HasAnyPrefix(s, prefixes[1..])
  }

  /** The loop over legalFileSubstring: `s` contains some listed substring. */
  predicate ContainsAny(s: string, subs: seq<string>)
    decreases |subs|
  {
    if subs == [] then false
    else if Contains(s, subs[0]) then true
    else
      assert forall i :: 1 <= i < |subs| ==> subs[i] == subs[1..][i - 1];
      ContainsAny(s, subs[1..])
  }

  /** The loop over versionFiles answers whether some listed name matches. */
  lemma {:induction false} EqualsAnyFoldExists(name: string, names: seq<string>)
    ensures EqualsAnyFold(name, names) <==> exists i :: 0 <= i < |names| && EqualFold(name, names[i])
    decreases |names|
  {
    if names != [] && !EqualFold(name, names[0]) {
      EqualsAnyFoldExists(name, names[1..]);
      assert forall i :: 1 <= i < |names| ==> names[i] == names[1..][i - 1];
    }
  }

  /** The loop over licenseFilePrefix answers whether some listed prefix matches. */
  lemma {:induction false} HasAnyPrefixExists(s: string, prefixes: seq<string>)
    ensures HasAnyPrefix(s, prefixes) <==> exists i :: 0 <= i < |prefixes| && HasPrefix(s, prefixes[i])
    decreases |prefixes|
  {
    if prefixes != [] && !HasPrefix(s, prefixes[0]) {
      HasAnyPrefixExists(s, prefixes[1..]);
      assert forall i :: 1 <= i < |prefixes| ==> prefixes[i] == prefixes[1..][i - 1];
    }
  }

  /** The loop over legalFileSubstring answers whether some listed substring occurs. */
  lemma {:induction false} ContainsAnyExists(s: string, subs: seq<string>)
    ensures ContainsAny(s, subs) <==> exists i :: 0 <= i < |subs| && Contains(s, subs[i])
    decreases |subs|
  {
    if subs != [] && !Contains(s, subs[0]) {
      ContainsAnyExists(s, subs[1..]);
      assert forall i :: 1 <= i < |subs| ==> subs[i] == subs[1..][i - 1];
    }
  }

  /**
   * isLegalFile: the lower-cased base name starts with a license prefix or
   * contains a legal substring.
   */
  predicate IsLegalFile(path: string)
  {
    var lowerfile := ToLower(Base(path));
    HasAnyPrefix(lowerfile, LicenseFilePrefix) || ContainsAny(lowerfile, LegalFileSubstring)
  }

  /** ignoreFile: whether a file is left out of the copy. */
  predicate IgnoreFile(filename: string)
  {
    if EqualsAnyFold(filename, VersionFiles) then false
    else
      var ext := Ext(filename);
      if ext == ".s" || ext == ".c" then false
      else if ext == ".go" then HasSuffix(filename, "_test.go")
      else !IsLegalFile(filename)
  }

  /** A file name equal, up to case, to one of the version files. */
  predicate IsVersionFile(filename: string)
  {
    EqualFold(filename, "godeps.json") || EqualFold(filename, "glide.yaml")
  }

  /** The loop over licenseFilePrefix, spelled out. */
  lemma LicensePrefixesSpelled(l: string)
    ensures HasAnyPrefix(l, LicenseFilePrefix) <==>
      HasPrefix(l, "licence") || HasPrefix(l, "license") || HasPrefix(l, "copying")
      || HasPrefix(l, "unlicense") || HasPrefix(l, "copyright") || HasPrefix(l, "copyleft")
  {
    var ps := LicenseFilePrefix;
    HasAnyPrefixExists(l, ps);
    assert ps[0] == "licence" && ps[1] == "license" && ps[2] == "copying";
    assert ps[3] == "unlicense" && ps[4] == "copyright" && ps[5] == "copyleft";
  }

  /** The loop over legalFileSubstring, spelled out. */
  lemma LegalSubstringsSpelled(l: string)
    ensures ContainsAny(l, LegalFileSubstring) <==>
      Contains(l, "legal") || Contains(l, "notice") || Contains(l, "disclaimer")
      || Contains(l, "patent") || Contains(l, "third-party") || Contains(l, "thirdparty")
  {
    var ss := LegalFileSubstring;
    ContainsAnyExists(l, ss);
    assert ss[0] == "legal" && ss[1] == "notice" && ss[2] == "disclaimer";
    assert ss[3] == "patent" && ss[4] == "third-party" && ss[5] == "thirdparty";
  }

  /** A name ending in `c` cannot equal, up to case, a name ending in a different lower-case letter. */
  lemma LastCharFold(f: string, target: string, c: char)
    requires |f| > 0 && f[|f| - 1] == c && 'a' <= c <= 'z'
    requires |target| > 0 && 'a' <= target[|target| - 1] <= 'z' && target[|target| - 1] != c
    ensures !EqualFold(f, target)
  {
    var lf, lt := ToLower(f), ToLower(target);
    if |f| == |target| {
      assert lf[|f| - 1] == c && lt[|f| - 1] == target[|target| - 1];
    }
  }

  /** The loop over versionFiles tests exactly the two names. */
  lemma VersionFilesTest(f: string)
    ensures EqualsAnyFold(f, VersionFiles) <==> IsVersionFile(f)
  {
    EqualsAnyFoldExists(f, VersionFiles);
    assert VersionFiles[0] == "godeps.json" && VersionFiles[1] == "glide.yaml";
  }

  /** The four cases of ignoreFile, in the order the source decides them. */
  lemma IgnoreFileCases(f: string)
    ensures IsVersionFile(f) ==> !IgnoreFile(f)
    ensures Ext(f) == ".s" || Ext(f) == ".c" ==> !IgnoreFile(f)
    ensures Ext(f) == ".go" ==> (IgnoreFile(f) <==> HasSuffix(f, "_test.go"))
    ensures !IsVersionFile(f) && Ext(f) !in {".s", ".c", ".go"} ==> (IgnoreFile(f) <==> !IsLegalFile(f))
  {
    VersionFilesTest(f);
    if Ext(f) == ".go" {
      assert HasSuffix(f, ".go");
      assert f[|f| - 1] == 'o';
      LastCharFold(f, "godeps.json", 'o');
      LastCharFold(f, "glide.yaml", 'o');
    }
  }

  /** A lower-case name is its own ToLower. */
  lemma LowerOfLower(s: string)
    requires forall i :: 0 <= i < |s| ==> !('A' <= s[i] <= 'Z')
    ensures ToLower(s) == s
  {
  }

  /** A name that lacks some character of `sub` does not contain `sub`. */
  lemma MissingChar(s: string, sub: string, k: nat)
    requires k < |sub| && sub[k] !in s
    ensures !Contains(s, sub)
  {
    forall i | 0 <= i && i + |sub| <= |s| ensures !OccursAt(s, sub, i) {
      assert s[i..i + |sub|][k] == s[i + k];
      assert s[i + k] in s;
    }
  }

  /** The assembly case of goget_test.go's ignoreFile table. */
  lemma IgnoreFileAsmExample(asm: string)
    requires asm == "asm_darwin_386.s"
    ensures !IgnoreFile(asm)
  {
    ExampleByExt(asm, "asm_darwin_386", ".s");
  }

  /** The C case of goget_test.go's ignoreFile table. */
  lemma IgnoreFileCExample(cgo: string)
    requires cgo == "gccgo_c.c"
    ensures !IgnoreFile(cgo)
  {
    ExampleByExt(cgo, "gccgo_c", ".c");
  }

  /** The Go source case of goget_test.go's ignoreFile table. */
  lemma IgnoreFileGoSourceExample(gosrc: string)
    requires gosrc == "errors.go"
    ensures !IgnoreFile(gosrc)
  {
    ExampleGo(gosrc, "errors");
  }

  /** The Go test case of goget_test.go's ignoreFile table. */
  lemma IgnoreFileGoTestExample(gotest: string)
    requires gotest == "errors_test.go"
    ensures IgnoreFile(gotest)
  {
    ExampleGo(gotest, "errors_test");
  }

  /** The Python case of goget_test.go's ignoreFile table. */
  lemma IgnoreFilePyExample(py: string)
    requires py == "errors.py"
    ensures IgnoreFile(py)
  {
    PyNotLegal(py);
    PyShape(py);
    IgnoredByDefault(py);
  }

  /** The LICENSE case of goget_test.go's ignoreFile table. */
  lemma IgnoreFileLicenseExample(lic: string)
    requires lic == "LICENSE"
    ensures !IgnoreFile(lic)
  {
    LicenseIsLegal(lic);
    LicenseShape(lic);
    KeptAsLegal(lic);
  }

  /** The LICENSE.txt case of goget_test.go's ignoreFile table. */
  lemma IgnoreFileLicenseTxtExample(lictxt: string)
    requires lictxt == "LICENSE.txt"
    ensures !IgnoreFile(lictxt)
  {
    LicenseIsLegal(lictxt);
    LicenseTxtShape(lictxt);
    KeptAsLegal(lictxt);
  }

  /** Assembly and C files are always copied. */
  lemma ExampleByExt(f: string, stem: string, ext: string)
    requires f == stem + ext
    requires ext == ".s" || ext == ".c"
    ensures !IgnoreFile(f)
  {
    ExtOf(stem, ext);
    IgnoreFileCases(f);
  }

  /** A Go file is left out exactly when its stem ends in _test. */
  lemma ExampleGo(f: string, stem: string)
    requires f == stem + ".go"
    ensures IgnoreFile(f) <==> HasSuffix(stem, "_test")
  {
    ExtOf(stem, ".go");
    IgnoreFileCases(f);
    TestSuffix(stem);
  }

  lemma TestSuffix(stem: string)
    ensures HasSuffix(stem + ".go", "_test.go") <==> HasSuffix(stem, "_test")
  {
    var f := stem + ".go";
    if |stem| >= 5 {
      var t := stem[|stem| - 5..];
      assert f[|f| - 8..] == t + ".go";
      if f[|f| - 8..] == "_test.go" {
        assert t == (t + ".go")[..5] == "_test.go"[..5] == "_test";
      }
    }
  }

  /** A file that is neither a version file, nor source, nor a legal file is left out. */
  lemma IgnoredByDefault(f: string)
    requires !IsVersionFile(f) && Ext(f) !in {".s", ".c", ".go"} && !IsLegalFile(f)
    ensures IgnoreFile(f)
  {
    IgnoreFileCases(f);
  }

  /** A legal file that is neither a version file nor source is copied. */
  lemma KeptAsLegal(f: string)
    requires !IsVersionFile(f) && Ext(f) !in {".s", ".c", ".go"} && IsLegalFile(f)
    ensures !IgnoreFile(f)
  {
    IgnoreFileCases(f);
  }

  /**
   * isLegalFile with both literal lists written out: the lower-cased base
   * name starts with one of the six licence prefixes or contains one of the
   * six legal substrings.
   */
  lemma LegalSpelled(path: string)
    ensures var l := ToLower(Base(path));
      IsLegalFile(path) <==>
        HasPrefix(l, "licence") || HasPrefix(l, "license") || HasPrefix(l, "copying")
        || HasPrefix(l, "unlicense") || HasPrefix(l, "copyright") || HasPrefix(l, "copyleft")
        || Contains(l, "legal") || Contains(l, "notice") || Contains(l, "disclaimer")
        || Contains(l, "patent") || Contains(l, "third-party") || Contains(l, "thirdparty")
  {
    var l := ToLower(Base(path));
    LicensePrefixesSpelled(l);
    LegalSubstringsSpelled(l);
  }

  /** A name whose first character begins none of the prefixes starts with none of them. */
  lemma NoPrefixByFirst(s: string, ps: seq<string>)
    requires |s| > 0 && forall i :: 0 <= i < |ps| ==> |ps[i]| > 0 && ps[i][0] != s[0]
    ensures !HasAnyPrefix(s, ps)
  {
    HasAnyPrefixExists(s, ps);
    forall i | 0 <= i < |ps| ensures !HasPrefix(s, ps[i]) {
      if |ps[i]| <= |s| { assert s[..|ps[i]|][0] == s[0]; }
    }
  }

  /** A name lacking, for each substring, its character at ks[i] contains none of them. */
  lemma NoSubstringByChar(s: string, subs: seq<string>, ks: seq<nat>)
    requires |ks| == |subs|
    requires forall i :: 0 <= i < |subs| ==> ks[i] < |subs[i]| && subs[i][ks[i]] !in s
    ensures !ContainsAny(s, subs)
  {
    ContainsAnyExists(s, subs);
    forall i | 0 <= i < |subs| ensures !Contains(s, subs[i]) {
      MissingChar(s, subs[i], ks[i]);
    }
  }

  /** A name without slashes is its own base name. */
  lemma BaseLower(f: string, lower: string)
    requires f != "" && '/' !in f && ToLower(f) == lower
    ensures ToLower(Base(f)) == lower
  {
  }

  lemma PyLower(f: string)
    requires f == "errors.py"
    ensures ToLower(Base(f)) == f
  {
    LowerOfLower(f);
    BaseLower(f, f);
  }

  lemma PyNoPrefix(f: string)
    requires f == "errors.py"
    ensures !HasAnyPrefix(f, LicenseFilePrefix)
  {
    NoPrefixByFirst(f, LicenseFilePrefix);
  }

  lemma PyNoSubstring(f: string)
    requires f == "errors.py"
    ensures !ContainsAny(f, LegalFileSubstring)
  {
    assert 'l' !in f && 'n' !in f && 'd' !in f && 'a' !in f && 'h' !in f;
    NoSubstringByChar(f, LegalFileSubstring, [0, 0, 0, 1, 1, 1]);
  }

  lemma PyNotLegal(f: string)
    requires f == "errors.py"
    ensures !IsLegalFile(f)
  {
    PyLower(f);
    PyNoPrefix(f);
    PyNoSubstring(f);
  }

  lemma PyShape(f: string)
    requires f == "errors.py"
    ensures !IsVersionFile(f) && Ext(f) !in {".s", ".c", ".go"}
  {
    assert f == "errors" + ".py";
    ExtOf("errors", ".py");
    LastCharFold(f, "godeps.json", 'y');
    LastCharFold(f, "glide.yaml", 'y');
  }

  /** A name whose lower-cased base starts with "license" is a legal file. */
  lemma LicensedByPrefix(f: string, lower: string)
    requires ToLower(Base(f)) == lower && HasPrefix(lower, "license")
    ensures IsLegalFile(f)
  {
    assert LicenseFilePrefix[1] == "license";
    HasAnyPrefixExists(lower, LicenseFilePrefix);
  }

  /** LICENSE and LICENSE.txt start with the license prefix once lower-cased. */
  lemma LicenseIsLegal(f: string)
    requires f == "LICENSE" || f == "LICENSE.txt"
    ensures IsLegalFile(f)
  {
    var lower := ToLower(f);
    assert lower[..7] == "license";
    assert '/' !in f;
    BaseLower(f, lower);
    LicensedByPrefix(f, lower);
  }

  lemma LicenseShape(f: string)
    requires f == "LICENSE"
    ensures !IsVersionFile(f) && Ext(f) !in {".s", ".c", ".go"}
  {
    assert '.' !in f;
    assert |ToLower(f)| == 7;
  }

  lemma LicenseTxtShape(f: string)
    requires f == "LICENSE.txt"
    ensures !IsVersionFile(f) && Ext(f) !in {".s", ".c", ".go"}
  {
    assert f == "LICENSE" + ".txt";
    ExtOf("LICENSE", ".txt");
    LastCharFold(f, "godeps.json", 't');
    assert |ToLower(f)| == 11;
  }
}
