/** Names of test and stub files made from source names, and back. */
module Naming {

  // ---- searching

  predicate OccursAt(s: string, pat: string, i: int)
  {
    0 <= i && i + |pat| <= |s| && s[i..i + |pat|] == pat
  }

  /** The last position at or before `n` where `pat` occurs, or -1. */
  function RFindFrom(s: string, pat: string, n: int): (p: int)
    ensures p == -1 || (0 <= p <= n && OccursAt(s, pat, p))
    ensures forall i :: p < i <= n ==> !OccursAt(s, pat, i)
    decreases n
  {
    if n < 0 then -1 else if OccursAt(s, pat, n) then n else RFindFrom(s, pat, n - 1)
  }

  /** `std::string::rfind`, -1 for `npos`. */
  function RFind(s: string, pat: string): (p: int)
    ensures p == -1 || OccursAt(s, pat, p)
    ensures forall i :: p < i ==> !OccursAt(s, pat, i)
  {
    RFindFrom(s, pat, |s|)
  }

  predicate Contains(s: string, pat: string) { RFind(s, pat) >= 0 }

  // ---- file names

  /** Position of the dot that starts the extension: the last one, but not in front, and not in `..`; or -1. */
  function ExtensionDot(f: string): (p: int)
    ensures p == -1 || (0 < p < |f| && f[p] == '.')
  {
    var p := RFind(f, ".");
    if p <= 0 || f == ".." then -1 else p
  }

  function Stem(f: string): string { if ExtensionDot(f) < 0 then f else f[..ExtensionDot(f)] }

  /** With its dot; empty if there is none. */
  function Extension(f: string): string { if ExtensionDot(f) < 0 then "" else f[ExtensionDot(f)..] }

  lemma StemAndExtension(f: string)
    ensures Stem(f) + Extension(f) == f
  {
  }

  lemma DotAt(s: string, i: int)
    ensures OccursAt(s, ".", i) <==> 0 <= i < |s| && s[i] == '.'
  {
    if 0 <= i < |s| { assert s[i..i + 1] == [s[i]]; }
  }

  lemma LastDot(s: string, p: int)
    requires 0 <= p < |s| && s[p] == '.' && forall i :: p < i < |s| ==> s[i] != '.'
    ensures RFind(s, ".") == p
  {
    DotAt(s, p);
    DotAt(s, RFind(s, "."));
  }

  lemma NoDot(s: string)
    requires forall i :: 0 < i < |s| ==> s[i] != '.'
    ensures RFind(s, ".") <= 0
  {
    DotAt(s, RFind(s, "."));
  }

  /** A stem, a dot, and a part without dots make a name with that stem and extension. */
  lemma ExtensionIs(stem: string, rest: string)
    requires stem != "" && '.' !in rest && stem + "." + rest != ".."
    ensures Stem(stem + "." + rest) == stem && Extension(stem + "." + rest) == "." + rest
  {
    var f := stem + "." + rest;
    assert forall i :: |stem| < i < |f| ==> f[i] == rest[i - |stem| - 1];
    LastDot(f, |stem|);
  }

  lemma ExtensionHasOneDot(f: string)
    requires Extension(f) != ""
    ensures '.' !in Extension(f)[1..]
  {
    var e := Extension(f)[1..];
    var p := ExtensionDot(f);
    forall i | 0 <= i < |e| ensures e[i] != '.' {
      DotAt(f, p + 1 + i);
    }
  }

  function AddSuffix(f: string, suffix: string): string { Stem(f) + suffix + Extension(f) }

  /** Removes the last occurrence of the suffix in the stem, wherever it is. */
  function RemoveSuffix(f: string, suffix: string): string
  {
    var stem := Stem(f);
    var p := RFind(stem, suffix);
    (if p < 0 then stem else stem[..p] + stem[p + |suffix|..]) + Extension(f)
  }

  const DOT_SEP := "_dot_"
  const TEST_SUFFIX := "_test"
  const STUB_SUFFIX := "_stub"

  function AddOrigExtensionAsSuffixAndAddNew(f: string, newExt: string): string
  {
    if Extension(f) != "" then Stem(f) + DOT_SEP + Extension(f)[1..] + newExt else f + newExt
  }

  function RestoreExtensionFromSuffix(f: string, defaultExt: string): string
  {
    var stem := Stem(f);
    var p := RFind(stem, DOT_SEP);
    if p < 0 then stem + defaultExt else stem[..p] + "." + stem[p + |DOT_SEP|..]
  }

  function SourceToTestName(f: string): string { AddSuffix(AddOrigExtensionAsSuffixAndAddNew(f, ".cpp"), TEST_SUFFIX) }

  function TestToSourceName(f: string): string { RestoreExtensionFromSuffix(RemoveSuffix(f, TEST_SUFFIX), ".c") }

  function SourceToStubName(f: string): string { AddSuffix(f, STUB_SUFFIX) }

  // ---- suffixes

  lemma LastOccurrence(s: string, suffix: string)
    requires suffix != ""
    ensures RFind(s + suffix, suffix) == |s|
  {
    assert OccursAt(s + suffix, suffix, |s|);
  }

  lemma SuffixInStem(stem: string, suffix: string, e: string)
    requires stem != "" && suffix != "" && '.' !in e && stem + "." + e != ".."
    ensures AddSuffix(stem + "." + e, suffix) == stem + suffix + "." + e
    ensures RemoveSuffix(stem + suffix + "." + e, suffix) == stem + "." + e
  {
    ExtensionIs(stem, e);
    ExtensionIs(stem + suffix, e);
    LastOccurrence(stem, suffix);
    var g := stem + suffix;
    assert g[..|stem|] + g[|stem| + |suffix|..] == stem;
  }

  /** Adding a suffix to the stem and removing it is the identity, even if the stem contains it: except for `..`. */
  lemma SuffixRoundTrip(f: string, suffix: string)
    requires f != "" && suffix != "" && '.' !in suffix
    ensures RemoveSuffix(AddSuffix(f, suffix), suffix) == f <==> f != ".."
  {
    StemAndExtension(f);
    if Extension(f) != "" {
      ExtensionHasOneDot(f);
      assert f == Stem(f) + "." + Extension(f)[1..];
      SuffixInStem(Stem(f), suffix, Extension(f)[1..]);
    } else if f == ".." {
      DotsKeepSuffix(suffix);
    } else {
      NoExtension(f, suffix);
      LastOccurrence(f, suffix);
      assert f + suffix + "" == f + suffix && (f + suffix)[..|f|] + (f + suffix)[|f| + |suffix|..] + "" == f;
    }
  }

  lemma Absent(s: string, pat: string)
    requires pat != "" && pat[0] !in s
    ensures RFind(s, pat) == -1
  {
    forall i | 0 <= i && i + |pat| <= |s| ensures !OccursAt(s, pat, i) { assert s[i..i + |pat|][0] == s[i]; }
  }

  lemma DotsKeepSuffix(suffix: string)
    requires suffix != "" && '.' !in suffix
    ensures var f := ".."; RemoveSuffix(AddSuffix(f, suffix), suffix) == f + suffix
  {
    var f, g := "..", ".." + suffix;
    assert AddSuffix(f, suffix) == g;
    assert g == "." + "." + suffix;
    ExtensionIs(".", suffix);
    Absent(".", suffix);
  }

  /** A name without extension has none with the suffix either, unless it is `..`. */
  lemma NoExtension(f: string, suffix: string)
    requires Extension(f) == "" && f != ".." && '.' !in suffix && f != "" && suffix != ""
    ensures Stem(f + suffix) == f + suffix && Extension(f + suffix) == ""
  {
    var g := f + suffix;
    assert RFind(f, ".") <= 0;
    forall i | 0 < i < |g| ensures g[i] != '.' {
      DotAt(f, i);
      if i >= |f| { assert g[i] == suffix[i - |f|]; }
    }
    NoDot(g);
  }

  // ---- test names

  /** The extension, without its dot, would be misread as holding the separator. */
  predicate Misread(e: string) { "dot_" <= e || Contains(e, DOT_SEP) }

  lemma SeparatorAfter(stem: string, e: string, i: int)
    requires i > |stem|
    ensures OccursAt(stem + DOT_SEP + e, DOT_SEP, i) <==>
      (i == |stem| + 4 && "dot_" <= e) || OccursAt(e, DOT_SEP, i - |stem| - 5)
  {
    var x := stem + DOT_SEP + e;
    var k := i - |stem|;
    if OccursAt(x, DOT_SEP, i) {
      assert x[i] == x[i..i + 5][0] == '_';
      assert k < 5 ==> x[i] == DOT_SEP[k];
      if k == 4 {
        assert x[i..i + 5][1..] == x[i + 1..i + 5] == e[..4];
      } else {
        assert x[i..i + 5] == e[k - 5..k];
      }
    }
    if k == 4 && "dot_" <= e { assert x[i..i + 5] == "_" + e[..4]; }
    if OccursAt(e, DOT_SEP, k - 5) { assert x[i..i + 5] == e[k - 5..k]; }
  }

  lemma SeparatorIsLast(stem: string, e: string)
    ensures RFind(stem + DOT_SEP + e, DOT_SEP) >= |stem|
    ensures RFind(stem + DOT_SEP + e, DOT_SEP) == |stem| <==> !Misread(e)
  {
    var x := stem + DOT_SEP + e;
    assert OccursAt(x, DOT_SEP, |stem|);
    forall i | i > |stem| ensures OccursAt(x, DOT_SEP, i) <==>
      (i == |stem| + 4 && "dot_" <= e) || OccursAt(e, DOT_SEP, i - |stem| - 5)
    {
      SeparatorAfter(stem, e, i);
    }
    if "dot_" <= e { assert OccursAt(x, DOT_SEP, |stem| + 4); }
    if Contains(e, DOT_SEP) { assert OccursAt(x, DOT_SEP, RFind(e, DOT_SEP) + |stem| + 5); }
  }

  /** The name with its extension written into the stem. */
  function Encoded(f: string): string
  {
    if Extension(f) != "" then Stem(f) + DOT_SEP + Extension(f)[1..] else f
  }

  /** The test name is the encoded name with the test suffix; taking it apart finds the encoded name again. */
  lemma TestNameShape(f: string)
    requires f != ""
    ensures SourceToTestName(f) == Encoded(f) + TEST_SUFFIX + ".cpp"
    ensures TestToSourceName(SourceToTestName(f)) == RestoreExtensionFromSuffix(Encoded(f) + ".cpp", ".c")
    ensures Stem(Encoded(f) + ".cpp") == Encoded(f)
  {
    var x, cpp := Encoded(f), "cpp";
    assert ".cpp" == "." + cpp;
    assert x + ".cpp" == x + "." + cpp && x + TEST_SUFFIX + ".cpp" == x + TEST_SUFFIX + "." + cpp;
    ExtensionIs(x, cpp);
    SuffixInStem(x, TEST_SUFFIX, cpp);
  }

  /** A source name is recovered from its test name exactly when it has an extension that cannot be misread. */
  lemma TestNameRoundTrip(f: string)
    requires f != ""
    ensures TestToSourceName(SourceToTestName(f)) == f <==> Extension(f) != "" && !Misread(Extension(f)[1..])
  {
    TestNameShape(f);
    StemAndExtension(f);
    if Extension(f) != "" {
      assert f == Stem(f) + "." + Extension(f)[1..];
      RestoreExact(Stem(f), Extension(f)[1..]);
    } else {
      RestoreAddsOrDrops(f, ".cpp");
    }
  }

  lemma RestoreAddsOrDrops(x: string, ext: string)
    requires Stem(x + ext) == x
    ensures RestoreExtensionFromSuffix(x + ext, ".c") != x
  {
    assert |RestoreExtensionFromSuffix(x + ext, ".c")| != |x|;
  }

  /** Putting the extension back gives the name exactly when the separator found is the one written. */
  lemma RestoreExact(stem: string, e: string)
    requires Stem(stem + DOT_SEP + e + ".cpp") == stem + DOT_SEP + e
    ensures RestoreExtensionFromSuffix(stem + DOT_SEP + e + ".cpp", ".c") == stem + "." + e <==> !Misread(e)
  {
    var x := stem + DOT_SEP + e;
    SeparatorIsLast(stem, e);
    var p := RFind(x, DOT_SEP);
    var r := x[..p] + "." + x[p + |DOT_SEP|..];
    if p == |stem| {
      assert x[..p] == stem && x[p + |DOT_SEP|..] == e;
    } else {
      assert r[|stem|] == DOT_SEP[0] && (stem + "." + e)[|stem|] == '.';
    }
  }

  predicate IsSourceName(f: string) { Extension(f) in [".c", ".cc", ".cp", ".cpp", ".c++", ".cxx"] }

  /** Every C or C++ source name is recovered from its test name and its stub name, whatever its stem. */
  lemma SourceNameRoundTrip(f: string)
    requires IsSourceName(f)
    ensures TestToSourceName(SourceToTestName(f)) == f && RemoveSuffix(SourceToStubName(f), STUB_SUFFIX) == f
  {
    SourceNameIsOrdinary(f);
    TestNameRoundTrip(f);
    SuffixRoundTrip(f, STUB_SUFFIX);
  }

  lemma SourceNameIsOrdinary(f: string)
    requires IsSourceName(f)
    ensures Extension(f) != "" && !Misread(Extension(f)[1..]) && f != "" && f != ".."
  {
    ShortExtensions(Extension(f));
  }

  /** So no two sources share a test name or a stub name. */
  lemma SourceNamesAreInjective(f: string, g: string)
    requires IsSourceName(f) && IsSourceName(g)
    ensures SourceToTestName(f) == SourceToTestName(g) ==> f == g
    ensures SourceToStubName(f) == SourceToStubName(g) ==> f == g
  {
    SourceNameRoundTrip(f);
    SourceNameRoundTrip(g);
  }

  lemma ShortExtensions(e: string)
    requires e in [".c", ".cc", ".cp", ".cpp", ".c++", ".cxx"]
    ensures 2 <= |e| <= 4 && !Misread(e[1..])
  {
    assert !OccursAt(e[1..], DOT_SEP, RFind(e[1..], DOT_SEP)) by { assert |DOT_SEP| == 5; }
  }

  /** A name without extension can take the test name of a source: `a_dot_c` that of `a.c`. */
  lemma TestNamesCollide(f: string)
    requires IsSourceName(f) && '.' !in Stem(f)
    ensures var other := Encoded(f); other != f && SourceToTestName(other) == SourceToTestName(f)
  {
    var other := Encoded(f);
    ShortExtensions(Extension(f));
    ExtensionHasOneDot(f);
    assert '.' !in DOT_SEP && '.' !in other;
    assert '.' in f by { assert f[ExtensionDot(f)] == '.'; }
    NoDot(other);
    TestNameShape(f);
    TestNameShape(other);
  }

  /** The test of `a.c` is `a_dot_c_test.cpp`, and its stub `a_stub.c`. */
  lemma NamesAre(stem: string, extension: string)
    requires stem != "" && '.' !in extension && extension != ""
    ensures SourceToTestName(stem + "." + extension) == stem + "_dot_" + extension + "_test" + ".cpp"
    ensures SourceToStubName(stem + "." + extension) == stem + "_stub" + "." + extension
  {
    ExtensionIs(stem, extension);
    var encoded := stem + "_dot_" + extension;
    assert encoded + ".cpp" == encoded + "." + "cpp";
    ExtensionIs(encoded, "cpp");
    assert (stem + "." + extension)[|stem|..] == "." + extension;
    assert encoded + "_test" + "." + "cpp" == encoded + "_test" + ".cpp";
    assert stem + "_stub" + ("." + extension) == stem + "_stub" + "." + extension;
  }

  /** The suffix is removed where it stands last in the stem, be it in front. */
  lemma RemoveSuffixIs(before: string, suffix: string, after: string, extension: string)
    requires suffix != "" && '.' !in extension && before + suffix + after + "." + extension != ".."
    requires forall i :: |before| < i ==> !OccursAt(before + suffix + after, suffix, i)
    ensures RemoveSuffix(before + suffix + after + "." + extension, suffix) == before + after + ("." + extension)
  {
    var stem := before + suffix + after;
    ExtensionIs(stem, extension);
    LastAt(before, suffix, after);
  }

  lemma LastAt(before: string, pat: string, after: string)
    requires forall i :: |before| < i ==> !OccursAt(before + pat + after, pat, i)
    ensures RFind(before + pat + after, pat) == |before|
    ensures var s := before + pat + after; s[..|before|] == before && s[|before| + |pat|..] == after
  {
    assert OccursAt(before + pat + after, pat, |before|);
  }

  /** An extension is restored where the separator stands last in the stem, be it in front; without one, the default is added. */
  lemma RestoreIs(before: string, e: string, extension: string, defaultExt: string)
    requires '.' !in extension && before + DOT_SEP + e + "." + extension != ".."
    requires forall i :: |before| < i ==> !OccursAt(before + DOT_SEP + e, DOT_SEP, i)
    ensures RestoreExtensionFromSuffix(before + DOT_SEP + e + "." + extension, defaultExt) == before + "." + e
  {
    ExtensionIs(before + DOT_SEP + e, extension);
    LastAt(before, DOT_SEP, e);
  }

  lemma RestoreDefault(stem: string, extension: string, defaultExt: string)
    requires stem != "" && '.' !in extension && stem + "." + extension != ".."
    requires forall i :: !OccursAt(stem, DOT_SEP, i)
    ensures RestoreExtensionFromSuffix(stem + "." + extension, defaultExt) == stem + defaultExt
  {
    ExtensionIs(stem, extension);
  }

  // ---- paths, as lists of names

  /** A normal absolute path: no `.` and no `..`. */
  predicate Normal(p: seq<string>) { "." !in p && ".." !in p && "" !in p }

  function CommonPrefix(p: seq<string>, q: seq<string>): (n: nat)
    ensures n <= |p| && n <= |q| && p[..n] == q[..n]
  {
    if p == [] || q == [] || p[0] != q[0] then 0
    else
      var n := CommonPrefix(p[1..], q[1..]);
      assert p[..n + 1] == [p[0]] + p[1..][..n] && q[..n + 1] == [q[0]] + q[1..][..n];
      n + 1
  }

  /** `fs::relative(p, base)`. */
  function Relative(p: seq<string>, base: seq<string>): seq<string>
  {
    var n := CommonPrefix(p, base);
    var r := seq(|base| - n, _ => "..") + p[n..];
    if r == [] then ["."] else r
  }

  /** `base / rel`, normalised. */
  function Join(base: seq<string>, rel: seq<string>): seq<string>
    decreases |rel|
  {
    if rel == [] then base
    else if rel[0] == "." then Join(base, rel[1..])
    else if rel[0] == ".." then Join(if base == [] then [] else base[..|base| - 1], rel[1..])
    else Join(base + [rel[0]], rel[1..])
  }

  lemma {:induction false} JoinNames(base: seq<string>, rel: seq<string>)
    requires Normal(rel)
    ensures Join(base, rel) == base + rel
    decreases |rel|
  {
    if rel != [] {
      JoinNames(base + [rel[0]], rel[1..]);
      assert base + [rel[0]] + rel[1..] == base + rel;
    }
  }

  lemma {:induction false} JoinUps(base: seq<string>, k: nat, rel: seq<string>)
    requires k <= |base|
    ensures Join(base, seq(k, _ => "..") + rel) == Join(base[..|base| - k], rel)
    decreases k
  {
    var ups := seq(k, _ => "..");
    if k > 0 {
      assert (ups + rel)[1..] == seq(k - 1, _ => "..") + rel && (ups + rel)[0] == "..";
      JoinUps(base[..|base| - 1], k - 1, rel);
      assert base[..|base| - 1][..|base| - k] == base[..|base| - k];
    } else {
      assert ups + rel == rel && base[..|base|] == base;
    }
  }

  /** Joining undoes taking the relative path, for any two normal absolute paths. */
  lemma RelativeRoundTrip(p: seq<string>, base: seq<string>)
    requires Normal(p)
    ensures Join(base, Relative(p, base)) == p
  {
    var n := CommonPrefix(p, base);
    JoinUps(base, |base| - n, p[n..]);
    JoinNames(base[..n], p[n..]);
    assert p == p[..n] + p[n..];
    if seq(|base| - n, _ => "..") + p[n..] == [] { assert Join(base, ["."]) == Join(base, []); }
  }

  lemma {:induction false} CommonPrefixOfBase(base: seq<string>, rest: seq<string>)
    ensures CommonPrefix(base + rest, base) == |base|
  {
    if base != [] {
      assert (base + rest)[1..] == base[1..] + rest;
      CommonPrefixOfBase(base[1..], rest);
    }
  }

  /** Below the base, the relative path is the rest, or `.`. */
  lemma RelativeBelow(base: seq<string>, rest: seq<string>)
    ensures Relative(base + rest, base) == if rest == [] then ["."] else rest
  {
    CommonPrefixOfBase(base, rest);
    assert (base + rest)[|base|..] == rest;
  }

  function SourceToTestPath(project: seq<string>, tests: seq<string>, source: seq<string>): seq<string>
    requires source != []
  {
    Join(Join(tests, Relative(source[..|source| - 1], project)), [SourceToTestName(source[|source| - 1])])
  }

  function TestToSourcePath(project: seq<string>, tests: seq<string>, test: seq<string>): seq<string>
    requires test != []
  {
    Join(Join(project, Relative(test[..|test| - 1], tests)), [TestToSourceName(test[|test| - 1])])
  }

  function SourceToStubPath(project: seq<string>, stubs: seq<string>, source: seq<string>): seq<string>
    requires source != []
  {
    Join(Join(stubs, Relative(source[..|source| - 1], project)), [SourceToStubName(source[|source| - 1])])
  }

  /** The suffix is removed from the last name of the path. */
  function StubToSourcePath(project: seq<string>, stubs: seq<string>, stub: seq<string>): seq<string>
  {
    var p := Join(project, Relative(stub, stubs));
    if p == [] then [] else p[..|p| - 1] + [RemoveSuffix(p[|p| - 1], STUB_SUFFIX)]
  }

  lemma JoinBelow(base: seq<string>, rest: seq<string>)
    requires Normal(rest)
    ensures Join(base, if rest == [] then ["."] else rest) == base + rest
  {
    JoinNames(base, rest);
    if rest == [] { assert Join(base, ["."]) == Join(base, []); }
  }

  /** A source below the project root is recovered from its test path. */
  lemma TestPathRoundTrip(project: seq<string>, tests: seq<string>, dirs: seq<string>, f: string)
    requires Normal(dirs) && IsSourceName(f)
    ensures var source := project + dirs + [f]; var test := SourceToTestPath(project, tests, source);
      && test == tests + dirs + [SourceToTestName(f)]
      && TestToSourcePath(project, tests, test) == source
  {
    var test := SourceToTestName(f);
    assert (project + dirs + [f])[..|project + dirs|] == project + dirs;
    assert (tests + dirs + [test])[..|tests + dirs|] == tests + dirs;
    RelativeBelow(project, dirs);
    RelativeBelow(tests, dirs);
    JoinBelow(tests, dirs);
    JoinBelow(project, dirs);
    NamesAreNormal(f);
    SourceNameRoundTrip(f);
    JoinNames(tests + dirs, [test]);
    JoinNames(project + dirs, [f]);
  }

  /** And from its stub path. */
  lemma StubPathRoundTrip(project: seq<string>, stubs: seq<string>, dirs: seq<string>, f: string)
    requires Normal(dirs) && IsSourceName(f)
    ensures var source := project + dirs + [f]; var stub := SourceToStubPath(project, stubs, source);
      && stub == stubs + dirs + [SourceToStubName(f)]
      && StubToSourcePath(project, stubs, stub) == source
  {
    var stub := SourceToStubName(f);
    assert (project + dirs + [f])[..|project + dirs|] == project + dirs;
    RelativeBelow(project, dirs);
    JoinBelow(stubs, dirs);
    NamesAreNormal(f);
    SourceNameRoundTrip(f);
    JoinNames(stubs + dirs, [stub]);
    StubPathBack(project, stubs, dirs, stub);
  }

  lemma StubPathBack(project: seq<string>, stubs: seq<string>, dirs: seq<string>, stub: string)
    requires Normal(dirs + [stub])
    ensures StubToSourcePath(project, stubs, stubs + dirs + [stub]) == project + dirs + [RemoveSuffix(stub, STUB_SUFFIX)]
  {
    assert stubs + dirs + [stub] == stubs + (dirs + [stub]);
    RelativeBelow(stubs, dirs + [stub]);
    JoinNames(project, dirs + [stub]);
    assert project + (dirs + [stub]) == project + dirs + [stub];
    assert (project + dirs + [stub])[..|project + dirs|] == project + dirs;
  }

  /** None of the names involved is empty, `.` or `..`. */
  lemma NamesAreNormal(f: string)
    requires IsSourceName(f)
    ensures Normal([f]) && Normal([SourceToTestName(f)]) && Normal([SourceToStubName(f)])
  {
    ShortExtensions(Extension(f));
    TestNameShape(f);
    StemAndExtension(f);
    assert |f| > 2 && |SourceToTestName(f)| > 2 && |SourceToStubName(f)| > 2;
  }
}
