/** Makefile paths written relative to shell variables, and what expanding them gives back. */
module Relativizer {
  import opened Text
  import opened VariableMap

  /** An emitted definition; `value` may mention a variable as `$(NAME)`. */
  datatype Definition = Definition(name: string, value: string)

  function Mention(name: string): string { "$(" + name + ")" }

  // ---- expansion

  /** Index of the latest of the first `n` definitions of `name`, or -1. */
  function IndexOf(defs: seq<Definition>, n: nat, name: string): (i: int)
    requires n <= |defs|
    ensures -1 <= i < n && (i >= 0 ==> defs[i].name == name)
  {
    if n == 0 then -1 else if defs[n - 1].name == name then n - 1 else IndexOf(defs, n - 1, name)
  }

  /** The text begins with a mention of a variable. */
  predicate Mentions(s: string)
    ensures Mentions(s) ==> 2 <= Find(s, ')') < |s|
  {
    |s| > 2 && s[0] == '$' && s[1] == '(' && Find(s, ')') < |s|
  }

  /** The name mentioned, and the text after it. */
  function Name(s: string): string requires Mentions(s) { s[2..Find(s, ')')] }

  function Rest(s: string): (r: string)
    requires Mentions(s)
    ensures |r| < |s|
  {
    s[Find(s, ')') + 1..]
  }

  /** Expansion of a text by the first `n` definitions; a definition sees those before it only. */
  function Expand(base: map<string, string>, defs: seq<Definition>, n: nat, s: string): string
    requires n <= |defs|
    decreases n, |s|, 0
  {
    if s == [] then []
    else if Mentions(s) then Value(base, defs, n, Name(s)) + Expand(base, defs, n, Rest(s))
    else [s[0]] + Expand(base, defs, n, s[1..])
  }

  /** Value of a variable; one that is not defined is empty. */
  function Value(base: map<string, string>, defs: seq<Definition>, n: nat, name: string): string
    requires n <= |defs|
    decreases n, 0, 0
  {
    var i := IndexOf(defs, n, name);
    if i >= 0 then Expand(base, defs, i, defs[i].value)
    else if name in base then base[name]
    else []
  }

  predicate Plain(s: string) { '$' !in s }

  predicate NameOk(name: string) { ')' !in name && '$' !in name }

  lemma {:induction false} PlainExpands(base: map<string, string>, defs: seq<Definition>, n: nat, s: string)
    requires n <= |defs| && Plain(s)
    ensures Expand(base, defs, n, s) == s
    decreases |s|
  {
    if s != [] {
      assert s[0] != '$';
      PlainExpands(base, defs, n, s[1..]);
    }
  }

  /** A mention expands to the value of its variable, whatever follows it. */
  lemma MentionThen(base: map<string, string>, defs: seq<Definition>, n: nat, name: string, rest: string)
    requires n <= |defs| && NameOk(name)
    ensures var s := Mention(name) + rest; Mentions(s) && Name(s) == name && Rest(s) == rest
    ensures Expand(base, defs, n, Mention(name) + rest) == Value(base, defs, n, name) + Expand(base, defs, n, rest)
  {
    var s := Mention(name) + rest;
    var close := |name| + 2;
    assert s[..close] == "$(" + name;
    FindIs(s, ')', close);
    assert s[0] == '$' && s[1] == '(' && Name(s) == name && Rest(s) == rest;
  }

  lemma MentionExpands(base: map<string, string>, defs: seq<Definition>, n: nat, name: string, rest: string)
    requires n <= |defs| && NameOk(name) && Plain(rest)
    ensures var s := Mention(name) + rest; Mentions(s) && Name(s) == name && Rest(s) == rest
    ensures Expand(base, defs, n, Mention(name) + rest) == Value(base, defs, n, name) + rest
  {
    MentionThen(base, defs, n, name, rest);
    PlainExpands(base, defs, n, rest);
  }

  /** Definitions after the first `n` do not matter. */
  lemma {:induction false} LaterDefinitionsHidden(base: map<string, string>, defs: seq<Definition>, d: Definition, n: nat, s: string)
    requires n <= |defs|
    ensures Expand(base, defs + [d], n, s) == Expand(base, defs, n, s)
    decreases n, |s|, 0
  {
    if s == [] {
    } else if Mentions(s) {
      LaterValuesHidden(base, defs, d, n, Name(s));
      LaterDefinitionsHidden(base, defs, d, n, Rest(s));
    } else {
      LaterDefinitionsHidden(base, defs, d, n, s[1..]);
    }
  }

  lemma {:induction false} LaterValuesHidden(base: map<string, string>, defs: seq<Definition>, d: Definition, n: nat, name: string)
    requires n <= |defs|
    ensures IndexOf(defs + [d], n, name) == IndexOf(defs, n, name)
    ensures Value(base, defs + [d], n, name) == Value(base, defs, n, name)
    decreases n, 0, 0
  {
    SameIndex(defs, d, n, name);
    var i := IndexOf(defs, n, name);
    if i >= 0 { LaterDefinitionsHidden(base, defs, d, i, defs[i].value); }
  }

  lemma {:induction false} SameIndex(defs: seq<Definition>, d: Definition, n: nat, name: string)
    requires n <= |defs|
    ensures IndexOf(defs + [d], n, name) == IndexOf(defs, n, name)
  {
    if n > 0 { SameIndex(defs, d, n - 1, name); }
  }

  /** A new definition has the value of its text, and leaves the other variables as they are. */
  lemma DefinitionAdds(base: map<string, string>, defs: seq<Definition>, d: Definition, name: string)
    ensures Value(base, defs + [d], |defs| + 1, name) ==
            if name == d.name then Expand(base, defs, |defs|, d.value) else Value(base, defs, |defs|, name)
  {
    LaterDefinitionsHidden(base, defs, d, |defs|, d.value);
    LaterValuesHidden(base, defs, d, |defs|, name);
  }

  // ---- relative paths

  function Relative(e: Entry, source: string): string
    requires e.key <= source
  {
    Mention(e.variable) + source[|e.key|..]
  }

  function RelativePath(entries: seq<Entry>, source: string): string
  {
    var i := FirstMatch(entries, source);
    if i < |entries| then Relative(entries[i], source) else source
  }

  // ---- declarations

  /** The text is plain, or mentions once, in front, a base variable or one of the first `n` defined. */
  predicate Grounded(base: map<string, string>, defs: seq<Definition>, n: nat, value: string)
    requires n <= |defs|
  {
    || Plain(value)
    || (Mentions(value) && NameOk(Name(value)) && Plain(Rest(value)) && Known(base, defs, n, Name(value)))
  }

  predicate Known(base: map<string, string>, defs: seq<Definition>, n: nat, name: string)
    requires n <= |defs|
  {
    name in base || IndexOf(defs, n, name) >= 0
  }

  /** Every definition mentions base variables and earlier ones only, and no variable is defined twice. */
  ghost predicate DefinitionsSound(base: map<string, string>, defs: seq<Definition>)
  {
    && (forall i :: 0 <= i < |defs| ==> Grounded(base, defs, i, defs[i].value) && NameOk(defs[i].name))
    && (forall i :: 0 <= i < |defs| ==> defs[i].name !in base)
    && (forall i, j :: 0 <= i < j < |defs| ==> defs[i].name != defs[j].name)
  }

  /** Every key is the value of its variable. */
  ghost predicate EntriesSound(base: map<string, string>, defs: seq<Definition>, entries: seq<Entry>)
  {
    forall e :: e in entries ==>
      && NameOk(e.variable) && Plain(e.key) && Known(base, defs, |defs|, e.variable)
      && Value(base, defs, |defs|, e.variable) == e.key
  }

  /** Expanding a relative path gives back the path. */
  lemma RelativePathExpands(base: map<string, string>, defs: seq<Definition>, entries: seq<Entry>, source: string)
    requires EntriesSound(base, defs, entries) && Plain(source)
    ensures Expand(base, defs, |defs|, RelativePath(entries, source)) == source
    ensures Grounded(base, defs, |defs|, RelativePath(entries, source))
  {
    var i := FirstMatch(entries, source);
    if i < |entries| {
      var e := entries[i];
      var rest := source[|e.key|..];
      assert e in entries && source == e.key + rest;
      MentionExpands(base, defs, |defs|, e.variable, rest);
    } else {
      PlainExpands(base, defs, |defs|, source);
    }
  }

  /** Declaring a new variable for a path keeps all of this; the variable stands for the path. */
  lemma DeclareKeepsSound(base: map<string, string>, defs: seq<Definition>, entries: seq<Entry>, name: string, path: string)
    requires DefinitionsSound(base, defs) && EntriesSound(base, defs, entries)
    requires NameOk(name) && name !in base && (forall d :: d in defs ==> d.name != name) && Plain(path)
    ensures var defs' := defs + [Definition(name, RelativePath(entries, path))];
      && DefinitionsSound(base, defs') && EntriesSound(base, defs', entries)
      && Value(base, defs', |defs'|, name) == path
  {
    var d := Definition(name, RelativePath(entries, path));
    RelativePathExpands(base, defs, entries, path);
    GroundedStays(base, defs, d);
    RedeclareKeepsSoundIff(base, defs, entries, name, path, entries);
    forall e | e in entries ensures e.variable != name { KnownName(base, defs, |defs|, e.variable); }
  }

  lemma {:induction false} KnownName(base: map<string, string>, defs: seq<Definition>, n: nat, name: string)
    requires n <= |defs| && Known(base, defs, n, name)
    ensures name in base || exists d :: d in defs && d.name == name
  {
    var i := IndexOf(defs, n, name);
    if i >= 0 { assert defs[i] in defs; }
  }

  /**
   Declaring any variable, new or not, for a path: the keys of the map, old ones and perhaps that path, are the values of
   their variables if and only if no other key has this variable.
   */
  lemma RedeclareKeepsSoundIff(base: map<string, string>, defs: seq<Definition>, entries: seq<Entry>, name: string,
                               path: string, after: seq<Entry>)
    requires EntriesSound(base, defs, entries) && NameOk(name) && Plain(path)
    requires forall e :: e in after ==> e in entries || e == Entry(path, name)
    ensures var defs' := defs + [Definition(name, RelativePath(entries, path))];
      && Value(base, defs', |defs'|, name) == path
      && (EntriesSound(base, defs', after) <==> forall e :: e in after && e.variable == name ==> e.key == path)
  {
    var d := Definition(name, RelativePath(entries, path));
    var defs' := defs + [d];
    RelativePathExpands(base, defs, entries, path);
    DefinitionAdds(base, defs, d, name);
    forall e | e in after
      ensures NameOk(e.variable) && Plain(e.key) && Known(base, defs', |defs'|, e.variable)
      ensures Value(base, defs', |defs'|, e.variable) == if e.variable == name then path else e.key
    {
      SameIndex(defs, d, |defs|, e.variable);
      DefinitionAdds(base, defs, d, e.variable);
    }
  }

  lemma GroundedStays(base: map<string, string>, defs: seq<Definition>, d: Definition)
    requires DefinitionsSound(base, defs)
    requires NameOk(d.name) && d.name !in base && (forall e :: e in defs ==> e.name != d.name)
    requires Grounded(base, defs, |defs|, d.value)
    ensures DefinitionsSound(base, defs + [d])
  {
    var defs' := defs + [d];
    forall i | 0 <= i <= |defs| ensures Grounded(base, defs', i, defs'[i].value) {
      if Mentions(defs'[i].value) { SameIndex(defs, d, i, Name(defs'[i].value)); }
    }
  }

  lemma PutKeepsEntries(root: string, t: Tree, x: string, variable: string)
    requires Put(root, t, x, variable).Inserted?
    ensures forall e :: e in InOrder(Put(root, t, x, variable).tree) ==> e in InOrder(t) || e == Entry(x, variable)
  {
    PutPlaces(root, t, x, variable);
  }

  // ---- the base variables

  function Joined(a: string, b: string): string { Mention(a) + ("/" + Mention(b)) }

  lemma JoinedExpands(base: map<string, string>, defs: seq<Definition>, a: string, b: string)
    requires NameOk(a) && NameOk(b)
    ensures Expand(base, defs, |defs|, Joined(a, b)) == Value(base, defs, |defs|, a) + "/" + Value(base, defs, |defs|, b)
  {
    var n := |defs|;
    MentionThen(base, defs, n, a, "/" + Mention(b));
    SlashThen(base, defs, n, b);
    Associates(Value(base, defs, n, a), "/", Value(base, defs, n, b));
  }

  lemma Associates(a: string, b: string, c: string)
    ensures a + (b + c) == a + b + c
  {
  }

  lemma SlashThen(base: map<string, string>, defs: seq<Definition>, n: nat, b: string)
    requires n <= |defs| && NameOk(b)
    ensures Expand(base, defs, n, "/" + Mention(b)) == "/" + Value(base, defs, n, b)
  {
    var rest := "/" + Mention(b);
    assert rest[1..] == Mention(b) + "" && !Mentions(rest);
    MentionExpands(base, defs, n, b, "");
    assert Value(base, defs, n, b) + "" == Value(base, defs, n, b);
  }

  /** A relative path in a variable of its own, and a directory that joins it to another one. */
  function WithDirectory(defs: seq<Definition>, parent: string, part: string, path: string, name: string): seq<Definition>
  {
    defs + [Definition(part, path)] + [Definition(name, Joined(parent, part))]
  }

  lemma DirectoryExpands(base: map<string, string>, defs: seq<Definition>, parent: string, part: string, path: string,
                         name: string, other: string)
    requires NameOk(parent) && NameOk(part) && Plain(path) && part !in {parent, name} && other !in {part, name}
    ensures var defs' := WithDirectory(defs, parent, part, path, name);
      && Value(base, defs', |defs'|, name) == Value(base, defs, |defs|, parent) + "/" + path
      && Value(base, defs', |defs'|, part) == path
      && Value(base, defs', |defs'|, other) == Value(base, defs, |defs|, other)
  {
    var d, e := Definition(part, path), Definition(name, Joined(parent, part));
    PlainExpands(base, defs, |defs|, path);
    JoinedExpands(base, defs + [d], parent, part);
    DefinitionAdds(base, defs, d, part);
    DefinitionAdds(base, defs, d, parent);
    DefinitionAdds(base, defs, d, other);
    DefinitionAdds(base, defs + [d], e, name);
    DefinitionAdds(base, defs + [d], e, part);
    DefinitionAdds(base, defs + [d], e, other);
  }

  /** The definitions of the base variables, relative to the directory of the makefile. */
  function BaseDefinitions(project: string, build: string, tests: string): seq<Definition>
  {
    var one := WithDirectory([], "MAKEFILE_DIR", "PROJECT_DIR_RELATIVE_TO_MAKEFILE", project, "PROJECT_DIR");
    var two := WithDirectory(one, "PROJECT_DIR", "BUILD_RELATIVE", build, "BUILD_DIR");
    WithDirectory(two, "MAKEFILE_DIR", "TESTS_DIR_RELATIVE", tests, "TESTS_DIR")
  }

  /** The base variables, defined through each other, stand for paths joined to the directory of the makefile. */
  lemma BaseVariablesExpand(directory: string, project: string, build: string, tests: string)
    requires Plain(project) && Plain(build) && Plain(tests)
    ensures var base, defs := map["MAKEFILE_DIR" := directory], BaseDefinitions(project, build, tests);
      && Value(base, defs, |defs|, "PROJECT_DIR") == directory + "/" + project
      && Value(base, defs, |defs|, "BUILD_RELATIVE") == build
      && Value(base, defs, |defs|, "BUILD_DIR") == directory + "/" + project + "/" + build
      && Value(base, defs, |defs|, "TESTS_DIR") == directory + "/" + tests
  {
    BaseNamesOk();
    PartNamesOk();
    DirectoriesExpand(map["MAKEFILE_DIR" := directory], "MAKEFILE_DIR", "PROJECT_DIR_RELATIVE_TO_MAKEFILE", project,
                      "PROJECT_DIR", "BUILD_RELATIVE", build, "BUILD_DIR", "TESTS_DIR_RELATIVE", tests, "TESTS_DIR");
  }

  lemma BaseNamesOk()
    ensures NameOk("MAKEFILE_DIR") && NameOk("PROJECT_DIR") && NameOk("BUILD_DIR") && NameOk("TESTS_DIR")
    ensures NameOk("BUILD_RELATIVE")
  {
  }

  lemma PartNamesOk()
    ensures NameOk("PROJECT_DIR_RELATIVE_TO_MAKEFILE") && NameOk("TESTS_DIR_RELATIVE")
  {
  }

  lemma DirectoriesExpand(base: map<string, string>, m: string, pr: string, project: string, p: string,
                          br: string, build: string, b: string, tr: string, tests: string, t: string)
    requires NameOk(m) && NameOk(pr) && NameOk(p) && NameOk(br) && NameOk(tr)
    requires Plain(project) && Plain(build) && Plain(tests)
    requires m !in {pr, p, br, b, tr, t} && pr != p && p !in {br, b, tr, t} && br != b && br !in {tr, t} && b !in {tr, t} && tr != t
    ensures var one := WithDirectory([], m, pr, project, p);
      var two := WithDirectory(one, p, br, build, b);
      var defs := WithDirectory(two, m, tr, tests, t);
      && Value(base, defs, |defs|, p) == Value(base, [], 0, m) + "/" + project
      && Value(base, defs, |defs|, br) == build
      && Value(base, defs, |defs|, b) == Value(base, [], 0, m) + "/" + project + "/" + build
      && Value(base, defs, |defs|, t) == Value(base, [], 0, m) + "/" + tests
  {
    var one := WithDirectory([], m, pr, project, p);
    var two := WithDirectory(one, p, br, build, b);
    DirectoryExpands(base, [], m, pr, project, p, m);
    DirectoryExpands(base, one, p, br, build, b, m);
    DirectoryExpands(base, one, p, br, build, b, p);
    DirectoryExpands(base, two, m, tr, tests, t, p);
    DirectoryExpands(base, two, m, tr, tests, t, b);
    DirectoryExpands(base, two, m, tr, tests, t, br);
  }
}
