/** The names of the objects of sources compiled straight into a program. */
module TemporaryNames {
  import Naming

  function FileName(p: seq<string>): string
    requires p != []
  {
    p[|p| - 1]
  }

  function Parent(p: seq<string>): seq<string>
    requires p != []
  {
    p[..|p| - 1]
  }

  function ReplaceFileName(p: seq<string>, f: string): seq<string>
    requires p != []
  {
    Parent(p) + [f]
  }

  function ReplaceExtension(p: seq<string>, ext: string): seq<string>
    requires p != []
  {
    Parent(p) + [Naming.Stem(FileName(p)) + ext]
  }

  /** The object that a source compiled straight into `output` is given. */
  function TemporaryObject(output: seq<string>, source: seq<string>): seq<string>
    requires output != [] && source != []
  {
    ReplaceExtension(ReplaceFileName(output, FileName(source)), ".o")
  }

  /** The object lies beside the output, and is named after the source. */
  lemma TemporaryObjectIs(directory: seq<string>, program: string, sources: seq<string>, stem: string, extension: string)
    requires stem != "" && '.' !in extension && stem + "." + extension != ".."
    ensures TemporaryObject(directory + [program], sources + [stem + "." + extension]) == directory + [stem + ".o"]
  {
    Naming.ExtensionIs(stem, extension);
    var out, source := directory + [program], sources + [stem + "." + extension];
    assert FileName(source) == stem + "." + extension && Parent(out) == directory;
    assert Parent(directory + [FileName(source)]) == directory;
  }

  /** Temporary objects are the same exactly for outputs in one directory and file names that differ in extension only. */
  lemma TemporaryObjectsEqualIff(out: seq<string>, source: seq<string>, out': seq<string>, source': seq<string>)
    requires out != [] && source != [] && out' != [] && source' != []
    ensures TemporaryObject(out, source) == TemporaryObject(out', source') <==>
      Parent(out) == Parent(out') && Naming.Stem(FileName(source)) == Naming.Stem(FileName(source'))
  {
    var p, q := TemporaryObject(out, source), TemporaryObject(out', source');
    var s, s' := Naming.Stem(FileName(source)), Naming.Stem(FileName(source'));
    assert p == Parent(out) + [s + ".o"] && q == Parent(out') + [s' + ".o"];
    assert FileName(p) == s + ".o" && FileName(q) == s' + ".o";
    assert Parent(p) == Parent(out) && Parent(q) == Parent(out');
    assert (s + ".o")[..|s|] == s && (s' + ".o")[..|s'|] == s';
  }
}
