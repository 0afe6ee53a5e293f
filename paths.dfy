/** Path strings and the document-extension rule shared by the indexer,
    the tree renderer and the render job. */
module Paths {

  /** Extension of the documents the pipeline picks up. */
  const MdExt: string := ".md"

  /** Extension of the pages it writes. */
  const HtmlExt: string := ".html"

  /** Root of the mirrored output tree. */
  const DistRoot: string := "./dist"

  /** Joining a directory and a name, modelled as concatenation around one
      separator; the normalisation a real path library performs is not. */
  function Join(dir: string, name: string): string
  {
    dir + "/" + name
  }

  predicate EndsWith(s: string, suffix: string)
  {
    |suffix| <= |s| && s[|s| - |suffix|..] == suffix
  }

  /** The document filter on names: an exact, case-sensitive ".md" suffix
      (a regular expression anchored at the end of the name). */
  predicate IsMdName(name: string)
    ensures IsMdName(name) <==> exists stem :: name == stem + MdExt
  {
    var ok := EndsWith(name, MdExt);
    assert ok ==> name == name[..|name| - |MdExt|] + MdExt;
    ok
  }

  /** Recovers the name from a joined path. */
  lemma JoinSplit(dir: string, name: string)
    ensures |Join(dir, name)| == |dir| + 1 + |name|
    ensures Join(dir, name)[..|dir|] == dir
    ensures Join(dir, name)[|dir|] == '/'
    ensures Join(dir, name)[|dir| + 1..] == name
  {
  }

  /** Two names joined onto the same directory give the same path only when
      they are the same name. */
  lemma JoinInjective(dir: string, a: string, b: string)
    requires Join(dir, a) == Join(dir, b)
    ensures a == b
  {
    JoinSplit(dir, a);
    JoinSplit(dir, b);
  }
}
