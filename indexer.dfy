/** The tree indexer (preprocessDir): one synchronous depth-first walk of
    the source tree that records, per directory, its document paths and one
    child node per subdirectory. */
module Indexer {
  import opened Paths
  import opened Tree

  /** One indexed directory: its own path, the joined paths of the documents
      directly inside it and one node per subdirectory, both in listing
      order. */
  datatype IndexNode = IndexNode(path: string, files: seq<string>, children: seq<IndexNode>)

  /** The node the walk builds for directory `path` whose listing is `es`,
      defined the way the loop builds it: one entry at a time, appending at
      the back. */
  function Index(path: string, es: seq<Entry>): IndexNode
    decreases es
  {
    if es == [] then IndexNode(path, [], [])
    else
      var prev := Index(path, es[..|es| - 1]);
      var e := es[|es| - 1];
      if !Accepted(e) then prev
      else
        match e.kind
        case File => prev.(files := prev.files + [Join(path, e.name)])
        case Dir(sub) => prev.(children := prev.children + [Index(Join(path, e.name), sub)])
        case Other => prev
  }

  /** Walks directory `path`, whose listing is `es`, and returns its node. */
  method PreprocessDir(path: string, es: seq<Entry>) returns (out: IndexNode)
    ensures out == Index(path, es)
    decreases es
  {
    var files: seq<string> := [];
    var children: seq<IndexNode> := [];
    for i := 0 to |es|
      invariant IndexNode(path, files, children) == Index(path, es[..i])
    {
      assert es[..i + 1][..i] == es[..i];
      var e := es[i];
      if !e.kind.Dir? && !IsMdName(e.name) {
        continue;
      }
      if e.kind.File? {
        files := files + [Join(path, e.name)];
      }
      if e.kind.Dir? {
        var child := PreprocessDir(Join(path, e.name), e.kind.entries);
        children := children + [child];
      }
    }
    assert es[..|es|] == es;
    out := IndexNode(path, files, children);
  }

  /** The given entries' names joined onto `dir`, in order. */
  function PathsOf(dir: string, es: seq<Entry>): seq<string>
  {
    seq(|es|, k requires 0 <= k < |es| => Join(dir, es[k].name))
  }

  lemma PathsOfSnoc(dir: string, es: seq<Entry>, e: Entry)
    ensures PathsOf(dir, es + [e]) == PathsOf(dir, es) + [Join(dir, e.name)]
  {
  }

  /** Every document path of a subtree, a directory's own files before those
      of its children. */
  function AllFiles(n: IndexNode): seq<string>
    decreases n
  {
    n.files + AllFilesOf(n.children)
  }

  function AllFilesOf(ns: seq<IndexNode>): seq<string>
    decreases ns
  {
    if ns == [] then [] else AllFilesOf(ns[..|ns| - 1]) + AllFiles(ns[|ns| - 1])
  }

  /** What a node is: its own path, the documents of its listing joined onto
      that path, and one child per subdirectory, each the node of that
      subdirectory's joined path; both lists in listing order. */
  lemma IndexShape(path: string, es: seq<Entry>)
    ensures Index(path, es).path == path
    ensures Index(path, es).files == PathsOf(path, Filter(es, IsMdFile))
    ensures var ds := Filter(es, IsDirEntry);
      |Index(path, es).children| == |ds| &&
      forall k :: 0 <= k < |ds| ==>
        Index(path, es).children[k] == Index(Join(path, ds[k].name), ds[k].kind.entries)
  {
    IndexPath(path, es);
    IndexFiles(path, es);
    IndexChildren(path, es);
  }

  lemma {:induction false} IndexPath(path: string, es: seq<Entry>)
    ensures Index(path, es).path == path
    decreases es
  {
    if es != [] {
      IndexPath(path, es[..|es| - 1]);
    }
  }

  lemma {:induction false} IndexFiles(path: string, es: seq<Entry>)
    ensures Index(path, es).files == PathsOf(path, Filter(es, IsMdFile))
    decreases es
  {
    if es != [] {
      var init, e := es[..|es| - 1], es[|es| - 1];
      assert es == init + [e];
      IndexFiles(path, init);
      FilterSnoc(init, e, IsMdFile);
      var fs := Filter(init, IsMdFile);
      var prev := Index(path, init);
      if IsMdFile(e) {
        assert Index(path, es).files == prev.files + [Join(path, e.name)];
        PathsOfSnoc(path, fs, e);
      } else {
        assert Index(path, es).files == prev.files;
      }
    }
  }

  lemma {:induction false} IndexChildren(path: string, es: seq<Entry>)
    ensures var ds := Filter(es, IsDirEntry);
      |Index(path, es).children| == |ds| &&
      forall k :: 0 <= k < |ds| ==>
        Index(path, es).children[k] == Index(Join(path, ds[k].name), ds[k].kind.entries)
    decreases es
  {
    if es != [] {
      var init, e := es[..|es| - 1], es[|es| - 1];
      assert es == init + [e];
      IndexChildren(path, init);
      FilterSnoc(init, e, IsDirEntry);
      var prev := Index(path, init);
      if IsDirEntry(e) {
        assert Index(path, es).children == prev.children + [Index(Join(path, e.name), e.kind.entries)];
      } else {
        assert Index(path, es).children == prev.children;
      }
    }
  }

  /** A path is among a node's files exactly when some document of the
      listing joins to it. */
  lemma FilesExactly(path: string, es: seq<Entry>, x: string)
    ensures x in Index(path, es).files <==> exists e :: e in es && IsMdFile(e) && x == Join(path, e.name)
  {
    IndexShape(path, es);
    var fs := Filter(es, IsMdFile);
    if x in Index(path, es).files {
      var k :| 0 <= k < |fs| && PathsOf(path, fs)[k] == x;
      assert fs[k] in fs;
    } else {
      forall e | e in es && IsMdFile(e)
        ensures x != Join(path, e.name)
      {
        var k :| 0 <= k < |fs| && fs[k] == e;
        assert PathsOf(path, fs)[k] == Join(path, e.name);
      }
    }
  }

  /** An entry that is not a directory and whose name lacks the ".md"
      suffix never shows up among the files, whatever else is listed. */
  lemma NonDocumentNeverIndexed(path: string, es: seq<Entry>, e: Entry)
    requires e in es && !e.kind.Dir? && !IsMdName(e.name)
    ensures Join(path, e.name) !in Index(path, es).files
  {
    FilesExactly(path, es, Join(path, e.name));
    if f :| f in es && IsMdFile(f) && Join(path, e.name) == Join(path, f.name) {
      JoinInjective(path, e.name, f.name);
    }
  }

  /** Each subdirectory of the listing yields exactly one child, in listing
      order, whose own path is the subdirectory's joined path. */
  lemma ChildrenMirrorDirs(path: string, es: seq<Entry>)
    ensures var ds := Filter(es, IsDirEntry);
      |Index(path, es).children| == |ds| &&
      forall k :: 0 <= k < |ds| ==> Index(path, es).children[k].path == Join(path, ds[k].name)
  {
    IndexShape(path, es);
    var ds := Filter(es, IsDirEntry);
    forall k | 0 <= k < |ds|
      ensures Index(path, es).children[k].path == Join(path, ds[k].name)
    {
      IndexShape(Join(path, ds[k].name), ds[k].kind.entries);
    }
  }

  /** An entry that is neither a file nor a directory contributes nothing,
      even when its name ends in ".md": listing it anywhere gives the same
      node as leaving it out. */
  lemma OtherEntriesIgnored(path: string, a: seq<Entry>, o: Entry, b: seq<Entry>)
    requires o.kind.Other?
    ensures Index(path, a + [o] + b) == Index(path, a + b)
  {
    var with, without := a + [o] + b, a + b;
    FilterSkips(a, o, b, IsMdFile);
    FilterSkips(a, o, b, IsDirEntry);
    IndexShape(path, with);
    IndexShape(path, without);
    var n1, n2 := Index(path, with), Index(path, without);
    assert n1.files == n2.files;
    assert n1.children == n2.children;
  }
}
