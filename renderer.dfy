/** The tree renderer (processDir): a second, independent depth-first walk
    with the same filter, which dispatches one render job per document as
    it meets it and descends into each subdirectory before moving on to the
    next entry. */
module Renderer {
  import opened Paths
  import opened Tree
  import opened Indexer

  /** A dispatched render job: the directory it was found in and the
      document's name within it. */
  datatype Job = Job(dir: string, name: string)

  /** The jobs the walk of directory `path` with listing `es` dispatches, in
      dispatch order, defined one entry at a time as the loop meets them. */
  function RenderJobs(path: string, es: seq<Entry>): seq<Job>
    decreases es
  {
    if es == [] then []
    else
      var e := es[|es| - 1];
      RenderJobs(path, es[..|es| - 1]) +
        if !Accepted(e) then []
        else
          match e.kind
          case File => [Job(path, e.name)]
          case Dir(sub) => RenderJobs(Join(path, e.name), sub)
          case Other => []
  }

  /** Walks directory `path`, whose listing is `es`, and returns the jobs it
      dispatched, in order. */
  method ProcessDir(path: string, es: seq<Entry>) returns (jobs: seq<Job>)
    ensures jobs == RenderJobs(path, es)
    decreases es
  {
    jobs := [];
    for i := 0 to |es|
      invariant jobs == RenderJobs(path, es[..i])
    {
      assert es[..i + 1][..i] == es[..i];
      var e := es[i];
      if !e.kind.Dir? && !IsMdName(e.name) {
        continue;
      }
      if e.kind.File? {
        jobs := jobs + [Job(path, e.name)];
      }
      if e.kind.Dir? {
        var nested := ProcessDir(Join(path, e.name), e.kind.entries);
        jobs := jobs + nested;
      }
    }
    assert es[..|es|] == es;
  }

  /** The source path a job reads. */
  function JobPath(j: Job): string
  {
    Join(j.dir, j.name)
  }

  function JobPaths(js: seq<Job>): seq<string>
  {
    seq(|js|, k requires 0 <= k < |js| => JobPath(js[k]))
  }

  lemma JobPathsConcat(a: seq<Job>, b: seq<Job>)
    ensures JobPaths(a + b) == JobPaths(a) + JobPaths(b)
  {
  }

  /** Selects the jobs dispatched for documents directly inside `dir`. */
  function AtDir(dir: string): Job -> bool
  {
    (j: Job) => j.dir == dir
  }

  /** Every job is for a ".md" name and lies at or below the walked
      directory: the walked path is a prefix of the job's directory. */
  lemma {:induction false} JobsAreDocuments(path: string, es: seq<Entry>)
    ensures forall j :: j in RenderJobs(path, es) ==> IsMdName(j.name) && path <= j.dir
    decreases es
  {
    if es != [] {
      var init, e := es[..|es| - 1], es[|es| - 1];
      JobsAreDocuments(path, init);
      if IsDirEntry(e) {
        JobsAreDocuments(Join(path, e.name), e.kind.entries);
        assert path <= Join(path, e.name);
      }
    }
  }

  /** A listed entry that is not a directory and whose name lacks the ".md"
      suffix never gets a render job. */
  lemma NonDocumentNeverRendered(path: string, es: seq<Entry>, e: Entry)
    requires e in es && !e.kind.Dir? && !IsMdName(e.name)
    ensures Job(path, e.name) !in RenderJobs(path, es)
  {
    JobsAreDocuments(path, es);
  }

  /** Within one directory the two walks agree in order: the jobs dispatched
      for documents directly inside `path` read exactly that directory's
      indexed files, one to one and in the same order. */
  lemma {:induction false} DirectoryJobsMatchFiles(path: string, es: seq<Entry>)
    ensures JobPaths(Filter(RenderJobs(path, es), AtDir(path))) == Index(path, es).files
    decreases es
  {
    if es != [] {
      var init, e := es[..|es| - 1], es[|es| - 1];
      assert es == init + [e];
      DirectoryJobsMatchFiles(path, init);
      DirectoryJobsStep(path, init, e);
      var own := if IsMdFile(e) then [Job(path, e.name)] else [];
      JobPathsConcat(Filter(RenderJobs(path, init), AtDir(path)), own);
      assert JobPaths(own) == if IsMdFile(e) then [Join(path, e.name)] else [];
    }
  }

  /** One more listed entry adds a job of the walked directory exactly when
      it is a document. */
  lemma DirectoryJobsStep(path: string, init: seq<Entry>, e: Entry)
    ensures Filter(RenderJobs(path, init + [e]), AtDir(path))
         == Filter(RenderJobs(path, init), AtDir(path)) + if IsMdFile(e) then [Job(path, e.name)] else []
  {
    var es := init + [e];
    assert es[..|es| - 1] == init;
    var before := RenderJobs(path, init);
    var added := RenderJobs(path, es)[|before|..];
    assert RenderJobs(path, es) == before + added;
    FilterConcat(before, added, AtDir(path));
    if IsMdFile(e) {
      assert added == [Job(path, e.name)];
      assert Filter(added, AtDir(path)) == added;
    } else if IsDirEntry(e) {
      assert added == RenderJobs(Join(path, e.name), e.kind.entries);
      NestedJobsElsewhere(path, e.name, e.kind.entries);
    } else {
      assert added == [];
    }
  }

  /** A subdirectory's jobs are never selected as jobs of its parent. */
  lemma NestedJobsElsewhere(path: string, name: string, sub: seq<Entry>)
    ensures Filter(RenderJobs(Join(path, name), sub), AtDir(path)) == []
  {
    var nested := RenderJobs(Join(path, name), sub);
    JobsAreDocuments(Join(path, name), sub);
    FilterNone(nested, AtDir(path));
  }

  /** Across the whole tree the two walks visit the same documents: the
      paths the dispatched jobs read are, counted with multiplicity, exactly
      the document paths recorded anywhere in the index. */
  lemma {:induction false} JobsAgreeWithIndex(path: string, es: seq<Entry>)
    ensures multiset(JobPaths(RenderJobs(path, es))) == multiset(AllFiles(Index(path, es)))
    decreases es
  {
    if es != [] {
      var init, e := es[..|es| - 1], es[|es| - 1];
      JobsAgreeWithIndex(path, init);
      var before, prev := RenderJobs(path, init), Index(path, init);
      var added := RenderJobs(path, es)[|before|..];
      assert RenderJobs(path, es) == before + added;
      JobPathsConcat(before, added);
      if IsMdFile(e) {
        var x := Join(path, e.name);
        assert JobPaths(added) == [x];
        assert AllFiles(Index(path, es)) == prev.files + [x] + AllFilesOf(prev.children);
      } else if IsDirEntry(e) {
        var child := Index(Join(path, e.name), e.kind.entries);
        JobsAgreeWithIndex(Join(path, e.name), e.kind.entries);
        assert (prev.children + [child])[..|prev.children|] == prev.children;
        assert AllFilesOf(prev.children + [child]) == AllFilesOf(prev.children) + AllFiles(child);
      }
    }
  }

  /** How many jobs a walk dispatches does not depend on how its root
      directory is spelled. */
  lemma {:induction false} JobCountRootFree(p: string, q: string, es: seq<Entry>)
    ensures |RenderJobs(p, es)| == |RenderJobs(q, es)|
    decreases es
  {
    if es != [] {
      var e := es[|es| - 1];
      JobCountRootFree(p, q, es[..|es| - 1]);
      if IsDirEntry(e) {
        JobCountRootFree(Join(p, e.name), Join(q, e.name), e.kind.entries);
      }
    }
  }

  /** Job `j`, found by a walk from root `p`, as a walk from root `q` finds
      it: the part of its directory below `p` is kept under `q`. */
  function Reroot(j: Job, p: string, q: string): Job
  {
    if p <= j.dir then Job(q + j.dir[|p|..], j.name) else j
  }

  function RerootAll(js: seq<Job>, p: string, q: string): (r: seq<Job>)
    ensures |r| == |js|
  {
    seq(|js|, k requires 0 <= k < |js| => Reroot(js[k], p, q))
  }

  lemma RerootAllConcat(a: seq<Job>, b: seq<Job>, p: string, q: string)
    ensures RerootAll(a + b, p, q) == RerootAll(a, p, q) + RerootAll(b, p, q)
  {
  }

  /** Rerooting below a subdirectory is rerooting below the root. */
  lemma RerootNested(j: Job, p: string, q: string, n: string)
    requires Join(p, n) <= j.dir
    ensures Reroot(j, Join(p, n), Join(q, n)) == Reroot(j, p, q)
  {
    var d, jp := j.dir, Join(p, n);
    assert d[..|p|] == jp[..|p|] == p;
    assert d[|p|..] == "/" + n + d[|jp|..];
    assert Join(q, n) + d[|jp|..] == q + ("/" + n + d[|jp|..]);
  }

  /** A walk from root `q` dispatches, one to one and in the same order, the
      jobs a walk of the same tree from root `p` dispatches, each with the
      same name and with `p` replaced by `q` at the front of its directory. */
  lemma {:induction false} JobsRootFree(p: string, q: string, es: seq<Entry>)
    ensures RenderJobs(q, es) == RerootAll(RenderJobs(p, es), p, q)
    decreases es
  {
    if es != [] {
      var init, e := es[..|es| - 1], es[|es| - 1];
      JobsRootFree(p, q, init);
      var tp := RenderJobs(p, es)[|RenderJobs(p, init)|..];
      var tq := RenderJobs(q, es)[|RenderJobs(q, init)|..];
      assert RenderJobs(p, es) == RenderJobs(p, init) + tp;
      assert RenderJobs(q, es) == RenderJobs(q, init) + tq;
      RerootAllConcat(RenderJobs(p, init), tp, p, q);
      if IsMdFile(e) {
        assert tp == [Job(p, e.name)] && tq == [Job(q, e.name)];
        assert p[|p|..] == [] && q + [] == q;
        assert RerootAll(tp, p, q) == [Reroot(Job(p, e.name), p, q)];
      } else if IsDirEntry(e) {
        var np, nq := Join(p, e.name), Join(q, e.name);
        var sub := e.kind.entries;
        assert tp == RenderJobs(np, sub) && tq == RenderJobs(nq, sub);
        JobsRootFree(np, nq, sub);
        JobsAreDocuments(np, sub);
        forall k | 0 <= k < |tp|
          ensures Reroot(tp[k], np, nq) == Reroot(tp[k], p, q)
        {
          assert tp[k] in RenderJobs(np, sub);
          RerootNested(tp[k], p, q, e.name);
        }
      } else {
        assert tp == [] && tq == [];
      }
    }
  }
}
