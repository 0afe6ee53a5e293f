/** The entry point: the index is built once from the source root, then the
    tree renderer walks the same root and dispatches the render jobs, each
    of which is started with that one index (StartSite). */
module Site {
  import opened Tree
  import opened Indexer
  import opened Renderer
  import opened Options
  import opened Render
  import opened DateText
  import opened Timestamp

  /** The source root as the indexer is given it. */
  const IndexRoot: string := "contents"

  /** The same root as the tree renderer is given it. */
  const RenderRoot: string := "./contents"

  /** Builds the index, then walks the tree again for the render jobs: one
      job per document recorded anywhere in the index, although the two
      walks spell the root differently. Spelled from the index's root, the
      jobs read exactly the documents the index records. */
  method BuildSite(es: seq<Entry>) returns (index: IndexNode, jobs: seq<Job>)
    ensures index == Index(IndexRoot, es) && index.path == IndexRoot
    ensures jobs == RenderJobs(RenderRoot, es)
    ensures |jobs| == |AllFiles(index)|
    ensures multiset(JobPaths(RerootAll(jobs, RenderRoot, IndexRoot))) == multiset(AllFiles(index))
  {
    index := PreprocessDir(IndexRoot, es);
    jobs := ProcessDir(RenderRoot, es);
    IndexShape(IndexRoot, es);
    JobsAgreeWithIndex(IndexRoot, es);
    JobCountRootFree(RenderRoot, IndexRoot, es);
    assert |multiset(JobPaths(RenderJobs(IndexRoot, es)))| == |multiset(AllFiles(index))|;
    JobsRootFree(RenderRoot, IndexRoot, es);
  }

  /** `job` is a render job waiting for its read, for document `j`, whose
      page data shows `time` and holds `index`. */
  ghost predicate StartedFor(job: RenderJob, j: Job, time: string, index: IndexNode)
    reads job
  {
    job.Valid() && job.phase == Reading && job.dir == j.dir && job.name == j.name
    && job.data.lastModified == time && job.data.index == index
  }

  /** The time a job's page shows: the birth time of the document's
      directory, formatted. */
  function ShownTime(birthtimeOf: string -> DateParts, j: Job): string
  {
    FormatBirthtime(birthtimeOf(j.dir))
  }

  /** Starts one render job per dispatched document, in dispatch order;
      every job is handed the same index, and shows the birth time of its
      own directory. */
  method StartJobs(jobs: seq<Job>, birthtimeOf: string -> DateParts, index: IndexNode)
    returns (started: seq<RenderJob>)
    ensures |started| == |jobs|
    ensures forall k :: 0 <= k < |jobs| ==>
      fresh(started[k]) && StartedFor(started[k], jobs[k], ShownTime(birthtimeOf, jobs[k]), index)
    decreases |jobs|
  {
    if jobs == [] {
      return [];
    }
    var first := StartJob(jobs[0], birthtimeOf, index);
    var rest := StartJobs(jobs[1..], birthtimeOf, index);
    started := [first] + rest;
  }

  /** Starts the render job of one dispatched document. */
  method StartJob(j: Job, birthtimeOf: string -> DateParts, index: IndexNode) returns (job: RenderJob)
    ensures fresh(job) && StartedFor(job, j, ShownTime(birthtimeOf, j), index)
  {
    job := new RenderJob(j.name, j.dir, birthtimeOf, index);
  }

  /** The whole run: the index is built first, then every dispatched job is
      started holding that very index. */
  method StartSite(es: seq<Entry>, birthtimeOf: string -> DateParts)
    returns (index: IndexNode, jobs: seq<Job>, started: seq<RenderJob>)
    ensures index == Index(IndexRoot, es)
    ensures jobs == RenderJobs(RenderRoot, es) && |jobs| == |AllFiles(index)|
    ensures |started| == |jobs|
    ensures forall k :: 0 <= k < |jobs| ==>
      fresh(started[k]) && StartedFor(started[k], jobs[k], ShownTime(birthtimeOf, jobs[k]), index)
  {
    index, jobs := BuildSite(es);
    started := StartJobs(jobs, birthtimeOf, index);
  }

  /** The page of every dispatched job sits at the output-tree mirror of
      the document that job reads; with JobsAgreeWithIndex, the pages of a
      run mirror exactly the documents the index records. */
  lemma OutputsMirrorSources(root: string, es: seq<Entry>)
    ensures var jobs := RenderJobs(root, es);
      forall k :: 0 <= k < |jobs| ==>
        SourceOf(OutputPath(jobs[k].dir, jobs[k].name)) == Some(JobPath(jobs[k]))
  {
    var jobs := RenderJobs(root, es);
    JobsAreDocuments(root, es);
    forall k | 0 <= k < |jobs|
      ensures SourceOf(OutputPath(jobs[k].dir, jobs[k].name)) == Some(JobPath(jobs[k]))
    {
      assert jobs[k] in jobs;
      OutputMirrorsSource(jobs[k].dir, jobs[k].name);
    }
  }
}
