/** One render job (render): naming, the mirrored output path, and the
    read -> template -> write chain of a single document. Reading the file,
    converting Markdown, filling the template and writing the page are
    collaborators; their results are parameters here. */
module Render {
  import opened Options
  import opened Paths
  import opened Indexer
  import opened Renderer
  import opened DateText
  import opened Timestamp

  /** The page title: the name with its last three characters removed,
      which for a document is exactly its ".md"; a name shorter than three
      characters gives the empty title, as a substring with a negative end
      does. */
  function Title(name: string): (t: string)
    ensures t <= name
    ensures |t| == if |name| >= 3 then |name| - 3 else 0
    ensures IsMdName(name) ==> t + MdExt == name
  {
    if |name| >= 3 then name[..|name| - 3] else ""
  }

  /** The output directory mirroring source directory `dir`. */
  function OutputDir(dir: string): (r: string)
    ensures DistRoot + "/" <= r && r[|DistRoot| + 1..] == dir
  {
    Join(DistRoot, dir)
  }

  /** Where the page of document `name` in `dir` is written. */
  function OutputPath(dir: string, name: string): (r: string)
    ensures OutputDir(dir) + "/" <= r && EndsWith(r, HtmlExt)
  {
    Join(OutputDir(dir), Title(name) + HtmlExt)
  }

  /** The source document an output path mirrors, if it is one: the path
      under the output root with ".html" put back to ".md". */
  function SourceOf(out: string): Option<string>
  {
    var prefix := DistRoot + "/";
    if |out| >= |prefix| + |HtmlExt| && out[..|prefix|] == prefix && EndsWith(out, HtmlExt)
    then Some(out[|prefix|..|out| - |HtmlExt|] + MdExt)
    else None
  }

  /** The output tree mirrors the source tree: the page of a document is
      found under the output root at the document's own path, with the
      ".md" replaced by ".html". */
  lemma OutputMirrorsSource(dir: string, name: string)
    requires IsMdName(name)
    ensures SourceOf(OutputPath(dir, name)) == Some(Join(dir, name))
  {
    var t := Title(name);
    var out := OutputPath(dir, name);
    var prefix := DistRoot + "/";
    assert out == prefix + (dir + "/" + t) + HtmlExt;
    assert out[..|prefix|] == prefix;
    assert out[|prefix|..|out| - |HtmlExt|] == dir + "/" + t;
    assert dir + "/" + t + MdExt == dir + "/" + (t + MdExt);
  }

  /** Two different documents never share an output path, so no page
      overwrites another. */
  lemma OutputPathsDistinct(d1: string, n1: string, d2: string, n2: string)
    requires IsMdName(n1) && IsMdName(n2)
    requires Join(d1, n1) != Join(d2, n2)
    ensures OutputPath(d1, n1) != OutputPath(d2, n2)
  {
    OutputMirrorsSource(d1, n1);
    OutputMirrorsSource(d2, n2);
  }

  /** What the template receives. */
  datatype PageData = PageData(title: string, lastModified: string, content: string, index: IndexNode)

  /** The step of the chain that failed. */
  datatype Step = ReadStep | TemplateStep | WriteStep

  /** Where a job is: waiting for the read, for the template, for the
      write of the given page body, or finished. */
  datatype Phase = Reading | Templating | Writing(html: string) | Done | Failed(at: Step)

  /** A written page. */
  datatype Page = Page(path: string, html: string)

  class RenderJob {
    const name: string
    const dir: string
    var data: PageData
    var phase: Phase
    /** The output directory created before writing, if any. */
    var createdDir: Option<string>
    /** The page written, if any. */
    var output: Option<Page>

    /** The job's invariant: the title is the name's stem; nothing has been
        converted before the read completes; a directory is created only
        once a page body exists, and a page exists exactly when the job is
        done, always at the mirrored output path. */
    ghost predicate Valid()
      reads this
    {
      && data.title == Title(name)
      && (phase.Reading? ==> data.content == "")
      && (createdDir.Some? <==> phase.Writing? || phase.Done? || phase == Failed(WriteStep))
      && (createdDir.Some? ==> createdDir.value == OutputDir(dir))
      && (output.Some? <==> phase.Done?)
      && (output.Some? ==> output.value.path == OutputPath(dir, name))
    }

    /** Starts a job for document `name` found in directory `dir`. The
        displayed time is the birth time of the containing directory, which
        is the path handed to `birthtimeOf`. */
    constructor (name: string, dir: string, birthtimeOf: string -> DateParts, index: IndexNode)
      ensures Valid()
      ensures this.name == name && this.dir == dir
      ensures data == PageData(Title(name), FormatBirthtime(birthtimeOf(dir)), "", index)
      ensures phase == Reading && createdDir == None && output == None
    {
      this.name := name;
      this.dir := dir;
      data := PageData(Title(name), FormatBirthtime(birthtimeOf(dir)), "", index);
      phase := Reading;
      createdDir := None;
      output := None;
    }

    /** The path the job reads: the source path of its dispatched job. */
    function SourcePath(): string
    {
      JobPath(Job(dir, name))
    }

    /** Reads SourcePath() with `readFile` (None for an I/O error): on
        error the job stops, otherwise the converted text becomes the page
        content. */
    method OnRead(readFile: string -> Option<string>, convert: string -> string)
      requires Valid() && phase == Reading
      modifies this
      ensures Valid()
      ensures readFile(SourcePath()).None? ==> phase == Failed(ReadStep) && data == old(data)
      ensures readFile(SourcePath()).Some? ==>
                phase == Templating && data == old(data).(content := convert(readFile(SourcePath()).value))
      ensures createdDir == old(createdDir) && output == old(output)
    {
      var read := readFile(SourcePath());
      if read.None? {
        phase := Failed(ReadStep);
        return;
      }
      data := data.(content := convert(read.value));
      phase := Templating;
    }

    /** The template is applied to the page data (None for a template
        error): on error the job stops, otherwise the output directory is
        created and the page body waits to be written. */
    method OnTemplate(template: PageData -> Option<string>)
      requires Valid() && phase == Templating
      modifies this
      ensures Valid()
      ensures data == old(data) && output == None
      ensures template(data).None? ==> phase == Failed(TemplateStep) && createdDir == None
      ensures template(data).Some? ==>
                phase == Writing(template(data).value) && createdDir == Some(OutputDir(dir))
    {
      var html := template(data);
      if html.None? {
        phase := Failed(TemplateStep);
        return;
      }
      createdDir := Some(OutputDir(dir));
      phase := Writing(html.value);
    }

    /** The write of the page body completed, successfully when `ok`. */
    method OnWrite(ok: bool)
      requires Valid() && phase.Writing?
      modifies this
      ensures Valid()
      ensures data == old(data) && createdDir == old(createdDir)
      ensures ok ==> phase == Done && output == Some(Page(OutputPath(dir, name), old(phase).html))
      ensures !ok ==> phase == Failed(WriteStep) && output == None
    {
      if !ok {
        phase := Failed(WriteStep);
        return;
      }
      output := Some(Page(OutputPath(dir, name), phase.html));
      phase := Done;
    }

    /** The whole chain, each step starting only after the previous one
        succeeded: a page is written exactly when the read, the template and
        the write all succeed, and it is then the template's rendering of
        the converted document at the mirrored output path. Each failure
        stops the job at its own step. */
    method Run(readFile: string -> Option<string>, convert: string -> string,
               template: PageData -> Option<string>, writeOk: bool)
      requires Valid() && phase == Reading
      modifies this
      ensures Valid()
      ensures phase.Done? || phase.Failed?
      ensures readFile(SourcePath()).None? ==>
                phase == Failed(ReadStep) && data == old(data) && createdDir == None
      ensures readFile(SourcePath()).Some? ==>
                data == old(data).(content := convert(readFile(SourcePath()).value))
      ensures readFile(SourcePath()).Some? && template(data).None? ==>
                phase == Failed(TemplateStep) && createdDir == None
      ensures readFile(SourcePath()).Some? && template(data).Some? ==>
                createdDir == Some(OutputDir(dir))
      ensures readFile(SourcePath()).Some? && template(data).Some? && !writeOk ==>
                phase == Failed(WriteStep)
      ensures output.Some? <==> readFile(SourcePath()).Some? && template(data).Some? && writeOk
      ensures output.Some? ==> output.value == Page(OutputPath(dir, name), template(data).value)
    {
      OnRead(readFile, convert);
      if phase != Templating {
        return;
      }
      OnTemplate(template);
      if !phase.Writing? {
        return;
      }
      OnWrite(writeOk);
    }
  }
}
