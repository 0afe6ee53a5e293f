# nuko-library-v2 site builder, modelled in Dafny

The program turns a tree of Markdown documents under `contents` into a
mirrored tree of HTML pages under `./dist`. It makes two depth-first walks
over the source tree:

- **Indexing** (`preprocessDir`) builds an index of the tree. Each node holds a
  directory's path, the joined paths of the `.md` files directly inside it,
  and one child node per subdirectory.
- **Rendering** (`processDir`) applies the same filter and starts one render
  job (`render`) for each document.

A render job:

1. takes its title from the file name (the name with its last three
   characters dropped);
2. formats the birth time of the containing directory (`formatBirthtime`);
3. reads the document and converts it;
4. fills the page template with the title, time, content and the whole index;
5. creates the mirrored output directory and writes `<title>.html` into it.

If the read or the template fails, the job stops and writes nothing.

The model works on an abstract tree instead of the filesystem:

- An `Entry` has a name and a kind: `File`, `Dir` (which carries its own
  listing) or `Other`, for anything else, such as a symbolic link.
- A listing is a `seq<Entry>` in listing order.
- `Join(dir, name)` is `dir + "/" + name`.

Modules:

- `Paths` (`paths.dfy`): the document suffix, path joining, the output root.
- `Tree` (`tree.dfy`): entries, the path filter, and a front-to-back `Filter`
  used as the reference definition.
- `Indexer` (`indexer.dfy`): `preprocessDir` as the method `PreprocessDir`,
  with a `for` loop that appends exactly as the source's `forEach`/`push`
  does. It is proved equal to the function `Index`, and the lemmas state what
  `Index` is.
- `Renderer` (`renderer.dfy`): `processDir` as the method `ProcessDir`. It
  returns the jobs it dispatches, in dispatch order, and is proved equal to
  `RenderJobs`. This module holds the lemmas that tie the two walks together.
- `Render` (`render.dfy`): title and output path, and the class
  `RenderJob`. The class is the job's state machine,
  `Reading -> Templating -> Writing -> Done | Failed(step)`. Its fields are
  updated in place by one method per completed step: `OnRead`, `OnTemplate`
  and `OnWrite`.
- `DateText` (`datetext.dfy`): decimal numerals, the `Y-M-D h:m` layout of
  the date components, and a reader for that layout. The reader accepts only
  spellings the printer can produce (no zero padding, no `-0`), so reading
  back pins down the exact text, not just the numbers.
- `Timestamp` (`timestamp.dfy`): `formatBirthtime` on integer date
  components, specified by reading its output back.
- `Site` (`site.dfy`): the entry point, the start of one job per dispatched document, and the tree-wide output property.

The source's depth-first dispatch interleaves files and subdirectories in
listing order. The index keeps files and children in separate lists. So a
tree whose root lists `a.md`, `sub/`, `b.md` dispatches `a`, then the jobs of
`sub`, then `b`. Flattening the index gives `a`, `b`, then `sub`'s files. The
agreement between the walks is therefore proved in two parts:

- over the whole tree, as equality of multisets of paths;
- within each directory, as equality in order.

## Model

| member | source | states |
|---|---|---|
| `Indexer.PreprocessDir` | index.js:42-65 | The walk returns exactly the node `Index(path, es)`: every accepted entry is handled in listing order, files are appended to `files` and subdirectory nodes to `children` |
| `Indexer.IndexShape` | index.js:44-62 | A node's `path` is its argument. `files` equals the joined paths of the listing's `.md` regular files, in listing order. `children` has one node per listed directory, in listing order, and each is the node of that directory's joined path |
| `Indexer.FilesExactly` | index.js:50-57 | A path is in `files` if and only if some `.md` regular file of the listing joins to it |
| `Indexer.NonDocumentNeverIndexed` | index.js:52-53 | A listed non-directory whose name does not end in `.md` never appears in `files` |
| `Indexer.ChildrenMirrorDirs` | index.js:59-61 | Each listed directory yields exactly one child, in listing order, whose `path` is the directory's joined path |
| `Indexer.OtherEntriesIgnored` | index.js:55-61 | An entry that is neither a file nor a directory changes nothing wherever it is listed, even when its name ends in `.md` |
| `Renderer.ProcessDir` | index.js:70-88 | The walk dispatches exactly `RenderJobs(path, es)`: one job per document, in the order met, recursing into each directory before the next entry |
| `Renderer.JobsAreDocuments` | index.js:75-81 | Every dispatched job is for a `.md` name, and the walked path is a prefix of the job's directory: the job lies in that directory or below it |
| `Renderer.NonDocumentNeverRendered` | index.js:75-76 | A listed non-directory whose name does not end in `.md` never gets a render job |
| `Renderer.DirectoryJobsMatchFiles` | index.js:73-81 | The jobs for documents directly in a directory read exactly that directory's indexed `files`, one to one and in the same order |
| `Renderer.JobsAgreeWithIndex` | index.js:70-88 | Over the whole tree, the paths the jobs read equal, as a multiset, every file path recorded anywhere in the index |
| `Renderer.JobCountRootFree` | index.js:153 | The number of dispatched jobs does not depend on how the root is spelled |
| `Renderer.JobsRootFree` | index.js:70-88 | Walking the same tree from root `q` instead of `p` dispatches the same jobs one to one and in the same order: same names, with `p` replaced by `q` at the front of each directory |
| `Site.BuildSite` | index.js:67 | The entry point builds the index from `contents`, then dispatches one job per indexed document from `./contents`. With the root spelled back as `contents`, the paths the jobs read are, as a multiset, exactly the document paths the index records |
| `Site.StartJobs` | index.js:111-116 | One fresh job is started per dispatched document, in dispatch order. Each waits for its read, is for that document's directory and name, shows the formatted birth time of that directory, and holds the given index |
| `Site.StartJob` | index.js:104-116 | The started job is fresh, satisfies the job invariant, waits for its read, is for the given document, shows the formatted birth time of its directory, and holds the given index |
| `Site.StartSite` | index.js:67-153 | The whole run: the index of `contents` is built first, then one job is started per document dispatched from `./contents`, each holding that very index and showing its directory's birth time |
| `Site.OutputsMirrorSources` | index.js:139-143 | Every dispatched job's page lies at the output-tree mirror of the document it reads |
| `Paths.IsMdName` | index.js:52 | A name passes the document test exactly when it is some stem followed by `.md`, case-sensitive |
| `Tree.Accepted` | index.js:75 | An entry passes the filter of both walks exactly when it is a directory or its name is some stem followed by `.md` |
| `Render.OutputDir` | index.js:139 | The output directory is `./dist/` followed by the source directory, unchanged |
| `Render.OutputPath` | index.js:142-143 | The page path lies under the output directory and ends in `.html` |
| `Render.Title` | index.js:108 | The title is a prefix of the name, three characters shorter, or empty for shorter names. For a `.md` name, title + `.md` gives the name back |
| `Render.OutputMirrorsSource` | index.js:139-143 | The output path `./dist/<dir>/<title>.html` maps back to the source path `<dir>/<name>` |
| `Render.OutputPathsDistinct` | index.js:142-143 | Two different documents never share an output path |
| `Render.RenderJob.constructor` | index.js:108-116 | A new job is `Reading`, with nothing written. Its data holds the title, the formatted birth time of the containing directory, empty content and the index |
| `Render.RenderJob.OnRead` | index.js:119-128 | The job reads `dir/name`. A failed read ends the job in `Failed(ReadStep)` with its data unchanged. A successful read stores the converted text as content and moves to `Templating` |
| `Render.RenderJob.OnTemplate` | index.js:130-139 | A template error ends the job in `Failed(TemplateStep)` with no directory created. Otherwise the mirrored output directory is created and the page body waits in `Writing` |
| `Render.RenderJob.OnWrite` | index.js:142-148 | A successful write records the page at the mirrored output path and ends in `Done`. A failed write ends in `Failed(WriteStep)` with no page |
| `Render.RenderJob.Run` | index.js:104-151 | The job always finishes, in `Done` or `Failed`. A failed read ends in `Failed(ReadStep)` with the data unchanged and no directory. After a successful read the content is the converted document. A template error then ends in `Failed(TemplateStep)` with no directory; otherwise the mirrored output directory is created. A failed write ends in `Failed(WriteStep)`. A page is written if and only if the read, the template and the write all succeed, and it is then the template's rendering at the mirrored path |
| `DateText.NatToString` | index.js:96 | Numbers are printed in decimal digits only, with no leading zero. One-digit values print as one character |
| `DateText.IntToString` | index.js:96 | The year prints with a leading minus sign exactly when it is negative, followed by decimal digits only, with no leading zero unless the year is 0 |
| `DateText.ReadIntOf` | index.js:96 | A printed whole number, followed by anything that does not start with a digit, reads back as that number and leaves the rest |
| `Timestamp.FormatBirthtime` | index.js:94-97 | Reading back the display string `Y-(M+1)-D h:m` gives the original components, with the month back to 0-based. So the string determines the date it was made from |
| `Timestamp.FormatReadBackExactly` | index.js:94-97 | A string reads back as a date if and only if it is exactly that date's display string. The reader accepts no zero padding and no `-0`, so the display string is the only spelling: every number in it is unpadded |
| `DateText.ZeroPaddingRejected` | index.js:96 | A number written with a leading zero, such as `05`, is not read as a number |
| `Timestamp.FormatExample` | index.js:96 | Year 2024, stored month 2, day 5, 08:07 formats as `2024-3-5 8:7` |

## Left out

- Markdown conversion (markdown-it with highlight.js, KaTeX, footnote, sup and sub; index.js:5-39) is an uninterpreted function, the `convert` parameter.
- The EJS template (index.js:130) is the `template` parameter. It returns `None` for a template error.
- Directory listing is the abstract tree. A listing that fails (`readdirSync` throws and aborts the whole run) is not modelled.
- Reading a file is the `readFile` parameter of `OnRead`, applied to the job's source path. The result of `writeFile` is the `ok` parameter of `OnWrite`.
- The `statSync` birth time is the `birthtimeOf` parameter. It is applied to the containing directory's path, as in the source.
- `statSync` failing is not modelled (index.js:113). In the source it throws inside the walk and aborts the run. `birthtimeOf` is a total function, so the model's walk never stops there.
- The two walks each list the tree themselves (index.js:43 and index.js:71), so the tree could change between them. The model gives both walks the same listing `es`. `Renderer.JobsAgreeWithIndex`, `Renderer.DirectoryJobsMatchFiles` and the job count in `Site.BuildSite` hold only when the tree and its listing order are the same for both walks.
- `mkdirSync` is recorded as `createdDir`. Its failure, an uncaught throw inside the template callback, is not modelled.
- Jobs are started without waiting, and their callbacks interleave across documents. The model runs the steps of one job in order and does not model interleaving or completion order across jobs.
- Decoding a timestamp into date components, and the time zone used for that, are not modelled. `FormatBirthtime` starts from the components.
- Path normalisation by the path library is not modelled. Because of this the index root `contents` and the render root `./contents` are different strings here. `Renderer.JobsRootFree` bridges the two spellings: the jobs of one root are those of the other, with the root prefix swapped.
- Diagnostic logging is not modelled.
- Renderer.JobsAgreeWithIndex: the two walks are not proved to agree in one global depth-first order, because that is false of the source: dispatch interleaves files and subdirectories, while the index separates them. Agreement is stated as a multiset over the tree plus exact order per directory (`Renderer.DirectoryJobsMatchFiles`).
- Conversion has no failure path: it runs inside the read callback and is assumed total, as the source's code treats it.
