/** The pure parts of the indexer's configuration and routing: the pool a file goes to, the
    default collection name, and the loader chosen by a file's suffix. */
module Routing {
  import opened Outcomes
  import opened Text

  /** The pool of files that sit directly under the watched root, and the fallback. */
  const DefaultPool: string := "default"

  /** `s[n:]` in Python: empty when `n` is past the end. */
  function Drop(s: string, n: nat): (r: string)
    ensures |r| == if n <= |s| then |s| - n else 0
  {
    if n <= |s| then s[n..] else []
  }

  /** `_poolname_from_file_path`: drop as many characters as `CONTAINER_PATH` has (they are
      not compared with it), strip leading '/', and take the first segment when a '/' is left.
      An unset `CONTAINER_PATH` makes `len(None)` raise, and the handler answers "default". */
  function PoolName(filePath: string, containerPath: Option<string>): (r: string)
    ensures r != [] && '/' !in r
  {
    if containerPath.None? then DefaultPool
    else
      var clean := LStrip(Drop(filePath, |containerPath.value|), '/');
      if '/' in clean then
        var pn := FirstSegment(clean, '/');
        if pn == [] then DefaultPool else pn
      else DefaultPool
  }

  /** A string made of '/' only. */
  predicate Slashes(s: string)
  {
    forall i | 0 <= i < |s| :: s[i] == '/'
  }

  lemma {:induction false} LStripSlashes(lead: string, s: string)
    requires Slashes(lead)
    requires s == [] || s[0] != '/'
    ensures LStrip(lead + s, '/') == s
  {
    if lead != [] {
      assert (lead + s)[1..] == lead[1..] + s;
      LStripSlashes(lead[1..], s);
    }
  }

  lemma {:induction false} FirstSegmentOf(seg: string, rest: string)
    requires '/' !in seg
    ensures FirstSegment(seg + "/" + rest, '/') == seg
  {
    if seg != [] {
      assert (seg + "/" + rest)[1..] == seg[1..] + "/" + rest;
      FirstSegmentOf(seg[1..], rest);
    }
  }

  /** A file in a sub-directory of the root goes to the pool named after that sub-directory,
      whatever the characters in the place of the container path are. */
  lemma PoolOfSubdirectory(prefix: string, containerPath: string, lead: string, seg: string, rest: string)
    requires |prefix| == |containerPath|
    requires Slashes(lead)
    requires seg != [] && '/' !in seg
    ensures PoolName(prefix + lead + seg + "/" + rest, Some(containerPath)) == seg
  {
    var filePath := prefix + lead + seg + "/" + rest;
    assert Drop(filePath, |containerPath|) == lead + (seg + "/" + rest);
    LStripSlashes(lead, seg + "/" + rest);
    FirstSegmentOf(seg, rest);
    assert '/' in seg + "/" + rest by {
      assert (seg + "/" + rest)[|seg|] == '/';
    }
  }

  /** A file directly under the root goes to the default pool. */
  lemma PoolAtRoot(prefix: string, containerPath: string, lead: string, name: string)
    requires |prefix| == |containerPath|
    requires Slashes(lead)
    requires '/' !in name
    ensures PoolName(prefix + lead + name, Some(containerPath)) == DefaultPool
  {
    var filePath := prefix + lead + name;
    assert Drop(filePath, |containerPath|) == lead + name;
    LStripSlashes(lead, name);
  }

  /** One of the four characters the default collection name replaces by '_'. */
  predicate Unsafe(c: char)
  {
    c == '/' || c == ':' || c == '.' || c == ' '
  }

  /** The default `QDRANT_COLLECTION`: `LOCAL_FILES_PATH` with '/', ':', '.' and ' ' replaced. */
  function CollectionName(localFilesPath: string): string
  {
    Replace(Replace(Replace(Replace(localFilesPath, "/", "_"), ":", "_"), ".", "_"), " ", "_")
  }

  /** The collection name has the length of the path, none of the four characters, and every
      other character where the path has it. */
  lemma CollectionNameSanitised(localFilesPath: string)
    ensures |CollectionName(localFilesPath)| == |localFilesPath|
    ensures forall i | 0 <= i < |localFilesPath| ::
      CollectionName(localFilesPath)[i] == if Unsafe(localFilesPath[i]) then '_' else localFilesPath[i]
    ensures forall i | 0 <= i < |localFilesPath| :: !Unsafe(CollectionName(localFilesPath)[i])
  {
    var a := Replace(localFilesPath, "/", "_");
    ReplaceChar(localFilesPath, '/', '_');
    var b := Replace(a, ":", "_");
    ReplaceChar(a, ':', '_');
    var c := Replace(b, ".", "_");
    ReplaceChar(b, '.', '_');
    ReplaceChar(c, ' ', '_');
  }

  /** `QDRANT_COLLECTION`: the environment's value when set, else the sanitised path. */
  function QdrantCollection(fromEnvironment: Option<string>, localFilesPath: string): (r: string)
    ensures fromEnvironment.None? ==> |r| == |localFilesPath| && forall i | 0 <= i < |r| :: !Unsafe(r[i])
  {
    CollectionNameSanitised(localFilesPath);
    if fromEnvironment.Some? then fromEnvironment.value else CollectionName(localFilesPath)
  }

  /** The text after the last `c` of `s`. */
  function LastSegment(s: string, c: char): (r: string)
    ensures |r| <= |s| && r == s[|s| - |r|..]
    ensures c !in r
    ensures |r| < |s| ==> s[|s| - |r| - 1] == c
  {
    if s == [] || s[|s| - 1] == c then [] else LastSegment(s[..|s| - 1], c) + [s[|s| - 1]]
  }

  /** `PurePosixPath(path).name`: the last component, skipping empty and "." components. */
  function BaseName(path: string): string
    decreases |path|
  {
    if path == [] then []
    else if path[|path| - 1] == '/' then BaseName(path[..|path| - 1])
    else
      var seg := LastSegment(path, '/');
      if seg == "." then BaseName(path[..|path| - 1]) else seg
  }

  /** `s.rfind(c)`: the index of the last `c`, or -1. */
  function RFind(s: string, c: char): (r: int)
    ensures -1 <= r < |s|
    ensures r >= 0 ==> s[r] == c
    ensures forall i | r < i < |s| :: s[i] != c
  {
    if s == [] then -1 else if s[|s| - 1] == c then |s| - 1 else RFind(s[..|s| - 1], c)
  }

  /** `PurePosixPath(path).suffix`: from the last '.' of the name, provided the dot is neither
      the first nor the last character of the name; otherwise empty. */
  function Suffix(path: string): string
  {
    var name := BaseName(path);
    var i := RFind(name, '.');
    if 0 < i < |name| - 1 then name[i..] else []
  }

  /** The loader classes of `EXTENSIONS_TO_LOADERS`. */
  datatype LoaderKind =
    | PyMuPdf | UnstructuredPowerPoint | UnstructuredExcel | Docx2txt
    | TextLoader | BsHtml | UnstructuredMarkdown | CsvLoader

  /** A loader over one file. */
  datatype Loader = Loader(kind: LoaderKind, filePath: string)

  const ExtensionsToLoaders: map<string, LoaderKind> := map[
    ".pdf" := PyMuPdf,
    ".pptx" := UnstructuredPowerPoint,
    ".ppt" := UnstructuredPowerPoint,
    ".xls" := UnstructuredExcel,
    ".xlsx" := UnstructuredExcel,
    ".docx" := Docx2txt,
    ".doc" := Docx2txt,
    ".txt" := TextLoader,
    ".html" := BsHtml,
    ".htm" := BsHtml,
    ".md" := UnstructuredMarkdown,
    ".csv" := CsvLoader
  ]

  /** The start of the message `_create_loader` raises for an unregistered suffix. */
  const UnsupportedFileType: string := "Unsupported file type: "

  /** `_create_loader`: the loader registered for the lower-cased suffix, else
      `ValueError("Unsupported file type: <suffix>")`. */
  function CreateLoader(filePath: string): Result<Loader>
  {
    var ext := Lower(Suffix(filePath));
    if ext in ExtensionsToLoaders then Ok(Loader(ExtensionsToLoaders[ext], filePath))
    else Err(UnsupportedFileType + ext)
  }

  lemma {:induction false} LastSegmentOf(dir: string, name: string, c: char)
    requires dir == [] || dir[|dir| - 1] == c
    requires c !in name
    ensures LastSegment(dir + name, c) == name
  {
    if name != [] {
      var s := dir + name;
      assert s[..|s| - 1] == dir + name[..|name| - 1];
      LastSegmentOf(dir, name[..|name| - 1], c);
    } else {
      assert dir + name == dir;
    }
  }

  /** The name of `dir/name` is `name` when `name` is a proper last component. */
  lemma BaseNameOf(dir: string, name: string)
    requires dir == [] || dir[|dir| - 1] == '/'
    requires name != [] && name != "." && '/' !in name
    ensures BaseName(dir + name) == name
  {
    LastSegmentOf(dir, name, '/');
    assert (dir + name)[|dir + name| - 1] == name[|name| - 1];
  }

  lemma RFindOfExtension(stem: string, ext: string)
    requires |ext| >= 2 && ext[0] == '.' && '.' !in ext[1..]
    ensures RFind(stem + ext, '.') == |stem|
  {
    var name := stem + ext;
    var r := RFind(name, '.');
    assert name[|stem|] == '.';
  }

  /** The suffix of `dir/stem.ext` is `.ext` when the stem is not empty and the extension
      has no further dot. */
  lemma SuffixOfFile(dir: string, stem: string, ext: string)
    requires dir == [] || dir[|dir| - 1] == '/'
    requires stem != [] && '/' !in stem
    requires |ext| >= 2 && ext[0] == '.' && '.' !in ext[1..] && '/' !in ext
    ensures Suffix(dir + stem + ext) == ext
  {
    var name := stem + ext;
    assert '/' !in name by {
      forall i | 0 <= i < |name| ensures name[i] != '/' {
        if i >= |stem| { assert name[i] == ext[i - |stem|]; }
      }
    }
    assert |name| >= 3;
    assert dir + stem + ext == dir + name;
    BaseNameOf(dir, name);
    RFindOfExtension(stem, ext);
    assert name[|stem|..] == ext;
  }

  /** A file whose extension, lower-cased, is one of the twelve registered ones gets that
      extension's loader; a file whose name has no dot is refused. */
  lemma LoaderOfFile(dir: string, stem: string, ext: string)
    requires dir == [] || dir[|dir| - 1] == '/'
    requires stem != [] && '/' !in stem
    requires |ext| >= 2 && ext[0] == '.' && '.' !in ext[1..] && '/' !in ext
    ensures Lower(ext) in ExtensionsToLoaders ==>
      CreateLoader(dir + stem + ext) == Ok(Loader(ExtensionsToLoaders[Lower(ext)], dir + stem + ext))
    ensures Lower(ext) !in ExtensionsToLoaders ==>
      CreateLoader(dir + stem + ext) == Err(UnsupportedFileType + Lower(ext))
  {
    SuffixOfFile(dir, stem, ext);
  }

  /** A name without any dot has an empty suffix. */
  lemma NoDotNoSuffix(dir: string, name: string)
    requires dir == [] || dir[|dir| - 1] == '/'
    requires name != [] && '/' !in name && '.' !in name
    ensures Suffix(dir + name) == []
  {
    assert name[0] != '.';
    BaseNameOf(dir, name);
    assert RFind(name, '.') == -1;
  }

  /** A path whose suffix is empty gets no loader. */
  lemma NoLoaderForEmptySuffix(path: string)
    requires Suffix(path) == []
    ensures CreateLoader(path) == Err(UnsupportedFileType)
  {
    assert Lower(Suffix(path)) == [];
    assert [] !in ExtensionsToLoaders;
    AppendEmpty(UnsupportedFileType);
  }

  /** A name without any dot gets no loader. */
  lemma NoLoaderWithoutDot(dir: string, name: string)
    requires dir == [] || dir[|dir| - 1] == '/'
    requires name != [] && '/' !in name && '.' !in name
    ensures CreateLoader(dir + name) == Err(UnsupportedFileType)
  {
    NoDotNoSuffix(dir, name);
    NoLoaderForEmptySuffix(dir + name);
  }

  const FileScheme: string := "file://"

  /** A `file://` link for a path seen in the container: the path with `CONTAINER_PATH` replaced by `LOCAL_FILES_PATH`. */
  function LinkOf(filePath: string, containerPath: string, localFilesPath: string): string
  {
    FileScheme + Replace(filePath, containerPath, localFilesPath)
  }

  /** A path that starts with the container path, and holds it nowhere else, becomes a link
      under the local path with the rest of the path unchanged. */
  lemma LinkOfContainerFile(containerPath: string, rest: string, localFilesPath: string)
    requires containerPath != []
    requires forall i: nat :: !OccursAt(rest, containerPath, i)
    ensures LinkOf(containerPath + rest, containerPath, localFilesPath) == FileScheme + localFilesPath + rest
  {
    ReplaceLeading(containerPath, rest, localFilesPath);
    ReplaceAbsent(rest, containerPath, localFilesPath);
  }
}
