/**
 * The download part of `download_fastq`: the search status check, the
 * directory creation, and the loop that requests every collected URL once,
 * in order, writing the streamed body of each 200 response to its local file.
 * The network is an oracle from (attempt number, requested URL) to a response;
 * the file system is a map from path to bytes.
 */
module Download {

  import opened UrlText
  import opened SearchRows

  newtype byte = b: int | 0 <= b < 256
  type Bytes = seq<byte>

  const HttpOk: int := 200

  /** Status of the search request and the rows of its parsed body. */
  datatype SearchResponse = SearchResponse(status: int, rows: seq<Row>)

  /** Status of one download request and the chunks of its streamed body. */
  datatype Response = Response(status: int, chunks: seq<Bytes>)

  /** Answer of the server to the i-th download request, for the URL requested. */
  type Server = (nat, string) -> Response

  /** One download attempt as the loop reports it: URL requested, local path, status. */
  datatype Attempt = Attempt(url: string, path: string, status: int)

  /**
   * How a run ends: the search failed, it found no file, creating the output
   * directory raised, or every file was attempted.
   */
  datatype Outcome = SearchFailed | NoFilesFound | MakeDirsFailed | Completed(attempts: seq<Attempt>)

  /** The bytes a file holds after its chunks were written one after another. */
  function Concat(chunks: seq<Bytes>): Bytes {
    if chunks == [] then [] else Concat(chunks[..|chunks| - 1]) + chunks[|chunks| - 1]
  }

  /** The content of a file does not depend on how the stream was cut into chunks. */
  lemma {:induction false} ConcatAppend(a: seq<Bytes>, b: seq<Bytes>)
    ensures Concat(a + b) == Concat(a) + Concat(b)
  {
    if b == [] {
      assert a + b == a;
    } else {
      var n := |b| - 1;
      assert (a + b)[..|a + b| - 1] == a + b[..n];
      ConcatAppend(a, b[..n]);
    }
  }

  /** `os.makedirs(path, exist_ok=True)` succeeds: the path is not empty and holds no file. */
  predicate CanMakeDirs(files: map<string, Bytes>, path: string) {
    path != [] && path !in files
  }

  /** The local file system: file contents by path, and the directories created. */
  class FileSystem {
    var files: map<string, Bytes>
    var dirs: set<string>

    constructor (files: map<string, Bytes>, dirs: set<string>)
      ensures this.files == files && this.dirs == dirs
    {
      this.files := files;
      this.dirs := dirs;
    }

    /**
     * `os.makedirs(path, exist_ok=True)`: an existing directory is no error,
     * but the empty path and a path holding a file raise, and nothing changes.
     */
    method MakeDirs(path: string) returns (ok: bool)
      modifies this
      ensures ok <==> CanMakeDirs(old(files), path)
      ensures ok ==> dirs == old(dirs) + {path}
      ensures !ok ==> unchanged(this)
      ensures files == old(files)
    {
      ok := CanMakeDirs(files, path);
      if ok {
        dirs := dirs + {path};
      }
    }

    /** `open(path, 'wb')` then one `write` per chunk: the file ends up holding exactly the chunks. */
    method WriteChunks(path: string, chunks: seq<Bytes>)
      modifies this
      ensures files == old(files)[path := Concat(chunks)]
      ensures dirs == old(dirs)
    {
      files := files[path := []];
      for k := 0 to |chunks|
        invariant files == old(files)[path := Concat(chunks[..k])]
        invariant dirs == old(dirs)
      {
        assert chunks[..k + 1][..k] == chunks[..k];
        files := files[path := files[path] + chunks[k]];
      }
      assert chunks[..|chunks|] == chunks;
    }
  }

  // ---------------------------------------------------------------------------
  // Specification of the download loop
  // ---------------------------------------------------------------------------

  /** What the loop derives from one collected URL: the URL it requests and the local file. */
  datatype Target = Target(url: string, path: string)

  /** The scheme-normalised URL, and `join(output_dir, basename(url))` of it. */
  function TargetOf(outputDir: string, url: string): Target {
    var u := Normalize(url);
    Target(u, LocalPath(outputDir, u))
  }

  /** The targets of all collected URLs, in list order. */
  function Targets(urls: seq<string>, outputDir: string): seq<Target> {
    seq(|urls|, i requires 0 <= i < |urls| => TargetOf(outputDir, urls[i]))
  }

  /** The report of attempt number i, made for target t. */
  function AttemptOf(server: Server, i: nat, t: Target): Attempt {
    Attempt(t.url, t.path, server(i, t.url).status)
  }

  /** The attempts the loop reports for `targets`, in order. */
  function Attempts(targets: seq<Target>, server: Server): (r: seq<Attempt>)
    ensures |r| == |targets|
  {
    if targets == [] then []
    else Attempts(targets[..|targets| - 1], server) + [AttemptOf(server, |targets| - 1, targets[|targets| - 1])]
  }

  /** Effect of attempt i on the files: only a 200 response writes, and it replaces the file. */
  function Fetch(files: map<string, Bytes>, server: Server, i: nat, t: Target): map<string, Bytes> {
    var response := server(i, t.url);
    if response.status == HttpOk then files[t.path := Concat(response.chunks)] else files
  }

  /** The files after the loop has attempted every target in order. */
  function FilesAfter(files: map<string, Bytes>, targets: seq<Target>, server: Server): map<string, Bytes> {
    if targets == [] then files
    else Fetch(FilesAfter(files, targets[..|targets| - 1], server), server, |targets| - 1, targets[|targets| - 1])
  }

  /** Attempt i succeeds and writes the file at `path`. */
  predicate WritesAt(targets: seq<Target>, server: Server, i: int, path: string) {
    0 <= i < |targets| && server(i, targets[i].url).status == HttpOk && targets[i].path == path
  }

  /** Attempt i is the last one that writes `path`. */
  predicate LastWriter(targets: seq<Target>, server: Server, i: int, path: string) {
    WritesAt(targets, server, i, path)
    && forall j :: i < j < |targets| ==> !WritesAt(targets, server, j, path)
  }

  /** The body of the response to attempt i. */
  function BodyOf(targets: seq<Target>, server: Server, i: nat): Bytes
    requires i < |targets|
  {
    Concat(server(i, targets[i].url).chunks)
  }

  /** One more iteration of the loop: the prefix of the targets grows by target i. */
  lemma LoopStep(files: map<string, Bytes>, targets: seq<Target>, server: Server, i: nat)
    requires i < |targets|
    ensures FilesAfter(files, targets[..i + 1], server) == Fetch(FilesAfter(files, targets[..i], server), server, i, targets[i])
    ensures Attempts(targets[..i + 1], server) == Attempts(targets[..i], server) + [AttemptOf(server, i, targets[i])]
  {
    assert targets[..i + 1][..i] == targets[..i];
  }

  // ---------------------------------------------------------------------------
  // The driver
  // ---------------------------------------------------------------------------

  /**
   * `download_fastq(run_accession, output_dir)` once the search request is
   * answered: nothing happens unless the search succeeds with at least one
   * URL; then the directory is created and every URL is attempted in order.
   */
  method DownloadFastq(fs: FileSystem, search: SearchResponse, outputDir: string, server: Server)
    returns (outcome: Outcome)
    modifies fs
    ensures search.status != HttpOk ==> outcome == SearchFailed && unchanged(fs)
    ensures search.status == HttpOk && CollectUrls(search.rows) == [] ==>
      outcome == NoFilesFound && unchanged(fs)
    ensures search.status == HttpOk && CollectUrls(search.rows) != [] && !CanMakeDirs(old(fs.files), outputDir) ==>
      outcome == MakeDirsFailed && unchanged(fs)
    ensures search.status == HttpOk && CollectUrls(search.rows) != [] && CanMakeDirs(old(fs.files), outputDir) ==>
      var targets := Targets(CollectUrls(search.rows), outputDir);
      && outcome == Completed(Attempts(targets, server))
      && fs.dirs == old(fs.dirs) + {outputDir}
      && fs.files == FilesAfter(old(fs.files), targets, server)
  {
    if search.status != HttpOk {
      return SearchFailed;
    }
    var fastqFiles := CollectFastqFiles(search.rows);
    if fastqFiles == [] {
      return NoFilesFound;
    }
    var made := fs.MakeDirs(outputDir);
    if !made {
      return MakeDirsFailed;
    }
    ghost var targets := Targets(fastqFiles, outputDir);
    var attempts := [];
    for i := 0 to |fastqFiles|
      invariant fs.files == FilesAfter(old(fs.files), targets[..i], server)
      invariant fs.dirs == old(fs.dirs) + {outputDir}
      invariant attempts == Attempts(targets[..i], server)
    {
      LoopStep(old(fs.files), targets, server, i);
      var fastqUrl := Normalize(fastqFiles[i]);
      var fastqFilename := LocalPath(outputDir, fastqUrl);
      assert targets[i] == Target(fastqUrl, fastqFilename);
      var response := server(i, fastqUrl);
      if response.status == HttpOk {
        fs.WriteChunks(fastqFilename, response.chunks);
      }
      attempts := attempts + [Attempt(fastqUrl, fastqFilename, response.status)];
    }
    assert targets[..|fastqFiles|] == targets;
    outcome := Completed(attempts);
  }

  // ---------------------------------------------------------------------------
  // Properties of the download loop
  // ---------------------------------------------------------------------------

  /** Every target is attempted exactly once, in list order, whatever earlier attempts returned. */
  lemma {:induction false} AttemptsInOrder(targets: seq<Target>, server: Server, i: nat)
    requires i < |targets|
    ensures Attempts(targets, server)[i] == AttemptOf(server, i, targets[i])
  {
    var n := |targets| - 1;
    if i < n {
      AttemptsInOrder(targets[..n], server, i);
      assert targets[..n][i] == targets[i];
    }
  }

  /** Attempt i requests the normalised i-th collected URL and reports its local file and status. */
  lemma EachUrlAttemptedOnce(urls: seq<string>, outputDir: string, server: Server)
    ensures |Attempts(Targets(urls, outputDir), server)| == |urls|
    ensures forall i :: 0 <= i < |urls| ==>
      var u := Normalize(urls[i]);
      Attempts(Targets(urls, outputDir), server)[i] == Attempt(u, LocalPath(outputDir, u), server(i, u).status)
  {
    var targets := Targets(urls, outputDir);
    forall i | 0 <= i < |urls|
      ensures Attempts(targets, server)[i] == AttemptOf(server, i, targets[i])
    {
      AttemptsInOrder(targets, server, i);
    }
  }

  /** The writes of a prefix of the targets are those of the whole list. */
  lemma WritesAtPrefix(targets: seq<Target>, server: Server, i: int, path: string)
    requires targets != [] && i < |targets| - 1
    ensures WritesAt(targets[..|targets| - 1], server, i, path) == WritesAt(targets, server, i, path)
  {
  }

  /**
   * What a path holds after the loop: the body of the last successful
   * attempt that writes it, or else what it held before (possibly nothing).
   */
  lemma {:induction false} FinalContents(files: map<string, Bytes>, targets: seq<Target>, server: Server, path: string)
    ensures (forall i :: 0 <= i < |targets| ==> !WritesAt(targets, server, i, path)) ==>
      (path in FilesAfter(files, targets, server) <==> path in files)
      && (path in files ==> FilesAfter(files, targets, server)[path] == files[path])
    ensures forall i :: 0 <= i < |targets| && LastWriter(targets, server, i, path) ==>
      path in FilesAfter(files, targets, server)
      && FilesAfter(files, targets, server)[path] == BodyOf(targets, server, i)
  {
    if targets != [] {
      var n := |targets| - 1;
      var prefix, last := targets[..n], targets[n];
      var before := FilesAfter(files, prefix, server);
      FinalContents(files, prefix, server, path);
      forall i | 0 <= i < n
        ensures WritesAt(prefix, server, i, path) == WritesAt(targets, server, i, path)
      {
        WritesAtPrefix(targets, server, i, path);
      }
      if WritesAt(targets, server, n, path) {
        assert FilesAfter(files, targets, server) == before[path := BodyOf(targets, server, n)];
      } else {
        var after := FilesAfter(files, targets, server);
        assert after == before || after == before[last.path := BodyOf(targets, server, n)];
        assert (path in after <==> path in before) && (path in before ==> after[path] == before[path]);
        forall i | 0 <= i < n && LastWriter(targets, server, i, path)
          ensures LastWriter(prefix, server, i, path)
        {
        }
      }
    }
  }

  /** Paths are only ever added: no file present before the loop disappears. */
  lemma {:induction false} FilesOnlyGrow(files: map<string, Bytes>, targets: seq<Target>, server: Server)
    ensures files.Keys <= FilesAfter(files, targets, server).Keys
  {
    if targets != [] {
      FilesOnlyGrow(files, targets[..|targets| - 1], server);
    }
  }

  /** A path no successful attempt writes keeps its contents. */
  lemma UntouchedPath(files: map<string, Bytes>, targets: seq<Target>, server: Server, path: string)
    requires path in files
    requires forall i :: 0 <= i < |targets| ==> !WritesAt(targets, server, i, path)
    ensures path in FilesAfter(files, targets, server)
    ensures FilesAfter(files, targets, server)[path] == files[path]
  {
    FinalContents(files, targets, server, path);
  }

  /** A first URL that fails does not stop the second from being downloaded. */
  lemma PartialFailureIndependence(files: map<string, Bytes>, url1: string, url2: string, outputDir: string, server: Server)
    requires server(0, Normalize(url1)).status != HttpOk
    requires server(1, Normalize(url2)).status == HttpOk
    ensures var path := LocalPath(outputDir, Normalize(url2));
      var after := FilesAfter(files, Targets([url1, url2], outputDir), server);
      path in after && after[path] == Concat(server(1, Normalize(url2)).chunks)
  {
  }

  /** A second URL that fails leaves the file the first one downloaded as it was written. */
  lemma FailureKeepsEarlierDownload(files: map<string, Bytes>, url1: string, url2: string, outputDir: string, server: Server)
    requires server(0, Normalize(url1)).status == HttpOk
    requires server(1, Normalize(url2)).status != HttpOk
    ensures var path := LocalPath(outputDir, Normalize(url1));
      var after := FilesAfter(files, Targets([url1, url2], outputDir), server);
      path in after && after[path] == Concat(server(0, Normalize(url1)).chunks)
  {
  }

  /**
   * Two successful attempts whose URLs share a basename write the same local
   * file, which ends up with the body of the later one: the file is
   * overwritten, not appended to. This covers one URL fetched twice.
   */
  lemma LaterWriteWins(files: map<string, Bytes>, url1: string, url2: string, outputDir: string, server: Server)
    requires server(0, Normalize(url1)).status == HttpOk
    requires server(1, Normalize(url2)).status == HttpOk
    requires Basename(url1) == Basename(url2)
    ensures LocalPath(outputDir, Normalize(url1)) == LocalPath(outputDir, Normalize(url2))
    ensures var path := LocalPath(outputDir, Normalize(url2));
      var after := FilesAfter(files, Targets([url1, url2], outputDir), server);
      path in after && after[path] == Concat(server(1, Normalize(url2)).chunks)
  {
    BasenameIgnoresNormalize(url1);
    BasenameIgnoresNormalize(url2);
    var targets := Targets([url1, url2], outputDir);
    var path := LocalPath(outputDir, Normalize(url2));
    FinalContents(files, targets, server, path);
    assert LastWriter(targets, server, 1, path);
  }
}
