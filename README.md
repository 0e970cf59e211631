# ENA_search: the download logic of `download_fastq`, in Dafny

`ENA_search.py` looks up one sequencing run by accession in the archive's
search API. It reads the `fastq_ftp` column of the tab-separated answer and
downloads every listed FASTQ file into an output directory. This project
models what `download_fastq` does with that answer:

- **URL collection** (`search_rows.dfy`, module `SearchRows`). The parsed rows
  are a sequence of maps from column name to an optional cell. Every row whose
  `fastq_ftp` cell is present, not `None` and not empty contributes the
  pieces of that cell split on `;`, in row order. `CollectFastqFiles` is the
  source's loop; `CollectUrls` is its specification.
- **String logic** (`url_text.dfy`, module `UrlText`). This covers Python's
  `str.split`, `str.join` and `str.rfind`. It also covers the case-sensitive
  literal test for `ftp://` / `https://` with `https://` prepended otherwise,
  and POSIX `basename` and `join`.
- **Downloads** (`download.dfy`, module `Download`). The file system is a
  class holding a map from path to bytes and the set of directories created.
  The network is a `Server`, a function from (attempt number, requested URL)
  to a status and a sequence of body chunks. The attempt number lets the
  same URL be answered differently on two requests. `DownloadFastq` is the
  driver after the search request has been answered. It stops with no change
  when the search status is not 200 or no URL was collected. Otherwise it
  creates the directory, which fails for an empty name or a path holding a
  file (`MakeDirsFailed`, nothing downloaded), and runs the download loop. The loop requests each
  URL once, in order. Only a 200 response opens the file, which truncates it,
  and then writes the chunks. A failure never stops the loop.
  `FilesAfter` and `Attempts` specify the loop. The lemmas beside them give
  the final content of every path, partial-failure independence, and
  overwrite on a shared basename.
- `wrappers.dfy` holds the `Option` type for cells that may be `None`.

## Model

| member | source | states |
|---|---|---|
| `SearchRows.CollectUrls` | ENA_search.py:22-26 | the specification of the URL list: the split pieces of every row with a present, non-empty `fastq_ftp` cell, in row order; its properties are stated by `CollectUrlsAppend`, `CollectUrlsMembers`, `CollectUrlsEmpty` and `CollectedUrlsHaveNoSeparator` |
| `SearchRows.CollectFastqFiles` | ENA_search.py:22-26 | the list built by extending `fastq_files` row by row equals `CollectUrls(rows)` |
| `SearchRows.RowUrls` | ENA_search.py:25-26 | a row contributes some URL exactly when its `fastq_ftp` cell is present, not `None` and not empty |
| `SearchRows.CollectUrlsAppend` | ENA_search.py:24-26 | the URLs of concatenated row lists are the concatenation of their URLs, in row order |
| `SearchRows.CollectUrlsMembers` | ENA_search.py:24-26 | a URL is collected if and only if it is a piece of some row's `fastq_ftp` cell |
| `SearchRows.CollectUrlsEmpty` | ENA_search.py:25-28 | the list is empty if and only if no row has a present, non-empty `fastq_ftp` cell |
| `SearchRows.CollectedUrlsHaveNoSeparator` | ENA_search.py:26 | no collected URL contains `;` |
| `SearchRows.RowUrlsRoundTrip` | ENA_search.py:26 | joining a row's URLs with `;` gives back its cell; there are as many URLs as `;` plus one |
| `SearchRows.TwoFileExample` | ENA_search.py:22-26 | the cell `a.fastq.gz;b.fastq.gz` yields exactly `["a.fastq.gz", "b.fastq.gz"]` |
| `SearchRows.AbsentFieldExample` | ENA_search.py:25 | a missing, `None` or empty cell yields no URL |
| `UrlText.Split` | ENA_search.py:26 | `str.split` on one separator never returns an empty list |
| `UrlText.SplitPiecesHaveNoSeparator` | ENA_search.py:26 | no piece of a split contains the separator |
| `UrlText.JoinOfSplit` | ENA_search.py:26 | joining the pieces of a split with the separator gives back the text |
| `UrlText.SplitPieceCount` | ENA_search.py:26 | a split has one more piece than the text has separators |
| `UrlText.SplitOfJoin` | ENA_search.py:26 | splitting the join of separator-free pieces gives back the pieces |
| `UrlText.Normalize` | ENA_search.py:37-38 | the result starts with `ftp://` or `https://`; it equals the input exactly when the input already starts with one of them |
| `UrlText.NormalizePrependsHttps` | ENA_search.py:37-38 | any other input becomes exactly `https://` followed by the input |
| `UrlText.NormalizeIdempotent` | ENA_search.py:37-38 | normalising a normalised URL changes nothing |
| `UrlText.NormalizeAddsHttps` | ENA_search.py:37-38 | `ftp.example.org/path/file.fastq.gz` is requested as `https://ftp.example.org/path/file.fastq.gz` |
| `UrlText.NormalizeKeepsHttpQuirk` | ENA_search.py:37-38 | `http://x` becomes `https://http://x`: the test is a literal prefix test, not scheme parsing |
| `UrlText.NormalizeMergesSpellings` | ENA_search.py:37-38 | a scheme-less URL and the same URL after `https://` are requested identically |
| `UrlText.LastIndexOf` | ENA_search.py:39 | `rfind` gives -1 when the character is absent, or else an index holding it with no later occurrence |
| `UrlText.Basename` | ENA_search.py:39 | the file name contains no `/`, is a suffix of the URL, and is the whole URL or preceded by `/` |
| `UrlText.BasenameUnique` | ENA_search.py:39 | those three properties determine the basename |
| `UrlText.PathJoin` | ENA_search.py:39 | POSIX `join`: an absolute name replaces the directory; otherwise the directory is a prefix and a `/` is inserted exactly when the directory is non-empty and does not end with `/` |
| `UrlText.BasenameOfJoin` | ENA_search.py:39 | a name without `/` is the basename of its join under any directory |
| `UrlText.LocalPath` | ENA_search.py:39 | stands for `os.path.join(output_dir, os.path.basename(fastq_url))`; its shape is stated by `LocalPathShape` and `LocalPathExample` |
| `UrlText.LocalPathShape` | ENA_search.py:39 | the local path starts with the output directory, has the URL's basename, and is `dir + "/" + name` for a directory not ending in `/` |
| `UrlText.BasenameIgnoresNormalize` | ENA_search.py:37-39 | prepending `https://` never changes the derived file name |
| `UrlText.BasenameExample` | ENA_search.py:39 | the basename of `host/vol1/reads_1.fastq.gz` is `reads_1.fastq.gz` |
| `UrlText.LocalPathExample` | ENA_search.py:37-39 | any URL ending in `/` followed by a name without `/` is saved as `X/` followed by that name under directory `X`, whether or not `https://` was prepended |
| `Download.CanMakeDirs` | ENA_search.py:33 | `os.makedirs(path, exist_ok=True)` succeeds exactly when the path is non-empty and is not an existing file |
| `Download.FileSystem.MakeDirs` | ENA_search.py:33 | reports success exactly when `CanMakeDirs`; on success the directory is added and no file changes, on failure nothing changes |
| `Download.Concat` | ENA_search.py:44-45 | the bytes a file holds after its chunks are written in order; `ConcatAppend` states that chunk boundaries do not matter |
| `Download.FileSystem.WriteChunks` | ENA_search.py:43-45 | after opening for binary write and writing every chunk, the file holds exactly the concatenated chunks, whatever it held before; no other path changes |
| `Download.ConcatAppend` | ENA_search.py:44-45 | the written content does not depend on where the stream is cut into chunks |
| `Download.DownloadFastq` | ENA_search.py:18-47 | search status not 200: `SearchFailed`, file system unchanged; no URL: `NoFilesFound`, unchanged; output directory empty or an existing file: `MakeDirsFailed`, unchanged; otherwise the directory is created, the report lists the attempts in order, and the files are `FilesAfter` the loop |
| `Download.TargetOf` | ENA_search.py:37-39 | one loop iteration's URL after scheme normalisation and its local path; `EachUrlAttemptedOnce` and `LaterWriteWins` state what is requested and written |
| `Download.Fetch` | ENA_search.py:41-45 | one attempt's effect on the files: a 200 response replaces the file at the target path with the body, anything else changes nothing; `FinalContents` states the result over the whole loop |
| `Download.FilesAfter` | ENA_search.py:36-47 | the files after every target was fetched in order; `FinalContents`, `FilesOnlyGrow` and `UntouchedPath` state its properties, and `DownloadFastq` is proved to end in it |
| `Download.LoopStep` | ENA_search.py:36-47 | one more iteration applies attempt i to the files and the report after the first i attempts |
| `Download.Attempts` | ENA_search.py:36-47 | the loop reports one attempt per URL |
| `Download.AttemptsInOrder` | ENA_search.py:36-47 | attempt i is made for the i-th target, whatever the earlier attempts returned |
| `Download.EachUrlAttemptedOnce` | ENA_search.py:36-47 | attempt i requests the normalised i-th URL and reports its local path and status |
| `Download.FinalContents` | ENA_search.py:36-47 | a path no 200 attempt writes keeps its presence and contents; otherwise it holds the body of the last 200 attempt that writes it |
| `Download.FilesOnlyGrow` | ENA_search.py:36-47 | no file present before the loop disappears |
| `Download.UntouchedPath` | ENA_search.py:36-47 | a path no 200 attempt writes is left exactly as it was |
| `Download.PartialFailureIndependence` | ENA_search.py:42-47 | when the first of two URLs fails (any status but 200) and the second answers 200, the second file holds the second body |
| `Download.FailureKeepsEarlierDownload` | ENA_search.py:42-47 | when the first of two URLs answers 200 and the second fails, the first file keeps the first body |
| `Download.LaterWriteWins` | ENA_search.py:39-45 | two 200 URLs sharing a basename write the same local file, which ends with the later body: overwrite, not append |

## Left out

- The search request and the download requests, with the endpoint and its query parameters (ENA_search.py:8-17, 41). They are network I/O. The search is modelled by its status and parsed rows, each download by its status and body chunks.
- Tab-separated parsing by `csv.DictReader` over `splitlines` (ENA_search.py:23). It is library behaviour; the model takes the parsed rows as input.
- `os.makedirs` creating missing parent directories (ENA_search.py:33). The model records only the output directory itself. It raises when the directory name is empty or names an existing file; the model stops there with `MakeDirsFailed`, leaving everything unchanged. Other failures of `os.makedirs` are not modelled: a parent that is a file, and permission errors. File writes do not check that a directory exists.
- The 8192-byte chunk size (ENA_search.py:44). Only the chunk sequence is modelled; `ConcatAppend` shows that chunk boundaries do not affect the content.
- The progress and error messages and the final "Download completed." line (ENA_search.py:19, 29, 40, 47, 49). The `Outcome` value records which branch was taken and each attempt's URL, path and status, but not the wording.
- `argparse` and `main` (ENA_search.py:51-61). This is the command-line adapter.
- Uncaught exceptions in the download loop abort the run in Python; in the model every request gets a status from the `Server` and the loop goes on. These exceptions are:
  - timeouts and DNS failures;
  - `requests` refusing a URL. An empty piece of a cell, as in `a;;b` or `a;`, becomes `https://`, which raises an invalid-URL error at ENA_search.py:41 before any response. An `ftp://` URL is refused too, because no adapter handles it;
  - `open` at ENA_search.py:43 failing after a 200 response. This happens for permission errors, or when a URL ends in `/`: the file name is then empty and the local path is the output directory itself. The model instead writes the body under that path.
- Python's `''.split(';')`, which returns `['']`, is modelled by `UrlText.Split` but never reached, because empty cells are skipped.
