/**
 * Collection of the download URLs from the rows of the archive's search
 * result: every row whose `fastq_ftp` cell is present and non-empty
 * contributes the pieces of that cell split on `;`, in row order.
 */
module SearchRows {

  import opened Wrappers
  import opened UrlText

  /** One parsed row of the tab-separated search result: column name to cell. */
  type Row = map<string, Option<string>>

  const FastqField: string := "fastq_ftp"

  /** The row has the `fastq_ftp` column, and its cell is neither `None` nor empty. */
  predicate HasFastq(row: Row) {
    FastqField in row && row[FastqField].Some? && row[FastqField].value != []
  }

  /** What one row contributes to the URL list. */
  function RowUrls(row: Row): (r: seq<string>)
    ensures r != [] <==> HasFastq(row)
  {
    if HasFastq(row) then Split(row[FastqField].value, FieldSeparator) else []
  }

  /** The URL list the whole search result yields, accumulated row by row. */
  function CollectUrls(rows: seq<Row>): seq<string> {
    if rows == [] then []
    else CollectUrls(rows[..|rows| - 1]) + RowUrls(rows[|rows| - 1])
  }

  /** The loop of `download_fastq` that extends `fastq_files` row by row. */
  method CollectFastqFiles(rows: seq<Row>) returns (fastqFiles: seq<string>)
    ensures fastqFiles == CollectUrls(rows)
  {
    fastqFiles := [];
    for i := 0 to |rows|
      invariant fastqFiles == CollectUrls(rows[..i])
    {
      var row := rows[i];
      if FastqField in row && row[FastqField].Some? && row[FastqField].value != [] {
        fastqFiles := fastqFiles + Split(row[FastqField].value, FieldSeparator);
      }
      assert rows[..i + 1][..i] == rows[..i];
    }
    assert rows[..|rows|] == rows;
  }

  /** The URL list of concatenated results is the concatenation of their URL lists. */
  lemma {:induction false} CollectUrlsAppend(a: seq<Row>, b: seq<Row>)
    ensures CollectUrls(a + b) == CollectUrls(a) + CollectUrls(b)
  {
    if b != [] {
      var n := |b| - 1;
      assert (a + b)[..|a + b| - 1] == a + b[..n];
      CollectUrlsAppend(a, b[..n]);
    } else {
      assert a + b == a;
    }
  }

  /** Every collected URL comes from the cell of some row, and every piece of every cell is collected. */
  lemma {:induction false} CollectUrlsMembers(rows: seq<Row>, url: string)
    ensures url in CollectUrls(rows) <==> exists i :: 0 <= i < |rows| && url in RowUrls(rows[i])
  {
    if rows != [] {
      var n := |rows| - 1;
      var prefix := rows[..n];
      CollectUrlsMembers(prefix, url);
      assert CollectUrls(rows) == CollectUrls(prefix) + RowUrls(rows[n]);
      assert forall i :: 0 <= i < n ==> prefix[i] == rows[i];
      if url in CollectUrls(prefix) {
        var i :| 0 <= i < n && url in RowUrls(prefix[i]);
        assert url in RowUrls(rows[i]);
      } else if url !in RowUrls(rows[n]) {
        assert forall i :: 0 <= i < n ==> url !in RowUrls(prefix[i]);
      }
    }
  }

  /** No URL is collected exactly when no row carries a non-empty `fastq_ftp` cell. */
  lemma {:induction false} CollectUrlsEmpty(rows: seq<Row>)
    ensures CollectUrls(rows) == [] <==> forall i :: 0 <= i < |rows| ==> !HasFastq(rows[i])
  {
    if rows != [] {
      var n := |rows| - 1;
      CollectUrlsEmpty(rows[..n]);
      assert forall i :: 0 <= i < n ==> rows[..n][i] == rows[i];
    }
  }

  /** No collected URL contains `;`. */
  lemma {:induction false} CollectedUrlsHaveNoSeparator(rows: seq<Row>)
    ensures forall i :: 0 <= i < |CollectUrls(rows)| ==> FieldSeparator !in CollectUrls(rows)[i]
  {
    if rows != [] {
      var n := |rows| - 1;
      CollectedUrlsHaveNoSeparator(rows[..n]);
      var row := rows[n];
      if HasFastq(row) {
        SplitPiecesHaveNoSeparator(row[FastqField].value, FieldSeparator);
      }
    }
  }

  /** Joining a row's URLs with `;` gives back its `fastq_ftp` cell. */
  lemma RowUrlsRoundTrip(row: Row)
    requires HasFastq(row)
    ensures Join(RowUrls(row), FieldSeparator) == row[FastqField].value
    ensures |RowUrls(row)| == Count(row[FastqField].value, FieldSeparator) + 1
  {
    JoinOfSplit(row[FastqField].value, FieldSeparator);
    SplitPieceCount(row[FastqField].value, FieldSeparator);
  }

  /** A cell `a.fastq.gz;b.fastq.gz` yields exactly the two file URLs. */
  lemma TwoFileExample()
    ensures CollectUrls([map[FastqField := Some("a.fastq.gz;b.fastq.gz")]]) == ["a.fastq.gz", "b.fastq.gz"]
  {
    var a, b := "a.fastq.gz", "b.fastq.gz";
    assert FieldSeparator !in a && FieldSeparator !in b;
    assert a + [FieldSeparator] + b == "a.fastq.gz;b.fastq.gz";
    SplitOfJoin([a, b], FieldSeparator);
    assert Join([a, b], FieldSeparator) == a + [FieldSeparator] + b;
    var rows := [map[FastqField := Some("a.fastq.gz;b.fastq.gz")]];
    assert rows[..0] == [];
  }

  /** A missing, `None` or empty `fastq_ftp` cell yields no URL. */
  lemma AbsentFieldExample()
    ensures CollectUrls([map[]]) == []
    ensures CollectUrls([map[FastqField := None]]) == []
    ensures CollectUrls([map[FastqField := Some("")]]) == []
  {
    var r1: seq<Row> := [map[]];
    var r2: seq<Row> := [map[FastqField := None]];
    var r3: seq<Row> := [map[FastqField := Some("")]];
    assert r1[..0] == [] && r2[..0] == [] && r3[..0] == [];
  }
}
