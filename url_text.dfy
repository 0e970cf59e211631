/**
 * The string logic of `download_fastq`: splitting the `fastq_ftp` field on `;`,
 * the scheme normalisation of a download URL, and the POSIX `basename` / `join`
 * that derive the local file name.
 */
module UrlText {

  /** Separator between the URLs of one `fastq_ftp` field. */
  const FieldSeparator: char := ';'
  /** POSIX path separator, used by `basename` and `join`. */
  const PathSeparator: char := '/'
  const FtpPrefix: string := "ftp://"
  const HttpsPrefix: string := "https://"

  predicate StartsWith(s: string, prefix: string) {
    |prefix| <= |s| && s[..|prefix|] == prefix
  }

  predicate EndsWith(s: string, suffix: string) {
    |suffix| <= |s| && s[|s| - |suffix|..] == suffix
  }

  /** Number of occurrences of `c` in `s`. */
  function Count(s: string, c: char): nat {
    if s == [] then 0 else (if s[0] == c then 1 else 0) + Count(s[1..], c)
  }

  // ---------------------------------------------------------------------------
  // str.split(sep) and sep.join(pieces)
  // ---------------------------------------------------------------------------

  /** Python's `s.split(sep)` for a one-character separator: never an empty list. */
  function Split(s: string, sep: char): (r: seq<string>)
    ensures |r| >= 1
  {
    if s == [] then [[]]
    else
      var rest := Split(s[1..], sep);
      if s[0] == sep then [[]] + rest
      else [[s[0]] + rest[0]] + rest[1..]
  }

  /** Python's `sep.join(pieces)`. */
  function Join(pieces: seq<string>, sep: char): string {
    if |pieces| == 0 then []
    else if |pieces| == 1 then pieces[0]
    else pieces[0] + [sep] + Join(pieces[1..], sep)
  }

  /** No piece of a split contains the separator. */
  lemma {:induction false} SplitPiecesHaveNoSeparator(s: string, sep: char)
    ensures forall i :: 0 <= i < |Split(s, sep)| ==> sep !in Split(s, sep)[i]
  {
    if s != [] {
      SplitPiecesHaveNoSeparator(s[1..], sep);
    }
  }

  /** Joining the pieces of a split gives back the original text. */
  lemma {:induction false} JoinOfSplit(s: string, sep: char)
    ensures Join(Split(s, sep), sep) == s
  {
    if s != [] {
      var rest := Split(s[1..], sep);
      JoinOfSplit(s[1..], sep);
      if s[0] == sep {
        assert Join(Split(s, sep), sep) == [] + [sep] + Join(rest, sep);
      } else if |rest| == 1 {
        assert Join(Split(s, sep), sep) == [s[0]] + rest[0];
      } else {
        assert Join(rest, sep) == rest[0] + [sep] + Join(rest[1..], sep);
        assert Join(Split(s, sep), sep) == ([s[0]] + rest[0]) + [sep] + Join(rest[1..], sep);
      }
    }
  }

  /** A split yields one more piece than there are separators. */
  lemma {:induction false} SplitPieceCount(s: string, sep: char)
    ensures |Split(s, sep)| == Count(s, sep) + 1
  {
    if s != [] {
      SplitPieceCount(s[1..], sep);
    }
  }

  lemma {:induction false} SplitWithoutSeparator(p: string, sep: char)
    requires sep !in p
    ensures Split(p, sep) == [p]
  {
    if p != [] {
      SplitWithoutSeparator(p[1..], sep);
      assert [p[0]] + p[1..] == p;
    }
  }

  lemma {:induction false} SplitAfterFirstSeparator(p: string, t: string, sep: char)
    requires sep !in p
    ensures Split(p + [sep] + t, sep) == [p] + Split(t, sep)
  {
    if p == [] {
      assert (p + [sep] + t)[1..] == t;
    } else {
      SplitAfterFirstSeparator(p[1..], t, sep);
      assert (p + [sep] + t)[1..] == p[1..] + [sep] + t;
      assert [p[0]] + p[1..] == p;
    }
  }

  /** Splitting a join of separator-free pieces gives back the pieces. */
  lemma {:induction false} SplitOfJoin(pieces: seq<string>, sep: char)
    requires |pieces| >= 1
    requires forall i :: 0 <= i < |pieces| ==> sep !in pieces[i]
    ensures Split(Join(pieces, sep), sep) == pieces
  {
    if |pieces| == 1 {
      SplitWithoutSeparator(pieces[0], sep);
    } else {
      SplitAfterFirstSeparator(pieces[0], Join(pieces[1..], sep), sep);
      SplitOfJoin(pieces[1..], sep);
      assert [pieces[0]] + pieces[1..] == pieces;
    }
  }

  // ---------------------------------------------------------------------------
  // Scheme normalisation
  // ---------------------------------------------------------------------------

  /** The literal, case-sensitive prefix test of the download loop. */
  predicate HasScheme(url: string) {
    StartsWith(url, FtpPrefix) || StartsWith(url, HttpsPrefix)
  }

  /**
   * A URL that starts with neither `ftp://` nor `https://` gets `https://`
   * prepended; any other scheme (`http://`) is not recognised.
   */
  function Normalize(url: string): (r: string)
    ensures HasScheme(r)
    ensures r == url <==> HasScheme(url)
  {
    if !StartsWith(url, FtpPrefix) && !StartsWith(url, HttpsPrefix) then
      assert (HttpsPrefix + url)[..|HttpsPrefix|] == HttpsPrefix;
      HttpsPrefix + url
    else
      url
  }

  /** Any other URL gets exactly `https://` in front of it. */
  lemma NormalizePrependsHttps(url: string)
    requires !HasScheme(url)
    ensures Normalize(url) == HttpsPrefix + url
  {
  }

  /** Normalising twice is normalising once. */
  lemma NormalizeIdempotent(url: string)
    ensures Normalize(Normalize(url)) == Normalize(url)
  {
  }

  /** A URL without a scheme is requested over `https://`. */
  lemma NormalizeAddsHttps()
    ensures Normalize("ftp.example.org/path/file.fastq.gz") == "https://" + "ftp.example.org/path/file.fastq.gz"
  {
    var url := "ftp.example.org/path/file.fastq.gz";
    assert !StartsWith(url, FtpPrefix) by {
      assert url[3] == '.' != FtpPrefix[3];
      assert url[..|FtpPrefix|][3] == url[3];
    }
    assert !StartsWith(url, HttpsPrefix) by {
      assert url[0] == 'f' != HttpsPrefix[0];
      assert url[..|HttpsPrefix|][0] == url[0];
    }
  }

  /** `http://` is not a recognised prefix, so it is kept behind a new `https://`. */
  lemma NormalizeKeepsHttpQuirk()
    ensures Normalize("http://x") == "https://http://x"
  {
    var url := "http://x";
    assert !StartsWith(url, FtpPrefix) by {
      assert url[0] == 'h' != FtpPrefix[0];
      assert url[..|FtpPrefix|][0] == url[0];
    }
    assert !StartsWith(url, HttpsPrefix) by {
      assert url[4] == ':' != HttpsPrefix[4];
      assert url[..|HttpsPrefix|][4] == url[4];
    }
  }

  /**
   * Normalisation is not injective: a scheme-less URL and the same URL
   * written with `https://` are requested identically.
   */
  lemma NormalizeMergesSpellings(url: string)
    requires !HasScheme(url)
    ensures url != HttpsPrefix + url
    ensures Normalize(url) == Normalize(HttpsPrefix + url)
  {
  }

  // ---------------------------------------------------------------------------
  // posixpath.basename and posixpath.join
  // ---------------------------------------------------------------------------

  /** `s.rfind(c)`: the last index of `c` in `s`, or -1. */
  function LastIndexOf(s: string, c: char): (r: int)
    ensures -1 <= r < |s|
    ensures r == -1 ==> c !in s
    ensures 0 <= r ==> s[r] == c && c !in s[r + 1..]
  {
    if s == [] then -1
    else if s[|s| - 1] == c then |s| - 1
    else
      var r := LastIndexOf(s[..|s| - 1], c);
      assert s == s[..|s| - 1] + [s[|s| - 1]];
      r
  }

  /** `posixpath.basename(p)`: the text after the last `/`, possibly empty. */
  function Basename(p: string): (r: string)
    ensures PathSeparator !in r
    ensures EndsWith(p, r)
    ensures |r| < |p| ==> p[|p| - |r| - 1] == PathSeparator
  {
    p[LastIndexOf(p, PathSeparator) + 1..]
  }

  /** The three properties of `Basename` determine it. */
  lemma BasenameUnique(p: string, t: string)
    requires EndsWith(p, t)
    requires PathSeparator !in t
    requires |t| < |p| ==> p[|p| - |t| - 1] == PathSeparator
    ensures t == Basename(p)
  {
  }

  /**
   * `posixpath.join(dir, name)` for one component: an absolute name replaces
   * the directory; otherwise a `/` is inserted unless `dir` is empty or
   * already ends with one.
   */
  function PathJoin(dir: string, name: string): (r: string)
    ensures StartsWith(name, [PathSeparator]) ==> r == name
    ensures !StartsWith(name, [PathSeparator]) ==>
      StartsWith(r, dir) && (r == dir + name || r == dir + [PathSeparator] + name)
    ensures !StartsWith(name, [PathSeparator]) ==>
      (r == dir + name <==> dir == [] || EndsWith(dir, [PathSeparator]))
    ensures !StartsWith(name, [PathSeparator]) && |r| > |name| ==>
      r[|r| - |name| - 1] == PathSeparator
  {
    if StartsWith(name, [PathSeparator]) then name
    else if dir == [] || EndsWith(dir, [PathSeparator]) then
      assert (dir + name)[..|dir|] == dir;
      assert dir != [] ==> dir[|dir| - 1] == PathSeparator;
      dir + name
    else
      assert (dir + [PathSeparator] + name)[..|dir|] == dir;
      dir + [PathSeparator] + name
  }

  /** A name without `/` is the basename of any directory joined with it. */
  lemma BasenameOfJoin(dir: string, name: string)
    requires PathSeparator !in name
    ensures Basename(PathJoin(dir, name)) == name
  {
  }

  /** The local file for a (normalised) URL: `join(output_dir, basename(url))`. */
  function LocalPath(outputDir: string, url: string): string {
    PathJoin(outputDir, Basename(url))
  }

  /**
   * The local file lies under the output directory, and its own basename is
   * the URL's; with a directory not ending in `/` a separator is inserted.
   */
  lemma LocalPathShape(outputDir: string, url: string)
    ensures Basename(LocalPath(outputDir, url)) == Basename(url)
    ensures StartsWith(LocalPath(outputDir, url), outputDir)
    ensures outputDir != [] && !EndsWith(outputDir, [PathSeparator]) ==>
      LocalPath(outputDir, url) == outputDir + [PathSeparator] + Basename(url)
  {
    var name := Basename(url);
    BasenameOfJoin(outputDir, name);
    assert name != [] ==> name[0] != PathSeparator;
  }

  /** Prepending `https://` never changes the file name derived from a URL. */
  lemma BasenameIgnoresNormalize(url: string)
    ensures Basename(Normalize(url)) == Basename(url)
  {
    var n := Normalize(url);
    if n != url {
      var b := Basename(url);
      assert n == HttpsPrefix + url;
      if |b| < |url| {
        assert n[|n| - |b| - 1] == url[|url| - |b| - 1];
      } else {
        assert n[|n| - |b| - 1] == HttpsPrefix[7];
      }
      assert n[|n| - |b|..] == url[|url| - |b|..];
      BasenameUnique(n, b);
    }
  }

  /** The basename of a URL path is its last segment. */
  lemma BasenameExample()
    ensures Basename("host/vol1/reads_1.fastq.gz") == "reads_1.fastq.gz"
  {
  }

  /** `X`, a separator and a name spell out the literal `X/name`. */
  lemma JoinedLiteral(name: string)
    ensures "X" + [PathSeparator] + name == "X/" + name
  {
  }

  /** Any URL whose last segment is `name` is saved as `X/name` under directory `X`. */
  lemma LocalPathExample(url: string, name: string)
    requires PathSeparator !in name
    requires EndsWith(url, [PathSeparator] + name)
    ensures LocalPath("X", Normalize(url)) == "X/" + name
  {
    assert url[|url| - |name|..] == name && url[|url| - |name| - 1] == PathSeparator;
    BasenameUnique(url, name);
    BasenameIgnoresNormalize(url);
    LocalPathShape("X", Normalize(url));
    JoinedLiteral(name);
  }
}
