/**
  The row counter: given a `gs://bucket/blob` reference, fetch the file's
  text, read it as CSV, drop the header row and count what is left.  Every
  absent or failing case degrades to a count of zero.

  The blob store and the CSV reader are not modelled: the fetch is a
  parameter giving an outcome per (bucket, blob) pair, and the reader is a
  parameter giving the parsed rows (or a parse failure) per text.
 */
module RowCounter {
  import opened Wrappers

  /** One parsed CSV row: its fields. */
  type Row = seq<string>

  /** What downloading a blob as text produced. `Failed` stands for every
      exception raised by the storage client or the download. */
  datatype Fetch = Failed | Text(content: string)

  /** What reading a text as CSV produced. `ParseError` stands for an
      exception raised while the reader is iterated. */
  datatype Parsed = ParseError | Rows(rows: seq<Row>)

  /** A resolved reference: the bucket and the blob name inside it. */
  datatype Location = Location(bucket: string, blob: string)

  const Scheme: string := "gs://"

  /** Index of the first `c` in `s`, or `|s|` when there is none. */
  function FirstIndexOf(s: string, c: char): (i: nat)
    ensures i <= |s|
    ensures i < |s| ==> s[i] == c
    ensures forall j :: 0 <= j < i ==> s[j] != c
  {
    if s == [] then 0
    else if s[0] == c then 0
    else 1 + FirstIndexOf(s[1..], c)
  }

  /** `s.split(sep, 1)`: the text before the first separator and everything
      after it, or the whole text alone when it holds no separator. */
  function SplitOnce(s: string, sep: char): (parts: seq<string>)
    ensures |parts| == 1 <==> sep !in s
    ensures sep in s ==> |parts| == 2
    ensures |parts| == 1 ==> parts[0] == s
    ensures |parts| == 2 ==> s == parts[0] + [sep] + parts[1] && sep !in parts[0]
  {
    var i := FirstIndexOf(s, sep);
    if i == |s| then [s]
    else
      assert s == s[..i] + [sep] + s[i + 1..];
      [s[..i], s[i + 1..]]
  }

  /** Checks and splits a reference.  `None` when it lacks the `gs://`
      prefix, or when no non-empty blob name follows the first `/`.  The
      bucket may be empty (`gs:///x` is accepted). */
  function Locate(path: string): (loc: Option<Location>)
    ensures !(Scheme <= path) ==> loc.None?
    ensures loc.Some? ==>
      && path == Scheme + loc.value.bucket + "/" + loc.value.blob
      && '/' !in loc.value.bucket
      && loc.value.blob != ""
  {
    if !(Scheme <= path) then None
    else
      var parts := SplitOnce(path[|Scheme|..], '/');
      var bucket := parts[0];
      var blob := if |parts| > 1 then parts[1] else "";
      if blob == "" then None
      else
        assert path[|Scheme|..] == bucket + "/" + blob;
        assert path == Scheme + path[|Scheme|..];
        Some(Location(bucket, blob))
  }

  /** `sum(1 for _ in reader)`: one per row the reader still yields. */
  function RemainingRows(rows: seq<Row>): (n: nat)
    ensures n == |rows|
  {
    if rows == [] then 0 else 1 + RemainingRows(rows[1..])
  }

  /** Rows after the header of what was fetched; zero when the download
      failed, the text is empty, the reader fails or yields no header. */
  function DataRows(fetched: Fetch, parse: string -> Parsed): (n: nat)
    ensures n > 0 ==>
      && fetched.Text? && fetched.content != ""
      && parse(fetched.content).Rows?
      && n == |parse(fetched.content).rows| - 1
    ensures fetched.Text? && fetched.content != "" && parse(fetched.content).Rows?
            && |parse(fetched.content).rows| > 0
            ==> n == |parse(fetched.content).rows| - 1
  {
    match fetched
    case Failed => 0
    case Text(content) =>
      if content == "" then 0
      else
        match parse(content)
        case ParseError => 0
        case Rows(rows) =>
          if rows == [] then 0
          else RemainingRows(rows[1..])
  }

  /** `count_csv_rows`: never fails, a malformed reference counts zero and
      is never fetched; otherwise the count is that of the fetched file at
      the location the reference names. */
  function CountCsvRows(path: string, fetch: (string, string) -> Fetch, parse: string -> Parsed): (n: nat)
    ensures !(Scheme <= path) ==> n == 0
    ensures Locate(path).None? ==> n == 0
    ensures Locate(path).Some? ==>
      n == DataRows(fetch(Locate(path).value.bucket, Locate(path).value.blob), parse)
  {
    match Locate(path)
    case None => 0
    case Some(loc) => DataRows(fetch(loc.bucket, loc.blob), parse)
  }

  /** Every reference of the form `gs://bucket/blob` with a slash-free
      bucket and a non-empty blob name is accepted and split back into
      exactly those two parts; with the contract of `Locate` this makes
      the accepted references exactly these. */
  lemma LocateRoundTrip(bucket: string, blob: string)
    requires '/' !in bucket && blob != ""
    ensures Locate(Scheme + bucket + "/" + blob) == Some(Location(bucket, blob))
  {
    var path := Scheme + bucket + "/" + blob;
    var rest := path[|Scheme|..];
    assert rest == bucket + "/" + blob;
    var i := FirstIndexOf(rest, '/');
    assert rest[|bucket|] == '/';
    assert i == |bucket|;
    assert rest[..i] == bucket;
    assert rest[i + 1..] == blob;
  }

  /** A reference whose text after the prefix holds no slash, or holds its
      first slash as its last character, is rejected. */
  lemma MissingBlobRejected(path: string)
    requires Scheme <= path
    requires FirstIndexOf(path[|Scheme|..], '/') + 1 >= |path[|Scheme|..]|
    ensures Locate(path).None?
  {
  }

  /** The quirk of the source: an empty bucket name is not rejected. */
  lemma EmptyBucketAccepted()
    ensures Locate("gs:///x") == Some(Location("", "x"))
  {
    LocateRoundTrip("", "x");
    assert Scheme + "" + "/" + "x" == "gs:///x";
  }

  /** Header exclusion: a file holding a header and then `rows` counts
      `|rows|` (so a header alone counts zero). */
  lemma {:induction false} HeaderExcluded(bucket: string, blob: string, fetch: (string, string) -> Fetch,
                                          parse: string -> Parsed, header: Row, rows: seq<Row>)
    requires '/' !in bucket && blob != ""
    requires fetch(bucket, blob).Text? && fetch(bucket, blob).content != ""
    requires parse(fetch(bucket, blob).content) == Rows([header] + rows)
    ensures CountCsvRows(Scheme + bucket + "/" + blob, fetch, parse) == |rows|
  {
    LocateRoundTrip(bucket, blob);
  }

  /** Degrade to zero: a well-formed reference counts zero when its
      download fails, its text is empty, the reader fails, or the reader
      yields no row at all. */
  lemma {:induction false} FailedFetchCountsZero(bucket: string, blob: string, fetch: (string, string) -> Fetch,
                                                 parse: string -> Parsed)
    requires '/' !in bucket && blob != ""
    requires fetch(bucket, blob).Failed? || fetch(bucket, blob) == Text("")
             || parse(fetch(bucket, blob).content) == ParseError
             || parse(fetch(bucket, blob).content) == Rows([])
    ensures CountCsvRows(Scheme + bucket + "/" + blob, fetch, parse) == 0
  {
    LocateRoundTrip(bucket, blob);
  }

  /** A rejected reference is never fetched: its count is the same under
      every blob store and every reader. */
  lemma RejectedReferenceIgnoresStore(path: string, fetch1: (string, string) -> Fetch, parse1: string -> Parsed,
                                      fetch2: (string, string) -> Fetch, parse2: string -> Parsed)
    requires Locate(path).None?
    ensures CountCsvRows(path, fetch1, parse1) == CountCsvRows(path, fetch2, parse2) == 0
  {
  }
}
