# Row-count reconciliation of scrub results

A model of the core of `main.py`, a cloud function that goes through a
document collection once. For every document that has no `results` field
yet, it reads two CSV file references from the document's `outputFiles`
mapping:

- `blacklistedFilePath` gives the "do not call" count, `dnc`;
- `cleanFilePath` gives the `clean` count.

It counts the data rows of each referenced file, that is every row but the
header. It then writes `results = {dnc, clean, total = dnc + clean}` back
to the document with one partial update.

The model has four modules:

- `Wrappers`: the option type.
- `RowCounter`: `count_csv_rows`. It checks the `gs://` prefix, splits the
  reference into bucket and blob at the first `/`, fetches the blob, parses
  it as CSV, drops the header and counts the rest. Every failure counts as
  zero.
- `Documents`: the stored records.
  - Field values are dynamically typed, so the model keeps Python's
    truthiness and the cases where reading a path raises.
  - A record is *processed* once its data holds `results`.
- `Reconcile`: the loop.
  - `VisitRecord` is one iteration over one record.
  - `RunPass` is the pass as a recursive specification.
  - `ProcessWith` and `ProcessDocuments` are the in-place loop over an
    array of records. Each is proved equal to `RunPass`.
  - Lemmas state what one pass does and what two passes in a row do.

The outside world becomes parameters:

- The blob download is `fetch: (bucket, blob) -> Fetch`, either `Failed` or
  `Text(content)`. `Failed` stands for every storage-client exception.
- The CSV reader is `parse: text -> Parsed`, either `ParseError` or
  `Rows(rows)`.
- The row counter seen by the loop is `count: path -> nat`. Instantiated
  with `p => RowCounter.CountCsvRows(p, fetch, parse)`, it is the function
  above.
- Whether a document's update call fails is an oracle: `failing`, the set
  of enumeration positions whose update raises.

The pass records four things:

- the records in enumeration order;
- the string paths the counter was called on, in call order (a truthy non-string path also reaches the counter, raises there at once, and is not logged);
- the positions whose update was attempted;
- whether the pass completed, or was aborted by an exception escaping the
  loop at some position.

The code is followed where it differs from the function's description.
Three cases show this:

- A truthy path that is not a string reaches `gs_path.startswith` at
  main.py:18. That line sits before the `try` at main.py:22, so the
  exception escapes `count_csv_rows`, escapes the loop and ends the pass.
  The same holds for a truthy `outputFiles` that is not a mapping: it has
  no `get` (main.py:75, 78, 82). The model makes these readings `Raises`
  and the pass `Aborted`, instead of "any issue returns 0".
- A present but falsy `outputFiles` value, such as `None` or `""`, is also
  not a mapping. Reading a path from it raises too. A summary mapping
  (`{dnc, clean, total}`) held under `outputFiles` is a mapping without the
  path keys, so both sides have no file.
- An empty bucket name is accepted: `gs:///x` names blob `x` in bucket `""`.

## Model

| member | source | states |
|---|---|---|
| RowCounter.Locate | main.py:18-29 | A reference without the `gs://` prefix is rejected. An accepted one is exactly `gs://` + bucket + `/` + blob, where the bucket holds no `/` and the blob is non-empty. |
| RowCounter.SplitOnce | main.py:24 | `split("/", 1)` gives one part, the whole text, exactly when there is no `/`. Otherwise it gives the text before the first `/` and everything after it. |
| RowCounter.RemainingRows | main.py:48 | Counting one per remaining row gives the number of rows. |
| RowCounter.DataRows | main.py:36-49 | A failed download, empty text, a reader error or no rows at all count zero. Otherwise the count is the number of rows minus the header. |
| RowCounter.CountCsvRows | main.py:12-52 | A reference without the `gs://` prefix, or otherwise rejected, counts zero. An accepted one counts the data rows of what is fetched from exactly its bucket and blob. What that count is follows in `HeaderExcluded`, `FailedFetchCountsZero` and `RejectedReferenceIgnoresStore`. |
| RowCounter.LocateRoundTrip | main.py:24-29 | Every `gs://bucket/blob` with a slash-free bucket and a non-empty blob is accepted and split back into exactly those two parts. |
| RowCounter.MissingBlobRejected | main.py:26-29 | A reference with no `/` after the prefix, or with nothing after its first `/`, is rejected. |
| RowCounter.EmptyBucketAccepted | main.py:24-27 | `gs:///x` is accepted, with an empty bucket and blob `x`. |
| RowCounter.HeaderExcluded | main.py:45-49 | A file holding a header and then N rows counts N. A header alone counts 0. |
| RowCounter.FailedFetchCountsZero | main.py:36-52 | A failed download, empty content, a reader error or a reader with no rows count 0. |
| RowCounter.RejectedReferenceIgnoresStore | main.py:18-29 | A rejected reference counts 0 whatever the store and reader hold, so it is never fetched. |
| Documents.Truthy | main.py:79-83 | The empty value of each kind (`None`, `False`, `0`, `""`, `[]`, `{}`) is falsy, and a string is truthy exactly when it is non-empty. |
| Documents.FilePath | main.py:75-83 | A path read from a record is never the empty string. A record without `outputFiles` has no file on either side. The full case split is `FilePathMeaning`. |
| Documents.FilePathMeaning | main.py:75-83 | The path exists exactly when `outputFiles` is a mapping holding a non-empty string under the key. There is no file exactly when `outputFiles` is missing, is a summary mapping (which holds neither path key), or is a mapping whose key is missing or whose value is falsy. Every other case raises. |
| Reconcile.VisitRecord | main.py:70-73 | An iteration skips a record exactly when the record already holds `results`. |
| Reconcile.CountFor | main.py:78-83 | A side without a file counts zero. A side with a path counts what the counter gives for that path. |
| Reconcile.CallsFor | main.py:78-83 | The counter is called at most once per side, exactly when the side has a path, and on that path. |
| Reconcile.VisitMeaning | main.py:75-91 | For an unprocessed record, the iteration raises exactly when reading one of the paths raises. The blacklisted side is counted before the clean side is read. Otherwise `dnc` and `clean` are the two sides' counts and `total == dnc + clean`, with the counter calls made in key order. |
| Reconcile.Apply | main.py:93-97 | The update keeps the record's identifier. Afterwards the record is processed exactly when it was before or the visit was an update whose call succeeded. The field-by-field frame is `ApplyMeaning`. |
| Reconcile.ApplyMeaning | main.py:93-97 | Only `results` can change, and the identifier never does. A skip, a raise or a failed update leaves the record as it was. A successful update stores the visit's summary under `results` and marks the record processed. |
| Reconcile.Visitor | main.py:70-91 | The loop's own iteration skips exactly the processed records. |
| Reconcile.FirstRaise | main.py:69-91 | The position it returns is within the pass. When it falls before the end, the record there raises. |
| Reconcile.RunPass | main.py:69-97 | A pass keeps the number of records. An aborted pass stops at a position inside the records it was given. |
| Reconcile.ProcessWith | main.py:69-97 | The in-place loop leaves the array, the counter calls, the attempted updates and the outcome exactly as `RunPass` specifies. |
| Reconcile.ProcessDocuments | main.py:55-97 | The same, with the row counter as the iteration. |
| Reconcile.RunPassOutcome | main.py:69-91 | A pass is aborted exactly when some record's iteration raises, at the first such record. Otherwise it completes. |
| Reconcile.RunPassAt | main.py:69-97 | Each record before the first raising one is as its own iteration leaves it. The raising record and every record after it are unchanged. |
| Reconcile.AttemptsAre | main.py:71-94 | An update is attempted at a position exactly when the pass reaches it and the record there has no `results`. |
| Reconcile.FailuresDoNotStopThePass | main.py:93-97 | Which updates fail changes neither the counter calls, nor the attempted updates, nor the outcome. Every record whose update fails or succeeds alike under two oracles ends up the same. |
| Reconcile.AllProcessedIsNoOp | main.py:71-73 | A store in which every record holds `results` is left unchanged, with no counter call and no update, and the pass completes. |
| Reconcile.CompletedPassMarks | main.py:71-97 | After a completed pass, a record holds `results` exactly when it held them before or its update succeeded. |
| Reconcile.SecondPassIsNoOp | main.py:69-97 | Once a pass has completed with every update succeeding, a second pass, with any counter and any failures, changes nothing, calls no counter and attempts no update. |
| Reconcile.FailedUpdateStaysPending | main.py:93-97 | A record whose update fails is left exactly as it was. |
| Reconcile.FailedUpdateRetried | main.py:69-97 | A record whose update failed is attempted again by any later pass that reaches it. |
| Reconcile.OnlyResultsChange | main.py:93-94 | A pass changes no record's identifier and no field other than `results`. |
| Reconcile.ProcessedUntouched | main.py:71-73 | A record that already holds `results` is left untouched, and no update is attempted on it. |
| Reconcile.WrittenResults | main.py:78-94 | A record whose update succeeds holds `results == {dnc, clean, total}`. `dnc` and `clean` are the two sides' counts, with zero for a side without a file, and `total` is their exact sum. |
| Reconcile.ExampleVisits | main.py:78-91 | Counts 3 and 2 give the summary (3, 2, 5) with two counter calls. An empty clean path gives (3, 0, 3) with one call. Both paths empty give (0, 0, 0) with no call. |
| Reconcile.CallsComeFromUnprocessed | main.py:71-83 | Every counter call of a pass comes from a record the pass reached, the raising one included, that had no `results`. A processed record adds no call, in a mixed store too. |
| Reconcile.CountedFromStore | main.py:12-79 | With the real row counter, a blacklisted path naming a file of a header and N rows gives `dnc == N`. |

## Left out

- The HTTP entrypoint `main` (main.py:100-111) only calls the pass and maps an escaping exception to status 500. Its outcome is the pass's `Aborted`.
- The storage and document-store clients, the collection name from the environment, and streaming (main.py:31-36, 64-67) are I/O. They become the `fetch` and `parse` parameters, the records array given to the loop, and the `failing` oracle. An error while streaming is not modelled.
- The CSV grammar of `csv.reader` is not modelled. The reader is the `parse` parameter. Only its row sequence, or its failure, matters to the count.
- Logging (main.py:19, 28, 51, 72, 95, 97) has no effect on the result and is not modelled.
- Concurrent writers to the collection are not modelled. The pass sees the records as they were enumerated and is the only writer.
- `to_dict()` returning no mapping for a document is not modelled. A streamed document always has a mapping here.
- Documents.Value: the `results` mapping written by the loop is the constructor `Summary(dnc, clean, total)`, not a three-key string map. The loop never reads it under `results`; only the presence of that key matters to later passes. Should it be held under `outputFiles`, it reads as a mapping without the path keys, as the source's `.get` reads that dict.
- Reconcile.RunPass: an update call's failure is decided by the oracle from the record's enumeration position. What makes a store update fail is not modelled. An update call that raises is taken to have written nothing, although the store could commit an update whose call then raises, for example on a timeout.
