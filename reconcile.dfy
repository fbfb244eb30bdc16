/**
  The reconciliation loop: visit every record of the collection in order,
  skip the ones that already carry `results`, count the rows of the two
  referenced files of the others, and write `{dnc, clean, total}` back with
  one partial update per record.  A failed update is swallowed; an
  exception raised while reading a record's paths ends the pass.

  The row counter is a parameter `count` (a function from a path to a
  count, e.g. `p => RowCounter.CountCsvRows(p, fetch, parse)`), and the
  store's update failures come from an oracle: the set `failing` of the
  enumeration positions whose update call fails.  The pass itself is
  stated over any per-record iteration `visit` that skips exactly the
  processed records (`Coherent`); `Visitor(count)` is the loop's own.
 */
module Reconcile {
  import opened Documents
  import RowCounter

  /** What one iteration of the loop does with one record: skip it, update
      it with `results` after calling the counter on `calls`, or raise
      after calling the counter on `calls`.  The calls are those on string
      paths; a truthy path that is not a string is handed to the counter
      too, but raises there before doing anything, and is not logged. */
  datatype Visit =
    | Skip
    | Update(results: Results, calls: seq<string>)
    | Raise(calls: seq<string>)

  /** How a pass ended: after the last record, or by an exception escaping
      the loop at enumeration position `at`. */
  datatype PassOutcome = Completed | Aborted(at: nat)

  /** The store after a pass: the records in enumeration order, the paths
      the counter was called on, in call order, the positions whose update
      was attempted, and how the pass ended. */
  datatype Pass = Pass(records: seq<Record>, calls: seq<string>, attempts: seq<nat>, outcome: PassOutcome)

  /** The counter calls made for one path key. */
  function CallsFor(f: PathField): (calls: seq<string>)
    ensures |calls| <= 1
    ensures calls != [] <==> f.Path?
    ensures f.Path? ==> calls == [f.path]
  {
    if f.Path? then [f.path] else []
  }

  /** The count for one path key: zero without a counter call when there
      is no file. */
  function CountFor(f: PathField, count: string -> nat): (n: nat)
    requires !f.Raises?
    ensures f.NoFile? ==> n == 0
    ensures f.Path? ==> n == count(f.path)
  {
    match f
    case NoFile => 0
    case Path(p) => count(p)
  }

  /** One iteration of the loop on record `r` (main.py:70-91). */
  function VisitRecord(r: Record, count: string -> nat): (v: Visit)
    ensures v.Skip? <==> IsProcessed(r)
  {
    if ResultsKey in r.data then Skip
    else
      var blacklisted := FilePath(r.data, BlacklistedKey);
      if blacklisted.Raises? then Raise([])
      else
        var dnc := CountFor(blacklisted, count);
        var clean := FilePath(r.data, CleanKey);
        if clean.Raises? then Raise(CallsFor(blacklisted))
        else
          var cleanCount := CountFor(clean, count);
          Update(Results(dnc, cleanCount, dnc + cleanCount), CallsFor(blacklisted) + CallsFor(clean))
  }

  /** The counter calls a visit made. */
  function VisitCalls(v: Visit): seq<string> {
    if v.Skip? then [] else v.calls
  }

  /** The record after visit `v`: the visit's summary under `results` when
      it is an update whose call succeeds, otherwise the record as it was. */
  function Apply(r: Record, v: Visit, fails: bool): (after: Record)
    ensures after.id == r.id
    ensures IsProcessed(after) <==> IsProcessed(r) || (v.Update? && !fails)
  {
    if v.Update? && !fails then Record(r.id, r.data[ResultsKey := Summary(v.results)]) else r
  }

  /** What one iteration does with an unprocessed record: it raises
      exactly when reading one of the two paths raises (after counting the
      first when only the second raises); otherwise it counts each side, a
      side without a file as zero with no counter call, and sums the two. */
  lemma VisitMeaning(r: Record, count: string -> nat)
    ensures !IsProcessed(r) ==>
      (VisitRecord(r, count).Raise? <==> FilePath(r.data, BlacklistedKey).Raises? || FilePath(r.data, CleanKey).Raises?)
    ensures VisitRecord(r, count).Raise? ==>
      VisitRecord(r, count).calls
      == if FilePath(r.data, BlacklistedKey).Raises? then [] else CallsFor(FilePath(r.data, BlacklistedKey))
    ensures VisitRecord(r, count).Update? ==>
      && VisitRecord(r, count).results.dnc == CountFor(FilePath(r.data, BlacklistedKey), count)
      && VisitRecord(r, count).results.clean == CountFor(FilePath(r.data, CleanKey), count)
      && VisitRecord(r, count).results.total == VisitRecord(r, count).results.dnc + VisitRecord(r, count).results.clean
      && VisitRecord(r, count).calls == CallsFor(FilePath(r.data, BlacklistedKey)) + CallsFor(FilePath(r.data, CleanKey))
  {
  }

  /** Only `results` can change in an iteration; it changes only for an
      update whose call succeeds, and then it holds the visit's summary. */
  lemma ApplyMeaning(r: Record, v: Visit, fails: bool)
    ensures Apply(r, v, fails).id == r.id
    ensures forall k :: k != ResultsKey ==> (k in Apply(r, v, fails).data <==> k in r.data)
    ensures forall k :: k != ResultsKey && k in r.data ==> Apply(r, v, fails).data[k] == r.data[k]
    ensures !v.Update? || fails ==> Apply(r, v, fails) == r
    ensures v.Update? && !fails ==>
      IsProcessed(Apply(r, v, fails)) && Apply(r, v, fails).data[ResultsKey] == Summary(v.results)
  {
  }

  /** A per-record iteration that skips exactly the records that already
      carry `results`, as every iteration of the loop does. */
  ghost predicate Coherent(visit: Record -> Visit) {
    forall r :: visit(r).Skip? <==> IsProcessed(r)
  }

  /** The loop's iteration with `count` as the row counter. */
  function Visitor(count: string -> nat): (visit: Record -> Visit)
    ensures Coherent(visit)
    ensures forall r :: visit(r) == VisitRecord(r, count)
  {
    r => VisitRecord(r, count)
  }

  /** The pass over `recs` with iteration `visit`, whose first record sits
      at enumeration position `base`. */
  function RunPass(recs: seq<Record>, visit: Record -> Visit, failing: set<nat>, base: nat): (p: Pass)
    ensures |p.records| == |recs|
    ensures p.outcome.Aborted? ==> base <= p.outcome.at < base + |recs|
    decreases |recs|
  {
    if recs == [] then Pass([], [], [], Completed)
    else
      var v := visit(recs[0]);
      if v.Raise? then Pass(recs, v.calls, [], Aborted(base))
      else
        Glue([Apply(recs[0], v, base in failing)], VisitCalls(v), if v.Update? then [base] else [],
             RunPass(recs[1..], visit, failing, base + 1))
  }

  /** Prefixes what was done before to the pass over the rest. */
  function Glue(done: seq<Record>, calls: seq<string>, attempts: seq<nat>, rest: Pass): Pass {
    Pass(done + rest.records, calls + rest.calls, attempts + rest.attempts, rest.outcome)
  }

  /** Position of the first record whose iteration raises, or `|recs|`. */
  function FirstRaise(recs: seq<Record>, visit: Record -> Visit): (k: nat)
    ensures k <= |recs|
    ensures k < |recs| ==> visit(recs[k]).Raise?
  {
    if recs == [] then 0
    else if visit(recs[0]).Raise? then 0
    else 1 + FirstRaise(recs[1..], visit)
  }

  /** No record before the first raising one raises. */
  lemma {:induction false} BeforeFirstRaise(recs: seq<Record>, visit: Record -> Visit, i: nat)
    requires i < FirstRaise(recs, visit)
    ensures !visit(recs[i]).Raise?
    decreases |recs|
  {
    if i > 0 {
      BeforeFirstRaise(recs[1..], visit, i - 1);
      assert recs[1..][i - 1] == recs[i];
    }
  }

  /** Glueing two prefixes in turn is glueing their concatenation. */
  lemma GlueTwice(d1: seq<Record>, c1: seq<string>, a1: seq<nat>,
                  d2: seq<Record>, c2: seq<string>, a2: seq<nat>, rest: Pass)
    ensures Glue(d1, c1, a1, Glue(d2, c2, a2, rest)) == Glue(d1 + d2, c1 + c2, a1 + a2, rest)
  {
  }

  /** The loop's bookkeeping across a record at position `i` whose
      iteration does not raise. */
  lemma VisitStep(recs: seq<Record>, i: nat, visit: Record -> Visit, failing: set<nat>,
                  done: seq<Record>, calls: seq<string>, attempts: seq<nat>, whole: Pass)
    requires i < |recs| && !visit(recs[i]).Raise?
    requires Glue(done, calls, attempts, RunPass(recs[i..], visit, failing, i)) == whole
    ensures Glue(done + [Apply(recs[i], visit(recs[i]), i in failing)],
                 calls + VisitCalls(visit(recs[i])),
                 attempts + (if visit(recs[i]).Update? then [i] else []),
                 RunPass(recs[i + 1..], visit, failing, i + 1)) == whole
  {
  }

  /** The loop's bookkeeping when reading the paths of the record at
      position `i` raises. */
  lemma RaiseStep(recs: seq<Record>, i: nat, visit: Record -> Visit, failing: set<nat>,
                  done: seq<Record>, calls: seq<string>, attempts: seq<nat>, whole: Pass)
    requires i < |recs| && visit(recs[i]).Raise?
    requires Glue(done, calls, attempts, RunPass(recs[i..], visit, failing, i)) == whole
    ensures Pass(done + recs[i..], calls + visit(recs[i]).calls, attempts, Aborted(i)) == whole
  {
  }

  /** The array's contents around position `i` when the loop moves past
      it without writing. */
  lemma KeepSlices(cur: seq<Record>, orig: seq<Record>, i: nat)
    requires i < |cur| == |orig| && cur[i..] == orig[i..]
    ensures cur[..i + 1] == cur[..i] + [orig[i]]
    ensures cur[i + 1..] == orig[i + 1..]
  {
  }

  /** The array's contents around position `i` after writing `x` there. */
  lemma WriteSlices(cur: seq<Record>, orig: seq<Record>, i: nat, x: Record)
    requires i < |cur| == |orig| && cur[i..] == orig[i..]
    ensures cur[i := x][..i + 1] == cur[..i] + [x]
    ensures cur[i := x][i + 1..] == orig[i + 1..]
  {
  }

  /** The loop of `process_documents` over the enumerated records `docs`,
      updated in place, with iteration `visit`. */
  method ProcessWith(docs: array<Record>, visit: Record -> Visit, failing: set<nat>)
    returns (calls: seq<string>, attempts: seq<nat>, outcome: PassOutcome)
    modifies docs
    ensures Pass(docs[..], calls, attempts, outcome) == RunPass(old(docs[..]), visit, failing, 0)
  {
    calls, attempts, outcome := [], [], Completed;
    ghost var orig := docs[..];
    ghost var whole := RunPass(orig, visit, failing, 0);
    var i: nat := 0;
    while i < docs.Length
      invariant i <= docs.Length
      invariant docs[i..] == orig[i..]
      invariant Glue(docs[..i], calls, attempts, RunPass(orig[i..], visit, failing, i)) == whole
    {
      ghost var cur := docs[..];
      ghost var done := docs[..i];
      var doc := docs[i];
      assert doc == orig[i] by {
        assert docs[i..][0] == orig[i..][0];
      }
      var v := visit(doc);
      match v {
        case Skip =>
          VisitStep(orig, i, visit, failing, done, calls, attempts, whole);
          KeepSlices(cur, orig, i);
          assert calls + VisitCalls(v) == calls && attempts + [] == attempts;
        case Raise(visited) =>
          RaiseStep(orig, i, visit, failing, done, calls, attempts, whole);
          assert docs[..] == done + orig[i..];
          calls, outcome := calls + visited, Aborted(i);
          return;
        case Update(results, visited) =>
          VisitStep(orig, i, visit, failing, done, calls, attempts, whole);
          // The partial update; a failing one changes nothing and is swallowed.
          if i !in failing {
            docs[i] := Record(doc.id, doc.data[ResultsKey := Summary(results)]);
            WriteSlices(cur, orig, i, docs[i]);
          } else {
            KeepSlices(cur, orig, i);
          }
          calls, attempts := calls + visited, attempts + [i];
      }
      i := i + 1;
    }
    assert docs[..i] == docs[..];
  }

  /** `process_documents`: the loop with the row counter `count`. */
  method ProcessDocuments(docs: array<Record>, count: string -> nat, failing: set<nat>)
    returns (calls: seq<string>, attempts: seq<nat>, outcome: PassOutcome)
    modifies docs
    ensures Pass(docs[..], calls, attempts, outcome) == RunPass(old(docs[..]), Visitor(count), failing, 0)
  {
    calls, attempts, outcome := ProcessWith(docs, Visitor(count), failing);
  }

  /** The pass ends by an exception exactly when some record's iteration
      raises, at the first such record. */
  lemma {:induction false} RunPassOutcome(recs: seq<Record>, visit: Record -> Visit, failing: set<nat>, base: nat)
    ensures RunPass(recs, visit, failing, base).outcome
            == if FirstRaise(recs, visit) < |recs| then Aborted(base + FirstRaise(recs, visit)) else Completed
    decreases |recs|
  {
    if recs != [] && !visit(recs[0]).Raise? {
      RunPassOutcome(recs[1..], visit, failing, base + 1);
    }
  }

  /** Every record before the first raising one is as its own iteration
      leaves it; the raising record and all after it are untouched. */
  lemma {:induction false} RunPassAt(recs: seq<Record>, visit: Record -> Visit, failing: set<nat>, base: nat, i: nat)
    requires i < |recs|
    ensures RunPass(recs, visit, failing, base).records[i]
            == if i < FirstRaise(recs, visit) then Apply(recs[i], visit(recs[i]), base + i in failing) else recs[i]
    decreases |recs|
  {
    var v := visit(recs[0]);
    if !v.Raise? {
      var p := RunPass(recs, visit, failing, base);
      var rest := RunPass(recs[1..], visit, failing, base + 1);
      assert p.records == [Apply(recs[0], v, base in failing)] + rest.records;
      if i > 0 {
        RunPassAt(recs[1..], visit, failing, base + 1, i - 1);
        assert recs[1..][i - 1] == recs[i];
      }
    }
  }

  /** An update is attempted at position `k` exactly when the pass reaches
      it and its record has no `results` yet. */
  lemma {:induction false} AttemptsAre(recs: seq<Record>, visit: Record -> Visit, failing: set<nat>, base: nat, k: nat)
    requires Coherent(visit)
    ensures k in RunPass(recs, visit, failing, base).attempts
            <==> base <= k < base + FirstRaise(recs, visit) && !IsProcessed(recs[k - base])
    decreases |recs|
  {
    if recs != [] && !visit(recs[0]).Raise? {
      AttemptsAre(recs[1..], visit, failing, base + 1, k);
      if base < k < base + FirstRaise(recs, visit) {
        assert recs[1..][k - (base + 1)] == recs[k - base];
      }
    }
  }

  /** Failure isolation: which updates fail changes neither the counter
      calls, nor the updates attempted, nor how the pass ends, and a record
      whose update fails or succeeds alike under both oracles ends the same. */
  lemma {:induction false} FailuresDoNotStopThePass(recs: seq<Record>, visit: Record -> Visit,
                                                    failing1: set<nat>, failing2: set<nat>, base: nat)
    ensures RunPass(recs, visit, failing1, base).calls == RunPass(recs, visit, failing2, base).calls
    ensures RunPass(recs, visit, failing1, base).attempts == RunPass(recs, visit, failing2, base).attempts
    ensures RunPass(recs, visit, failing1, base).outcome == RunPass(recs, visit, failing2, base).outcome
    ensures forall i :: 0 <= i < |recs| && (base + i in failing1 <==> base + i in failing2) ==>
      RunPass(recs, visit, failing1, base).records[i] == RunPass(recs, visit, failing2, base).records[i]
    decreases |recs|
  {
    if recs != [] && !visit(recs[0]).Raise? {
      FailuresDoNotStopThePass(recs[1..], visit, failing1, failing2, base + 1);
    }
    forall i | 0 <= i < |recs| && (base + i in failing1 <==> base + i in failing2)
      ensures RunPass(recs, visit, failing1, base).records[i] == RunPass(recs, visit, failing2, base).records[i]
    {
      RunPassAt(recs, visit, failing1, base, i);
      RunPassAt(recs, visit, failing2, base, i);
    }
  }

  /** A store whose every record already carries `results` is left as it
      is, with no counter call and no update. */
  lemma {:induction false} AllProcessedIsNoOp(recs: seq<Record>, visit: Record -> Visit, failing: set<nat>, base: nat)
    requires Coherent(visit)
    requires forall i :: 0 <= i < |recs| ==> IsProcessed(recs[i])
    ensures RunPass(recs, visit, failing, base) == Pass(recs, [], [], Completed)
    decreases |recs|
  {
    if recs != [] {
      assert IsProcessed(recs[0]);
      forall i | 0 <= i < |recs[1..]|
        ensures IsProcessed(recs[1..][i])
      {
        assert recs[1..][i] == recs[i + 1];
      }
      AllProcessedIsNoOp(recs[1..], visit, failing, base + 1);
      assert [recs[0]] + recs[1..] == recs;
    }
  }

  /** After a pass that ran to its end, a record carries `results` exactly
      when it did before or its update succeeded. */
  lemma CompletedPassMarks(recs: seq<Record>, visit: Record -> Visit, failing: set<nat>, base: nat, i: nat)
    requires Coherent(visit)
    requires i < |recs|
    requires RunPass(recs, visit, failing, base).outcome == Completed
    ensures IsProcessed(RunPass(recs, visit, failing, base).records[i]) <==> IsProcessed(recs[i]) || base + i !in failing
  {
    RunPassOutcome(recs, visit, failing, base);
    RunPassAt(recs, visit, failing, base, i);
    BeforeFirstRaise(recs, visit, i);
    ApplyMeaning(recs[i], visit(recs[i]), base + i in failing);
  }

  /** Idempotence: once a pass has run to its end with every update
      succeeding, a second pass (with any counter and any failures) changes
      nothing, calls no counter and attempts no update. */
  lemma SecondPassIsNoOp(recs: seq<Record>, visit: Record -> Visit, failing: set<nat>,
                         visit2: Record -> Visit, failing2: set<nat>)
    requires Coherent(visit) && Coherent(visit2)
    requires RunPass(recs, visit, failing, 0).outcome == Completed
    requires forall i :: 0 <= i < |recs| ==> i !in failing
    ensures RunPass(RunPass(recs, visit, failing, 0).records, visit2, failing2, 0)
            == Pass(RunPass(recs, visit, failing, 0).records, [], [], Completed)
  {
    var after := RunPass(recs, visit, failing, 0).records;
    forall i | 0 <= i < |after|
      ensures IsProcessed(after[i])
    {
      CompletedPassMarks(recs, visit, failing, 0, i);
    }
    AllProcessedIsNoOp(after, visit2, failing2, 0);
  }

  /** A failed update leaves its record as it was, without `results`. */
  lemma FailedUpdateStaysPending(recs: seq<Record>, visit: Record -> Visit, failing: set<nat>, base: nat, i: nat)
    requires i < FirstRaise(recs, visit) && base + i in failing
    ensures RunPass(recs, visit, failing, base).records[i] == recs[i]
  {
    RunPassAt(recs, visit, failing, base, i);
  }

  /** A record whose update failed is attempted again by a later pass that
      reaches it. */
  lemma FailedUpdateRetried(recs: seq<Record>, visit: Record -> Visit, failing: set<nat>,
                            visit2: Record -> Visit, failing2: set<nat>, i: nat)
    requires Coherent(visit2)
    requires i < FirstRaise(recs, visit) && !IsProcessed(recs[i]) && i in failing
    requires i < FirstRaise(RunPass(recs, visit, failing, 0).records, visit2)
    ensures i in RunPass(RunPass(recs, visit, failing, 0).records, visit2, failing2, 0).attempts
  {
    var after := RunPass(recs, visit, failing, 0).records;
    FailedUpdateStaysPending(recs, visit, failing, 0, i);
    assert !IsProcessed(after[i]);
    AttemptsAre(after, visit2, failing2, 0, i);
  }

  /** Frame: a pass changes no record's identity and no field other than
      `results`. */
  lemma OnlyResultsChange(recs: seq<Record>, visit: Record -> Visit, failing: set<nat>, base: nat, i: nat)
    requires i < |recs|
    ensures RunPass(recs, visit, failing, base).records[i].id == recs[i].id
    ensures forall k :: k != ResultsKey ==>
      (k in RunPass(recs, visit, failing, base).records[i].data <==> k in recs[i].data)
    ensures forall k :: k != ResultsKey && k in recs[i].data ==>
      RunPass(recs, visit, failing, base).records[i].data[k] == recs[i].data[k]
  {
    RunPassAt(recs, visit, failing, base, i);
    ApplyMeaning(recs[i], visit(recs[i]), base + i in failing);
  }

  /** A record that already carries `results` is left untouched, without
      an update attempt. */
  lemma ProcessedUntouched(recs: seq<Record>, visit: Record -> Visit, failing: set<nat>, base: nat, i: nat)
    requires Coherent(visit)
    requires i < |recs| && IsProcessed(recs[i])
    ensures RunPass(recs, visit, failing, base).records[i] == recs[i]
    ensures base + i !in RunPass(recs, visit, failing, base).attempts
  {
    RunPassAt(recs, visit, failing, base, i);
    AttemptsAre(recs, visit, failing, base, base + i);
  }

  /** Aggregate correctness: a record whose update succeeds carries
      `{dnc, clean, total}` with the two sides' counts (zero for a side
      without a file) and their exact sum. */
  lemma WrittenResults(recs: seq<Record>, count: string -> nat, failing: set<nat>, base: nat, i: nat)
    requires i < FirstRaise(recs, Visitor(count)) && !IsProcessed(recs[i]) && base + i !in failing
    ensures !FilePath(recs[i].data, BlacklistedKey).Raises? && !FilePath(recs[i].data, CleanKey).Raises?
    ensures IsProcessed(RunPass(recs, Visitor(count), failing, base).records[i])
    ensures RunPass(recs, Visitor(count), failing, base).records[i].data[ResultsKey]
            == Summary(Results(CountFor(FilePath(recs[i].data, BlacklistedKey), count),
                               CountFor(FilePath(recs[i].data, CleanKey), count),
                               CountFor(FilePath(recs[i].data, BlacklistedKey), count)
                               + CountFor(FilePath(recs[i].data, CleanKey), count)))
  {
    RunPassAt(recs, Visitor(count), failing, base, i);
    BeforeFirstRaise(recs, Visitor(count), i);
    VisitMeaning(recs[i], count);
    ApplyMeaning(recs[i], VisitRecord(recs[i], count), false);
  }

  /** A worked example: an unprocessed record with both paths gets the two
      counts and their sum, with one counter call per path, in key order; with
      its clean path empty, that side counts zero and is not called; with
      both paths empty, nothing is called and every count is zero. */
  lemma ExampleVisits()
    ensures VisitRecord(Record("d1", map[OutputFilesKey := Map(map[BlacklistedKey := Str("gs://b/dnc.csv"),
                                                                  CleanKey := Str("gs://b/clean.csv")])]),
                        p => if p == "gs://b/dnc.csv" then 3 else 2)
            == Update(Results(3, 2, 5), ["gs://b/dnc.csv", "gs://b/clean.csv"])
    ensures VisitRecord(Record("d2", map[OutputFilesKey := Map(map[BlacklistedKey := Str("gs://b/dnc.csv"),
                                                                  CleanKey := Str("")])]),
                        p => if p == "gs://b/dnc.csv" then 3 else 2)
            == Update(Results(3, 0, 3), ["gs://b/dnc.csv"])
    ensures VisitRecord(Record("d3", map[OutputFilesKey := Map(map[BlacklistedKey := Str(""), CleanKey := Str("")])]),
                        p => if p == "gs://b/dnc.csv" then 3 else 2)
            == Update(Results(0, 0, 0), [])
  {
  }

  /** With the row counter on a blob store, the blacklisted side of a record
      whose blacklisted path names a file of a header and `rows` counts
      `|rows|`. */
  lemma CountedFromStore(r: Record, fetch: (string, string) -> RowCounter.Fetch, parse: string -> RowCounter.Parsed,
                         bucket: string, blob: string, header: RowCounter.Row, rows: seq<RowCounter.Row>)
    requires !IsProcessed(r) && !FilePath(r.data, CleanKey).Raises?
    requires FilePath(r.data, BlacklistedKey) == Path(RowCounter.Scheme + bucket + "/" + blob)
    requires '/' !in bucket && blob != ""
    requires fetch(bucket, blob).Text? && fetch(bucket, blob).content != ""
    requires parse(fetch(bucket, blob).content) == RowCounter.Rows([header] + rows)
    ensures VisitRecord(r, p => RowCounter.CountCsvRows(p, fetch, parse)).Update?
    ensures VisitRecord(r, p => RowCounter.CountCsvRows(p, fetch, parse)).results.dnc == |rows|
  {
    VisitMeaning(r, p => RowCounter.CountCsvRows(p, fetch, parse));
    RowCounter.HeaderExcluded(bucket, blob, fetch, parse, header, rows);
  }

  /** Every counter call of a pass comes from a record the pass reached
      (the raising one included) that had no `results`: a processed record
      adds no call. */
  lemma {:induction false} CallsComeFromUnprocessed(recs: seq<Record>, visit: Record -> Visit, failing: set<nat>,
                                                    base: nat, c: string)
    requires Coherent(visit)
    requires c in RunPass(recs, visit, failing, base).calls
    ensures exists i :: 0 <= i < |recs| && i <= FirstRaise(recs, visit) && !IsProcessed(recs[i])
                        && c in VisitCalls(visit(recs[i]))
    decreases |recs|
  {
    var v := visit(recs[0]);
    if v.Raise? || c in VisitCalls(v) {
      assert !IsProcessed(recs[0]) && c in VisitCalls(visit(recs[0]));
    } else {
      CallsComeFromUnprocessed(recs[1..], visit, failing, base + 1, c);
      var j :| 0 <= j < |recs[1..]| && j <= FirstRaise(recs[1..], visit) && !IsProcessed(recs[1..][j])
               && c in VisitCalls(visit(recs[1..][j]));
      assert recs[1..][j] == recs[j + 1];
    }
  }
}
