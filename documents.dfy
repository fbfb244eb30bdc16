/**
  Records of the document collection as the reconciliation loop sees them:
  an identifier and a field mapping whose values are dynamically typed, as
  in the document store.  The loop reads `outputFiles` and its two path
  keys with the fallbacks and truthiness tests of the source, and writes a
  `results` mapping.
 */
module Documents {

  /** The summary written once per record. */
  datatype Results = Results(dnc: nat, clean: nat, total: nat)

  /** A stored field value.  `Summary` is the mapping
      `{"dnc": dnc, "clean": clean, "total": total}` the loop writes (no
      code reads it back, so its three keys are kept as fields of
      `Results`); `Other` stands for the kinds the loop never inspects
      beyond their truthiness (floats, timestamps, bytes, ...). */
  datatype Value =
    | Null
    | Bool(b: bool)
    | Int(i: int)
    | Str(s: string)
    | List(items: seq<Value>)
    | Map(fields: map<string, Value>)
    | Summary(results: Results)
    | Other(truthy: bool)

  /** A record: the store's identifier and its field mapping. */
  datatype Record = Record(id: string, data: map<string, Value>)

  const ResultsKey: string := "results"
  const OutputFilesKey: string := "outputFiles"
  const BlacklistedKey: string := "blacklistedFilePath"
  const CleanKey: string := "cleanFilePath"

  /** Truthiness of a value, as an `if` on it decides. */
  predicate Truthy(v: Value)
    ensures v in {Null, Bool(false), Int(0), Str(""), List([]), Map(map[])} ==> !Truthy(v)
    ensures v.Str? ==> (Truthy(v) <==> v.s != "")
  {
    match v
    case Null => false
    case Bool(b) => b
    case Int(i) => i != 0
    case Str(s) => s != ""
    case List(items) => items != []
    case Map(fields) => fields != map[]
    case Summary(_) => true
    case Other(t) => t
  }

  /** A record is processed once its data holds a `results` key, whatever
      the value under it. */
  predicate IsProcessed(r: Record) {
    ResultsKey in r.data
  }

  /** How the loop reads one of the two path keys:
      `NoFile` when the path is missing or falsy (its count is zero and the
      row counter is not called), `Path` for a non-empty string, and
      `Raises` when reading it raises: `outputFiles` is not a mapping (it
      has no `get`), or the path is truthy but not a string (the row
      counter's prefix test raises before its `try`). */
  datatype PathField = NoFile | Path(path: string) | Raises

  /** `data.get("outputFiles", {}).get(key, "")`, then the truthiness test
      and the type the row counter needs. */
  function FilePath(data: map<string, Value>, key: string): (f: PathField)
    ensures f.Path? ==> f.path != ""
    ensures OutputFilesKey !in data ==> f.NoFile?
  {
    var files := if OutputFilesKey in data then data[OutputFilesKey] else Map(map[]);
    match files
    case Map(fields) =>
      var v := if key in fields then fields[key] else Str("");
      if !Truthy(v) then NoFile
      else if v.Str? then Path(v.s)
      else Raises
    case Summary(_) => NoFile
    case _ => Raises
  }

  /** What `FilePath` reads: a path exactly when `outputFiles` is a mapping
      holding a non-empty string under `key`; no file exactly when
      `outputFiles` is missing, or is a mapping without `key` or with a
      falsy value under it; otherwise the read raises. */
  lemma FilePathMeaning(data: map<string, Value>, key: string)
    ensures FilePath(data, key).Path? <==>
      && OutputFilesKey in data && data[OutputFilesKey].Map?
      && key in data[OutputFilesKey].fields
      && data[OutputFilesKey].fields[key].Str?
      && data[OutputFilesKey].fields[key].s != ""
    ensures FilePath(data, key).Path? ==> Str(FilePath(data, key).path) == data[OutputFilesKey].fields[key]
    ensures FilePath(data, key).NoFile? <==>
      || OutputFilesKey !in data
      || data[OutputFilesKey].Summary?
      || (data[OutputFilesKey].Map?
          && (key !in data[OutputFilesKey].fields || !Truthy(data[OutputFilesKey].fields[key])))
  {
  }
}
