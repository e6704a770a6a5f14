/**
  The aggregate outcome of one extraction run: every file found, the files per
  parser, the error per failed parser, the success flag and the valid/invalid
  counters, which are recomputed from the full file list whenever it changes.
*/
module ParseResults {
  import opened ParsedFiles

  datatype ParseResult = ParseResult(
    allFiles: seq<ParsedFile>,
    parserResults: map<string, seq<ParsedFile>>,
    errors: map<string, string>,
    success: bool,
    totalValidFiles: nat,
    totalInvalidFiles: nat)

  /** The files of `fs` that passed validation, in their original order. */
  function ValidFiles(fs: seq<ParsedFile>): (vs: seq<ParsedFile>)
    ensures |vs| <= |fs|
  {
    if |fs| == 0 then []
    else (if fs[0].isValid then [fs[0]] else []) + ValidFiles(fs[1..])
  }

  /** The files of `fs` that failed validation, in their original order. */
  function InvalidFiles(fs: seq<ParsedFile>): (us: seq<ParsedFile>)
    ensures |us| <= |fs|
  {
    if |fs| == 0 then []
    else (if !fs[0].isValid then [fs[0]] else []) + InvalidFiles(fs[1..])
  }

  /** A file is kept by the valid filter exactly when it is in the list and valid. */
  lemma {:induction false} ValidFilesMembers(fs: seq<ParsedFile>, f: ParsedFile)
    ensures f in ValidFiles(fs) <==> f in fs && f.isValid
  {
    if |fs| > 0 {
      ValidFilesMembers(fs[1..], f);
      assert fs == [fs[0]] + fs[1..];
    }
  }

  /** A file is kept by the invalid filter exactly when it is in the list and invalid. */
  lemma {:induction false} InvalidFilesMembers(fs: seq<ParsedFile>, f: ParsedFile)
    ensures f in InvalidFiles(fs) <==> f in fs && !f.isValid
  {
    if |fs| > 0 {
      InvalidFilesMembers(fs[1..], f);
      assert fs == [fs[0]] + fs[1..];
    }
  }

  /** Filtering commutes with concatenation: the filters keep the files' relative order. */
  lemma FiltersDistribute(a: seq<ParsedFile>, b: seq<ParsedFile>)
    ensures ValidFiles(a + b) == ValidFiles(a) + ValidFiles(b)
    ensures InvalidFiles(a + b) == InvalidFiles(a) + InvalidFiles(b)
  {
    ValidDistributes(a, b);
    InvalidDistributes(a, b);
  }

  lemma {:induction false} ValidDistributes(a: seq<ParsedFile>, b: seq<ParsedFile>)
    ensures ValidFiles(a + b) == ValidFiles(a) + ValidFiles(b)
  {
    if |a| > 0 {
      var ab := a + b;
      assert ab[0] == a[0];
      assert ab[1..] == a[1..] + b;
      ValidDistributes(a[1..], b);
      var head := if a[0].isValid then [a[0]] else [];
      assert ValidFiles(ab) == head + ValidFiles(a[1..] + b);
      assert ValidFiles(a) == head + ValidFiles(a[1..]);
    } else {
      assert a + b == b;
    }
  }

  lemma {:induction false} InvalidDistributes(a: seq<ParsedFile>, b: seq<ParsedFile>)
    ensures InvalidFiles(a + b) == InvalidFiles(a) + InvalidFiles(b)
  {
    if |a| > 0 {
      var ab := a + b;
      assert ab[0] == a[0];
      assert ab[1..] == a[1..] + b;
      InvalidDistributes(a[1..], b);
      var head := if !a[0].isValid then [a[0]] else [];
      assert InvalidFiles(ab) == head + InvalidFiles(a[1..] + b);
      assert InvalidFiles(a) == head + InvalidFiles(a[1..]);
    } else {
      assert a + b == b;
    }
  }

  /** The valid and the invalid files together are exactly the files, counted with multiplicity. */
  lemma {:induction false} FiltersPartition(fs: seq<ParsedFile>)
    ensures multiset(ValidFiles(fs)) + multiset(InvalidFiles(fs)) == multiset(fs)
    ensures |ValidFiles(fs)| + |InvalidFiles(fs)| == |fs|
  {
    if |fs| > 0 {
      FiltersPartition(fs[1..]);
      var v := if fs[0].isValid then [fs[0]] else [];
      var u := if fs[0].isValid then [] else [fs[0]];
      assert ValidFiles(fs) == v + ValidFiles(fs[1..]);
      assert InvalidFiles(fs) == u + InvalidFiles(fs[1..]);
      assert multiset(v) + multiset(u) == multiset{fs[0]};
      assert fs == [fs[0]] + fs[1..];
    }
  }

  /** The counters agree with the file list. */
  predicate CountsConsistent(r: ParseResult) {
    && r.totalValidFiles == |ValidFiles(r.allFiles)|
    && r.totalValidFiles + r.totalInvalidFiles == |r.allFiles|
  }

  /** Recomputes both counters from the current file list. */
  function UpdateCounts(r: ParseResult): (u: ParseResult)
    ensures CountsConsistent(u)
    ensures u.allFiles == r.allFiles && u.parserResults == r.parserResults
    ensures u.errors == r.errors && u.success == r.success
  {
    FiltersPartition(r.allFiles);
    r.(totalValidFiles := |ValidFiles(r.allFiles)|,
       totalInvalidFiles := |r.allFiles| - |ValidFiles(r.allFiles)|)
  }

  /** A result before any parser ran: nothing found, nothing failed, not successful. */
  const Fresh := ParseResult([], map[], map[], false, 0, 0)

  /** Records the files one parser found (a copy, under its type) and refreshes the counters. */
  function AddParserResult(r: ParseResult, parserType: string, files: seq<ParsedFile>): (u: ParseResult)
    ensures CountsConsistent(u)
    ensures u.parserResults == r.parserResults[parserType := files]
    ensures u.allFiles == r.allFiles && u.errors == r.errors && u.success == r.success
  {
    UpdateCounts(r.(parserResults := r.parserResults[parserType := files]))
  }

  /** Records one parser's failure; a later failure of the same parser replaces the earlier message. */
  function AddError(r: ParseResult, parserType: string, message: string): (u: ParseResult)
    ensures u.errors == r.errors[parserType := message]
    ensures u.allFiles == r.allFiles && u.parserResults == r.parserResults && u.success == r.success
    ensures CountsConsistent(r) ==> CountsConsistent(u)
  {
    r.(errors := r.errors[parserType := message])
  }

  /** Replaces the file list and refreshes the counters. */
  function SetAllFiles(r: ParseResult, files: seq<ParsedFile>): (u: ParseResult)
    ensures CountsConsistent(u) && u.allFiles == files
    ensures u.parserResults == r.parserResults && u.errors == r.errors && u.success == r.success
  {
    UpdateCounts(r.(allFiles := files))
  }

  /** The files recorded for a parser type, or none when that type never reported. */
  function FilesByParser(r: ParseResult, parserType: string): (fs: seq<ParsedFile>)
    ensures parserType in r.parserResults ==> fs == r.parserResults[parserType]
    ensures parserType !in r.parserResults ==> fs == []
  {
    if parserType in r.parserResults then r.parserResults[parserType] else []
  }

  predicate HasFiles(r: ParseResult) { |r.allFiles| > 0 }

  predicate HasErrors(r: ParseResult) { |r.errors| > 0 }

  /** Parser types that reported at least one file. */
  function SuccessfulParsers(r: ParseResult): (ks: set<string>)
    ensures ks <= r.parserResults.Keys
    ensures forall k :: k in ks <==> k in r.parserResults && |FilesByParser(r, k)| > 0
  {
    set k | k in r.parserResults && |r.parserResults[k]| > 0
  }

  /** Parser types that reported an error. */
  function FailedParsers(r: ParseResult): (ks: set<string>)
    ensures ks == r.errors.Keys
    ensures |ks| > 0 <==> HasErrors(r)
  {
    r.errors.Keys
  }

  /** A fresh result names no parser among the successful or the failed ones. */
  lemma FreshHasNoParsers()
    ensures SuccessfulParsers(Fresh) == {} && FailedParsers(Fresh) == {}
    ensures forall t :: FilesByParser(Fresh, t) == []
  {
  }

  /** After recording a parser's files, that parser's lookup returns exactly them and every other lookup is unchanged. */
  lemma FilesByParserAfterAdd(r: ParseResult, parserType: string, files: seq<ParsedFile>, t: string)
    ensures t == parserType ==> FilesByParser(AddParserResult(r, parserType, files), t) == files
    ensures t != parserType ==> FilesByParser(AddParserResult(r, parserType, files), t) == FilesByParser(r, t)
  {
  }

  /**
    Recording a parser's files makes it successful exactly when it found some,
    leaves every other parser's standing alone and adds no failure.
  */
  lemma ParsersAfterAdd(r: ParseResult, parserType: string, files: seq<ParsedFile>)
    ensures SuccessfulParsers(AddParserResult(r, parserType, files))
      == (SuccessfulParsers(r) - {parserType}) + (if |files| > 0 then {parserType} else {})
    ensures FailedParsers(AddParserResult(r, parserType, files)) == FailedParsers(r)
  {
    var u := AddParserResult(r, parserType, files);
    var lhs := SuccessfulParsers(u);
    var rhs := (SuccessfulParsers(r) - {parserType}) + (if |files| > 0 then {parserType} else {});
    forall k ensures k in lhs <==> k in rhs {
      FilesByParserAfterAdd(r, parserType, files, k);
    }
  }

  /** Recording a failure adds that parser to the failed ones and leaves the successful ones alone. */
  lemma ParsersAfterError(r: ParseResult, parserType: string, message: string)
    ensures FailedParsers(AddError(r, parserType, message)) == FailedParsers(r) + {parserType}
    ensures SuccessfulParsers(AddError(r, parserType, message)) == SuccessfulParsers(r)
  {
  }
}
