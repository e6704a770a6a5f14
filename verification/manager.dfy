/**
  The parse manager: a fixed, ordered registry of extractors folded over one reply.
  Every extractor whose pre-check accepts the reply contributes its files, in
  registry order; a failure of one extractor is recorded under its type name and
  the others still run. Which extractor fails, and with what message, is a
  parameter: the extractors themselves are total.

  The fold is written over an arbitrary behaviour per extractor (its pre-check
  answer and its files), so its laws hold whatever the extractors compute;
  `Observe` plugs in the real ones.
*/
module Manager {
  import opened Text
  import opened Optional
  import opened ParsedFiles
  import opened ParseResults
  import opened Parsers

  /** The registered extractors, in the order they run. The TypeScript extractor is not among them. */
  const Registry: seq<Parser> := [Java, React, Css, Html]

  /** What one extractor answers for a reply: its pre-check, and the files it extracts. */
  datatype Behaviour = Behaviour(handles: bool, files: seq<ParsedFile>)

  /** Where an extractor's call fails, and the message it fails with. */
  datatype Fault = CanHandleFails(message: string) | ParseFails(message: string)

  /** What one extractor does to a reply within the fold. */
  datatype Outcome = Declined | Found(files: seq<ParsedFile>) | Failed(message: string)

  /** The real extractors' behaviour on a reply. */
  function Observe(content: string): Parser -> Behaviour
  {
    p => Behaviour(CanHandle(p, content), Parse(p, content))
  }

  /**
    One extractor's turn: a failing pre-check is a failure; a declining pre-check ends
    the turn; otherwise extraction runs, and may itself fail.
  */
  function Run(p: Parser, beh: Parser -> Behaviour, faults: map<Parser, Fault>): (o: Outcome)
    ensures o.Failed? <==> p in faults && (faults[p].CanHandleFails? || beh(p).handles)
    ensures o.Failed? ==> o.message == faults[p].message
    ensures o.Found? <==> p !in faults && beh(p).handles
    ensures o.Found? ==> o.files == beh(p).files
  {
    if p in faults && faults[p].CanHandleFails? then Failed(faults[p].message)
    else if !beh(p).handles then Declined
    else if p in faults then Failed(faults[p].message)
    else Found(beh(p).files)
  }

  /** An extractor that found at least one file, and so gets an entry among the per-extractor results. */
  predicate Reported(o: Outcome) { o.Found? && |o.files| > 0 }

  /** The files an outcome adds to the overall list. */
  function Contribution(o: Outcome): (fs: seq<ParsedFile>)
    ensures |fs| > 0 <==> Reported(o)
    ensures o.Found? ==> fs == o.files
    ensures !o.Found? ==> fs == []
  {
    if o.Found? then o.files else []
  }

  /** The fold: each outcome updates the result and the growing file list. */
  function RunAll(ps: seq<Parser>, beh: Parser -> Behaviour, faults: map<Parser, Fault>,
                  r: ParseResult, acc: seq<ParsedFile>): (ParseResult, seq<ParsedFile>)
    decreases |ps|
  {
    if |ps| == 0 then (r, acc)
    else
      var o := Run(ps[0], beh, faults);
      RunAll(ps[1..], beh, faults, Step(r, ps[0], o), acc + Contribution(o))
  }

  /** The files of a list of extractors, each contributing its own in turn. */
  function Collected(ps: seq<Parser>, beh: Parser -> Behaviour, faults: map<Parser, Fault>): seq<ParsedFile>
  {
    if |ps| == 0 then [] else Contribution(Run(ps[0], beh, faults)) + Collected(ps[1..], beh, faults)
  }

  /** The fold's file list is the accumulated list followed by every contribution, in order. */
  lemma {:induction false} RunAllFiles(ps: seq<Parser>, beh: Parser -> Behaviour, faults: map<Parser, Fault>,
                                       r: ParseResult, acc: seq<ParsedFile>)
    ensures RunAll(ps, beh, faults, r, acc).1 == acc + Collected(ps, beh, faults)
    decreases |ps|
  {
    if |ps| > 0 {
      var o := Run(ps[0], beh, faults);
      RunAllFiles(ps[1..], beh, faults, Step(r, ps[0], o), acc + Contribution(o));
    }
  }

  predicate DistinctTypes(ps: seq<Parser>) {
    forall i, j :: 0 <= i < j < |ps| ==> TypeOf(ps[i]) != TypeOf(ps[j])
  }

  /** What the fold records about extractor `p`: results iff it reported files, an error iff it failed. */
  predicate Recorded(u: ParseResult, p: Parser, o: Outcome) {
    && (TypeOf(p) in u.parserResults <==> Reported(o))
    && (TypeOf(p) in u.parserResults ==> u.parserResults[TypeOf(p)] == o.files)
    && (TypeOf(p) in u.errors <==> o.Failed?)
    && (TypeOf(p) in u.errors ==> u.errors[TypeOf(p)] == o.message)
  }

  /** Key `k` has the same entries in `u` as in `r`. */
  predicate SameEntry(u: ParseResult, r: ParseResult, k: string) {
    && (k in u.parserResults <==> k in r.parserResults)
    && (k in u.parserResults ==> u.parserResults[k] == r.parserResults[k])
    && (k in u.errors <==> k in r.errors)
    && (k in u.errors ==> u.errors[k] == r.errors[k])
  }

  /**
    One outcome's effect on the result: a failure is recorded as an error, reported
    files as that extractor's results; a decline or an empty list changes nothing.
  */
  function Step(r: ParseResult, p: Parser, o: Outcome): (u: ParseResult)
    ensures TypeOf(p) !in r.parserResults && TypeOf(p) !in r.errors ==> Recorded(u, p, o)
    ensures forall k :: k != TypeOf(p) ==> SameEntry(u, r, k)
    ensures u.allFiles == r.allFiles && u.success == r.success
  {
    if o.Failed? then AddError(r, TypeOf(p), o.message)
    else if Reported(o) then AddParserResult(r, TypeOf(p), o.files)
    else r
  }

  /** A record survives steps that leave its key alone. */
  lemma RecordedKept(u: ParseResult, r: ParseResult, p: Parser, o: Outcome)
    requires Recorded(r, p, o) && SameEntry(u, r, TypeOf(p))
    ensures Recorded(u, p, o)
  {
  }

  lemma SameEntryTrans(u: ParseResult, v: ParseResult, r: ParseResult, k: string)
    requires SameEntry(u, v, k) && SameEntry(v, r, k)
    ensures SameEntry(u, r, k)
  {
  }

  /** The type names of a list of extractors. */
  function TypesOf(ps: seq<Parser>): (ts: set<string>)
    ensures forall i :: 0 <= i < |ps| ==> TypeOf(ps[i]) in ts
    ensures forall t :: t in ts ==> exists i :: 0 <= i < |ps| && TypeOf(ps[i]) == t
  {
    set i | 0 <= i < |ps| :: TypeOf(ps[i])
  }

  /**
    With distinct type names not yet present in `r`, the fold records a result entry
    for exactly the extractors that reported files and an error entry for exactly the
    extractors that failed, and leaves every other key alone.
  */
  lemma {:induction false} RunAllRecords(ps: seq<Parser>, beh: Parser -> Behaviour, faults: map<Parser, Fault>,
                                         r: ParseResult, acc: seq<ParsedFile>)
    requires DistinctTypes(ps)
    requires forall i :: 0 <= i < |ps| ==> TypeOf(ps[i]) !in r.parserResults && TypeOf(ps[i]) !in r.errors
    ensures forall i :: 0 <= i < |ps| ==> Recorded(RunAll(ps, beh, faults, r, acc).0, ps[i], Run(ps[i], beh, faults))
    ensures forall k :: k !in TypesOf(ps) ==> SameEntry(RunAll(ps, beh, faults, r, acc).0, r, k)
    decreases |ps|
  {
    if |ps| > 0 {
      var o := Run(ps[0], beh, faults);
      var t := TypeOf(ps[0]);
      var r' := Step(r, ps[0], o);
      var u := RunAll(ps, beh, faults, r, acc).0;
      var rest := ps[1..];
      assert u == RunAll(rest, beh, faults, r', acc + Contribution(o)).0;
      assert forall j :: 0 <= j < |rest| ==> rest[j] == ps[j + 1];
      assert forall j :: 0 <= j < |rest| ==> TypeOf(rest[j]) != t;
      RunAllRecords(rest, beh, faults, r', acc + Contribution(o));
      assert t !in TypesOf(rest);
      assert Recorded(r', ps[0], o);
      assert SameEntry(u, r', t);
      RecordedKept(u, r', ps[0], o);
      forall i | 0 <= i < |ps| ensures Recorded(u, ps[i], Run(ps[i], beh, faults)) {
        if i > 0 {
          assert ps[i] == rest[i - 1];
        }
      }
      assert TypesOf(rest) <= TypesOf(ps) by {
        forall k | k in TypesOf(rest) ensures k in TypesOf(ps) {
          var j :| 0 <= j < |rest| && TypeOf(rest[j]) == k;
          assert TypeOf(ps[j + 1]) == k;
        }
      }
      forall k | k !in TypesOf(ps) ensures SameEntry(u, r, k) {
        assert k != t && k !in TypesOf(rest);
        SameEntryTrans(u, r', r, k);
      }
    }
  }

  // ---------------------------------------------------------------- parse all

  /** The fold over the registry, started from a fresh result; then the full list and the verdict are set. */
  function ParseAllWith(beh: Parser -> Behaviour, faults: map<Parser, Fault>): ParseResult
  {
    var res := RunAll(Registry, beh, faults, Fresh, []);
    SetAllFiles(res.0, res.1).(success := |res.1| > 0)
  }

  /** The full list is every registered extractor's contribution in registry order; success means it is non-empty. */
  lemma ParseAllFiles(beh: Parser -> Behaviour, faults: map<Parser, Fault>)
    ensures CountsConsistent(ParseAllWith(beh, faults))
    ensures ParseAllWith(beh, faults).success <==> |ParseAllWith(beh, faults).allFiles| > 0
    ensures ParseAllWith(beh, faults).allFiles == Collected(Registry, beh, faults)
  {
    RunAllFiles(Registry, beh, faults, Fresh, []);
  }

  /** A registered extractor has a result entry exactly when it reported files and an error entry exactly when it failed. */
  lemma ParseAllRecords(beh: Parser -> Behaviour, faults: map<Parser, Fault>, p: Parser)
    requires p in Registry
    ensures Recorded(ParseAllWith(beh, faults), p, Run(p, beh, faults))
  {
    var u := RunAll(Registry, beh, faults, Fresh, []).0;
    RegistryTypesDistinct();
    RunAllRecords(Registry, beh, faults, Fresh, []);
    var i :| 0 <= i < |Registry| && Registry[i] == p;
    RecordedKept(ParseAllWith(beh, faults), u, p, Run(p, beh, faults));
  }

  /** No key other than a registered type name appears among the results or the errors. */
  lemma ParseAllOnlyRegistered(beh: Parser -> Behaviour, faults: map<Parser, Fault>)
    ensures forall k :: k !in TypesOf(Registry) ==>
      k !in ParseAllWith(beh, faults).parserResults && k !in ParseAllWith(beh, faults).errors
  {
    var u := RunAll(Registry, beh, faults, Fresh, []).0;
    RegistryTypesDistinct();
    RunAllRecords(Registry, beh, faults, Fresh, []);
    forall k | k !in TypesOf(Registry)
      ensures k !in ParseAllWith(beh, faults).parserResults && k !in ParseAllWith(beh, faults).errors
    {
      assert SameEntry(u, Fresh, k);
    }
  }

  /**
    What the result's lookups say about one registered extractor: it is among
    the successful parsers exactly when it reported files, among the failed
    ones exactly when it failed, and its lookup returns what it contributed.
  */
  lemma ParseAllLookups(beh: Parser -> Behaviour, faults: map<Parser, Fault>, p: Parser)
    requires p in Registry
    ensures TypeOf(p) in SuccessfulParsers(ParseAllWith(beh, faults)) <==> Reported(Run(p, beh, faults))
    ensures TypeOf(p) in FailedParsers(ParseAllWith(beh, faults)) <==> Run(p, beh, faults).Failed?
    ensures FilesByParser(ParseAllWith(beh, faults), TypeOf(p)) == (if Reported(Run(p, beh, faults)) then Run(p, beh, faults).files else [])
  {
    ParseAllRecords(beh, faults, p);
  }

  /** The successful and the failed parsers are all registered type names. */
  lemma ParseAllParsersRegistered(beh: Parser -> Behaviour, faults: map<Parser, Fault>)
    ensures SuccessfulParsers(ParseAllWith(beh, faults)) <= TypesOf(Registry)
    ensures FailedParsers(ParseAllWith(beh, faults)) <= TypesOf(Registry)
  {
    ParseAllOnlyRegistered(beh, faults);
  }

  /** The registered type names are pairwise distinct. */
  lemma RegistryTypesDistinct()
    ensures DistinctTypes(Registry)
  {
  }

  /** Every registered extractor runs on the reply: the fold over the real extractors' behaviour. */
  function ParseAll(content: string, faults: map<Parser, Fault>): ParseResult
  {
    ParseAllWith(Observe(content), faults)
  }

  /** An extractor contributes exactly when it has no fault and its pre-check accepts the reply, and then with its own files. */
  lemma ObservedRun(content: string, faults: map<Parser, Fault>, p: Parser)
    ensures Run(p, Observe(content), faults).Found? <==> p !in faults && CanHandle(p, content)
    ensures Run(p, Observe(content), faults).Found? ==> Run(p, Observe(content), faults).files == Parse(p, content)
    ensures Run(p, Observe(content), faults).Failed? <==>
      p in faults && (faults[p].CanHandleFails? || CanHandle(p, content))
  {
    ObserveApplies(content, p);
  }

  lemma ObserveApplies(content: string, p: Parser)
    ensures Observe(content)(p).handles == CanHandle(p, content)
    ensures Observe(content)(p).files == Parse(p, content)
  {
  }

  /** A fault in one extractor changes nothing that is recorded about another. */
  lemma FaultIsolation(beh: Parser -> Behaviour, faults: map<Parser, Fault>, q: Parser, f: Fault, p: Parser)
    requires p in Registry && p != q
    ensures SameEntry(ParseAllWith(beh, faults[q := f]), ParseAllWith(beh, faults), TypeOf(p))
  {
    var o := Run(p, beh, faults);
    assert Run(p, beh, faults[q := f]) == o;
    ParseAllRecords(beh, faults[q := f], p);
    ParseAllRecords(beh, faults, p);
  }

  /** Without faults nothing is recorded as an error. */
  lemma NoFaultsNoErrors(beh: Parser -> Behaviour)
    ensures ParseAllWith(beh, map[]).errors == map[]
  {
    var r := ParseAllWith(beh, map[]);
    ParseAllOnlyRegistered(beh, map[]);
    forall k | k in TypesOf(Registry) ensures k !in r.errors {
      var i :| 0 <= i < |Registry| && TypeOf(Registry[i]) == k;
      ParseAllRecords(beh, map[], Registry[i]);
    }
    assert r.errors.Keys == {};
  }

  // ---------------------------------------------------------------- one named extractor

  /** The first extractor of `ps` whose type name matches `name` up to case. */
  function FindParser(ps: seq<Parser>, name: string): (o: Option<Parser>)
    ensures o.Some? ==> o.value in ps && EqualsIgnoreCase(TypeOf(o.value), name)
    ensures o.None? <==> forall i :: 0 <= i < |ps| ==> !EqualsIgnoreCase(TypeOf(ps[i]), name)
  {
    if |ps| == 0 then None
    else if EqualsIgnoreCase(TypeOf(ps[0]), name) then Some(ps[0])
    else FindParser(ps[1..], name)
  }

  /** Each registered extractor is found under its own type name, in any case. */
  lemma FindsRegistered(p: Parser, name: string)
    requires p in Registry && EqualsIgnoreCase(TypeOf(p), name)
    ensures FindParser(Registry, name) == Some(p)
  {
    var q := FindParser(Registry, name).value;
    assert FindParser(Registry, name).Some?;
    if q != p {
      TypesDistinct(p, q);
      assert false;
    }
  }

  /** The unregistered TypeScript extractor cannot be asked for by name. */
  lemma TypeScriptNotFound(name: string)
    requires EqualsIgnoreCase(name, TypeOf(TypeScript))
    ensures FindParser(Registry, name).None?
  {
    forall i | 0 <= i < |Registry| ensures !EqualsIgnoreCase(TypeOf(Registry[i]), name) {
      TypesDistinct(Registry[i], TypeScript);
    }
  }

  const NotFoundKey := "Manager"

  function NotFoundMessage(name: string): string {
    "Parser type '" + name + "' not found"
  }

  /** What asking for one extractor by name comes to: no such extractor, a failed extraction, or its files. */
  datatype Attempt = Missing | Threw(message: string) | Gave(files: seq<ParsedFile>)

  /**
    The extractor the lookup found is run without its pre-check, so only a fault in
    extraction itself makes the attempt fail.
  */
  function AttemptOf(found: Option<Parser>, beh: Parser -> Behaviour, faults: map<Parser, Fault>): (a: Attempt)
    ensures a.Missing? <==> found.None?
    ensures a.Threw? <==> found.Some? && found.value in faults && faults[found.value].ParseFails?
    ensures a.Threw? ==> a.message == faults[found.value].message
    ensures a.Gave? ==> a.files == beh(found.value).files
  {
    match found
    case None => Missing
    case Some(p) =>
      if p in faults && faults[p].ParseFails? then Threw(faults[p].message) else Gave(beh(p).files)
  }

  /**
    The result of one attempt: its files, also recorded under `name` as given (even
    when empty), or one error — under the manager's own key when nothing was found.
  */
  function Report(name: string, a: Attempt): (r: ParseResult)
    ensures CountsConsistent(r)
    ensures r.success <==> |r.allFiles| > 0
    ensures a.Missing? ==>
      r.allFiles == [] && r.parserResults == map[] && r.errors == map[NotFoundKey := NotFoundMessage(name)]
    ensures a.Threw? ==> r.allFiles == [] && r.parserResults == map[] && r.errors == map[name := a.message]
    ensures a.Gave? ==> r.allFiles == a.files && r.parserResults == map[name := a.files] && r.errors == map[]
  {
    match a
    case Missing => AddError(Fresh, NotFoundKey, NotFoundMessage(name))
    case Threw(m) => AddError(Fresh, name, m)
    case Gave(files) => AddParserResult(SetAllFiles(Fresh, files), name, files).(success := |files| > 0)
  }

  /** The extractor named `name`, matched up to case, run on its own. */
  function ParseWithSpecificParserWith(name: string, beh: Parser -> Behaviour, faults: map<Parser, Fault>): ParseResult
  {
    Report(name, AttemptOf(FindParser(Registry, name), beh, faults))
  }

  function ParseWithSpecificParser(content: string, name: string, faults: map<Parser, Fault>): ParseResult
  {
    ParseWithSpecificParserWith(name, Observe(content), faults)
  }

  /** Asking for a registered extractor by its own type name gives exactly its files. */
  lemma SpecificParserRunsIt(beh: Parser -> Behaviour, faults: map<Parser, Fault>, p: Parser)
    requires p in Registry && p !in faults
    ensures ParseWithSpecificParserWith(TypeOf(p), beh, faults).allFiles == beh(p).files
  {
    FindsRegistered(p, TypeOf(p));
  }

  // ---------------------------------------------------------------- registry queries

  /** The type names of `ps`, in order. */
  function TypeNames(ps: seq<Parser>): (ts: seq<string>)
    ensures |ts| == |ps|
    ensures forall i :: 0 <= i < |ps| ==> ts[i] == TypeOf(ps[i])
  {
    if |ps| == 0 then [] else [TypeOf(ps[0])] + TypeNames(ps[1..])
  }

  function AvailableParserTypes(): seq<string> {
    TypeNames(Registry)
  }

  /** The registered types, in registry order; "TypeScript" is not one of them. */
  lemma AvailableTypes()
    ensures AvailableParserTypes() == ["Java", "React/TypeScript", "CSS", "HTML"]
    ensures "TypeScript" !in AvailableParserTypes()
  {
    assert AvailableParserTypes() == ["Java", "React/TypeScript", "CSS", "HTML"];
  }

  /** `a` is `b` with some elements left out, the rest in order. */
  predicate IsSubsequence(a: seq<string>, b: seq<string>)
    decreases |b|
  {
    if |a| == 0 then true
    else if |b| == 0 then false
    else (a[0] == b[0] && IsSubsequence(a[1..], b[1..])) || IsSubsequence(a, b[1..])
  }

  /** The type names of the extractors of `ps` whose pre-check accepts, in order. */
  function DetectFrom(ps: seq<Parser>, beh: Parser -> Behaviour): (ts: seq<string>)
    ensures forall t :: t in ts <==> exists i :: 0 <= i < |ps| && beh(ps[i]).handles && TypeOf(ps[i]) == t
    ensures IsSubsequence(ts, TypeNames(ps))
  {
    if |ps| == 0 then []
    else
      var rest := DetectFrom(ps[1..], beh);
      assert forall i :: 0 < i < |ps| ==> ps[i] == ps[1..][i - 1];
      assert TypeNames(ps)[1..] == TypeNames(ps[1..]);
      if beh(ps[0]).handles then
        assert ([TypeOf(ps[0])] + rest)[1..] == rest;
        [TypeOf(ps[0])] + rest
      else rest
  }

  function DetectApplicableParsersWith(beh: Parser -> Behaviour): (ts: seq<string>)
    ensures forall t :: t in ts <==> exists p :: p in Registry && beh(p).handles && TypeOf(p) == t
    ensures IsSubsequence(ts, AvailableParserTypes())
  {
    DetectFrom(Registry, beh)
  }

  function DetectApplicableParsers(content: string): seq<string> {
    DetectApplicableParsersWith(Observe(content))
  }

  /** An extractor whose files are in the result of a full run is one that detection lists. */
  lemma ReportedAreDetected(beh: Parser -> Behaviour, faults: map<Parser, Fault>, p: Parser)
    requires p in Registry && TypeOf(p) in ParseAllWith(beh, faults).parserResults
    ensures TypeOf(p) in DetectApplicableParsersWith(beh)
  {
    ParseAllRecords(beh, faults, p);
    assert Recorded(ParseAllWith(beh, faults), p, Run(p, beh, faults));
  }

  /** What the manager tells about one extractor. */
  datatype ParserInfo = ParserInfo(kind: string, supportedExtensions: string, className: string)

  function InfoOf(p: Parser): ParserInfo {
    ParserInfo(TypeOf(p), Join(ExtensionsOf(p), ", "), ClassName(p))
  }

  /** One entry per registered extractor, in registry order. */
  function ParserInformation(): (infos: seq<ParserInfo>)
    ensures |infos| == |Registry|
    ensures forall i :: 0 <= i < |Registry| ==> infos[i] == InfoOf(Registry[i])
  {
    seq(|Registry|, i requires 0 <= i < |Registry| => InfoOf(Registry[i]))
  }

  /** The information lists the available types, in the same order. */
  lemma InformationMatchesTypes()
    ensures forall i :: 0 <= i < |Registry| ==> ParserInformation()[i].kind == AvailableParserTypes()[i]
  {
  }
}
