/**
  The regex-driven analysis of one Java source text (`CodeAnalyzer.java`):
  whether it carries a Spring stereotype, the annotations and imports it
  mentions, the first type it declares, and the endpoints its mapping
  annotations describe. Each `Matcher.find()` loop is a scan that tries every
  index in turn and, after a match, resumes just past it.
*/
module CodeAnalyzer {
  import opened Text
  import opened Optional
  import opened Patterns
  import JavaParser
  import ProjectAnalyzer

  // ---------------------------------------------------------------------------
  // Spring stereotypes

  const SpringAnnotations: seq<string> :=
    ["@SpringBootApplication", "@RestController", "@Controller", "@Service",
     "@Repository", "@Component", "@Configuration"]

  /** The code mentions one of the Spring stereotype annotations. */
  predicate SpringBoot(code: string) {
    exists k :: 0 <= k < |SpringAnnotations| && Contains(code, SpringAnnotations[k])
  }

  /** The annotations tried in order, stopping at the first the code contains. */
  method IsSpringBootClass(code: string) returns (b: bool)
    ensures b <==> SpringBoot(code)
  {
    var i := 0;
    while i < |SpringAnnotations|
      invariant i <= |SpringAnnotations|
      invariant forall j :: 0 <= j < i ==> !Contains(code, SpringAnnotations[j])
    {
      if Contains(code, SpringAnnotations[i]) {
        return true;
      }
      i := i + 1;
    }
    return false;
  }

  /**
    Every stereotype the project analysis names, except "Entity", is a Spring
    one: code it files as a controller, service, repository or configuration
    is a Spring class.
  */
  lemma StereotypesAreSpring(code: string)
    requires ProjectAnalyzer.DetermineFileType(code) in {"Controller", "Service", "Repository", "Configuration"}
    ensures SpringBoot(code)
  {
    var kind := ProjectAnalyzer.DetermineFileType(code);
    var order := ProjectAnalyzer.FileTypeOrder;
    var i := if kind == "Controller" then 0 else if kind == "Service" then 1 else if kind == "Repository" then 2 else 4;
    assert order[i] == kind;
    assert JavaParser.Marked(code, kind);
    if kind == "Controller" {
      if Contains(code, "@RestController") {
        assert SpringAnnotations[1] == "@RestController";
      } else {
        assert SpringAnnotations[2] == "@Controller";
      }
    } else if kind == "Service" {
      assert SpringAnnotations[3] == "@Service";
    } else if kind == "Repository" {
      assert SpringAnnotations[4] == "@Repository";
    } else {
      assert SpringAnnotations[6] == "@Configuration";
    }
  }

  /**
    Code with an entity annotation and none of the Spring ones is filed as an
    entity yet is no Spring class: the analysis's "Entity" label does not
    imply a Spring stereotype.
  */
  lemma EntityIsNotSpring(code: string)
    requires Contains(code, "@Entity")
    requires forall k :: 0 <= k < |SpringAnnotations| ==> !Contains(code, SpringAnnotations[k])
    ensures ProjectAnalyzer.DetermineFileType(code) == "Entity"
    ensures !SpringBoot(code)
  {
    assert SpringAnnotations[1] == "@RestController" && SpringAnnotations[2] == "@Controller";
    assert SpringAnnotations[3] == "@Service" && SpringAnnotations[4] == "@Repository";
  }

  /** Such code exists: "@Entity" on its own. */
  lemma EntityAloneIsNotSpring()
    ensures ProjectAnalyzer.DetermineFileType("@Entity") == "Entity"
    ensures !SpringBoot("@Entity")
  {
    var code := "@Entity";
    forall k | 0 <= k < |SpringAnnotations| ensures !Contains(code, SpringAnnotations[k]) {
      assert |SpringAnnotations[k]| > |code|;
    }
    assert OccursAt(code, "@Entity", 0);
    assert !Contains(code, "@RestController") && !Contains(code, "@Controller");
    assert !Contains(code, "@Service") && !Contains(code, "@Repository");
  }

  // ---------------------------------------------------------------------------
  // Annotations: the matches of `@(\w+)`

  /** The word of the annotation written at `j`: an '@' and the longest run of word characters after it. */
  predicate AnnotationAt(s: string, j: nat, a: string) {
    j < |s| && s[j] == '@' && Run(s, j + 1, IsWordChar) > 0 && a == s[j + 1..j + 1 + Run(s, j + 1, IsWordChar)]
  }

  /** The annotation words found scanning from `i`, each search resuming after the previous match. */
  function AnnotationsFrom(s: string, i: nat): (as_: set<string>)
    requires i <= |s|
    ensures forall a :: a in as_ ==> IsWord(a)
    decreases |s| - i
  {
    if i == |s| then {}
    else if s[i] == '@' && Run(s, i + 1, IsWordChar) > 0 then
      var e := i + 1 + Run(s, i + 1, IsWordChar);
      RunIsWord(s, i + 1);
      {s[i + 1..e]} + AnnotationsFrom(s, e)
    else AnnotationsFrom(s, i + 1)
  }

  function Annotations(code: string): set<string> {
    AnnotationsFrom(code, 0)
  }

  /** Whatever the scan collects is the word of some annotation at or after `i`. */
  lemma {:induction false} AnnotationFound(s: string, i: nat, a: string) returns (j: nat)
    requires i <= |s| && a in AnnotationsFrom(s, i)
    ensures i <= j && AnnotationAt(s, j, a)
    decreases |s| - i
  {
    if s[i] == '@' && Run(s, i + 1, IsWordChar) > 0 {
      var e := i + 1 + Run(s, i + 1, IsWordChar);
      if a == s[i + 1..e] {
        j := i;
      } else {
        j := AnnotationFound(s, e, a);
      }
    } else {
      j := AnnotationFound(s, i + 1, a);
    }
  }

  /** Every annotation at or after `i` is collected: the scan never skips an '@'. */
  lemma {:induction false} AnnotationCollected(s: string, i: nat, j: nat, a: string)
    requires i <= j && AnnotationAt(s, j, a)
    ensures a in AnnotationsFrom(s, i)
    decreases |s| - i
  {
    if i < j {
      if s[i] == '@' && Run(s, i + 1, IsWordChar) > 0 {
        var e := i + 1 + Run(s, i + 1, IsWordChar);
        assert !IsWordChar(s[j]);
        AnnotationCollected(s, e, j, a);
      } else {
        AnnotationCollected(s, i + 1, j, a);
      }
    }
  }

  /** The set of annotations is exactly the words written after an '@', each once however often it appears. */
  lemma AnnotationsExact(code: string, a: string)
    ensures a in Annotations(code) <==> exists j :: AnnotationAt(code, j, a)
  {
    if a in Annotations(code) {
      var j := AnnotationFound(code, 0, a);
    }
    if exists j :: AnnotationAt(code, j, a) {
      var j :| AnnotationAt(code, j, a);
      AnnotationCollected(code, 0, j, a);
    }
  }

  // ---------------------------------------------------------------------------
  // Imports: the matches of `import\s+([\w\.]+);`

  predicate IsImportChar(c: char) { IsWordChar(c) || c == '.' }

  /**
    The imported name matched at `i`, with the index just after its ';'. The
    classes of the three runs are disjoint, so the greedy runs are the only
    way to match.
  */
  function ImportMatch(s: string, i: nat): (r: Option<(string, nat)>)
    requires i <= |s|
    ensures r.Some? ==> i < r.value.1 <= |s| && OccursAt(s, "import", i) && |r.value.0| > 0
    ensures r.Some? ==> forall k :: 0 <= k < |r.value.0| ==> IsImportChar(r.value.0[k])
  {
    if !OccursAt(s, "import", i) then None
    else
      var b := i + 6 + Run(s, i + 6, IsRegexSpace);
      var e := b + Run(s, b, IsImportChar);
      if b > i + 6 && e > b && e < |s| && s[e] == ';' then
        assert forall k :: 0 <= k < e - b ==> s[b..e][k] == s[b + k];
        Some((s[b..e], e + 1))
      else None
  }

  function ImportsFrom(s: string, i: nat): (ws: set<string>)
    requires i <= |s|
    decreases |s| - i
  {
    if i == |s| then {}
    else match ImportMatch(s, i)
      case Some((w, e)) => {w} + ImportsFrom(s, e)
      case None => ImportsFrom(s, i + 1)
  }

  function Imports(code: string): set<string> {
    ImportsFrom(code, 0)
  }

  /** An import statement at `j` names `w`. */
  predicate ImportAt(s: string, j: nat, w: string) {
    j <= |s| && ImportMatch(s, j).Some? && ImportMatch(s, j).value.0 == w
  }

  /** The letters of the keyword: word characters, only the first an 'i'. */
  lemma ImportLetters(k: nat)
    requires k < 6
    ensures IsWordChar("import"[k]) && (k > 0 ==> "import"[k] != 'i')
  {
    var w := "import";
    assert w[0] == 'i' && w[1] == 'm' && w[2] == 'p' && w[3] == 'o' && w[4] == 'r' && w[5] == 't';
  }

  /** "import" cannot start at a character other than 'i'. */
  lemma NotAtOtherLetter(s: string, j: nat)
    requires j < |s| && s[j] != 'i'
    ensures ImportMatch(s, j).None?
  {
  }

  /** Nor where it would run into a ';'. */
  lemma NotAcrossSemicolon(s: string, j: nat, e: nat)
    requires j < e < j + 6 && e < |s| && s[e] == ';'
    ensures ImportMatch(s, j).None?
  {
    ImportLetters(e - j);
  }

  /** Nor where no whitespace follows it. */
  lemma NotBeforeNonSpace(s: string, j: nat)
    requires j + 6 < |s| && !IsRegexSpace(s[j + 6])
    ensures ImportMatch(s, j).None?
  {
    assert Run(s, j + 6, IsRegexSpace) == 0;
  }

  /**
    No import statement starts inside another: "import" cannot start in the
    keyword itself, in the whitespace, in the name (it would need whitespace
    after it) or at the ';'.
  */
  lemma MatchesDoNotOverlap(s: string, i: nat, j: nat)
    requires i < j <= |s| && ImportMatch(s, i).Some? && j < ImportMatch(s, i).value.1
    ensures ImportMatch(s, j).None?
  {
    var b := i + 6 + Run(s, i + 6, IsRegexSpace);
    var e := b + Run(s, b, IsImportChar);
    assert ImportMatch(s, i).value.1 == e + 1 && s[e] == ';';
    if j < i + 6 {
      assert s[j] == s[i..i + 6][j - i];
      ImportLetters(j - i);
      NotAtOtherLetter(s, j);
    } else if j < b {
      assert IsRegexSpace(s[j]);
      NotAtOtherLetter(s, j);
    } else if j == e {
      NotAtOtherLetter(s, j);
    } else if j + 6 < e {
      assert IsImportChar(s[j + 6]);
      NotBeforeNonSpace(s, j);
    } else if j + 6 == e {
      NotBeforeNonSpace(s, j);
    } else {
      NotAcrossSemicolon(s, j, e);
    }
  }

  lemma {:induction false} ImportFound(s: string, i: nat, w: string) returns (j: nat)
    requires i <= |s| && w in ImportsFrom(s, i)
    ensures i <= j && ImportAt(s, j, w)
    decreases |s| - i
  {
    match ImportMatch(s, i)
    case Some((v, e)) =>
      if w == v {
        j := i;
      } else {
        j := ImportFound(s, e, w);
      }
    case None =>
      j := ImportFound(s, i + 1, w);
  }

  lemma {:induction false} ImportCollected(s: string, i: nat, j: nat, w: string)
    requires i <= j && ImportAt(s, j, w)
    ensures w in ImportsFrom(s, i)
    decreases |s| - i
  {
    if i < j {
      match ImportMatch(s, i)
      case Some((v, e)) =>
        if j < e {
          MatchesDoNotOverlap(s, i, j);
          assert false;
        }
        ImportCollected(s, e, j, w);
      case None =>
        ImportCollected(s, i + 1, j, w);
    } else {
      assert ImportMatch(s, i).Some?;
    }
  }

  /** The set of imports is exactly the names of the import statements, duplicates collapsed. */
  lemma ImportsExact(code: string, w: string)
    ensures w in Imports(code) <==> exists j :: ImportAt(code, j, w)
  {
    if w in Imports(code) {
      var j := ImportFound(code, 0, w);
    }
    if exists j :: ImportAt(code, j, w) {
      var j :| ImportAt(code, j, w);
      ImportCollected(code, 0, j, w);
    }
  }

  // ---------------------------------------------------------------------------
  // Declared type: the first match of `(public\s+)?(class|interface|enum)\s+(\w+)`

  const TypeKeywords: seq<string> := ["class", "interface", "enum"]

  /** The type keyword starting at `k`, if any; the three start with different letters. */
  function KeywordAt(s: string, k: nat): (r: Option<string>)
    ensures r.Some? ==> r.value in TypeKeywords && OccursAt(s, r.value, k)
  {
    if OccursAt(s, "class", k) then Some("class")
    else if OccursAt(s, "interface", k) then Some("interface")
    else if OccursAt(s, "enum", k) then Some("enum")
    else None
  }

  /** What a keyword needs at `k`: a 'c' followed by 'l', an 'i' followed by 'n', or an 'e'. */
  lemma KeywordStart(s: string, k: nat)
    ensures KeywordAt(s, k).Some? ==>
      k + 1 < |s| && ((s[k] == 'c' && s[k + 1] == 'l') || (s[k] == 'i' && s[k + 1] == 'n') || s[k] == 'e')
  {
    if KeywordAt(s, k).Some? {
      var t := KeywordAt(s, k).value;
      assert s[k..k + |t|] == t;
      assert s[k] == t[0] && s[k + 1] == t[1];
    }
  }

  /** A declaration from `k` (`(class|interface|enum)\s+(\w+)`): its keyword and its name. */
  function DeclarationAt(s: string, k: nat): (r: Option<(string, string)>)
    requires k <= |s|
    ensures r.Some? ==> r.value.0 in TypeKeywords && IsWord(r.value.1) && OccursAt(s, r.value.0, k)
  {
    match KeywordAt(s, k)
    case None => None
    case Some(t) =>
      match SpacedWord(s, k + |t|)
      case None => None
      case Some((name, _)) => Some((t, name))
  }

  /**
    Where the declaration of the match tried at `i` starts. With the optional
    `public\s+` in front only a keyword right after the whole whitespace run
    can follow (a keyword never starts with whitespace); when that fails the
    group is skipped and the declaration must start at `i` itself.
  */
  function DeclarationStart(s: string, i: nat): (k: nat)
    requires i <= |s|
    ensures i <= k <= |s|
    ensures k > i ==> OccursAt(s, "public", i) && k == i + 6 + Run(s, i + 6, IsRegexSpace) && k > i + 6
  {
    if OccursAt(s, "public", i) && Run(s, i + 6, IsRegexSpace) > 0
       && DeclarationAt(s, i + 6 + Run(s, i + 6, IsRegexSpace)).Some?
    then i + 6 + Run(s, i + 6, IsRegexSpace)
    else i
  }

  /** The match tried at `i`: the declaration from where it starts. */
  function ClassMatchAt(s: string, i: nat): (r: Option<(string, string)>)
    requires i <= |s|
    ensures DeclarationAt(s, i).Some? ==> r.Some?
  {
    DeclarationAt(s, DeclarationStart(s, i))
  }

  /** `Matcher.find()`: the match at the first index from `i` where one is found. */
  function FindClassFrom(s: string, i: nat): (r: Option<(string, string)>)
    requires i <= |s|
    ensures r.Some? ==> r.value.0 in TypeKeywords && IsWord(r.value.1)
    decreases |s| - i
  {
    if i == |s| then None
    else if ClassMatchAt(s, i).Some? then ClassMatchAt(s, i)
    else FindClassFrom(s, i + 1)
  }

  /** What the analysis records; method and field extraction are not part of this model. */
  datatype ClassInfo = ClassInfo(
    className: Option<string>,
    classType: Option<string>,
    annotations: set<string>,
    imports: set<string>)

  /**
    Name and type are set together from the first declaration found and stay
    null when there is none; annotations and imports are the sets collected
    over the whole text.
  */
  function ExtractClassInfo(code: string): (info: ClassInfo)
    ensures info.className.None? <==> info.classType.None?
    ensures info.classType.Some? ==> info.classType.value in TypeKeywords && IsWord(info.className.value)
    ensures forall a :: a in info.annotations <==> a in Annotations(code)
    ensures forall w :: w in info.imports <==> w in Imports(code)
  {
    var found := FindClassFrom(code, 0);
    ClassInfo(
      if found.Some? then Some(found.value.1) else None,
      if found.Some? then Some(found.value.0) else None,
      Annotations(code), Imports(code))
  }

  /** Of the letters of "public" only the 'i' and the final 'c' begin a keyword's letters, and the 'i' is followed by 'c'. */
  lemma PublicLetters(k: nat)
    requires k < 6
    ensures "public"[k] != 'e'
    ensures "public"[k] == 'c' ==> k == 5
    ensures "public"[k] == 'i' ==> k == 4 && "public"[5] == 'c'
  {
    var w := "public";
    assert w[0] == 'p' && w[1] == 'u' && w[2] == 'b' && w[3] == 'l' && w[4] == 'i' && w[5] == 'c';
  }

  /**
    Behind "public" and its whitespace no declaration can start before the
    keyword: the letters of "public" start no keyword, nor does whitespace.
  */
  lemma NothingInsidePublic(s: string, i: nat, j: nat)
    requires i <= |s| && i <= j < DeclarationStart(s, i)
    ensures DeclarationAt(s, j).None?
  {
    var k := DeclarationStart(s, i);
    assert s[i..i + 6] == "public" && IsRegexSpace(s[i + 6]);
    KeywordStart(s, j);
    if j < i + 6 {
      assert s[j] == "public"[j - i];
      PublicLetters(j - i);
      if j + 1 < i + 6 {
        assert s[j + 1] == "public"[j + 1 - i];
      }
    } else {
      assert IsRegexSpace(s[j]);
    }
  }

  /**
    The declaration found from `i` is the first one: its keyword starts at an
    index `k` where a declaration reads, and none reads at any index between
    `i` and `k`.
  */
  lemma {:induction false} FirstDeclaration(s: string, i: nat) returns (k: nat)
    requires i <= |s| && FindClassFrom(s, i).Some?
    ensures i <= k <= |s| && DeclarationAt(s, k) == FindClassFrom(s, i)
    ensures forall j :: i <= j < k ==> DeclarationAt(s, j).None?
    decreases |s| - i
  {
    if ClassMatchAt(s, i).Some? {
      k := DeclarationStart(s, i);
      assert FindClassFrom(s, i) == DeclarationAt(s, k);
      forall j | i <= j < k ensures DeclarationAt(s, j).None? {
        NothingInsidePublic(s, i, j);
      }
    } else {
      assert DeclarationAt(s, i).None? && FindClassFrom(s, i) == FindClassFrom(s, i + 1);
      k := FirstDeclaration(s, i + 1);
      forall j | i <= j < k ensures DeclarationAt(s, j).None? {
        if j > i {
          assert i + 1 <= j < k;
        }
      }
    }
  }

  /** Nothing reads at the end of the text. */
  lemma NoDeclarationAtEnd(s: string)
    ensures DeclarationAt(s, |s|).None?
  {
    assert KeywordAt(s, |s|).None?;
  }

  /** When the search finds nothing, no declaration reads at any index it passed. */
  lemma {:induction false} NothingFoundMeansNone(s: string, i: nat)
    requires i <= |s| && FindClassFrom(s, i).None?
    ensures forall j :: i <= j <= |s| ==> DeclarationAt(s, j).None?
    decreases |s| - i
  {
    NoDeclarationAtEnd(s);
    if i < |s| {
      assert ClassMatchAt(s, i).None? && FindClassFrom(s, i + 1).None?;
      NothingFoundMeansNone(s, i + 1);
      forall j | i <= j <= |s| ensures DeclarationAt(s, j).None? {
        if j == i {
          assert ClassMatchAt(s, i).None?;
        } else {
          assert i + 1 <= j <= |s|;
        }
      }
    }
  }

  /** When no declaration reads from `i` on, the search finds nothing. */
  lemma {:induction false} NoneMeansNothingFound(s: string, i: nat)
    requires i <= |s| && forall j :: i <= j <= |s| ==> DeclarationAt(s, j).None?
    ensures FindClassFrom(s, i).None?
    decreases |s| - i
  {
    if i < |s| {
      var k := DeclarationStart(s, i);
      assert DeclarationAt(s, k).None?;
      NoneMeansNothingFound(s, i + 1);
    }
  }

  /**
    The recorded type and name are those of the first declaration in the
    text, and they stay null exactly when the text declares none.
  */
  lemma ClassInfoIsFirstDeclaration(code: string) returns (k: nat)
    ensures ExtractClassInfo(code).classType.None? <==> forall j :: 0 <= j <= |code| ==> DeclarationAt(code, j).None?
    ensures ExtractClassInfo(code).classType.Some? ==>
      k <= |code| && DeclarationAt(code, k) == Some((ExtractClassInfo(code).classType.value, ExtractClassInfo(code).className.value))
      && forall j :: 0 <= j < k ==> DeclarationAt(code, j).None?
  {
    if FindClassFrom(code, 0).None? {
      NothingFoundMeansNone(code, 0);
    }
    if forall j :: 0 <= j <= |code| ==> DeclarationAt(code, j).None? {
      NoneMeansNothingFound(code, 0);
    }
    k := 0;
    if FindClassFrom(code, 0).Some? {
      k := FirstDeclaration(code, 0);
    }
  }

  // ---------------------------------------------------------------------------
  // Endpoints: the matches of the mapping-annotation pattern

  /** The alternatives of the pattern's first group. */
  datatype Verb = Get | Post | Put | Delete | Patch | Request

  /** The verb as the annotation spells it (`@GetMapping` and so on). */
  function VerbText(v: Verb): string {
    match v
    case Get => "Get"
    case Post => "Post"
    case Put => "Put"
    case Delete => "Delete"
    case Patch => "Patch"
    case Request => "Request"
  }

  /** The position of each alternative in the pattern. */
  function VerbIndex(v: Verb): (i: nat)
    ensures i < 6
  {
    match v
    case Get => 0
    case Post => 1
    case Put => 2
    case Delete => 3
    case Patch => 4
    case Request => 5
  }

  const HttpMethods: seq<string> := ["GET", "POST", "PUT", "DELETE", "PATCH", "REQUEST"]

  /** The four groups of one match of the mapping pattern; the matching itself is not part of this model. */
  datatype MappingMatch = MappingMatch(verb: Verb, path: string, returnType: string, methodName: string)

  datatype EndpointInfo = EndpointInfo(httpMethod: string, path: string, returnType: string, methodName: string)

  /** Upper-casing the verb gives the method name listed at the verb's position. */
  lemma UpperVerb(v: Verb)
    ensures ToUpper(VerbText(v)) == HttpMethods[VerbIndex(v)]
  {
    var t := VerbText(v);
    var u := ToUpper(t);
    assert forall k :: 0 <= k < |t| ==> u[k] == UpperChar(t[k]);
  }

  /** One endpoint: the verb upper-cased, the other groups carried over. */
  function ToEndpoint(m: MappingMatch): (e: EndpointInfo)
    ensures e.httpMethod in HttpMethods && e.httpMethod == HttpMethods[VerbIndex(m.verb)]
    ensures e.path == m.path && e.returnType == m.returnType && e.methodName == m.methodName
  {
    UpperVerb(m.verb);
    EndpointInfo(ToUpper(VerbText(m.verb)), m.path, m.returnType, m.methodName)
  }

  function ExtractEndpoints(matches: seq<MappingMatch>): (es: seq<EndpointInfo>)
    ensures |es| == |matches|
    ensures forall k :: 0 <= k < |es| ==> es[k].httpMethod in HttpMethods
    ensures forall k :: 0 <= k < |es| ==> es[k] == ToEndpoint(matches[k])
  {
    seq(|matches|, k requires 0 <= k < |matches| => ToEndpoint(matches[k]))
  }

  /** The HTTP method names the verb: two endpoints share it exactly when their annotations share the verb. */
  lemma HttpMethodNamesVerb(a: MappingMatch, b: MappingMatch)
    ensures ToEndpoint(a).httpMethod == ToEndpoint(b).httpMethod <==> a.verb == b.verb
  {
    var ia, ib := VerbIndex(a.verb), VerbIndex(b.verb);
    assert HttpMethods[ia] == HttpMethods[ib] ==> ia == ib by {
      assert forall x, y :: 0 <= x < y < 6 ==> HttpMethods[x] != HttpMethods[y];
    }
  }
}
