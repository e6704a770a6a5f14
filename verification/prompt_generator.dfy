/**
  The structured prompt sent to the model (`PromptGeneratorService.java`):
  the user's request, then the optional project-structure and endpoint
  sections, the framework requirements, the optional GitHub note and the
  expected-output examples. The prompt is modelled as the list of sections
  it is made of, each rendered to fixed text; the choice of sections is where
  the decisions are.
*/
module PromptGenerator {
  import opened Text
  import opened Optional
  import opened ProjectStructures
  import opened ProjectConfigs

  /** The request: the prompt and framework may be null; the GitHub flag defaults to false. */
  datatype ClaudeRequest = ClaudeRequest(prompt: Option<string>, framework: Option<string>, useGithubKnowledge: bool)

  predicate WantsJava(framework: Option<string>) {
    framework == Some("java") || framework == Some("both")
  }

  predicate WantsReact(framework: Option<string>) {
    framework == Some("react") || framework == Some("both")
  }

  datatype Section =
    | UserRequest(prompt: string)
    | StructureTree(tree: string)
    | Endpoints(endpoints: seq<ApiEndpoint>)
    | FrameworkHeading
    | JavaRequirements
    | DatabaseNote(databaseType: string)
    | ReactRequirements
    | GithubKnowledge
    | FormatHeading
    | JavaExample
    | ReactExample

  /** The position of each kind of section in a prompt. */
  function Rank(s: Section): nat {
    match s
    case UserRequest(_) => 0
    case StructureTree(_) => 1
    case Endpoints(_) => 2
    case FrameworkHeading => 3
    case JavaRequirements => 4
    case DatabaseNote(_) => 5
    case ReactRequirements => 6
    case GithubKnowledge => 7
    case FormatHeading => 8
    case JavaExample => 9
    case ReactExample => 10
  }

  /**
    The database named by the analysed project's metadata, when there is one
    and it is not "NONE"; absent without a structure, without metadata or
    without a `databaseType` entry.
  */
  function ConfiguredDatabase(ps: Option<ProjectStructure>): (d: Option<string>)
    ensures d.Some? <==> (ps.Some? && ps.value.projectMetadata.Some? && "databaseType" in ps.value.projectMetadata.value
      && MetaText(ps.value.projectMetadata.value["databaseType"]) != "NONE")
    ensures d.Some? ==> d.value == MetaText(ps.value.projectMetadata.value["databaseType"])
  {
    if ps.None? || ps.value.projectMetadata.None? then None
    else
      var m := ps.value.projectMetadata.value;
      if "databaseType" !in m then None
      else
        var t := MetaText(m["databaseType"]);
        if t == "NONE" then None else Some(t)
  }

  function When(c: bool, s: Section): Option<Section> {
    if c then Some(s) else None
  }

  /**
    One slot per kind of section, in prompt order: the section when the
    request and the structure call for it, nothing otherwise.
  */
  function Candidates(req: ClaudeRequest, ps: Option<ProjectStructure>): (cs: seq<Option<Section>>)
    ensures |cs| == 11 && cs[0] == Some(UserRequest(Shown(req.prompt)))
    ensures cs[1] == (if ps.Some? then Some(StructureTree(ps.value.projectTree)) else None)
    ensures cs[2] == (if ps.Some? && |ps.value.apiEndpoints| > 0 then Some(Endpoints(ps.value.apiEndpoints)) else None)
    ensures cs[3] == Some(FrameworkHeading) && cs[8] == Some(FormatHeading)
    ensures cs[4] == When(WantsJava(req.framework), JavaRequirements) && cs[9] == When(WantsJava(req.framework), JavaExample)
    ensures cs[5] == (if WantsJava(req.framework) && ConfiguredDatabase(ps).Some? then Some(DatabaseNote(ConfiguredDatabase(ps).value)) else None)
    ensures cs[6] == When(WantsReact(req.framework), ReactRequirements) && cs[10] == When(WantsReact(req.framework), ReactExample)
    ensures cs[7] == When(req.useGithubKnowledge, GithubKnowledge)
  {
    var java := WantsJava(req.framework);
    var react := WantsReact(req.framework);
    var db := ConfiguredDatabase(ps);
    [ Some(UserRequest(Shown(req.prompt))),
      if ps.Some? then Some(StructureTree(ps.value.projectTree)) else None,
      if ps.Some? && |ps.value.apiEndpoints| > 0 then Some(Endpoints(ps.value.apiEndpoints)) else None,
      Some(FrameworkHeading),
      When(java, JavaRequirements),
      if java && db.Some? then Some(DatabaseNote(db.value)) else None,
      When(react, ReactRequirements),
      When(req.useGithubKnowledge, GithubKnowledge),
      Some(FormatHeading),
      When(java, JavaExample),
      When(react, ReactExample) ]
  }

  /** Each slot can only hold the kind of section of its own rank. */
  lemma CandidatesRanked(req: ClaudeRequest, ps: Option<ProjectStructure>)
    ensures var cs := Candidates(req, ps);
      forall i :: 0 <= i < |cs| && cs[i].Some? ==> Rank(cs[i].value) == i
  {
    var cs := Candidates(req, ps);
    forall i | 0 <= i < |cs| && cs[i].Some? ensures Rank(cs[i].value) == i {
      if i == 5 {
        assert cs[5].value == DatabaseNote(ConfiguredDatabase(ps).value);
      }
    }
  }

  /** The filled slots, in order. */
  function Filled(cs: seq<Option<Section>>): (ss: seq<Section>)
    ensures |ss| <= |cs|
  {
    if |cs| == 0 then []
    else (if cs[0].Some? then [cs[0].value] else []) + Filled(cs[1..])
  }

  /** A section is among the filled slots exactly when some slot holds it. */
  lemma {:induction false} FilledMembers(cs: seq<Option<Section>>, x: Section)
    ensures x in Filled(cs) <==> Some(x) in cs
  {
    if |cs| > 0 {
      FilledMembers(cs[1..], x);
      assert cs == [cs[0]] + cs[1..];
    }
  }

  /** Slots ranked by position yield sections in strictly increasing rank, none below the first slot's. */
  lemma {:induction false} FilledAscending(cs: seq<Option<Section>>, offset: nat)
    requires forall i :: 0 <= i < |cs| && cs[i].Some? ==> Rank(cs[i].value) == offset + i
    ensures forall k :: 0 <= k < |Filled(cs)| ==> Rank(Filled(cs)[k]) >= offset
    ensures forall a, b :: 0 <= a < b < |Filled(cs)| ==> Rank(Filled(cs)[a]) < Rank(Filled(cs)[b])
  {
    if |cs| > 0 {
      var tail := cs[1..];
      forall i | 0 <= i < |tail| && tail[i].Some? ensures Rank(tail[i].value) == offset + 1 + i {
        assert tail[i] == cs[i + 1];
      }
      FilledAscending(tail, offset + 1);
      var head := if cs[0].Some? then [cs[0].value] else [];
      var ss := Filled(cs);
      assert ss == head + Filled(tail);
      forall k | 0 <= k < |ss| ensures Rank(ss[k]) >= offset {
        if k >= |head| {
          assert ss[k] == Filled(tail)[k - |head|];
        }
      }
      forall a, b | 0 <= a < b < |ss| ensures Rank(ss[a]) < Rank(ss[b]) {
        assert ss[b] == Filled(tail)[b - |head|];
        if a >= |head| {
          assert ss[a] == Filled(tail)[a - |head|];
        }
      }
    }
  }

  /** The sections of the prompt, in the order they are appended. */
  function Sections(req: ClaudeRequest, ps: Option<ProjectStructure>): (ss: seq<Section>)
    ensures |ss| > 0 && ss[0] == UserRequest(Shown(req.prompt))
  {
    var cs := Candidates(req, ps);
    assert Filled(cs) == [cs[0].value] + Filled(cs[1..]);
    Filled(cs)
  }

  /** A section is in the prompt exactly when its own slot holds it. */
  lemma InSlot(req: ClaudeRequest, ps: Option<ProjectStructure>, x: Section)
    ensures x in Sections(req, ps) <==> Candidates(req, ps)[Rank(x)] == Some(x)
  {
    var cs := Candidates(req, ps);
    CandidatesRanked(req, ps);
    FilledMembers(cs, x);
    if x in Sections(req, ps) {
      var i :| 0 <= i < |cs| && cs[i] == Some(x);
      assert Rank(x) == i;
    }
  }

  /** The sections come in the fixed order, each kind at most once. */
  lemma SectionsOrdered(req: ClaudeRequest, ps: Option<ProjectStructure>)
    ensures forall a, b :: 0 <= a < b < |Sections(req, ps)| ==> Rank(Sections(req, ps)[a]) < Rank(Sections(req, ps)[b])
  {
    CandidatesRanked(req, ps);
    FilledAscending(Candidates(req, ps), 0);
  }

  /** The two headings are always there; the GitHub note exactly when the request asks for it. */
  lemma FixedSections(req: ClaudeRequest, ps: Option<ProjectStructure>)
    ensures var ss := Sections(req, ps);
      && FrameworkHeading in ss && FormatHeading in ss
      && (GithubKnowledge in ss <==> req.useGithubKnowledge)
  {
    InSlot(req, ps, FrameworkHeading);
    InSlot(req, ps, FormatHeading);
    InSlot(req, ps, GithubKnowledge);
  }

  /** The Java requirements and example exactly for "java" and "both". */
  lemma JavaSections(req: ClaudeRequest, ps: Option<ProjectStructure>)
    ensures var ss := Sections(req, ps);
      && (JavaRequirements in ss <==> WantsJava(req.framework))
      && (JavaExample in ss <==> WantsJava(req.framework))
  {
    InSlot(req, ps, JavaRequirements);
    InSlot(req, ps, JavaExample);
  }

  /** The React requirements and example exactly for "react" and "both". */
  lemma ReactSections(req: ClaudeRequest, ps: Option<ProjectStructure>)
    ensures var ss := Sections(req, ps);
      && (ReactRequirements in ss <==> WantsReact(req.framework))
      && (ReactExample in ss <==> WantsReact(req.framework))
  {
    InSlot(req, ps, ReactRequirements);
    InSlot(req, ps, ReactExample);
  }

  /**
    The context sections: the structure exactly when there is one, the
    endpoint list exactly when it has endpoints, the database note exactly
    for Java prompts about a project with a configured database.
  */
  lemma ContextChoice(req: ClaudeRequest, ps: Option<ProjectStructure>, t: string, es: seq<ApiEndpoint>, d: string)
    ensures var ss := Sections(req, ps);
      && (StructureTree(t) in ss <==> ps.Some? && ps.value.projectTree == t)
      && (Endpoints(es) in ss <==> ps.Some? && ps.value.apiEndpoints == es && |es| > 0)
      && (DatabaseNote(d) in ss <==> WantsJava(req.framework) && ConfiguredDatabase(ps) == Some(d))
  {
    InSlot(req, ps, StructureTree(t));
    InSlot(req, ps, Endpoints(es));
    InSlot(req, ps, DatabaseNote(d));
  }

  // ---------------------------------------------------------------------------
  // Rendering

  /** One endpoint as listed: method, path, then class and method in parentheses. */
  function EndpointLine(e: ApiEndpoint): string {
    "- " + e.httpMethod + " " + e.path + " (" + e.controllerClass + "." + e.methodName + ")\n"
  }

  function EndpointLines(es: seq<ApiEndpoint>): (ls: seq<string>)
    ensures |ls| == |es| && forall k :: 0 <= k < |es| ==> ls[k] == EndpointLine(es[k])
  {
    seq(|es|, k requires 0 <= k < |es| => EndpointLine(es[k]))
  }

  const JavaRequirementsText :=
    "## Java Spring Boot Requirements\n"
    + "- Use Spring Boot 3.3.12 with Java 17\n"
    + "- Follow existing project structure and naming conventions\n"
    + "- Use RELATIVE paths from project root (e.g., src/main/java/...)\n"
    + "- Add file path comments at the top of each file\n"
    + "- For Model/DTO/Entity classes: NO custom constructors, only default constructor\n"
    + "- Controllers must have JavaDoc documentation\n"
    + "- Use @RequestParam(name=\"paramName\", required=true) for Spring Boot 3.3.12 compatibility\n"
    + "- GlobalExceptionHandler with @RestControllerAdvice is already generated\n"
    + "- RequestLoggingFilter for HTTP request logging is already generated\n"

  const ReactRequirementsText :=
    "## ReactJS Requirements\n"
    + "- Use functional components with hooks\n"
    + "- Use TypeScript if specified\n"
    + "- Follow modern React patterns\n"
    + "- Include proper error handling\n"
    + "- Use relative paths for imports\n"

  const GithubKnowledgeText :=
    "\n# GitHub Project Knowledge\n"
    + "Please refer to the GitHub repository information in your Project Knowledge when generating code.\n"
    + "Follow the patterns, conventions, and architecture from the existing codebase.\n"

  /** The heading of the examples, preceded by the blank line that is always appended before it. */
  const FormatHeadingText :=
    "\n# Expected Output Format\n"
    + "Return code in the following format with RELATIVE paths:\n"

  const JavaExampleText :=
    "\n**Java files:**\n"
    + "```java\n"
    + "// src/main/java/com/sonic/packagename/ClassName.java\n"
    + "package com.sonic.packagename;\n"
    + "\n"
    + "// Your generated Java code here\n"
    + "```\n"

  const ReactExampleText :=
    "\n**React files:**\n"
    + "```tsx\n"
    + "// src/components/ComponentName.tsx\n"
    + "// Your generated React code here\n"
    + "```\n"

  function Render(s: Section): string {
    match s
    case UserRequest(p) => "# User Request\n" + p + "\n\n"
    case StructureTree(t) => "# Project Structure\n" + "```\n" + t + "```\n\n"
    case Endpoints(es) => "## Existing API Endpoints\n" + Concat(EndpointLines(es)) + "\n"
    case FrameworkHeading => "# Framework Requirements\n"
    case JavaRequirements => JavaRequirementsText
    case DatabaseNote(d) => "- Database: " + d + " is configured\n" + "- JPA entities should use appropriate annotations\n"
    case ReactRequirements => ReactRequirementsText
    case GithubKnowledge => GithubKnowledgeText
    case FormatHeading => FormatHeadingText
    case JavaExample => JavaExampleText
    case ReactExample => ReactExampleText
  }

  function RenderAll(ss: seq<Section>): (ts: seq<string>)
    ensures |ts| == |ss| && forall k :: 0 <= k < |ss| ==> ts[k] == Render(ss[k])
  {
    seq(|ss|, k requires 0 <= k < |ss| => Render(ss[k]))
  }

  /** The prompt text: the sections' texts, one after the other. */
  function StructuredPrompt(req: ClaudeRequest, ps: Option<ProjectStructure>): string {
    Concat(RenderAll(Sections(req, ps)))
  }

  /** The prompt opens with the user's request (null printing as "null") and a blank line. */
  lemma PromptStartsWithRequest(req: ClaudeRequest, ps: Option<ProjectStructure>)
    ensures StartsWith(StructuredPrompt(req, ps), "# User Request\n" + Shown(req.prompt) + "\n\n")
  {
    var ts := RenderAll(Sections(req, ps));
    assert Concat(ts) == ts[0] + Concat(ts[1..]);
  }

  /** Every chosen section's text is in the prompt. */
  lemma SectionTextInPrompt(req: ClaudeRequest, ps: Option<ProjectStructure>, x: Section)
    requires x in Sections(req, ps)
    ensures Contains(StructuredPrompt(req, ps), Render(x))
  {
    var ss := Sections(req, ps);
    var k :| 0 <= k < |ss| && ss[k] == x;
    ContainsPart(RenderAll(ss), k);
  }

  /** With a structure, each of its endpoints has its line in the prompt. */
  lemma EndpointListed(req: ClaudeRequest, ps: Option<ProjectStructure>, k: nat)
    requires ps.Some? && k < |ps.value.apiEndpoints|
    ensures Contains(StructuredPrompt(req, ps), EndpointLine(ps.value.apiEndpoints[k]))
  {
    var es := ps.value.apiEndpoints;
    ContextChoice(req, ps, ps.value.projectTree, es, "");
    SectionTextInPrompt(req, ps, Endpoints(es));
    ContainsPart(EndpointLines(es), k);
    ContainsInConcat("## Existing API Endpoints\n", Concat(EndpointLines(es)), "\n", EndpointLine(es[k]));
    ContainsTransitive(StructuredPrompt(req, ps), Render(Endpoints(es)), EndpointLine(es[k]));
  }
}
