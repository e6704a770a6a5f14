/**
  The service that turns a model reply into files and dispatches project
  generation (`CodeGeneratorService.java`). Conversion keeps only the valid
  extracted files, in order, and writes each one under the workspace; writes
  are recorded in a log instead of touching a file system. Generation fills in
  a missing workspace and hands the configuration to the Java generator, the
  web generator or both.
*/
module CodeGenerator {
  import opened Text
  import opened Optional
  import opened ParsedFiles
  import opened ParseResults
  import opened ProjectConfigs
  import Manager
  import Parsers

  datatype GeneratedFile = GeneratedFile(fileName: string, filePath: string, content: Option<string>, fileType: string)

  /** What a conversion returns; the creation time is left out. */
  datatype GeneratedCode = GeneratedCode(files: seq<GeneratedFile>, workspacePath: Option<string>, claudeResponse: string)

  /** One file written: the workspace, a '/', the file's path; and its content. */
  datatype FileWrite = FileWrite(fullPath: string, content: Option<string>)

  /**
    An extracted file as the response lists it: name, path and content
    carried over, the type annotated with the extractor's type.
  */
  function Convert(f: ParsedFile): (g: GeneratedFile)
    ensures g.fileName == f.fileName && g.filePath == f.filePath && g.content == f.content
    ensures WellFormed(f) && f.isValid ==> g.fileType == f.fileType.value + " (" + f.parserType.value + ")"
  {
    GeneratedFile(f.fileName, f.filePath, f.content, Shown(f.fileType) + " (" + Shown(f.parserType) + ")")
  }

  function WriteOf(workspace: Option<string>, f: ParsedFile): FileWrite {
    FileWrite(Shown(workspace) + "/" + f.filePath, f.content)
  }

  function ConvertAll(fs: seq<ParsedFile>): (gs: seq<GeneratedFile>)
    ensures |gs| == |fs| && forall k :: 0 <= k < |fs| ==> gs[k] == Convert(fs[k])
  {
    seq(|fs|, k requires 0 <= k < |fs| => Convert(fs[k]))
  }

  function WritesOf(workspace: Option<string>, fs: seq<ParsedFile>): (ws: seq<FileWrite>)
    ensures |ws| == |fs| && forall k :: 0 <= k < |fs| ==> ws[k] == WriteOf(workspace, fs[k])
  {
    seq(|fs|, k requires 0 <= k < |fs| => WriteOf(workspace, fs[k]))
  }

  /** The conversion of one extraction result: the valid files, listed and written in order. */
  function Generate(r: ParseResult, response: string, workspace: Option<string>): (out: (GeneratedCode, seq<FileWrite>))
    ensures out.0.workspacePath == workspace && out.0.claudeResponse == response
    ensures |out.0.files| == |out.1|
  {
    var valid := ValidFiles(r.allFiles);
    (GeneratedCode(ConvertAll(valid), workspace, response), WritesOf(workspace, valid))
  }

  /**
    Exactly the valid files come out: every listed file is the conversion of a
    valid extracted file, every valid extracted file is listed, and the i-th
    write puts the i-th listed file's content at the workspace plus its path.
  */
  lemma GenerateKeepsValid(r: ParseResult, response: string, workspace: Option<string>, f: ParsedFile)
    ensures var out := Generate(r, response, workspace);
      && (f in r.allFiles && f.isValid ==> Convert(f) in out.0.files)
      && (forall g :: g in out.0.files ==> exists h :: h in r.allFiles && h.isValid && g == Convert(h))
      && (forall k :: 0 <= k < |out.1| ==>
            out.1[k] == FileWrite(Shown(workspace) + "/" + out.0.files[k].filePath, out.0.files[k].content))
  {
    var valid := ValidFiles(r.allFiles);
    var out := Generate(r, response, workspace);
    ValidFilesMembers(r.allFiles, f);
    if f in r.allFiles && f.isValid {
      var k :| 0 <= k < |valid| && valid[k] == f;
      assert out.0.files[k] == Convert(f);
    }
    forall g | g in out.0.files ensures exists h :: h in r.allFiles && h.isValid && g == Convert(h) {
      var k :| 0 <= k < |out.0.files| && out.0.files[k] == g;
      ValidFilesMembers(r.allFiles, valid[k]);
    }
  }

  /** With consistent counters, as every extraction run leaves them, the file count is the valid count. */
  lemma GenerateCount(r: ParseResult, response: string, workspace: Option<string>)
    requires CountsConsistent(r)
    ensures |Generate(r, response, workspace).0.files| == r.totalValidFiles
  {
  }

  /** The two response-to-files operations: all registered extractors, or one asked for by name. */
  function ParseAndGenerateCode(response: string, workspace: Option<string>, faults: map<Parsers.Parser, Manager.Fault>): (GeneratedCode, seq<FileWrite>)
  {
    Generate(Manager.ParseAll(response, faults), response, workspace)
  }

  function ParseAndGenerateCodeWithParser(response: string, workspace: Option<string>, name: string,
                                          faults: map<Parsers.Parser, Manager.Fault>): (GeneratedCode, seq<FileWrite>)
  {
    Generate(Manager.ParseWithSpecificParser(response, name, faults), response, workspace)
  }

  /** Converting a run over all extractors returns as many files as the run counted valid. */
  lemma ParseAndGenerateCount(response: string, workspace: Option<string>, faults: map<Parsers.Parser, Manager.Fault>)
    ensures |ParseAndGenerateCode(response, workspace, faults).0.files| == Manager.ParseAll(response, faults).totalValidFiles
  {
    Manager.ParseAllFiles(Manager.Observe(response), faults);
    GenerateCount(Manager.ParseAll(response, faults), response, workspace);
  }

  /** So does converting a run of one extractor named by the caller. */
  lemma ParseAndGenerateCountWithParser(response: string, workspace: Option<string>, name: string,
                                        faults: map<Parsers.Parser, Manager.Fault>)
    ensures |ParseAndGenerateCodeWithParser(response, workspace, name, faults).0.files|
      == Manager.ParseWithSpecificParser(response, name, faults).totalValidFiles
  {
    GenerateCount(Manager.ParseWithSpecificParser(response, name, faults), response, workspace);
  }

  /** Asking for an extractor that is not registered yields no files and writes nothing. */
  lemma UnknownParserWritesNothing(response: string, workspace: Option<string>, name: string,
                                   faults: map<Parsers.Parser, Manager.Fault>)
    requires Manager.FindParser(Manager.Registry, name).None?
    ensures ParseAndGenerateCodeWithParser(response, workspace, name, faults).0.files == []
    ensures ParseAndGenerateCodeWithParser(response, workspace, name, faults).1 == []
  {
  }

  // ---------------------------------------------------------------------------
  // Project generation

  /** A workspace that is null or empty is replaced by the configured base path. */
  function WithWorkspace(c: ProjectConfig, basePath: string): (d: ProjectConfig)
    ensures d == c.(workspacePath := d.workspacePath)
    ensures c.workspacePath.Some? && |c.workspacePath.value| > 0 ==> d == c
    ensures (c.workspacePath.None? || c.workspacePath.value == "") ==> d.workspacePath == Some(basePath)
  {
    if c.workspacePath.None? || c.workspacePath.value == "" then c.(workspacePath := Some(basePath)) else c
  }

  /** The steps of a generation; the generators' own file writes are modelled elsewhere or left out. */
  datatype Step =
    | JavaProject(path: string)
    | WebProject(path: string)
    | CreateDirectory(path: string)
    | ParentReadme(path: string, databaseType: DatabaseType)

  /** The separated layout's parent folder: the workspace and the project name. */
  function ParentPath(c: ProjectConfig): string {
    Shown(c.workspacePath) + "/" + c.projectName
  }

  /**
    Dispatch on the layout, after the workspace is filled in: both Java
    layouts run the Java generator, the web-only layout the web generator,
    and the separated layout creates the parent folder, runs both and writes
    the parent README. The result is the folder generated into, for the Java
    layouts the folder `JavaGenerator.GenerateJavaProject` returns.
  */
  function GenerateProject(c: ProjectConfig, basePath: string): (r: (string, seq<Step>))
  {
    var d := WithWorkspace(c, basePath);
    match d.style
    case JavaRestApi | JavaRestApiWithStatic => (BackendProjectPath(d), [JavaProject(BackendProjectPath(d))])
    case ReactWebOnly => (FrontendProjectPath(d), [WebProject(FrontendProjectPath(d))])
    case FullStackSeparated =>
      var parent := ParentPath(d);
      (parent, [CreateDirectory(parent), JavaProject(BackendProjectPath(d)), WebProject(FrontendProjectPath(d)),
                ParentReadme(parent + "/README.md", d.databaseType)])
  }

  /**
    The Java generator runs, into the back-end folder, exactly for the layouts
    with a back end; the web generator runs, into the front-end folder,
    exactly for those with a front end; nothing else is generated.
  */
  lemma DispatchGenerators(c: ProjectConfig, basePath: string)
    ensures var r := GenerateProject(c, basePath);
      var d := WithWorkspace(c, basePath);
      && (JavaProject(BackendProjectPath(d)) in r.1 <==> c.style != ReactWebOnly)
      && (WebProject(FrontendProjectPath(d)) in r.1 <==> c.style in {ReactWebOnly, FullStackSeparated})
      && (forall s :: s in r.1 && s.JavaProject? ==> s.path == BackendProjectPath(d))
      && (forall s :: s in r.1 && s.WebProject? ==> s.path == FrontendProjectPath(d))
  {
    var d := WithWorkspace(c, basePath);
    var r := GenerateProject(c, basePath);
    if c.style == FullStackSeparated {
      assert r.1[1] == JavaProject(BackendProjectPath(d)) && r.1[2] == WebProject(FrontendProjectPath(d));
    } else if c.style == ReactWebOnly {
      assert r.1 == [WebProject(FrontendProjectPath(d))];
    } else {
      assert r.1 == [JavaProject(BackendProjectPath(d))];
    }
  }

  /**
    The returned folder is the back end for the Java layouts and the front end
    for the web-only one; the separated layout returns the parent folder, and
    its two projects sit side by side inside it.
  */
  lemma DispatchFolders(c: ProjectConfig, basePath: string)
    ensures var r := GenerateProject(c, basePath);
      var d := WithWorkspace(c, basePath);
      && (c.style in {JavaRestApi, JavaRestApiWithStatic} ==> r.0 == BackendProjectPath(d))
      && (c.style == ReactWebOnly ==> r.0 == FrontendProjectPath(d))
      && (c.style == FullStackSeparated ==>
            r.0 == Shown(d.workspacePath) + "/" + c.projectName
            && StartsWith(BackendProjectPath(d), r.0) && StartsWith(FrontendProjectPath(d), r.0)
            && BackendProjectPath(d) != FrontendProjectPath(d))
  {
    ProjectFolders(WithWorkspace(c, basePath));
  }
}
