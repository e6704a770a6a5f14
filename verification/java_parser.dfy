/**
  The Java extractor: fenced "```java" blocks, raw "// src/....java" segments, or a
  single "// src/....java" file; paths are cut back to their "src/main/java/" part,
  code is validated and classified by its Spring stereotype annotations.
*/
module JavaParser {
  import opened Text
  import opened Optional
  import opened ParsedFiles
  import opened Scanner

  const ParserType := "Java"
  const Extensions: seq<string> := [".java"]
  const InvalidMessage := "Invalid Java content - missing package declaration or class definition"

  /** Fence tag "java"; "//" headers naming "src/....java". */
  const Syn := Syntax(["java"], false, true, ["java"])

  const JavaRoot := "src/main/java/"

  /** The nine labels the classifier can return. */
  const FileTypes: set<string> :=
    {"Controller", "Service", "Repository", "Entity", "Configuration", "Filter", "Interface", "Enum", "Class"}

  /** The cheap pre-check the manager asks before extracting. */
  predicate CanHandle(content: string) {
    || Contains(content, "```java")
    || Contains(content, "// src/main/java/")
    || Contains(content, "package ")
    || Contains(content, "public class ")
    || Contains(content, "@SpringBootApplication")
    || Contains(content, "@RestController")
  }

  /** Paths under "src/" stay; otherwise the path is cut to start at its first "src/main/java/". */
  function CleanFilePath(path: string): (r: string)
    ensures EndsWith(path, r)
    ensures StartsWith(path, "src/") ==> r == path
    ensures Contains(path, JavaRoot) ==> StartsWith(r, "src/")
    ensures !StartsWith(path, "src/") && !Contains(path, JavaRoot) ==> r == path
  {
    if StartsWith(path, "src/") then path
    else if Contains(path, JavaRoot) then
      var i := IndexOf(path, JavaRoot);
      RootStartsSrc(path, i);
      path[i..]
    else path
  }

  /** A path cut at an occurrence of the Java root starts with "src/". */
  lemma RootStartsSrc(path: string, i: int)
    requires 0 <= i && OccursAt(path, JavaRoot, i)
    ensures StartsWith(path[i..], "src/")
  {
    assert path[i..][..4] == path[i..i + |JavaRoot|][..4];
  }

  /** Cleaning a cleaned path changes nothing. */
  lemma CleanFilePathIdempotent(path: string)
    ensures CleanFilePath(CleanFilePath(path)) == CleanFilePath(path)
  {
  }

  /** Code is accepted when it shows any sign of a Java compilation unit. */
  predicate IsValidContent(code: string) {
    || Contains(code, "package ")
    || Contains(code, "import ")
    || Contains(code, "class ")
    || Contains(code, "interface ")
    || Contains(code, "enum ")
  }

  /** The annotation or declaration that earns each non-default label. */
  predicate Marked(code: string, kind: string) {
    match kind
    case "Controller" => Contains(code, "@RestController") || Contains(code, "@Controller")
    case "Service" => Contains(code, "@Service")
    case "Repository" => Contains(code, "@Repository")
    case "Entity" => Contains(code, "@Entity")
    case "Configuration" => Contains(code, "@Configuration")
    case "Filter" => Contains(code, "@Component") && Contains(code, "Filter")
    case "Interface" => Contains(code, "interface ")
    case "Enum" => Contains(code, "enum ")
    case _ => false
  }

  /**
    First-match classification by stereotype annotation, then by declaration kind:
    every label but "Class" is backed by its marker, a controller annotation always
    wins, and "Class" is given exactly when no marker is present.
  */
  function DetermineFileType(code: string): (kind: string)
    ensures kind in FileTypes
    ensures kind != "Class" ==> Marked(code, kind)
    ensures Marked(code, "Controller") ==> kind == "Controller"
    ensures kind == "Class" <==>
      forall other :: other in FileTypes ==> !Marked(code, other)
  {
    if Contains(code, "@RestController") || Contains(code, "@Controller") then "Controller"
    else if Contains(code, "@Service") then "Service"
    else if Contains(code, "@Repository") then "Repository"
    else if Contains(code, "@Entity") then "Entity"
    else if Contains(code, "@Configuration") then "Configuration"
    else if Contains(code, "@Component") && Contains(code, "Filter") then "Filter"
    else if Contains(code, "interface ") then "Interface"
    else if Contains(code, "enum ") then "Enum"
    else "Class"
  }

  /** One match becomes one file: valid with its label, or invalid with the fixed message. */
  function CreateFile(path: string, code: string): (f: ParsedFile)
    ensures WellFormed(f) && f.filePath == CleanFilePath(path)
    ensures f.isValid <==> IsValidContent(code)
    ensures f.isValid ==> f.content == Some(code) && f.parserType == Some(ParserType)
                          && f.fileType == Some(DetermineFileType(code))
    ensures !f.isValid ==> f.errorMessage == Some(InvalidMessage)
  {
    var cleanPath := CleanFilePath(path);
    if !IsValidContent(code) then Invalid(cleanPath, InvalidMessage)
    else Valid(cleanPath, code, DetermineFileType(code), ParserType)
  }

  /** The files of a list of matches, one per match and in match order. */
  function FilesOf(bs: seq<Block>): (fs: seq<ParsedFile>)
    ensures |fs| == |bs|
    ensures forall k :: 0 <= k < |bs| ==> fs[k] == CreateFile(bs[k].path, Trim(bs[k].code))
  {
    if |bs| == 0 then [] else [CreateFile(bs[0].path, Trim(bs[0].code))] + FilesOf(bs[1..])
  }

  /** A header path of this syntax lies under "src/" and names a ".java" file. */
  lemma HeaderPathShape(path: string, ext: string)
    requires AcceptedPath(Syn, path, ext)
    ensures StartsWith(path, "src/") && EndsWith(path, ".java")
  {
  }

  /**
    Extraction: each block of the first productive form becomes exactly one file,
    in block order; valid files carry the "Java" parser type and a known label.
  */
  function Parse(content: string): (fs: seq<ParsedFile>)
    ensures |fs| == |Tiers(Syn, content)|
    ensures forall k :: 0 <= k < |fs| ==>
      fs[k] == CreateFile(Tiers(Syn, content)[k].path, Trim(Tiers(Syn, content)[k].code))
  {
    FilesOf(Tiers(Syn, content))
  }

  /** A reply without fences or raw segments never yields more than one file. */
  lemma SingleYieldsAtMostOne(content: string)
    requires |FencedBlocks(Syn, content)| == 0 && |RawBlocks(Syn, content)| == 0
    ensures |Parse(content)| <= 1
  {
    SingleTierAtMostOne(Syn, content);
  }

  /** Files found outside fences keep their header path: it already lies under "src/" and names a ".java" file. */
  lemma HeaderPathsNeedNoCleaning(content: string, k: nat)
    requires |FencedBlocks(Syn, content)| == 0 && k < |Parse(content)|
    ensures Parse(content)[k].filePath == Tiers(Syn, content)[k].path
    ensures StartsWith(Parse(content)[k].filePath, "src/") && EndsWith(Parse(content)[k].filePath, ".java")
  {
    var b := Tiers(Syn, content)[k];
    HeaderTierPaths(Syn, content, k);
    HeaderPathShape(b.path, b.ext);
  }

  lemma FenceLiteral()
    ensures "```" + "java" == "```java"
  {
  }

  /** Every file of a reply is well formed; valid ones carry the "Java" type and a known label, invalid ones the fixed message. */
  lemma ParsedFilesShape(content: string, k: nat)
    requires k < |Parse(content)|
    ensures WellFormed(Parse(content)[k])
    ensures Parse(content)[k].isValid ==>
      Parse(content)[k].parserType == Some(ParserType) && Parse(content)[k].fileType.value in FileTypes
    ensures !Parse(content)[k].isValid ==> Parse(content)[k].errorMessage == Some(InvalidMessage)
  {
  }

  /** A reply with a fenced Java block is always one the pre-check claims. */
  lemma FencedReplyIsClaimed(content: string)
    requires |FencedBlocks(Syn, content)| > 0
    ensures CanHandle(content)
  {
    var b := FencedBlocks(Syn, content)[0];
    FencedTagInText(Syn, content, 0);
    assert b.ext == "java";
    FenceLiteral();
  }
}
