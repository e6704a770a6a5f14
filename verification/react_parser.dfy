/**
  The React/TypeScript extractor: fenced blocks tagged tsx, ts, jsx, js, typescript or
  javascript, and "// src/..." headers naming .tsx, .ts, .jsx or .js files. Paths are
  kept as written; any non-blank code is accepted, and the label comes from
  TypeScript-definition markers, then React markers, then the extension.
*/
module ReactParser {
  import opened Text
  import opened Optional
  import opened ParsedFiles
  import opened Scanner

  const ParserType := "React/TypeScript"
  const Extensions: seq<string> := [".tsx", ".jsx", ".ts", ".js"]
  const InvalidMessage := "Invalid React/TypeScript content"

  /** Fence tags and header suffixes; header paths must lie under "src/". */
  const Syn := Syntax(["tsx", "ts", "jsx", "js", "typescript", "javascript"], false, true, ["tsx", "ts", "jsx", "js"])

  /** The labels content markers can earn, before the extension is consulted. */
  const ContentTypes: set<string> :=
    {"TypeScript Interfaces", "TypeScript Enums", "TypeScript Types", "TypeScript Definitions",
     "React Component", "React Hook", "API Service", "Constants"}

  /** The labels that come from the extension alone. */
  const ExtensionTypes: set<string> :=
    {"TypeScript", "React TSX Component", "React JSX Component", "JavaScript", "JavaScript/TypeScript", "TypeScript/React"}

  /** The pre-check the manager asks; `&&` groups before `||` as in the source. */
  predicate CanHandle(content: string) {
    || Contains(content, "```tsx")
    || Contains(content, "```jsx")
    || (Contains(content, "// src/") && (Contains(content, ".tsx") || Contains(content, ".jsx")))
    || Contains(content, "import React")
    || Contains(content, "useState")
    || Contains(content, "useEffect")
    || Contains(content, "useContext")
    || Contains(content, "useReducer")
    || Contains(content, "JSX.Element")
    || Contains(content, "React.FC")
    || Contains(content, "React.Component")
    || (Contains(content, "export default") && (Contains(content, "function") || Contains(content, "const"))
        && (Contains(content, "<") && Contains(content, "/>")))
    || (Contains(content, "return (") && Contains(content, "<") && Contains(content, "/>"))
  }

  /** The validity test, including its final catch-all for any non-blank code. */
  predicate IsValidContent(code: string) {
    || Contains(code, "export ")
    || Contains(code, "import ")
    || Contains(code, "interface ")
    || Contains(code, "type ")
    || Contains(code, "enum ")
    || Contains(code, "function ")
    || Contains(code, "const ")
    || Contains(code, "let ")
    || Contains(code, "var ")
    || Contains(code, "class ")
    || Contains(code, "React")
    || Contains(code, "jsx")
    || Contains(code, "tsx")
    || (Contains(code, "<") && Contains(code, ">"))
    || |Trim(code)| > 0
  }

  /** Every keyword of the validity test is visible, so the test accepts exactly the non-blank code. */
  lemma ValidIffNotBlank(code: string)
    ensures IsValidContent(code) <==> Trim(code) != []
  {
    if Trim(code) == [] {
      TrimEmptyIffBlank(code);
      BlankContainsOnlyBlank(code, "export ", 0);
      BlankContainsOnlyBlank(code, "import ", 0);
      BlankContainsOnlyBlank(code, "interface ", 0);
      BlankContainsOnlyBlank(code, "type ", 0);
      BlankContainsOnlyBlank(code, "enum ", 0);
      BlankContainsOnlyBlank(code, "function ", 0);
      BlankContainsOnlyBlank(code, "const ", 0);
      BlankContainsOnlyBlank(code, "let ", 0);
      BlankContainsOnlyBlank(code, "var ", 0);
      BlankContainsOnlyBlank(code, "class ", 0);
      BlankContainsOnlyBlank(code, "React", 0);
      BlankContainsOnlyBlank(code, "jsx", 0);
      BlankContainsOnlyBlank(code, "tsx", 0);
      BlankContainsOnlyBlank(code, "<", 0);
    }
  }


  /** The content markers that earn each content label. */
  predicate Marked(code: string, kind: string) {
    match kind
    case "TypeScript Interfaces" => Contains(code, "interface ") && Contains(code, "export interface")
    case "TypeScript Enums" => Contains(code, "enum ") && Contains(code, "export enum")
    case "TypeScript Types" => Contains(code, "type ") && Contains(code, "export type")
    case "TypeScript Definitions" =>
      Contains(code, "export ") && (Contains(code, "interface ") || Contains(code, "type ") || Contains(code, "enum "))
    case "React Component" =>
      || (Contains(code, "export default") && Contains(code, "function"))
      || (Contains(code, "const") && Contains(code, "=") && Contains(code, "=>") && Contains(code, "jsx"))
    case "React Hook" => Contains(code, "useState") || Contains(code, "useEffect")
    case "API Service" => Contains(code, "api") || Contains(code, "fetch") || Contains(code, "axios")
    case "Constants" => Contains(code, "const") && Contains(code, "=") && !Contains(code, "=>")
    case _ => false
  }

  /** The fallback label for an extension (lower-cased first); a missing extension has its own label. */
  function ExtensionType(ext: Option<string>): (kind: string)
    ensures kind in ExtensionTypes
    ensures kind == "TypeScript/React" <==> ext.None?
  {
    match ext
    case None => "TypeScript/React"
    case Some(e) =>
      match ToLower(e)
      case "ts" => "TypeScript"
      case "tsx" => "React TSX Component"
      case "jsx" => "React JSX Component"
      case "js" => "JavaScript"
      case _ => "JavaScript/TypeScript"
  }

  /**
    First-match classification: TypeScript-definition markers, then React markers, then
    the extension. A content label is always backed by its marker, and the extension
    decides exactly when no content marker is present.
  */
  function DetermineFileType(code: string, ext: Option<string>): (kind: string)
    ensures kind in ContentTypes || kind in ExtensionTypes
    ensures kind in ContentTypes ==> Marked(code, kind)
    ensures Marked(code, "TypeScript Interfaces") ==> kind == "TypeScript Interfaces"
    ensures (forall c :: c in ContentTypes ==> !Marked(code, c)) <==> kind == ExtensionType(ext)
  {
    if Contains(code, "interface ") && Contains(code, "export interface") then "TypeScript Interfaces"
    else if Contains(code, "enum ") && Contains(code, "export enum") then "TypeScript Enums"
    else if Contains(code, "type ") && Contains(code, "export type") then "TypeScript Types"
    else if Contains(code, "export ") && (Contains(code, "interface ") || Contains(code, "type ") || Contains(code, "enum ")) then
      "TypeScript Definitions"
    else if Contains(code, "export default") && Contains(code, "function") then "React Component"
    else if Contains(code, "const") && Contains(code, "=") && Contains(code, "=>") && Contains(code, "jsx") then "React Component"
    else if Contains(code, "useState") || Contains(code, "useEffect") then "React Hook"
    else if Contains(code, "api") || Contains(code, "fetch") || Contains(code, "axios") then "API Service"
    else if Contains(code, "const") && Contains(code, "=") && !Contains(code, "=>") then "Constants"
    else ExtensionType(ext)
  }

  /** One match becomes one file, under the path as written: valid with its label, or invalid with the fixed message. */
  function CreateFile(path: string, code: string, ext: string): (f: ParsedFile)
    ensures WellFormed(f) && f.filePath == path
    ensures f.isValid <==> Trim(code) != []
    ensures f.isValid ==> f.content == Some(code) && f.parserType == Some(ParserType)
                          && f.fileType == Some(DetermineFileType(code, Some(ext)))
    ensures !f.isValid ==> f.errorMessage == Some(InvalidMessage)
  {
    ValidIffNotBlank(code);
    if !IsValidContent(code) then Invalid(path, InvalidMessage)
    else Valid(path, code, DetermineFileType(code, Some(ext)), ParserType)
  }

  /** The files of a list of matches, one per match and in match order. */
  function FilesOf(bs: seq<Block>): (fs: seq<ParsedFile>)
    ensures |fs| == |bs|
    ensures forall k :: 0 <= k < |bs| ==> fs[k] == CreateFile(bs[k].path, Trim(bs[k].code), bs[k].ext)
  {
    if |bs| == 0 then [] else [CreateFile(bs[0].path, Trim(bs[0].code), bs[0].ext)] + FilesOf(bs[1..])
  }

  /** Extraction: each block of the first productive form becomes exactly one file, in block order. */
  function Parse(content: string): (fs: seq<ParsedFile>)
    ensures |fs| == |Tiers(Syn, content)|
    ensures forall k :: 0 <= k < |fs| ==>
      fs[k] == CreateFile(Tiers(Syn, content)[k].path, Trim(Tiers(Syn, content)[k].code), Tiers(Syn, content)[k].ext)
  {
    FilesOf(Tiers(Syn, content))
  }

  /** Every file is well formed; it is valid exactly when its code is not blank, and then it carries the React/TypeScript type. */
  lemma ParsedFilesShape(content: string, k: nat)
    requires k < |Parse(content)|
    ensures WellFormed(Parse(content)[k])
    ensures Parse(content)[k].isValid <==> Trim(Tiers(Syn, content)[k].code) != []
    ensures Parse(content)[k].isValid ==> Parse(content)[k].parserType == Some(ParserType)
    ensures !Parse(content)[k].isValid ==> Parse(content)[k].errorMessage == Some(InvalidMessage)
  {
    TrimTwice(Tiers(Syn, content)[k].code);
  }

  /** Trimming twice trims once. */
  lemma TrimTwice(s: string)
    ensures Trim(Trim(s)) == Trim(s)
  {
    TrimEmptyIffBlank(s);
    var t := Trim(s);
    if t != [] {
      assert TrimStart(t) == t;
      assert TrimEnd(t) == t;
    }
  }

  /** With no content marker, the extension decides: ts, tsx, jsx and js each have their own label. */
  lemma ExtensionFallback(code: string, ext: string)
    requires forall c :: c in ContentTypes ==> !Marked(code, c)
    ensures ext == "ts" ==> DetermineFileType(code, Some(ext)) == "TypeScript"
    ensures ext == "tsx" ==> DetermineFileType(code, Some(ext)) == "React TSX Component"
    ensures ext == "jsx" ==> DetermineFileType(code, Some(ext)) == "React JSX Component"
    ensures ext == "js" ==> DetermineFileType(code, Some(ext)) == "JavaScript"
  {
    if ext in ["ts", "tsx", "jsx", "js"] {
      assert ToLower(ext) == ext;
    }
  }

  lemma FenceLiterals()
    ensures "```" + "tsx" == "```tsx" && "```" + "jsx" == "```jsx"
  {
  }

  /** A reply with a fenced tsx or jsx block is always one the pre-check claims. */
  lemma ReactFenceIsClaimed(content: string, k: nat)
    requires k < |FencedBlocks(Syn, content)| && FencedBlocks(Syn, content)[k].ext in ["tsx", "jsx"]
    ensures CanHandle(content)
  {
    FencedTagInText(Syn, content, k);
    FenceLiterals();
  }
}
