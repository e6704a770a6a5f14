/**
  The TypeScript extractor: fenced blocks tagged ts or typescript and "// src/....ts"
  headers. Paths are kept as written, any non-blank code is accepted, and the label
  says which kind of declaration the file is mainly made of. This extractor is not
  registered with the manager.
*/
module TypeScriptParser {
  import opened Text
  import opened Optional
  import opened ParsedFiles
  import opened Scanner

  const ParserType := "TypeScript"
  const Extensions: seq<string> := [".ts", ".d.ts"]
  const InvalidMessage := "Invalid TypeScript content - missing valid TS syntax"

  /** Fence tags ts and typescript; header paths under "src/" ending in ".ts". */
  const Syn := Syntax(["ts", "typescript"], false, true, ["ts"])

  /**
    The pre-check. `&&` groups before `||`, so the React and plain-JavaScript
    exclusions guard only the last disjunct, and "```ts" also matches "```tsx".
  */
  predicate CanHandle(content: string) {
    || Contains(content, "```ts")
    || Contains(content, "```typescript")
    || (Contains(content, "// src/") && Contains(content, ".ts") && !Contains(content, ".tsx"))
    || ((|| Contains(content, "export interface")
         || Contains(content, "export enum")
         || Contains(content, "export type")
         || Contains(content, "declare ")
         || Contains(content, "namespace "))
        && !Contains(content, "React")
        && !Contains(content, "jsx")
        && !Contains(content, "tsx")
        && !Contains(content, "useState")
        && !Contains(content, "useEffect")
        && !(!Contains(content, "interface ") && !Contains(content, "enum ")
             && !Contains(content, "type ") && Contains(content, ".js")))
  }

  /** A reply with a tsx fence passes the "```ts" test. */
  lemma TsxFenceIsClaimed(content: string)
    requires Contains(content, "```tsx")
    ensures CanHandle(content)
  {
    ContainsPrefixOf(content, "```tsx", 5);
    assert "```tsx"[..5] == "```ts";
  }

  /**
    Without a ts fence and without the path clause, React markers exclude the text
    even when it holds TypeScript declarations.
  */
  lemma ReactMarkersExclude(content: string)
    requires !Contains(content, "```ts") && !Contains(content, "```typescript")
    requires !(Contains(content, "// src/") && Contains(content, ".ts") && !Contains(content, ".tsx"))
    requires || Contains(content, "React") || Contains(content, "jsx") || Contains(content, "tsx")
             || Contains(content, "useState") || Contains(content, "useEffect")
    ensures !CanHandle(content)
  {
  }

  /** The validity test, including its final catch-all for any non-blank code. */
  predicate IsValidContent(code: string) {
    || Contains(code, "export ")
    || Contains(code, "import ")
    || Contains(code, "interface ")
    || Contains(code, "type ")
    || Contains(code, "enum ")
    || Contains(code, "namespace ")
    || Contains(code, "module ")
    || Contains(code, "declare ")
    || Contains(code, "function ")
    || Contains(code, "const ")
    || Contains(code, "let ")
    || Contains(code, "class ")
    || Contains(code, ": ")
    || (Contains(code, "<") && Contains(code, ">"))
    || |Trim(code)| > 0
  }

  /** Every keyword of the validity test is visible, so the test accepts exactly the non-blank code. */
  lemma ValidIffNotBlank(code: string)
    ensures IsValidContent(code) <==> Trim(code) != []
  {
    if Trim(code) == [] {
      TrimEmptyIffBlank(code);
      BlankContainsOnlyBlank(code, "export ", 0);
      BlankContainsOnlyBlank(code, "import ", 0);
      BlankContainsOnlyBlank(code, "interface ", 0);
      BlankContainsOnlyBlank(code, "type ", 0);
      BlankContainsOnlyBlank(code, "enum ", 0);
      BlankContainsOnlyBlank(code, "namespace ", 0);
      BlankContainsOnlyBlank(code, "module ", 0);
      BlankContainsOnlyBlank(code, "declare ", 0);
      BlankContainsOnlyBlank(code, "function ", 0);
      BlankContainsOnlyBlank(code, "const ", 0);
      BlankContainsOnlyBlank(code, "let ", 0);
      BlankContainsOnlyBlank(code, "class ", 0);
      BlankContainsOnlyBlank(code, ": ", 0);
      BlankContainsOnlyBlank(code, "<", 0);
    }
  }


  /** How many times `marker` splits the code, as the source counts it: the split length minus one. */
  function MarkerCount(code: string, marker: string): (n: int)
    requires |marker| > 0
    ensures -1 <= n < |SplitOn(code, marker)|
  {
    SplitLength(code, marker) - 1
  }

  /** The label for a counted declaration kind: plural with the count when there are several. */
  function Counted(n: int, singular: string, plural: string, noun: string): (kind: string)
    requires StartsWith(plural, singular)
    ensures n > 1 ==> kind == plural + " (" + NatToString(n) + " " + noun + ")"
    ensures n <= 1 ==> kind == singular
    ensures StartsWith(kind, singular)
  {
    if n > 1 then plural + " (" + NatToString(n) + " " + noun + ")" else singular
  }

  /** The labels without a count. */
  const PlainTypes: set<string> :=
    {"TypeScript Definitions", "TypeScript Interface", "TypeScript Enum", "TypeScript Types",
     "TypeScript Constants", "TypeScript Functions", "TypeScript Class", "TypeScript Declarations",
     "TypeScript Namespace", "TypeScript"}

  /**
    First-match classification by declaration kind. All three of interface, enum and
    type markers give "TypeScript Definitions"; exported interfaces or enums are
    counted, and the count appears only when it exceeds one; "TypeScript" is the
    label when no rule fires.
  */
  function DetermineFileType(code: string): (kind: string)
    ensures kind in PlainTypes || StartsWith(kind, "TypeScript Interface") || StartsWith(kind, "TypeScript Enum")
    ensures kind == "TypeScript Definitions" <==>
      Contains(code, "interface ") && Contains(code, "enum ") && Contains(code, "type ")
    ensures kind == "TypeScript" <==>
      && !(Contains(code, "interface ") && Contains(code, "enum ") && Contains(code, "type "))
      && !(Contains(code, "interface ") && Contains(code, "export interface"))
      && !(Contains(code, "enum ") && Contains(code, "export enum"))
      && !(Contains(code, "type ") && Contains(code, "export type"))
      && !(Contains(code, "const ") && Contains(code, "export const"))
      && !Contains(code, "function ") && !Contains(code, "class ")
      && !Contains(code, "declare ") && !Contains(code, "namespace ")
  {
    CountedLiterals();
    var hasInterfaces := Contains(code, "interface ");
    var hasEnums := Contains(code, "enum ");
    var hasTypes := Contains(code, "type ");
    if hasInterfaces && hasEnums && hasTypes then "TypeScript Definitions"
    else if hasInterfaces && Contains(code, "export interface") then
      Counted(MarkerCount(code, "export interface"), "TypeScript Interface", "TypeScript Interfaces", "interfaces")
    else if hasEnums && Contains(code, "export enum") then
      Counted(MarkerCount(code, "export enum"), "TypeScript Enum", "TypeScript Enums", "enums")
    else if hasTypes && Contains(code, "export type") then "TypeScript Types"
    else if Contains(code, "const ") && Contains(code, "export const") then "TypeScript Constants"
    else if Contains(code, "function ") then "TypeScript Functions"
    else if Contains(code, "class ") then "TypeScript Class"
    else if Contains(code, "declare ") then "TypeScript Declarations"
    else if Contains(code, "namespace ") then "TypeScript Namespace"
    else "TypeScript"
  }

  /** The counted labels start with their singular forms, which differ from the uncounted labels. */
  lemma CountedLiterals()
    ensures StartsWith("TypeScript Interfaces", "TypeScript Interface")
    ensures StartsWith("TypeScript Enums", "TypeScript Enum")
    ensures forall s :: StartsWith(s, "TypeScript Interface") ==> s != "TypeScript Definitions" && s != "TypeScript"
    ensures forall s :: StartsWith(s, "TypeScript Enum") ==> s != "TypeScript Definitions" && s != "TypeScript"
  {
    forall s | StartsWith(s, "TypeScript Interface")
      ensures s != "TypeScript Definitions" && s != "TypeScript"
    {
      assert s[11] == 'I';
    }
    forall s | StartsWith(s, "TypeScript Enum")
      ensures s != "TypeScript Definitions" && s != "TypeScript"
    {
      assert s[11] == 'E';
    }
  }

  /** One match becomes one file, under the path as written. */
  function CreateFile(path: string, code: string): (f: ParsedFile)
    ensures WellFormed(f) && f.filePath == path
    ensures f.isValid <==> Trim(code) != []
    ensures f.isValid ==> f.content == Some(code) && f.parserType == Some(ParserType)
                          && f.fileType == Some(DetermineFileType(code))
    ensures !f.isValid ==> f.errorMessage == Some(InvalidMessage)
  {
    ValidIffNotBlank(code);
    if !IsValidContent(code) then Invalid(path, InvalidMessage)
    else Valid(path, code, DetermineFileType(code), ParserType)
  }

  /** The files of a list of matches, one per match and in match order. */
  function FilesOf(bs: seq<Block>): (fs: seq<ParsedFile>)
    ensures |fs| == |bs|
    ensures forall k :: 0 <= k < |bs| ==> fs[k] == CreateFile(bs[k].path, Trim(bs[k].code))
  {
    if |bs| == 0 then [] else [CreateFile(bs[0].path, Trim(bs[0].code))] + FilesOf(bs[1..])
  }

  /** Extraction: each block of the first productive form becomes exactly one file, in block order. */
  function Parse(content: string): (fs: seq<ParsedFile>)
    ensures |fs| == |Tiers(Syn, content)|
    ensures forall k :: 0 <= k < |fs| ==>
      fs[k] == CreateFile(Tiers(Syn, content)[k].path, Trim(Tiers(Syn, content)[k].code))
  {
    FilesOf(Tiers(Syn, content))
  }

  /** A header path of this syntax lies under "src/" and names a ".ts" file. */
  lemma HeaderPathShape(path: string, ext: string)
    requires AcceptedPath(Syn, path, ext)
    ensures StartsWith(path, "src/") && EndsWith(path, ".ts")
  {
  }

  /** Files found outside fences are named by "src/....ts" header paths. */
  lemma HeaderFilesAreTs(content: string, k: nat)
    requires |FencedBlocks(Syn, content)| == 0 && k < |Parse(content)|
    ensures StartsWith(Parse(content)[k].filePath, "src/") && EndsWith(Parse(content)[k].filePath, ".ts")
  {
    var b := Tiers(Syn, content)[k];
    HeaderTierPaths(Syn, content, k);
    HeaderPathShape(b.path, b.ext);
  }
}
