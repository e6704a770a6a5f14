/**
  The stylesheet extractor: fenced blocks tagged css, scss or sass, and header comments
  ("// path" or "/* path */") naming .css, .scss or .sass files anywhere in the tree.
  Paths are kept as written, any non-blank code is accepted, and the label comes from
  at-rules, then the extension, then Sass-like syntax.
*/
module CssParser {
  import opened Text
  import opened Optional
  import opened ParsedFiles
  import opened Scanner

  const ParserType := "CSS"
  const Extensions: seq<string> := [".css", ".scss", ".sass"]
  const InvalidMessage := "Invalid CSS content - no valid CSS rules found"

  /** Fence tags and header suffixes css, scss and sass; block comments allowed; no "src/" requirement. */
  const Syn := Syntax(["css", "scss", "sass"], true, false, ["css", "scss", "sass"])

  const FileTypes: set<string> :=
    {"Tailwind CSS", "CSS Imports", "Responsive CSS", "CSS Animations", "SCSS", "SASS", "CSS"}

  /** The pre-check the manager asks; `&&` groups before `||` as in the source. */
  predicate CanHandle(content: string) {
    || Contains(content, "```css")
    || Contains(content, "```scss")
    || Contains(content, "```sass")
    || ((Contains(content, ".css") || Contains(content, ".scss") || Contains(content, ".sass"))
        && (Contains(content, "// ") || Contains(content, "/* ")))
    || Contains(content, "@tailwind")
    || Contains(content, "@layer")
    || Contains(content, "@apply")
    || Contains(content, "@import")
    || Contains(content, "@media")
    || (Contains(content, "{") && Contains(content, "}") && Contains(content, ":"))
    || Contains(content, "bg-")
    || Contains(content, "text-")
    || Contains(content, "p-")
    || (Contains(content, "$") && Contains(content, ":"))
    || (Contains(content, "&") && Contains(content, "{"))
  }

  lemma FenceLiterals()
    ensures "```" + "css" == "```css" && "```" + "scss" == "```scss" && "```" + "sass" == "```sass"
  {
  }

  /** A reply with any fenced stylesheet block is one the pre-check claims. */
  lemma FencedReplyIsClaimed(content: string, k: nat)
    requires k < |FencedBlocks(Syn, content)|
    ensures CanHandle(content)
  {
    var e := FencedBlocks(Syn, content)[k].ext;
    FencedTagInText(Syn, content, k);
    assert e == "css" || e == "scss" || e == "sass";
    FenceLiterals();
    FenceClaims(content);
  }

  lemma FenceClaims(content: string)
    requires Contains(content, "```css") || Contains(content, "```scss") || Contains(content, "```sass")
    ensures CanHandle(content)
  {
  }

  /**
    The validity test, including its final catch-all for any non-blank code. The
    property-pattern test of the source is left out: any text it accepts contains
    ':' and is accepted by the ':' test already.
  */
  predicate IsValidContent(code: string) {
    || (Contains(code, "{") && Contains(code, "}"))
    || Contains(code, ":")
    || Contains(code, "@import")
    || Contains(code, "@media")
    || Contains(code, "@tailwind")
    || Contains(code, "@layer")
    || Contains(code, "@apply")
    || Contains(code, "/*")
    || Contains(code, "//")
    || |Trim(code)| > 0
  }

  /** Every marker of the validity test is visible, so the test accepts exactly the non-blank code. */
  lemma ValidIffNotBlank(code: string)
    ensures IsValidContent(code) <==> Trim(code) != []
  {
    if Trim(code) == [] {
      TrimEmptyIffBlank(code);
      BlankContainsOnlyBlank(code, "{", 0);
      BlankContainsOnlyBlank(code, ":", 0);
      BlankContainsOnlyBlank(code, "@import", 0);
      BlankContainsOnlyBlank(code, "@media", 0);
      BlankContainsOnlyBlank(code, "@tailwind", 0);
      BlankContainsOnlyBlank(code, "@layer", 0);
      BlankContainsOnlyBlank(code, "@apply", 0);
      BlankContainsOnlyBlank(code, "/*", 0);
      BlankContainsOnlyBlank(code, "//", 0);
    }
  }

  /** An at-rule that decides the label before the extension is looked at. */
  predicate HasAtRule(code: string) {
    Contains(code, "@tailwind") || Contains(code, "@import") || Contains(code, "@media") || Contains(code, "@keyframes")
  }

  /**
    First-match classification: at-rules first ("@tailwind" above all), then a scss or
    sass extension, then "$" with "&" or "//" without block comments; "CSS" otherwise.
  */
  function DetermineFileType(code: string, ext: Option<string>): (kind: string)
    ensures kind in FileTypes
    ensures Contains(code, "@tailwind") ==> kind == "Tailwind CSS"
    ensures !HasAtRule(code) && ext == Some("scss") ==> kind == "SCSS"
    ensures !HasAtRule(code) && ext == Some("sass") ==> kind == "SASS"
    ensures kind == "CSS" <==>
      && !HasAtRule(code) && ext != Some("scss") && ext != Some("sass")
      && !(Contains(code, "$") && Contains(code, "&"))
      && !(Contains(code, "//") && !Contains(code, "/*"))
  {
    if Contains(code, "@tailwind") then "Tailwind CSS"
    else if Contains(code, "@import") then "CSS Imports"
    else if Contains(code, "@media") then "Responsive CSS"
    else if Contains(code, "@keyframes") then "CSS Animations"
    else if ext.Some? && ext.value == "scss" then "SCSS"
    else if ext.Some? && ext.value == "sass" then "SASS"
    else if Contains(code, "$") && Contains(code, "&") then "SCSS"
    else if Contains(code, "//") && !Contains(code, "/*") then "SASS"
    else "CSS"
  }

  /** One match becomes one file, under the path as written. */
  function CreateFile(path: string, code: string, ext: string): (f: ParsedFile)
    ensures WellFormed(f) && f.filePath == path
    ensures f.isValid <==> Trim(code) != []
    ensures f.isValid ==> f.content == Some(code) && f.parserType == Some(ParserType)
                          && f.fileType == Some(DetermineFileType(code, Some(ext)))
    ensures !f.isValid ==> f.errorMessage == Some(InvalidMessage)
  {
    ValidIffNotBlank(code);
    if !IsValidContent(code) then Invalid(path, InvalidMessage)
    else Valid(path, code, DetermineFileType(code, Some(ext)), ParserType)
  }

  /** The files of a list of matches, one per match and in match order. */
  function FilesOf(bs: seq<Block>): (fs: seq<ParsedFile>)
    ensures |fs| == |bs|
    ensures forall k :: 0 <= k < |bs| ==> fs[k] == CreateFile(bs[k].path, Trim(bs[k].code), bs[k].ext)
  {
    if |bs| == 0 then [] else [CreateFile(bs[0].path, Trim(bs[0].code), bs[0].ext)] + FilesOf(bs[1..])
  }

  /** Extraction: each block of the first productive form becomes exactly one file, in block order. */
  function Parse(content: string): (fs: seq<ParsedFile>)
    ensures |fs| == |Tiers(Syn, content)|
    ensures forall k :: 0 <= k < |fs| ==>
      fs[k] == CreateFile(Tiers(Syn, content)[k].path, Trim(Tiers(Syn, content)[k].code), Tiers(Syn, content)[k].ext)
  {
    FilesOf(Tiers(Syn, content))
  }

  /** Header blocks carry the suffix of their path, so a ".scss" header gives an "SCSS" file unless an at-rule decides first. */
  lemma HeaderSuffixDecides(content: string, k: nat)
    requires |FencedBlocks(Syn, content)| == 0 && k < |Parse(content)|
    requires Parse(content)[k].isValid && !HasAtRule(Trim(Tiers(Syn, content)[k].code))
    ensures EndsWith(Parse(content)[k].filePath, ".scss") ==> Parse(content)[k].fileType == Some("SCSS")
  {
    var b := Tiers(Syn, content)[k];
    var f := Parse(content)[k];
    assert f == CreateFile(b.path, Trim(b.code), b.ext);
    HeaderTierPaths(Syn, content, k);
    if EndsWith(f.filePath, ".scss") {
      SuffixFromPath(b.path, b.ext);
      ScssLabel(Trim(b.code));
    }
  }

  lemma ScssLabel(code: string)
    requires !HasAtRule(code)
    ensures DetermineFileType(code, Some("scss")) == "SCSS"
  {
  }

  /** An accepted header path ending in ".scss" has suffix scss. */
  lemma SuffixFromPath(path: string, ext: string)
    requires AcceptedPath(Syn, path, ext) && EndsWith(path, ".scss")
    ensures ext == "scss"
  {
    assert ext in ["css", "scss", "sass"];
    if ext == "css" {
      EndsWithBoth(path, ".css", ".scss");
      assert false;
    } else if ext == "sass" {
      EndsWithBoth(path, ".sass", ".scss");
      assert false;
    }
  }
}
