/**
  The HTML extractor: fenced "```html" blocks with a path comment, "// path.html"
  (or ".htm") headers anywhere in the tree, and, when those find nothing, unlabelled
  "```html" fences holding a doctype, which are placed under the static resources
  folder and named after their title. Validity and labels are decided on the
  lower-cased code.
*/
module HtmlParser {
  import opened Text
  import opened Optional
  import opened ParsedFiles
  import opened Scanner

  const ParserType := "HTML"
  const Extensions: seq<string> := [".html", ".htm"]
  const InvalidMessage := "Invalid HTML content - missing basic HTML structure"

  /** Fence tag html; header paths ending in ".html" or ".htm", anywhere. */
  const Syn := Syntax(["html"], false, false, ["html", "htm"])

  /** Where files without a declared path are placed. */
  const StaticRoot := "src/main/resources/static/"

  const FileTypes: set<string> :=
    {"HTML5 Document", "HTML Template", "Thymeleaf Template", "JSP Template", "HTML Form",
     "HTML Table", "Styled HTML", "Interactive HTML", "HTML"}

  /** The pre-check the manager asks; the tag-like tests look at the lower-cased text. */
  predicate CanHandle(content: string) {
    var lower := ToLower(content);
    || Contains(content, "```html")
    || Contains(content, ".html")
    || Contains(lower, "<!doctype")
    || Contains(lower, "<html")
    || Contains(lower, "<head")
    || Contains(lower, "<body")
    || (Contains(lower, "<") && Contains(lower, ">"))
  }

  /** Any text with both angle brackets is claimed, whatever its case. */
  lemma AngleBracketsAreClaimed(content: string)
    requires Contains(content, "<") && Contains(content, ">")
    ensures CanHandle(content)
  {
    LowerKeepsChar(content, '<');
    LowerKeepsChar(content, '>');
  }

  /** The validity test on the lower-cased code: an opening tag, or both angle brackets. */
  predicate IsValidContent(code: string) {
    var lower := ToLower(code);
    || Contains(lower, "<html")
    || Contains(lower, "<!doctype")
    || Contains(lower, "<head")
    || Contains(lower, "<body")
    || Contains(lower, "<div")
    || Contains(lower, "<span")
    || Contains(lower, "<p")
    || (Contains(lower, "<") && Contains(lower, ">"))
  }

  /** Text holding a tag marker holds its opening bracket. */
  lemma OpensTag(s: string, marker: string)
    requires |marker| > 0 && marker[0] == '<' && Contains(s, marker)
    ensures Contains(s, "<")
  {
    ContainsPrefixOf(s, marker, 1);
    assert marker[..1] == "<";
  }

  /** Code with both angle brackets is valid; valid code always holds a '<'. */
  lemma ValidityByBrackets(code: string)
    ensures Contains(code, "<") && Contains(code, ">") ==> IsValidContent(code)
    ensures IsValidContent(code) ==> Contains(code, "<")
  {
    var lower := ToLower(code);
    LowerKeepsChar(code, '<');
    LowerKeepsChar(code, '>');
    if Contains(lower, "<html") { OpensTag(lower, "<html"); }
    if Contains(lower, "<!doctype") { OpensTag(lower, "<!doctype"); }
    if Contains(lower, "<head") { OpensTag(lower, "<head"); }
    if Contains(lower, "<body") { OpensTag(lower, "<body"); }
    if Contains(lower, "<div") { OpensTag(lower, "<div"); }
    if Contains(lower, "<span") { OpensTag(lower, "<span"); }
    if Contains(lower, "<p") { OpensTag(lower, "<p"); }
  }

  /**
    First-match classification of the lower-cased code: a doctype above everything,
    then templates, forms, tables, styling and scripts; "HTML" when nothing matches.
  */
  function DetermineFileType(code: string): (kind: string)
    ensures kind in FileTypes
    ensures Contains(ToLower(code), "<!doctype html") ==> kind == "HTML5 Document"
    ensures kind == "HTML" <==>
      var lower := ToLower(code);
      && !Contains(lower, "<!doctype html") && !Contains(lower, "<template")
      && !Contains(lower, "@{") && !Contains(lower, "th:")
      && !Contains(lower, "${") && !Contains(lower, "<%")
      && !Contains(lower, "<form") && !Contains(lower, "<table")
      && !Contains(lower, "bootstrap") && !Contains(lower, "tailwind")
      && !Contains(lower, "<script")
  {
    var lower := ToLower(code);
    if Contains(lower, "<!doctype html") then "HTML5 Document"
    else if Contains(lower, "<template") then "HTML Template"
    else if Contains(lower, "@{") || Contains(lower, "th:") then "Thymeleaf Template"
    else if Contains(lower, "${") || Contains(lower, "<%") then "JSP Template"
    else if Contains(lower, "<form") then "HTML Form"
    else if Contains(lower, "<table") then "HTML Table"
    else if Contains(lower, "bootstrap") || Contains(lower, "tailwind") then "Styled HTML"
    else if Contains(lower, "<script") then "Interactive HTML"
    else "HTML"
  }

  /** One match becomes one file, under the given path. */
  function CreateFile(path: string, code: string): (f: ParsedFile)
    ensures WellFormed(f) && f.filePath == path
    ensures f.isValid <==> IsValidContent(code)
    ensures f.isValid ==> f.content == Some(code) && f.parserType == Some(ParserType)
                          && f.fileType == Some(DetermineFileType(code))
    ensures !f.isValid ==> f.errorMessage == Some(InvalidMessage)
  {
    if !IsValidContent(code) then Invalid(path, InvalidMessage)
    else Valid(path, code, DetermineFileType(code), ParserType)
  }

  // ---------------------------------------------------------------- title slugs

  /** A file-name stem: lower-case letters, digits and single dashes, with no dash at either end. */
  predicate IsSlug(s: string) {
    && (forall i :: 0 <= i < |s| ==> IsLowerAlnum(s[i]) || s[i] == '-')
    && (forall i :: 0 <= i < |s| - 1 ==> !(s[i] == '-' && s[i + 1] == '-'))
    && (|s| > 0 ==> s[0] != '-' && s[|s| - 1] != '-')
  }

  predicate IsSlugChars(s: string) {
    forall i :: 0 <= i < |s| ==> IsLowerAlnum(s[i]) || s[i] == '-'
  }

  /** Lower-cases, then turns every character outside [a-z0-9] into a dash. */
  function Dashify(s: string): (r: string)
    ensures |r| == |s|
    ensures forall i :: 0 <= i < |r| ==> IsLowerAlnum(r[i]) || r[i] == '-'
    ensures forall i :: 0 <= i < |s| && IsLowerAlnum(s[i]) ==> r[i] == s[i]
  {
    seq(|s|, i requires 0 <= i < |s| => if IsLowerAlnum(LowerChar(s[i])) then LowerChar(s[i]) else '-')
  }

  /** Replaces every run of dashes by a single dash. */
  function Collapse(s: string): (r: string)
    ensures |r| <= |s|
    ensures |s| > 0 ==> |r| > 0 && r[0] == s[0] && r[|r| - 1] == s[|s| - 1]
    ensures forall i :: 0 <= i < |r| ==> IsSlugChars(s) ==> IsLowerAlnum(r[i]) || r[i] == '-'
    ensures forall i :: 0 <= i < |r| - 1 ==> !(r[i] == '-' && r[i + 1] == '-')
    decreases |s|
  {
    if |s| <= 1 then s
    else if s[0] == '-' && s[1] == '-' then Collapse(s[1..])
    else [s[0]] + Collapse(s[1..])
  }

  /** Drops one dash at the start and one at the end. */
  function StripDashes(s: string): (r: string)
  {
    var a := if |s| > 0 && s[0] == '-' then s[1..] else s;
    if |a| > 0 && a[|a| - 1] == '-' then a[..|a| - 1] else a
  }

  /** The slug of a title: lower-cased, non-alphanumerics to dashes, runs collapsed, ends stripped. */
  function Slug(title: string): (r: string)
    ensures IsSlug(r)
  {
    var c := Collapse(Dashify(title));
    StripDashesMakesSlug(c);
    StripDashes(c)
  }

  /** Stripping the end dashes of a dash-collapsed string of slug characters leaves a slug. */
  lemma StripDashesMakesSlug(c: string)
    requires forall i :: 0 <= i < |c| ==> IsLowerAlnum(c[i]) || c[i] == '-'
    requires forall i :: 0 <= i < |c| - 1 ==> !(c[i] == '-' && c[i + 1] == '-')
    ensures IsSlug(StripDashes(c))
  {
    var a := if |c| > 0 && c[0] == '-' then c[1..] else c;
    assert forall i :: 0 <= i < |a| ==> IsLowerAlnum(a[i]) || a[i] == '-';
    assert forall i :: 0 <= i < |a| - 1 ==> !(a[i] == '-' && a[i + 1] == '-');
    assert |a| > 0 ==> a[0] != '-';
  }

  /** Collapsing changes nothing in a string without two dashes in a row. */
  lemma {:induction false} CollapseKeepsSingleDashes(s: string)
    requires forall i :: 0 <= i < |s| - 1 ==> !(s[i] == '-' && s[i + 1] == '-')
    ensures Collapse(s) == s
    decreases |s|
  {
    if |s| > 1 {
      CollapseKeepsSingleDashes(s[1..]);
    }
  }

  /** A slug is its own slug, so slugging is idempotent. */
  lemma SlugOfSlug(s: string)
    requires IsSlug(s)
    ensures Slug(s) == s
  {
    assert Dashify(s) == s;
    CollapseKeepsSingleDashes(s);
  }

  lemma SlugIdempotent(title: string)
    ensures Slug(Slug(title)) == Slug(title)
  {
    SlugOfSlug(Slug(title));
  }

  // ---------------------------------------------------------------- titles

  /** The longest prefix of `s` without a '<'. */
  function UntilTag(s: string): (r: string)
    ensures |r| <= |s| && r == s[..|r|]
    ensures '<' !in r
    ensures |r| == |s| || s[|r|] == '<'
  {
    if |s| == 0 || s[0] == '<' then [] else [s[0]] + UntilTag(s[1..])
  }

  /**
    The first title from index `i` on, the way `<title>([^<]+)</title>` finds it: an
    opening tag, a non-empty run without '<', and the closing tag right after the run.
  */
  function TitleFrom(code: string, i: nat): (t: Option<string>)
    requires i <= |code|
    ensures t.Some? ==> |t.value| > 0 && '<' !in t.value && Contains(code, "<title>" + t.value + "</title>")
    decreases |code| - i
  {
    if i == |code| then None
    else if OccursAt(code, "<title>", i) then
      var run := UntilTag(code[i + 7..]);
      if |run| > 0 && StartsWith(code[i + 7 + |run|..], "</title>") then
        assert code[i..i + 7 + |run| + 8] == "<title>" + run + "</title>";
        assert OccursAt(code, "<title>" + run + "</title>", i);
        Some(run)
      else TitleFrom(code, i + 1)
    else TitleFrom(code, i + 1)
  }

  /** The stem of a doctype block's file: the slug of its title, or "index" when there is no usable title. */
  function PathStem(code: string): (stem: string)
    ensures IsSlug(stem) && |stem| > 0
    ensures !Contains(code, "<title>") ==> stem == "index"
  {
    var title := if Contains(code, "<title>") then TitleFrom(code, 0) else None;
    if title.Some? && Slug(title.value) != [] then Slug(title.value)
    else
      assert IsSlug("index") by {
        assert forall i :: 0 <= i < 5 ==> IsLowerAlnum("index"[i]);
      }
      "index"
  }

  /** The path a doctype block is filed under. */
  function DoctypePath(code: string): (path: string)
    ensures path == StaticRoot + PathStem(code) + ".html"
    ensures StartsWith(path, StaticRoot) && EndsWith(path, ".html")
  {
    var path := StaticRoot + PathStem(code) + ".html";
    assert path[..|StaticRoot|] == StaticRoot;
    assert path[|path| - 5..] == ".html";
    path
  }

  // ---------------------------------------------------------------- extraction

  /** The files of a list of matches, one per match and in match order. */
  function FilesOf(bs: seq<Block>): (fs: seq<ParsedFile>)
    ensures |fs| == |bs|
    ensures forall k :: 0 <= k < |bs| ==> fs[k] == CreateFile(bs[k].path, Trim(bs[k].code))
  {
    if |bs| == 0 then [] else [CreateFile(bs[0].path, Trim(bs[0].code))] + FilesOf(bs[1..])
  }

  /** A doctype block becomes a file under the path its title gives. */
  function DoctypeFile(body: string): ParsedFile
  {
    var code := Trim(body);
    CreateFile(DoctypePath(code), code)
  }

  /** The files of doctype blocks, one per block and in block order. */
  function DoctypeFiles(bodies: seq<string>): (fs: seq<ParsedFile>)
    ensures |fs| == |bodies|
    ensures forall k :: 0 <= k < |bodies| ==> fs[k] == DoctypeFile(bodies[k])
  {
    if |bodies| == 0 then [] else [DoctypeFile(bodies[0])] + DoctypeFiles(bodies[1..])
  }

  /** Extraction: the first three forms as for every extractor, then the doctype blocks when those find nothing. */
  function Parse(content: string): (fs: seq<ParsedFile>)
    ensures |Tiers(Syn, content)| > 0 ==> fs == FilesOf(Tiers(Syn, content))
    ensures |Tiers(Syn, content)| == 0 ==> fs == DoctypeFiles(DoctypeBlocks(content))
  {
    if |Tiers(Syn, content)| > 0 then FilesOf(Tiers(Syn, content))
    else DoctypeFiles(DoctypeBlocks(content))
  }

  lemma DoctypeLiterals()
    ensures ToLower("<!DOCTYPE html") == "<!doctype html"
    ensures "<!doctype html"[..9] == "<!doctype"
  {
  }

  /**
    A file found only through its doctype is valid, labelled an HTML5 document, and
    filed under the static folder with a ".html" name.
  */
  lemma DoctypeFilesAreDocuments(content: string, k: nat)
    requires |Tiers(Syn, content)| == 0 && k < |Parse(content)|
    ensures Parse(content)[k].isValid
    ensures Parse(content)[k].fileType == Some("HTML5 Document")
    ensures StartsWith(Parse(content)[k].filePath, StaticRoot) && EndsWith(Parse(content)[k].filePath, ".html")
  {
    var body := DoctypeBlocks(content)[k];
    var code := Trim(body);
    ContainsTrim(body, "<!DOCTYPE html");
    ContainsLower(code, "<!DOCTYPE html");
    DoctypeLiterals();
    ContainsPrefixOf(ToLower(code), "<!doctype html", 9);
  }
}
