/**
  The block finders shared by every extractor, stated over the reply's lines.

  Each extractor looks for code in up to four forms, tried in order, and keeps the
  first form that yields anything:
  - a fenced block: a line "```tag", a comment naming the path (on the same line
    or on the next non-blank line), the code, and a line holding the closing "```";
  - raw segments: a header comment line naming a path, followed by code up to the
    next header line that starts in column 0 and follows some code;
  - a single file: the first header line of the trimmed reply (not its last line),
    followed by everything after it;
  - for HTML only, an unlabelled "```html" fence whose body holds "<!DOCTYPE html".
*/
module Scanner {
  import opened Text
  import opened Optional

  /** One code block: the path its comment declares, its code as it stands in the reply, and the fence tag or file suffix. */
  datatype Block = Block(path: string, code: string, ext: string)

  /** The lexical conventions of one extractor. */
  datatype Syntax = Syntax(
    tags: seq<string>,      // fence language tags of the fenced form
    blockComments: bool,    // "/* path */" accepted besides "// path"
    srcOnly: bool,          // header paths must lie under "src/"
    suffixes: seq<string>)  // file suffixes (without the dot) a header path may end with

  /** The maximal run of ASCII letters that starts `s`. */
  function LetterRun(s: string): (r: string)
    ensures |r| <= |s| && r == s[..|r|]
    ensures forall i :: 0 <= i < |r| ==> IsLetter(r[i])
    ensures |r| == |s| || !IsLetter(s[|r|])
  {
    if |s| > 0 && IsLetter(s[0]) then [s[0]] + LetterRun(s[1..]) else []
  }

  /** Drops a trailing "*" + "/" and the blanks before it. */
  function StripClose(s: string): (r: string)
    ensures |r| <= |s|
  {
    if EndsWith(s, "*/") then TrimEnd(s[..|s| - 2]) else s
  }

  /** The path a comment line declares: the trimmed text after its opening "//" (or block-comment opener). */
  function CommentPath(syn: Syntax, line: string): (p: Option<string>)
    ensures p.Some? ==> |p.value| > 0
  {
    var t := Trim(line);
    if StartsWith(t, "//") || (syn.blockComments && StartsWith(t, "/*")) then
      var rest := Trim(t[2..]);
      var path := if syn.blockComments then StripClose(rest) else rest;
      if |path| > 0 then Some(path) else None
    else None
  }

  /** The first accepted suffix a header path ends with, if the path is acceptable at all. */
  function PathSuffix(syn: Syntax, path: string, k: nat): (ext: Option<string>)
    requires k <= |syn.suffixes|
    ensures ext.Some? ==> AcceptedPath(syn, path, ext.value)
    decreases |syn.suffixes| - k
  {
    if k == |syn.suffixes| then None
    else if AcceptedPath(syn, path, syn.suffixes[k]) then Some(syn.suffixes[k])
    else PathSuffix(syn, path, k + 1)
  }

  /**
    A header path: it ends with "." + `ext`, has at least one character before that
    dot, and, when the syntax demands it, starts with "src/" followed by at least
    one character before the dot.
  */
  predicate AcceptedPath(syn: Syntax, path: string, ext: string) {
    && ext in syn.suffixes
    && EndsWith(path, "." + ext)
    && (if syn.srcOnly then StartsWith(path, "src/") && |path| > 5 + |ext| else |path| > 1 + |ext|)
  }

  /** A header line: a comment whose path is accepted; gives the path and its suffix. */
  function Header(syn: Syntax, line: string): (h: Option<(string, string)>)
    ensures h.Some? ==> AcceptedPath(syn, h.value.0, h.value.1)
  {
    match CommentPath(syn, line)
    case None => None
    case Some(path) =>
      match PathSuffix(syn, path, 0)
      case None => None
      case Some(ext) => Some((path, ext))
  }

  /**
    A line that ends a raw segment: it starts in column 0 with a comment opener and,
    after the blanks that follow, names something of the header's shape (for
    "src/" syntaxes: "src/", one character, then "." + suffix somewhere later).
  */
  predicate SplitsSegment(syn: Syntax, line: string) {
    && (StartsWith(line, "//") || (syn.blockComments && StartsWith(line, "/*")))
    && var rest := TrimStart(line[2..]);
       exists k :: 0 <= k < |syn.suffixes| &&
         if syn.srcOnly then StartsWith(rest, "src/") && |rest| > 5 && Contains(rest[5..], "." + syn.suffixes[k])
         else |rest| > 1 && Contains(rest[1..], "." + syn.suffixes[k])
  }

  // ---------------------------------------------------------------- fenced form

  /** The trimmed line starts with "```" followed by `tag`. */
  predicate OpensWith(line: string, tag: string) {
    StartsWith(Trim(line), "```" + tag)
  }

  /** When the trimmed line opens a fence with one of the tags: the tag and the rest of the line, trimmed. */
  function FenceOpen(syn: Syntax, line: string): (o: Option<(string, string)>)
    ensures o.Some? ==> o.value.0 in syn.tags && OpensWith(line, o.value.0)
  {
    var t := Trim(line);
    if StartsWith(t, "```") then
      var tag := LetterRun(t[3..]);
      assert t[..3 + |tag|] == "```" + tag;
      if tag in syn.tags then Some((tag, Trim(t[3 + |tag|..]))) else None
    else None
  }

  // ---------------------------------------------------------------- per-line facts

  /** What the scans need to know about one line, computed once per line. */
  datatype LineFacts = LineFacts(
    blank: bool,                          // only trimmable characters
    fence: bool,                          // holds "```"
    beforeFence: string,                  // the part before the first "```", or the whole line
    opener: Option<(string, string)>,     // fence opening: tag and rest of the line
    inlinePath: Option<string>,           // path of a comment on the opening line itself
    commentPath: Option<string>,          // path of the line read as a comment
    header: Option<(string, string)>,     // header path and suffix
    splits: bool)                         // ends a raw segment

  function FactsOf(syn: Syntax, line: string): LineFacts
  {
    var opener := FenceOpen(syn, line);
    var cut := IndexOf(line, "```");
    LineFacts(
      IsBlank(line),
      cut >= 0,
      if cut >= 0 then line[..cut] else line,
      opener,
      if opener.Some? then CommentPath(syn, opener.value.1) else None,
      CommentPath(syn, line),
      Header(syn, line),
      SplitsSegment(syn, line))
  }

  /** The facts of every line of a reply. */
  function Facts(syn: Syntax, lines: seq<string>): (fs: seq<LineFacts>)
    ensures |fs| == |lines|
  {
    if |lines| == 0 then [] else [FactsOf(syn, lines[0])] + Facts(syn, lines[1..])
  }

  /** The guarantees the scans rely on, which the facts of every reply meet. */
  predicate Coherent(syn: Syntax, lines: seq<string>, fs: seq<LineFacts>) {
    && |fs| == |lines|
    && (forall k :: 0 <= k < |fs| && fs[k].opener.Some? ==>
          fs[k].opener.value.0 in syn.tags && OpensWith(lines[k], fs[k].opener.value.0))
    && (forall k :: 0 <= k < |fs| && fs[k].inlinePath.Some? ==> |fs[k].inlinePath.value| > 0)
    && (forall k :: 0 <= k < |fs| && fs[k].commentPath.Some? ==> |fs[k].commentPath.value| > 0)
    && (forall k :: 0 <= k < |fs| && fs[k].header.Some? ==>
          AcceptedPath(syn, fs[k].header.value.0, fs[k].header.value.1))
  }

  lemma FactsCoherent(syn: Syntax, lines: seq<string>)
    ensures Coherent(syn, lines, Facts(syn, lines))
  {
    var fs := Facts(syn, lines);
    forall k | 0 <= k < |fs|
      ensures fs[k].opener.Some? ==> fs[k].opener.value.0 in syn.tags && OpensWith(lines[k], fs[k].opener.value.0)
      ensures fs[k].inlinePath.Some? ==> |fs[k].inlinePath.value| > 0
      ensures fs[k].commentPath.Some? ==> |fs[k].commentPath.value| > 0
      ensures fs[k].header.Some? ==> AcceptedPath(syn, fs[k].header.value.0, fs[k].header.value.1)
    {
      FactsAt(syn, lines, k);
    }
  }

  /** The facts at index `k` are the facts of line `k`. */
  lemma {:induction false} FactsAt(syn: Syntax, lines: seq<string>, k: nat)
    requires k < |lines|
    ensures Facts(syn, lines)[k] == FactsOf(syn, lines[k])
  {
    if k > 0 {
      FactsAt(syn, lines[1..], k - 1);
    }
  }

  /** First line at or after `i` that is not blank, or `|fs|`. */
  function NextNonBlank(fs: seq<LineFacts>, i: nat): (k: nat)
    requires i <= |fs|
    ensures i <= k <= |fs|
    ensures k < |fs| ==> !fs[k].blank
    ensures forall j :: i <= j < k ==> fs[j].blank
    decreases |fs| - i
  {
    if i == |fs| || !fs[i].blank then i else NextNonBlank(fs, i + 1)
  }

  /** First line at or after `i` that holds "```", or `|fs|`. */
  function NextFence(fs: seq<LineFacts>, i: nat): (k: nat)
    requires i <= |fs|
    ensures i <= k <= |fs|
    ensures k < |fs| ==> fs[k].fence
    ensures forall j :: i <= j < k ==> !fs[j].fence
    decreases |fs| - i
  {
    if i == |fs| || fs[i].fence then i else NextFence(fs, i + 1)
  }

  /** The text of lines `start` up to (excluding) `close`, followed by the part of line `close` before its "```". */
  function FencedBody(lines: seq<string>, fs: seq<LineFacts>, start: nat, close: nat): string
    requires |fs| == |lines| && start <= close < |lines|
  {
    Join(lines[start..close] + [fs[close].beforeFence], "\n")
  }

  // ---------------------------------------------------------------- fenced form

  /** The block a fence opened at line `i` yields, together with the index of its closing line. */
  function FenceAt(syn: Syntax, lines: seq<string>, fs: seq<LineFacts>, i: nat): (r: Option<(Block, nat)>)
    requires Coherent(syn, lines, fs) && i < |lines|
    ensures r.Some? ==> i < r.value.1 < |lines|
    ensures r.Some? ==> r.value.0.ext in syn.tags && fs[i].opener.Some? && fs[i].opener.value.0 == r.value.0.ext
    ensures r.Some? ==> |r.value.0.path| > 0
  {
    match fs[i].opener
    case None => None
    case Some((tag, rest)) =>
      var comment := if rest == [] then NextNonBlank(fs, i + 1) else i;
      if comment == |lines| then None
      else
        var path := if rest == [] then fs[comment].commentPath else fs[i].inlinePath;
        var close := NextFence(fs, comment + 1);
        if path.None? || close == |lines| then None
        else Some((Block(path.value, FencedBody(lines, fs, comment + 1, close), tag), close))
  }

  /** Some line at or after `i` opens a fence with `tag`. */
  predicate OpenedFrom(fs: seq<LineFacts>, i: nat, tag: string) {
    exists j :: i <= j < |fs| && fs[j].opener.Some? && fs[j].opener.value.0 == tag
  }

  /** All fenced blocks from line `i` on; scanning resumes after each closing line. */
  function Fenced(syn: Syntax, lines: seq<string>, fs: seq<LineFacts>, i: nat): (bs: seq<Block>)
    requires Coherent(syn, lines, fs) && i <= |lines|
    ensures forall k :: 0 <= k < |bs| ==> bs[k].ext in syn.tags && |bs[k].path| > 0
    ensures forall k :: 0 <= k < |bs| ==> OpenedFrom(fs, i, bs[k].ext)
    decreases |lines| - i
  {
    if i == |lines| then []
    else
      var here := FenceAt(syn, lines, fs, i);
      if here.None? then Fenced(syn, lines, fs, i + 1)
      else [here.value.0] + Fenced(syn, lines, fs, here.value.1 + 1)
  }

  // ---------------------------------------------------------------- raw segments

  /** First header line at or after `i`, or `|fs|`. */
  function NextHeader(fs: seq<LineFacts>, i: nat): (k: nat)
    requires i <= |fs|
    ensures i <= k <= |fs|
    ensures k < |fs| ==> fs[k].header.Some?
    ensures forall j :: i <= j < k ==> fs[j].header.None?
    decreases |fs| - i
  {
    if i == |fs| || fs[i].header.Some? then i else NextHeader(fs, i + 1)
  }

  /**
    Where a segment body that starts at line `i` ends: the first splitting line
    after at least one non-blank body line (`seen`), or `|fs|`.
  */
  function SegmentEnd(fs: seq<LineFacts>, i: nat, seen: bool): (e: nat)
    requires i <= |fs|
    ensures i <= e <= |fs|
    ensures e < |fs| ==> fs[e].splits
    decreases |fs| - i
  {
    if i == |fs| then i
    else if seen && fs[i].splits then i
    else SegmentEnd(fs, i + 1, seen || !fs[i].blank)
  }

  /** All raw segments from line `i` on; a header with nothing after it yields no block. */
  function Raw(syn: Syntax, lines: seq<string>, fs: seq<LineFacts>, i: nat): (bs: seq<Block>)
    requires Coherent(syn, lines, fs) && i <= |lines|
    ensures forall k :: 0 <= k < |bs| ==> AcceptedPath(syn, bs[k].path, bs[k].ext)
    decreases |lines| - i
  {
    var h := NextHeader(fs, i);
    if h == |lines| then []
    else
      var e := SegmentEnd(fs, h + 1, false);
      var body := Join(lines[h + 1..e], "\n");
      var header := fs[h].header.value;
      var here := if body != [] then [Block(header.0, body, header.1)] else [];
      here + (if e < |lines| then Raw(syn, lines, fs, e) else [])
  }

  // ---------------------------------------------------------------- single file

  /** First header line before the last line, or `|fs|` when there is none. */
  function FirstHeaderBeforeLast(fs: seq<LineFacts>, i: nat): (k: nat)
    requires i <= |fs|
    ensures i <= k <= |fs|
    ensures k < |fs| ==> k + 1 < |fs| && fs[k].header.Some?
    ensures forall j :: i <= j < k && j + 1 < |fs| ==> fs[j].header.None?
    decreases |fs| - i
  {
    if i + 1 >= |fs| then |fs|
    else if fs[i].header.Some? then i
    else FirstHeaderBeforeLast(fs, i + 1)
  }

  /** The single-file form: the first header of the trimmed reply and everything after it. */
  function Single(syn: Syntax, text: string): (b: Option<Block>)
    ensures b.Some? ==> AcceptedPath(syn, b.value.path, b.value.ext)
  {
    var lines := Lines(Trim(text));
    var fs := Facts(syn, lines);
    FactsCoherent(syn, lines);
    var h := FirstHeaderBeforeLast(fs, 0);
    if h == |lines| then None
    else
      var header := fs[h].header.value;
      Some(Block(header.0, Join(lines[h + 1..], "\n"), header.1))
  }

  // ---------------------------------------------------------------- doctype blocks

  /** An unlabelled "```html" fence whose body holds "<!DOCTYPE html": its body and closing line. */
  function DoctypeAt(lines: seq<string>, fs: seq<LineFacts>, i: nat): (r: Option<(string, nat)>)
    requires |fs| == |lines| && i < |lines|
    ensures r.Some? ==> i < r.value.1 < |lines| && Contains(r.value.0, "<!DOCTYPE html")
  {
    if Trim(lines[i]) != "```html" then None
    else
      var close := NextFence(fs, i + 1);
      if close == |lines| then None
      else
        var body := FencedBody(lines, fs, i + 1, close);
        if Contains(body, "<!DOCTYPE html") then Some((body, close)) else None
  }

  /** Bodies of all doctype fences from line `i` on. */
  function Doctypes(lines: seq<string>, fs: seq<LineFacts>, i: nat): (bodies: seq<string>)
    requires |fs| == |lines| && i <= |lines|
    ensures forall k :: 0 <= k < |bodies| ==> Contains(bodies[k], "<!DOCTYPE html")
    decreases |lines| - i
  {
    if i == |lines| then []
    else
      var here := DoctypeAt(lines, fs, i);
      if here.None? then Doctypes(lines, fs, i + 1)
      else [here.value.0] + Doctypes(lines, fs, here.value.1 + 1)
  }

  // ---------------------------------------------------------------- whole replies

  /** Every fenced block of a reply, in order. */
  function FencedBlocks(syn: Syntax, text: string): (bs: seq<Block>)
    ensures forall k :: 0 <= k < |bs| ==> bs[k].ext in syn.tags && |bs[k].path| > 0
  {
    FactsCoherent(syn, Lines(text));
    Fenced(syn, Lines(text), Facts(syn, Lines(text)), 0)
  }

  /** Every raw segment of a reply, in order. */
  function RawBlocks(syn: Syntax, text: string): (bs: seq<Block>)
    ensures forall k :: 0 <= k < |bs| ==> AcceptedPath(syn, bs[k].path, bs[k].ext)
  {
    FactsCoherent(syn, Lines(text));
    Raw(syn, Lines(text), Facts(syn, Lines(text)), 0)
  }

  /** The single-file form as a list of at most one block. */
  function SingleBlocks(syn: Syntax, text: string): (bs: seq<Block>)
    ensures |bs| <= 1
    ensures forall k :: 0 <= k < |bs| ==> AcceptedPath(syn, bs[k].path, bs[k].ext)
  {
    var o := Single(syn, text);
    if o.None? then [] else [o.value]
  }

  /** The blocks of the first form that finds any: fenced blocks, then raw segments, then a single file. */
  function Tiers(syn: Syntax, text: string): (bs: seq<Block>)
    ensures |FencedBlocks(syn, text)| > 0 ==> bs == FencedBlocks(syn, text)
    ensures |FencedBlocks(syn, text)| == 0 && |RawBlocks(syn, text)| > 0 ==> bs == RawBlocks(syn, text)
    ensures |FencedBlocks(syn, text)| == 0 && |RawBlocks(syn, text)| == 0 ==> bs == SingleBlocks(syn, text)
  {
    if |FencedBlocks(syn, text)| > 0 then FencedBlocks(syn, text)
    else if |RawBlocks(syn, text)| > 0 then RawBlocks(syn, text)
    else SingleBlocks(syn, text)
  }

  /** Bodies of every doctype fence of a reply, in order. */
  function DoctypeBlocks(text: string): (bodies: seq<string>)
    ensures forall k :: 0 <= k < |bodies| ==> Contains(bodies[k], "<!DOCTYPE html")
  {
    Doctypes(Lines(text), Facts(Syntax([], false, false, []), Lines(text)), 0)
  }

  // ---------------------------------------------------------------- facts about the text

  /** A line's content is content of the joined text. */
  lemma {:induction false} ContainsInJoin(lines: seq<string>, sep: string, k: nat, sub: string)
    requires k < |lines| && Contains(lines[k], sub)
    ensures Contains(Join(lines, sep), sub)
  {
    if |lines| == 1 {
    } else if k == 0 {
      ContainsInConcat([], lines[0], sep + Join(lines[1..], sep), sub);
      assert Join(lines, sep) == [] + lines[0] + (sep + Join(lines[1..], sep));
    } else {
      ContainsInJoin(lines[1..], sep, k - 1, sub);
      ContainsInConcat(lines[0] + sep, Join(lines[1..], sep), [], sub);
      assert Join(lines, sep) == (lines[0] + sep) + Join(lines[1..], sep) + [];
    }
  }

  /** A line that opens a fence with `tag` puts "```" + `tag` into the text. */
  lemma OpenerInText(text: string, j: nat, tag: string)
    requires j < |Lines(text)| && OpensWith(Lines(text)[j], tag)
    ensures Contains(text, "```" + tag)
  {
    var line := Lines(text)[j];
    var k := TrimIsSlice(line);
    ContainsPrefix(Trim(line), "```" + tag);
    ContainsInSlice(line, k, |Trim(line)|, "```" + tag);
    ContainsInJoin(Lines(text), "\n", j, "```" + tag);
  }

  /** Every fenced block of a text is announced by "```" + its tag somewhere in the text. */
  lemma FencedTagInText(syn: Syntax, text: string, k: nat)
    requires k < |FencedBlocks(syn, text)|
    ensures Contains(text, "```" + FencedBlocks(syn, text)[k].ext)
  {
    FactsCoherent(syn, Lines(text));
    var fs := Facts(syn, Lines(text));
    var b := FencedBlocks(syn, text)[k];
    assert OpenedFrom(fs, 0, b.ext);
    var j: nat :| j < |fs| && fs[j].opener.Some? && fs[j].opener.value.0 == b.ext;
    OpenerInText(text, j, b.ext);
  }

  /** The tiers find nothing exactly when none of the three forms does. */
  lemma TiersEmptyIffAllEmpty(syn: Syntax, text: string)
    ensures |Tiers(syn, text)| == 0 <==>
      |FencedBlocks(syn, text)| == 0 && |RawBlocks(syn, text)| == 0 && |SingleBlocks(syn, text)| == 0
  {
  }

  /** Outside the fenced form, every block is named by an accepted header path. */
  lemma HeaderTierPaths(syn: Syntax, text: string, k: nat)
    requires |FencedBlocks(syn, text)| == 0 && k < |Tiers(syn, text)|
    ensures AcceptedPath(syn, Tiers(syn, text)[k].path, Tiers(syn, text)[k].ext)
  {
  }

  /** A reply without fences or raw segments gives at most one block. */
  lemma SingleTierAtMostOne(syn: Syntax, text: string)
    requires |FencedBlocks(syn, text)| == 0 && |RawBlocks(syn, text)| == 0
    ensures |Tiers(syn, text)| <= 1
  {
  }
}
