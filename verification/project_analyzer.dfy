/**
  The decisions inside the analysis of an existing Spring Boot project
  (`ProjectAnalyzerService.java`): how a source file is classified, how its
  class and package names are read, which entries the directory tree shows and
  in which order, how the tree is drawn, and how the database is guessed from
  the pom. The file system is replaced by its contents: a directory is an
  `Entry` with its children, a file is its name and its text.
*/
module ProjectAnalyzer {
  import opened Text
  import opened Optional
  import opened ProjectStructures
  import JavaParser

  /** The package reported when no declaration is found. */
  const DefaultPackage := "com.sonic.claudeforge"

  // ---------------------------------------------------------------------------
  // Classification of a source file

  /** The labels the analysis tries, in the order it tries them. */
  const FileTypeOrder := ["Controller", "Service", "Repository", "Entity", "Configuration"]

  /**
    First match over the stereotype annotations: a label is given only when its
    annotation is present and no earlier label's is; "Class" exactly when none is.
  */
  function DetermineFileType(content: string): (kind: string)
    ensures kind == "Class" || kind in FileTypeOrder
    ensures forall i :: 0 <= i < |FileTypeOrder| && FileTypeOrder[i] == kind ==>
      JavaParser.Marked(content, kind) && forall j :: 0 <= j < i ==> !JavaParser.Marked(content, FileTypeOrder[j])
    ensures kind == "Class" <==> forall i :: 0 <= i < |FileTypeOrder| ==> !JavaParser.Marked(content, FileTypeOrder[i])
  {
    if Contains(content, "@RestController") || Contains(content, "@Controller") then "Controller"
    else if Contains(content, "@Service") then "Service"
    else if Contains(content, "@Repository") then "Repository"
    else if Contains(content, "@Entity") then "Entity"
    else if Contains(content, "@Configuration") then "Configuration"
    else "Class"
  }

  /**
    The analysis and the Java extractor agree on every stereotype label; where
    the analysis says "Class" the extractor may still see a filter, an interface
    or an enum.
  */
  lemma FileTypeAgreesWithExtractor(content: string)
    ensures DetermineFileType(content) != "Class" ==> DetermineFileType(content) == JavaParser.DetermineFileType(content)
    ensures DetermineFileType(content) == "Class" ==>
      JavaParser.DetermineFileType(content) in {"Filter", "Interface", "Enum", "Class"}
  {
    var kind := DetermineFileType(content);
    if kind == "Class" {
      assert forall i :: 0 <= i < |FileTypeOrder| ==> !JavaParser.Marked(content, FileTypeOrder[i]);
      assert !JavaParser.Marked(content, "Controller") && !JavaParser.Marked(content, "Service");
      assert !JavaParser.Marked(content, "Repository") && !JavaParser.Marked(content, "Entity");
      assert !JavaParser.Marked(content, "Configuration") by { assert FileTypeOrder[4] == "Configuration"; }
    }
  }

  // ---------------------------------------------------------------------------
  // Class name

  /** `fileName.replace(".java", "")`: every non-overlapping ".java" is removed. */
  function ExtractClassName(fileName: string): (name: string)
    ensures !Contains(fileName, ".java") ==> name == fileName
  {
    ReplaceAll(fileName, ".java", "")
  }

  /** ".java" cannot begin inside a stem that does not contain it and end inside the suffix. */
  lemma FirstJavaSuffix(stem: string)
    requires !Contains(stem, ".java")
    ensures IndexOf(stem + ".java", ".java") == |stem|
  {
    var s := stem + ".java";
    assert OccursAt(s, ".java", |stem|);
    forall j: nat | j < |stem| ensures !OccursAt(s, ".java", j) {
      if j + 5 <= |stem| {
        assert s[j..j + 5] == stem[j..j + 5];
        assert !OccursAt(stem, ".java", j);
      } else if j + 5 <= |s| {
        assert s[j..j + 5][|stem| - j] == s[|stem|] == '.';
        DotOnlyFirst(|stem| - j);
      }
    }
  }

  /** Only the first character of ".java" is a dot. */
  lemma DotOnlyFirst(k: nat)
    requires 0 < k < 5
    ensures ".java"[k] != '.'
  {
    var w := ".java";
    assert w[1] == 'j' && w[2] == 'a' && w[3] == 'v' && w[4] == 'a';
  }

  /** The class name of a Java source file is its stem. */
  lemma ClassNameOfJavaFile(stem: string)
    requires !Contains(stem, ".java")
    ensures ExtractClassName(stem + ".java") == stem
  {
    var s := stem + ".java";
    FirstJavaSuffix(stem);
    assert s[..|stem|] == stem && s[|stem| + 5..] == [];
    assert IndexOf([], ".java") == -1;
    assert SplitOn(s[|stem| + 5..], ".java") == [[]];
    assert SplitOn(s, ".java") == [stem, []];
    assert Join([stem, []], "") == stem + "" + Join([[]], "");
  }

  // ---------------------------------------------------------------------------
  // Package declaration: the first match of `package\s+([\w.]+);`

  predicate IsPackageChar(c: char) { IsWordChar(c) || c == '.' }

  /**
    Whether the pattern matches at `i`. The greedy runs need no backtracking:
    a name character is never a space and ';' is never a name character.
  */
  predicate PackageAt(s: string, i: nat) {
    && i + 7 <= |s| && s[i..i + 7] == "package"
    && var sp := Run(s, i + 7, IsRegexSpace);
    && sp > 0
    && var nm := Run(s, i + 7 + sp, IsPackageChar);
    && nm > 0 && i + 7 + sp + nm < |s| && s[i + 7 + sp + nm] == ';'
  }

  /** The captured package name of the match at `i`. */
  function PackageNameAt(s: string, i: nat): (p: string)
    requires PackageAt(s, i)
    ensures |p| > 0 && forall k :: 0 <= k < |p| ==> IsPackageChar(p[k])
  {
    var start := i + 7 + Run(s, i + 7, IsRegexSpace);
    s[start..start + Run(s, start, IsPackageChar)]
  }

  /** The first match at or after `i`, or the default package. */
  function PackageFrom(s: string, i: nat): (p: string)
    requires i <= |s|
    ensures |p| > 0 && forall k :: 0 <= k < |p| ==> IsPackageChar(p[k])
    decreases |s| - i
  {
    if PackageAt(s, i) then PackageNameAt(s, i)
    else if i == |s| then DefaultPackage
    else PackageFrom(s, i + 1)
  }

  function ExtractPackage(content: string): (p: string)
    ensures |p| > 0 && forall k :: 0 <= k < |p| ==> IsPackageChar(p[k])
  {
    PackageFrom(content, 0)
  }

  lemma {:induction false} PackageFromFirst(s: string, from: nat, i: nat)
    requires from <= i <= |s| && PackageAt(s, i)
    requires forall j: nat :: from <= j < i ==> !PackageAt(s, j)
    ensures PackageFrom(s, from) == PackageNameAt(s, i)
    decreases i - from
  {
    if from < i {
      PackageFromFirst(s, from + 1, i);
    }
  }

  lemma {:induction false} PackageFromNone(s: string, from: nat)
    requires from <= |s|
    requires forall j: nat :: from <= j <= |s| ==> !PackageAt(s, j)
    ensures PackageFrom(s, from) == DefaultPackage
    decreases |s| - from
  {
    if from < |s| {
      PackageFromNone(s, from + 1);
    }
  }

  /**
    The package is the name captured by the leftmost match, and the default
    exactly when the pattern matches nowhere (or names the default itself).
  */
  lemma ExtractPackageIsFirstMatch(s: string, i: nat)
    ensures PackageAt(s, i) && (forall j: nat :: j < i ==> !PackageAt(s, j)) ==> ExtractPackage(s) == PackageNameAt(s, i)
    ensures (forall j: nat :: j <= |s| ==> !PackageAt(s, j)) ==> ExtractPackage(s) == DefaultPackage
  {
    if PackageAt(s, i) && (forall j: nat :: j < i ==> !PackageAt(s, j)) {
      PackageFromFirst(s, 0, i);
    }
    if forall j: nat :: j <= |s| ==> !PackageAt(s, j) {
      PackageFromNone(s, 0);
    }
  }

  /** A file that starts with a package declaration reports that package. */
  lemma DeclaredPackage(p: string, rest: string)
    requires |p| > 0 && forall k :: 0 <= k < |p| ==> IsPackageChar(p[k])
    ensures ExtractPackage("package " + p + ";" + rest) == p
  {
    var s := "package " + p + ";" + rest;
    assert s[..7] == "package" && s[7] == ' ';
    assert s[8] == p[0] && !IsRegexSpace(p[0]);
    var sp := Run(s, 7, IsRegexSpace);
    assert sp == 1;
    var nm := Run(s, 8, IsPackageChar);
    assert s[8..8 + |p|] == p && s[8 + |p|] == ';';
    assert forall k :: 8 <= k < 8 + |p| ==> s[k] == p[k - 8];
    assert nm == |p|;
    assert PackageAt(s, 0);
    PackageFromFirst(s, 0, 0);
  }

  /** The base package: that of the first file carrying the application annotation, else the default. */
  function FindBasePackage(contents: seq<string>): (p: string)
    ensures (forall k :: 0 <= k < |contents| ==> !Contains(contents[k], AppMarker)) ==> p == DefaultPackage
  {
    if |contents| == 0 then DefaultPackage
    else if Contains(contents[0], AppMarker) then ExtractPackage(contents[0])
    else FindBasePackage(contents[1..])
  }

  const AppMarker := "@SpringBootApplication"

  /** The first file with the application annotation decides the base package. */
  lemma {:induction false} BasePackageOfFirstApp(contents: seq<string>, k: nat)
    requires k < |contents| && Contains(contents[k], AppMarker)
    requires forall j :: 0 <= j < k ==> !Contains(contents[j], AppMarker)
    ensures FindBasePackage(contents) == ExtractPackage(contents[k])
  {
    if k > 0 {
      assert !Contains(contents[0], AppMarker);
      BasePackageOfFirstApp(contents[1..], k - 1);
    }
  }

  /** One scanned source file: its name, class, package and label. */
  function ScanFile(fileName: string, filePath: string, relativePath: string, content: string): (info: FileInfo)
    ensures info.fileName == fileName && info.filePath == filePath && info.relativePath == relativePath
    ensures info.className == ExtractClassName(fileName)
    ensures info.packageName == ExtractPackage(content)
    ensures info.fileType == DetermineFileType(content)
  {
    FileInfo(fileName, filePath, relativePath, DetermineFileType(content), ExtractClassName(fileName), ExtractPackage(content))
  }

  // ---------------------------------------------------------------------------
  // Endpoints of the controllers

  /** The verbs of the mapping annotations the endpoint pattern recognises. */
  datatype Verb = Get | Post | Put | Delete | Request

  /** One match of the mapping pattern: the annotation's verb, its `value` path and the method name. */
  datatype MappingMatch = MappingMatch(verb: Verb, path: string, methodName: string)

  /** The upper-cased verb, as the endpoint records it. */
  function VerbName(v: Verb): (s: string)
    ensures s in {"GET", "POST", "PUT", "DELETE", "REQUEST"}
    ensures s == ToUpper(match v case Get => "Get" case Post => "Post" case Put => "Put" case Delete => "Delete" case Request => "Request")
  {
    match v
    case Get => "GET"
    case Post => "POST"
    case Put => "PUT"
    case Delete => "DELETE"
    case Request => "REQUEST"
  }

  /** The endpoints of one controller, in match order. */
  function ParseApiEndpoints(matches: seq<MappingMatch>, controllerClass: string): (es: seq<ApiEndpoint>)
    ensures |es| == |matches|
    ensures forall k :: 0 <= k < |es| ==>
      es[k] == ApiEndpoint(VerbName(matches[k].verb), matches[k].path, controllerClass, matches[k].methodName, "Auto-detected endpoint")
  {
    seq(|matches|, k requires 0 <= k < |matches| =>
      ApiEndpoint(VerbName(matches[k].verb), matches[k].path, controllerClass, matches[k].methodName, "Auto-detected endpoint"))
  }

  /** The endpoints one scanned file contributes: its matches when it is a controller, none otherwise. */
  function FileEndpoints(file: (FileInfo, seq<MappingMatch>)): seq<ApiEndpoint> {
    if file.0.fileType == "Controller" then ParseApiEndpoints(file.1, file.0.className) else []
  }

  /**
    The endpoints of all scanned files, each file paired with the matches its
    text yields: only files labelled "Controller" contribute, in file order.
  */
  function ExtractApiEndpoints(files: seq<(FileInfo, seq<MappingMatch>)>): (es: seq<ApiEndpoint>)
    ensures forall k :: 0 <= k < |es| ==> es[k].httpMethod in {"GET", "POST", "PUT", "DELETE", "REQUEST"}
    ensures forall k :: 0 <= k < |es| ==>
      exists f :: 0 <= f < |files| && files[f].0.fileType == "Controller" && es[k].controllerClass == files[f].0.className
    ensures (forall f :: 0 <= f < |files| ==> files[f].0.fileType != "Controller") ==> es == []
  {
    if |files| == 0 then []
    else
      var head := FileEndpoints(files[0]);
      var tail := ExtractApiEndpoints(files[1..]);
      assert forall k :: 0 <= k < |tail| ==>
        exists f :: 0 <= f < |files| && files[f].0.fileType == "Controller" && tail[k].controllerClass == files[f].0.className by {
        forall k | 0 <= k < |tail|
          ensures exists f :: 0 <= f < |files| && files[f].0.fileType == "Controller" && tail[k].controllerClass == files[f].0.className
        {
          var f :| 0 <= f < |files[1..]| && files[1..][f].0.fileType == "Controller" && tail[k].controllerClass == files[1..][f].0.className;
          assert files[f + 1] == files[1..][f];
        }
      }
      head + tail
  }

  /** The number of mapping matches in the files labelled "Controller". */
  function EndpointCount(files: seq<(FileInfo, seq<MappingMatch>)>): nat {
    if |files| == 0 then 0
    else (if files[0].0.fileType == "Controller" then |files[0].1| else 0) + EndpointCount(files[1..])
  }

  /** Extraction distributes over concatenation of the file list. */
  lemma {:induction false} EndpointsAppend(a: seq<(FileInfo, seq<MappingMatch>)>, b: seq<(FileInfo, seq<MappingMatch>)>)
    ensures ExtractApiEndpoints(a + b) == ExtractApiEndpoints(a) + ExtractApiEndpoints(b)
    decreases |a|
  {
    if |a| > 0 {
      assert (a + b)[1..] == a[1..] + b;
      assert (a + b)[0] == a[0];
      assert ExtractApiEndpoints(a + b) == FileEndpoints(a[0]) + ExtractApiEndpoints(a[1..] + b);
      assert ExtractApiEndpoints(a) == FileEndpoints(a[0]) + ExtractApiEndpoints(a[1..]);
      EndpointsAppend(a[1..], b);
    } else {
      assert a + b == b;
    }
  }

  /** Every match in a controller yields one endpoint, and nothing else does. */
  lemma {:induction false} EndpointsCounted(files: seq<(FileInfo, seq<MappingMatch>)>)
    ensures |ExtractApiEndpoints(files)| == EndpointCount(files)
  {
    if |files| > 0 {
      EndpointsCounted(files[1..]);
    }
  }

  /**
    A controller's endpoints appear as one block, in match order, right after
    those of the files before it; a file of any other label adds nothing.
  */
  lemma EndpointsOfFile(files: seq<(FileInfo, seq<MappingMatch>)>, f: nat)
    requires f < |files|
    ensures var es := ExtractApiEndpoints(files);
      var o := EndpointCount(files[..f]);
      files[f].0.fileType == "Controller" ==>
        o + |files[f].1| <= |es| && es[o..o + |files[f].1|] == ParseApiEndpoints(files[f].1, files[f].0.className)
    ensures files[f].0.fileType != "Controller" ==> ExtractApiEndpoints(files[..f + 1]) == ExtractApiEndpoints(files[..f])
  {
    var before, one, after := files[..f], [files[f]], files[f + 1..];
    assert files == before + one + after;
    assert files[..f + 1] == before + one;
    EndpointsAppend(before + one, after);
    EndpointsAppend(before, one);
    EndpointsCounted(before);
    assert one[1..] == [];
  }

  // ---------------------------------------------------------------------------
  // The directory tree

  /** What a directory listing returns: files, and directories with their own listing. */
  datatype Entry = File(name: string) | Dir(name: string, children: seq<Entry>)

  /** Build output, version control, IDE settings, installed packages and every hidden name. */
  predicate Ignored(name: string) {
    name == "target" || name == ".git" || name == ".idea" || name == "node_modules" || StartsWith(name, ".")
  }

  /** The entries of a listing that the tree shows, in listing order. */
  function Kept(es: seq<Entry>): (ks: seq<Entry>)
    ensures |ks| <= |es|
    ensures forall k :: 0 <= k < |ks| ==> !Ignored(ks[k].name)
  {
    if |es| == 0 then []
    else (if Ignored(es[0].name) then [] else [es[0]]) + Kept(es[1..])
  }

  /** An entry is shown exactly when it is listed and not ignored. */
  lemma {:induction false} KeptMembers(es: seq<Entry>, e: Entry)
    ensures e in Kept(es) <==> e in es && !Ignored(e.name)
  {
    if |es| > 0 {
      KeptMembers(es[1..], e);
      assert es == [es[0]] + es[1..];
    }
  }

  /**
    `compareToIgnoreCase`: the difference of the first pair of characters that
    differ after case folding, or else the difference of the lengths.
  */
  function CompareIgnoreCase(a: string, b: string): (c: int)
    ensures a == b ==> c == 0
  {
    if |a| == 0 || |b| == 0 then |a| - |b|
    else if LowerChar(a[0]) != LowerChar(b[0]) then LowerChar(a[0]) as int - LowerChar(b[0]) as int
    else CompareIgnoreCase(a[1..], b[1..])
  }

  /** Swapping the arguments negates the comparison. */
  lemma {:induction false} CompareAntisymmetric(a: string, b: string)
    ensures CompareIgnoreCase(b, a) == -CompareIgnoreCase(a, b)
  {
    if |a| > 0 && |b| > 0 && LowerChar(a[0]) == LowerChar(b[0]) {
      CompareAntisymmetric(a[1..], b[1..]);
    }
  }

  /** The comparator's "not after": directories before files, then by name ignoring case. */
  predicate Before(x: Entry, y: Entry) {
    (x.Dir? && !y.Dir?) || (x.Dir? == y.Dir? && CompareIgnoreCase(x.name, y.name) <= 0)
  }

  /** The comparison is transitive: a lexicographic order on case-folded names. */
  lemma {:induction false} CompareTransitive(a: string, b: string, c: string)
    requires CompareIgnoreCase(a, b) <= 0 && CompareIgnoreCase(b, c) <= 0
    ensures CompareIgnoreCase(a, c) <= 0
    decreases |a|
  {
    if |a| > 0 && |b| > 0 && |c| > 0 && LowerChar(a[0]) == LowerChar(b[0]) == LowerChar(c[0]) {
      CompareTransitive(a[1..], b[1..], c[1..]);
    }
  }

  lemma BeforeTransitive(x: Entry, y: Entry, z: Entry)
    requires Before(x, y) && Before(y, z)
    ensures Before(x, z)
  {
    if x.Dir? == y.Dir? == z.Dir? {
      CompareTransitive(x.name, y.name, z.name);
    }
  }

  /** Any two entries are ordered one way or the other. */
  lemma BeforeTotal(x: Entry, y: Entry)
    ensures Before(x, y) || Before(y, x)
  {
    CompareAntisymmetric(x.name, y.name);
  }

  predicate Sorted(es: seq<Entry>) {
    forall k :: 0 <= k < |es| - 1 ==> Before(es[k], es[k + 1])
  }

  /** Neighbours in order means every earlier entry may precede every later one. */
  lemma {:induction false} SortedPairwise(es: seq<Entry>, i: nat, j: nat)
    requires Sorted(es) && i <= j < |es|
    ensures Before(es[i], es[j])
    decreases j - i
  {
    if i == j {
      BeforeTotal(es[i], es[i]);
    } else {
      SortedPairwise(es, i + 1, j);
      BeforeTransitive(es[i], es[i + 1], es[j]);
    }
  }

  /** Inserts `x` before the first entry it may precede. */
  function Insert(x: Entry, s: seq<Entry>): (r: seq<Entry>)
    ensures |r| == |s| + 1 && multiset(r) == multiset(s) + multiset{x}
    ensures r[0] == x || (|s| > 0 && r[0] == s[0])
    ensures Sorted(s) ==> Sorted(r)
  {
    if |s| == 0 then [x]
    else if Before(x, s[0]) then [x] + s
    else
      var rest := Insert(x, s[1..]);
      BeforeTotal(x, s[0]);
      assert s == [s[0]] + s[1..];
      [s[0]] + rest
  }

  /** A stable sort by the comparator, as `List.sort` performs it. */
  function SortEntries(es: seq<Entry>): (r: seq<Entry>)
    ensures Sorted(r) && multiset(r) == multiset(es)
  {
    if |es| == 0 then []
    else
      assert es == [es[0]] + es[1..];
      Insert(es[0], SortEntries(es[1..]))
  }

  /** The entries of a listing the tree shows, in the order it shows them. */
  function Visible(es: seq<Entry>): (vs: seq<Entry>)
    ensures Sorted(vs)
    ensures forall e :: e in vs <==> e in es && !Ignored(e.name)
  {
    var ks := Kept(es);
    var vs := SortEntries(ks);
    assert forall e :: e in vs <==> e in ks by {
      forall e ensures e in vs <==> e in ks {
        assert e in vs <==> multiset(vs)[e] > 0;
        assert e in ks <==> multiset(ks)[e] > 0;
      }
    }
    assert forall e :: e in ks <==> e in es && !Ignored(e.name) by {
      forall e ensures e in ks <==> e in es && !Ignored(e.name) {
        KeptMembers(es, e);
      }
    }
    vs
  }

  const LastBranch := "└── "
  const MidBranch := "├── "
  const LastIndent := "    "
  const MidIndent := "│   "

  /** A listed name, with a '/' after directories. */
  function Label(e: Entry): string {
    if e.Dir? then e.name + "/" else e.name
  }

  /**
    The lines drawn for the entries `es[i..]` of directory `parent` under
    `prefix`: a line per entry with its connector, each directory followed by
    its own listing under the prefix grown to match the connector.
  */
  function Listing(es: seq<Entry>, i: nat, prefix: string, parent: Entry): (lines: seq<string>)
    requires parent.Dir? && i <= |es|
    requires forall e :: e in es ==> e in parent.children
    ensures |lines| >= |es| - i
    ensures forall k :: 0 <= k < |lines| ==> StartsWith(lines[k], prefix)
    ensures forall k :: 0 <= k < |lines| ==>
      (|lines[k]| >= |prefix| + 4 && lines[k][|prefix|..|prefix| + 4] in {LastBranch, MidBranch, LastIndent, MidIndent})
    decreases parent, |es| - i
  {
    if i == |es| then []
    else
      var e := es[i];
      assert e in parent.children && parent == Dir(parent.name, parent.children);
      var last := i == |es| - 1;
      var line := prefix + (if last then LastBranch else MidBranch) + Label(e);
      var below := if e.Dir? then Listing(Visible(e.children), 0, prefix + (if last then LastIndent else MidIndent), e) else [];
      var rest := Listing(es, i + 1, prefix, parent);
      ListingShape(prefix, line, below, rest, if last then LastIndent else MidIndent);
      [line] + below + rest
  }

  /** The shape facts of `Listing`, for one entry line, the lines below it and the rest. */
  lemma ListingShape(prefix: string, line: string, below: seq<string>, rest: seq<string>, indent: string)
    requires StartsWith(line, prefix) && |line| >= |prefix| + 4 && line[|prefix|..|prefix| + 4] in {LastBranch, MidBranch}
    requires |indent| == 4 && indent in {LastIndent, MidIndent}
    requires forall k :: 0 <= k < |below| ==> StartsWith(below[k], prefix + indent)
    requires forall k :: 0 <= k < |rest| ==>
      (StartsWith(rest[k], prefix) && |rest[k]| >= |prefix| + 4 && rest[k][|prefix|..|prefix| + 4] in {LastBranch, MidBranch, LastIndent, MidIndent})
    ensures forall k :: 0 <= k < |[line] + below + rest| ==> StartsWith(([line] + below + rest)[k], prefix)
    ensures forall k :: 0 <= k < |[line] + below + rest| ==>
      (|([line] + below + rest)[k]| >= |prefix| + 4 &&
       ([line] + below + rest)[k][|prefix|..|prefix| + 4] in {LastBranch, MidBranch, LastIndent, MidIndent})
  {
    var all := [line] + below + rest;
    forall k | 0 <= k < |all|
      ensures StartsWith(all[k], prefix) && |all[k]| >= |prefix| + 4
      ensures all[k][|prefix|..|prefix| + 4] in {LastBranch, MidBranch, LastIndent, MidIndent}
    {
      if 1 <= k < 1 + |below| {
        var b := below[k - 1];
        assert all[k] == b;
        assert b[..|prefix| + 4] == prefix + indent;
        assert b[..|prefix|] == b[..|prefix| + 4][..|prefix|];
        assert b[|prefix|..|prefix| + 4] == indent;
      } else if k >= 1 + |below| {
        assert all[k] == rest[k - 1 - |below|];
      }
    }
  }

  /**
    The first line of a listing belongs to its first entry: the last entry of a
    directory gets the closing connector and every other entry the open one.
  */
  lemma ConnectorRule(es: seq<Entry>, i: nat, prefix: string, parent: Entry)
    requires parent.Dir? && i < |es|
    requires forall e :: e in es ==> e in parent.children
    ensures Listing(es, i, prefix, parent)[0] == prefix + (if i == |es| - 1 then LastBranch else MidBranch) + Label(es[i])
  {
  }

  /** The whole tree: the root's name, then the listing of what it shows. */
  function ProjectTree(root: Entry): (lines: seq<string>)
    ensures |lines| >= 1 && lines[0] == root.name + "/"
    ensures root.File? ==> |lines| == 1
    ensures root.Dir? ==> |lines| >= 1 + |Visible(root.children)|
  {
    [root.name + "/"] + (if root.Dir? then Listing(Visible(root.children), 0, "", root) else [])
  }

  /** The tree as the text the analysis stores: every line ended by a newline. */
  function ProjectTreeText(root: Entry): string {
    Concat(seq(|ProjectTree(root)|, k requires 0 <= k < |ProjectTree(root)| => ProjectTree(root)[k] + "\n"))
  }

  // ---------------------------------------------------------------------------
  // Metadata

  /** The markers looked for in the pom, in order, with the label each one reports. */
  const DatabaseMarkers := [("sqlite-jdbc", "SQLITE"), ("postgresql", "POSTGRESQL"), ("mysql-connector", "MYSQL"),
    ("spring-boot-starter-data-jpa", "JPA")]

  /** The first marker the pom contains decides the label; "NONE" when it contains none. */
  function DetectDatabase(pom: string): (found: string)
    ensures found == "NONE" <==> forall i :: 0 <= i < |DatabaseMarkers| ==> !Contains(pom, DatabaseMarkers[i].0)
    ensures forall i :: 0 <= i < |DatabaseMarkers| && DatabaseMarkers[i].1 == found ==>
      Contains(pom, DatabaseMarkers[i].0) && forall j :: 0 <= j < i ==> !Contains(pom, DatabaseMarkers[j].0)
    ensures found == "NONE" || exists i :: 0 <= i < |DatabaseMarkers| && DatabaseMarkers[i].1 == found
  {
    assert DatabaseMarkers[0] == ("sqlite-jdbc", "SQLITE") && DatabaseMarkers[1] == ("postgresql", "POSTGRESQL");
    assert DatabaseMarkers[2] == ("mysql-connector", "MYSQL") && DatabaseMarkers[3] == ("spring-boot-starter-data-jpa", "JPA");
    if Contains(pom, "sqlite-jdbc") then "SQLITE"
    else if Contains(pom, "postgresql") then "POSTGRESQL"
    else if Contains(pom, "mysql-connector") then "MYSQL"
    else if Contains(pom, "spring-boot-starter-data-jpa") then "JPA"
    else "NONE"
  }

  /**
    The metadata map: build tool, pom flag and database label when a pom exists,
    the properties flag when the properties file exists, and always the count
    of Java files.
  */
  function ProjectMetadata(pom: Option<string>, hasProperties: bool, javaFileCount: nat): (m: map<string, MetaValue>)
    ensures m.Keys <= {"buildTool", "hasPom", "databaseType", "hasApplicationProperties", "totalJavaFiles"}
    ensures ("buildTool" in m <==> pom.Some?) && ("hasPom" in m <==> pom.Some?) && ("databaseType" in m <==> pom.Some?)
    ensures pom.Some? ==> m["buildTool"] == Str("Maven") && m["hasPom"] == Flag(true) && m["databaseType"] == Str(DetectDatabase(pom.value))
    ensures "hasApplicationProperties" in m <==> hasProperties
    ensures hasProperties ==> m["hasApplicationProperties"] == Flag(true)
    ensures "totalJavaFiles" in m && m["totalJavaFiles"] == Number(javaFileCount)
  {
    var withPom: map<string, MetaValue> :=
      if pom.Some? then map["buildTool" := Str("Maven"), "hasPom" := Flag(true), "databaseType" := Str(DetectDatabase(pom.value))]
      else map[];
    var withProps := if hasProperties then withPom["hasApplicationProperties" := Flag(true)] else withPom;
    withProps["totalJavaFiles" := Number(javaFileCount)]
  }
}
