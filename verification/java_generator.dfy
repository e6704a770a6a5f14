/**
  The decisions `JavaCodeGeneratorService.java` takes when it lays out a Spring
  Boot project: the class name derived from the project name, the directory
  list, the dependency list and artifact name of the pom, and which files are
  written. File contents are fixed templates and are not modelled; a write is
  recorded by its path and by which template it instantiates.
*/
module JavaGenerator {
  import opened Text
  import opened ProjectConfigs

  /** The letters of `s`, in order. */
  function Letters(s: string): (r: string)
    ensures |r| <= |s|
    ensures forall i :: 0 <= i < |r| ==> IsLetter(r[i])
  {
    if |s| == 0 then ""
    else (if IsLetter(s[0]) then [s[0]] else "") + Letters(s[1..])
  }

  /**
    The scan of `toPascalCase` from a given state of its flag: a letter is
    upper-cased when the flag is set and then clears it, any other character
    is dropped and sets it.
  */
  function PascalFrom(s: string, capitalizeNext: bool): (r: string)
    ensures |r| == |Letters(s)|
    ensures forall i :: 0 <= i < |r| ==> r[i] == Letters(s)[i] || r[i] == UpperChar(Letters(s)[i])
  {
    if |s| == 0 then ""
    else if IsLetter(s[0]) then [if capitalizeNext then UpperChar(s[0]) else s[0]] + PascalFrom(s[1..], false)
    else PascalFrom(s[1..], true)
  }

  /** The project name as a class name: its letters, with the first of every run of letters upper-cased. */
  function ToPascalCase(s: string): (r: string)
    ensures |r| == |Letters(s)|
    ensures forall i :: 0 <= i < |r| ==> IsLetter(r[i])
    ensures ToLower(r) == ToLower(Letters(s))
  {
    var r := PascalFrom(s, true);
    assert forall i :: 0 <= i < |r| ==> LowerChar(r[i]) == LowerChar(Letters(s)[i]);
    r
  }

  lemma {:induction false} PascalFromSplits(a: string, c: char, b: string, capitalizeNext: bool)
    requires !IsLetter(c)
    ensures PascalFrom(a + [c] + b, capitalizeNext) == PascalFrom(a, capitalizeNext) + PascalFrom(b, true)
  {
    var s := a + [c] + b;
    if |a| == 0 {
      assert s[0] == c && s[1..] == b;
    } else {
      assert s[0] == a[0] && s[1..] == a[1..] + [c] + b;
      PascalFromSplits(a[1..], c, b, if IsLetter(a[0]) then false else true);
    }
  }

  /** A non-letter separates words: the class name of `a` + separator + `b` is that of `a` followed by that of `b`. */
  lemma PascalSplitsAtSeparator(a: string, c: char, b: string)
    requires !IsLetter(c)
    ensures ToPascalCase(a + [c] + b) == ToPascalCase(a) + ToPascalCase(b)
  {
    PascalFromSplits(a, c, b, true);
  }

  lemma {:induction false} PascalFromWordTail(w: string)
    requires forall i :: 0 <= i < |w| ==> IsLetter(w[i])
    ensures PascalFrom(w, false) == w
  {
    if |w| > 0 {
      PascalFromWordTail(w[1..]);
      assert w == [w[0]] + w[1..];
    }
  }

  /** A single word keeps its letters and gets an upper-case first letter. */
  lemma PascalOfWord(w: string)
    requires |w| > 0 && forall i :: 0 <= i < |w| ==> IsLetter(w[i])
    ensures ToPascalCase(w) == [UpperChar(w[0])] + w[1..]
  {
    PascalFromWordTail(w[1..]);
  }

  /** The name of the generated main class. */
  function MainClassName(c: ProjectConfig): (n: string)
    ensures EndsWith(n, "Application")
    ensures forall i :: 0 <= i < |n| ==> IsLetter(n[i])
  {
    var p := ToPascalCase(c.projectName);
    assert forall i :: 0 <= i < |"Application"| ==> IsLetter("Application"[i]);
    p + "Application"
  }

  /** The full package as a directory path (`replace(".", File.separator)`, the separator being '/'). */
  function PackagePath(c: ProjectConfig): string {
    ReplaceAll(FullPackage(c), ".", "/")
  }

  predicate HasDatabase(c: ProjectConfig) { c.databaseType != NONE }

  /** Each suffix appended to a common head, in order. */
  function Under(head: string, subs: seq<string>): (ds: seq<string>)
    ensures |ds| == |subs|
    ensures forall k :: 0 <= k < |ds| ==> ds[k] == head + subs[k]
  {
    seq(|subs|, k requires 0 <= k < |subs| => head + subs[k])
  }

  /** Two strings with a common head are equal only when their tails are. */
  lemma SameHead(p: string, x: string, y: string)
    ensures p + x == p + y ==> x == y
  {
    if p + x == p + y {
      assert x == (p + x)[|p|..];
      assert y == (p + y)[|p|..];
    }
  }

  lemma UnderMembers(head: string, subs: seq<string>, sub: string)
    ensures head + sub in Under(head, subs) <==> sub in subs
  {
    var ds := Under(head, subs);
    if head + sub in ds {
      var k :| 0 <= k < |ds| && ds[k] == head + sub;
      SameHead(head, subs[k], sub);
    }
    if sub in subs {
      var k :| 0 <= k < |subs| && subs[k] == sub;
      assert ds[k] == head + sub;
    }
  }

  const CoreSubs := ["", "/web", "/web/controller", "/web/filter", "/web/handler", "/model", "/model/response", "/config"]
  const DataSubs := ["/service", "/repository", "/model/entity"]
  const StaticDirs := ["src/main/resources/static", "src/main/resources/static/css",
                       "src/main/resources/static/js", "src/main/resources/static/images"]

  /** The source root of a package path. */
  function JavaRoot(pp: string): (r: string)
    ensures StartsWith(r, "src/main/java/")
  {
    "src/main/java/" + pp
  }

  /** The directories of the project skeleton, relative to the project folder, for package path `pp`. */
  function Directories(pp: string, db: DatabaseType, style: Style): (ds: seq<string>)
    ensures |ds| == 10 + (if db != NONE then 3 else 0) + (if style == JavaRestApiWithStatic then 4 else 0)
  {
    Under(JavaRoot(pp), CoreSubs) + ["src/main/resources", "src/test/java/" + pp]
    + (if db != NONE then Under(JavaRoot(pp), DataSubs) else [])
    + (if style == JavaRestApiWithStatic then StaticDirs else [])
  }

  lemma UnderKeepsHead(head: string, subs: seq<string>, p: string)
    requires StartsWith(head, p)
    ensures forall k :: 0 <= k < |subs| ==> StartsWith(Under(head, subs)[k], p)
  {
    forall k | 0 <= k < |subs| ensures StartsWith(Under(head, subs)[k], p) {
      assert Under(head, subs)[k][..|p|] == head[..|p|];
    }
  }

  /** Every directory of the skeleton lies under "src/". */
  lemma DirectoriesUnderSrc(pp: string, db: DatabaseType, style: Style)
    ensures forall k :: 0 <= k < |Directories(pp, db, style)| ==> StartsWith(Directories(pp, db, style)[k], "src/")
  {
    var j := JavaRoot(pp);
    assert StartsWith(j, "src/") by { assert j[..4] == j[..14][..4]; }
    UnderKeepsHead(j, CoreSubs, "src/");
    UnderKeepsHead(j, DataSubs, "src/");
    var mid := ["src/main/resources", "src/test/java/" + pp];
    assert StartsWith(mid[1], "src/") by { assert mid[1][..4] == "src/"; }
    var tail := if style == JavaRestApiWithStatic then StaticDirs else [];
    forall d | d in tail ensures StartsWith(d, "src/") { }
    var ds := Directories(pp, db, style);
    var a := Under(j, CoreSubs);
    var b := if db != NONE then Under(j, DataSubs) else [];
    assert ds == a + mid + b + tail;
    forall k | 0 <= k < |ds| ensures StartsWith(ds[k], "src/") {
      if k < |a| { assert ds[k] == a[k]; }
      else if k < |a| + 2 { assert ds[k] == mid[k - |a|]; }
      else if k < |a| + 2 + |b| { assert ds[k] == b[k - |a| - 2]; }
      else { assert ds[k] == tail[k - |a| - 2 - |b|]; assert ds[k] in tail; }
    }
  }

  /** The persistence directories exist exactly when a database is configured. */
  lemma RepositoryDirIffDatabase(pp: string, db: DatabaseType, style: Style)
    ensures JavaRoot(pp) + "/repository" in Directories(pp, db, style) <==> db != NONE
  {
    var j := JavaRoot(pp);
    var r := j + "/repository";
    UnderMembers(j, CoreSubs, "/repository");
    UnderMembers(j, DataSubs, "/repository");
    assert r[9] == 'j';
    assert ("src/test/java/" + pp)[5] != r[5];
    forall d | d in StaticDirs ensures d != r {
      assert d[9] != r[9];
    }
  }

  /** The static-resource directories exist exactly for the layout with static resources. */
  lemma StaticDirIffStatic(pp: string, db: DatabaseType, style: Style)
    ensures "src/main/resources/static" in Directories(pp, db, style) <==> style == JavaRestApiWithStatic
  {
    var s := "src/main/resources/static";
    var j := JavaRoot(pp);
    var a := Under(j, CoreSubs);
    var mid := ["src/main/resources", "src/test/java/" + pp];
    var b := if db != NONE then Under(j, DataSubs) else [];
    var tail := if style == JavaRestApiWithStatic then StaticDirs else [];
    var ds := Directories(pp, db, style);
    assert ds == a + mid + b + tail;
    assert j[9] == 'j';
    forall k | 0 <= k < |a| ensures a[k] != s {
      assert a[k][..14] == j[..14];
      assert a[k][9] != s[9];
    }
    forall k | 0 <= k < |b| ensures b[k] != s {
      assert b[k][..14] == j[..14];
      assert b[k][9] != s[9];
    }
    assert mid[1][5] != s[5];
    assert |mid[0]| != |s|;
    if style == JavaRestApiWithStatic {
      assert ds[|a + mid + b|] == s;
    } else {
      assert ds == a + mid + b;
      forall k | 0 <= k < |ds| ensures ds[k] != s {
        if k < |a| { assert ds[k] == a[k]; }
        else if k < |a| + 2 { assert ds[k] == mid[k - |a|]; }
        else { assert ds[k] == b[k - |a| - 2]; }
      }
    }
  }

  datatype Dependency = Dependency(groupId: string, artifactId: string, runtimeScope: bool)

  const Boot := "org.springframework.boot"

  /** The dependencies of the generated pom, in order. */
  function Dependencies(db: DatabaseType): (ds: seq<Dependency>)
    ensures |ds| == 2 + (match db case NONE => 0 case SQLITE => 3 case _ => 2)
    ensures ds[0].artifactId == "spring-boot-starter-web" && ds[1].artifactId == "spring-boot-starter-validation"
  {
    var common := [Dependency(Boot, "spring-boot-starter-web", false), Dependency(Boot, "spring-boot-starter-validation", false)];
    var jpa := [Dependency(Boot, "spring-boot-starter-data-jpa", false)];
    match db
    case NONE => common
    case H2 => common + jpa + [Dependency("com.h2database", "h2", true)]
    case SQLITE => common + jpa + [Dependency("org.xerial", "sqlite-jdbc", false),
                                   Dependency("org.hibernate.orm", "hibernate-community-dialects", false)]
    case POSTGRESQL => common + jpa + [Dependency("org.postgresql", "postgresql", true)]
    case MYSQL => common + jpa + [Dependency("com.mysql", "mysql-connector-j", true)]
  }

  predicate Declares(ds: seq<Dependency>, artifactId: string) {
    exists k :: 0 <= k < |ds| && ds[k].artifactId == artifactId
  }

  /** JPA is declared exactly when a database is configured. */
  lemma JpaIffDatabase(db: DatabaseType)
    ensures Declares(Dependencies(db), "spring-boot-starter-data-jpa") <==> db != NONE
  {
    var ds := Dependencies(db);
    if db != NONE {
      assert ds[2].artifactId == "spring-boot-starter-data-jpa";
    } else {
      assert |ds| == 2;
      assert ds[0].artifactId[20] != "spring-boot-starter-data-jpa"[20];
      assert ds[1].artifactId[20] != "spring-boot-starter-data-jpa"[20];
    }
  }

  /** The driver dependency is the one the database enum names, with its group. */
  lemma DriverMatchesEnum(db: DatabaseType)
    requires db != NONE
    ensures exists k :: 0 <= k < |Dependencies(db)| && Dependencies(db)[k] == Dependency(DriverGroup(db), DriverArtifact(db), db != SQLITE)
  {
    assert Dependencies(db)[3] == Dependency(DriverGroup(db), DriverArtifact(db), db != SQLITE);
  }

  /** The pom's artifactId and name: the separated layout marks the back end with "-api". */
  function PomArtifactId(c: ProjectConfig): (a: string)
    ensures c.style == FullStackSeparated ==> a == c.projectName + "-api"
    ensures c.style != FullStackSeparated ==> a == c.projectName
  {
    if c.style == FullStackSeparated then c.projectName + "-api" else c.projectName
  }

  /** The fixed templates the generator instantiates. */
  datatype Template =
    Pom | Properties | MainClass | BaseResponse | BaseEntity | ExceptionHandler | LoggingFilter
    | IndexHtml | StyleCss | AppJs

  /** One effect on the file system: a directory created, or a file written from a template. */
  datatype Action = MakeDir(path: string) | Write(path: string, template: Template)

  /** The templates a list of effects writes. */
  function Written(log: seq<Action>): set<Template> {
    if |log| == 0 then {}
    else (if log[0].Write? then {log[0].template} else {}) + Written(log[1..])
  }

  lemma {:induction false} WrittenConcat(a: seq<Action>, b: seq<Action>)
    ensures Written(a + b) == Written(a) + Written(b)
  {
    if |a| > 0 {
      WrittenConcat(a[1..], b);
      assert (a + b)[1..] == a[1..] + b;
    } else {
      assert a + b == b;
    }
  }

  lemma WrittenSix(a: seq<Action>, b: seq<Action>, c: seq<Action>, d: seq<Action>, e: seq<Action>, f: seq<Action>)
    ensures Written(a + b + c + d + e + f) == Written(a) + Written(b) + Written(c) + Written(d) + Written(e) + Written(f)
  {
    WrittenConcat(a + b + c + d + e, f);
    WrittenConcat(a + b + c + d, e);
    WrittenConcat(a + b + c, d);
    WrittenConcat(a + b, c);
    WrittenConcat(a, b);
  }

  /** A path inside the project folder. */
  function At(p: string, rel: string): (r: string)
    ensures StartsWith(r, p + "/") && r[|p| + 1..] == rel
  {
    p + "/" + rel
  }

  /** Where a source file of package path `pp` lives, relative to the project folder. */
  function SourceFile(pp: string, name: string): string {
    JavaRoot(pp) + "/" + name
  }

  function MakeDirs(p: string, dirs: seq<string>): (log: seq<Action>)
    ensures |log| == |dirs|
    ensures forall k :: 0 <= k < |log| ==> log[k] == MakeDir(At(p, dirs[k]))
    ensures Inside(log, p) && Written(log) == {}
  {
    var log := seq(|dirs|, k requires 0 <= k < |dirs| => MakeDir(At(p, dirs[k])));
    MakeDirsWriteNothing(log);
    log
  }

  lemma {:induction false} MakeDirsWriteNothing(log: seq<Action>)
    requires forall k :: 0 <= k < |log| ==> log[k].MakeDir?
    ensures Written(log) == {}
  {
    if |log| > 0 {
      MakeDirsWriteNothing(log[1..]);
    }
  }

  /** Files written from templates, at the given paths relative to `p`, in order. */
  function Writes(p: string, files: seq<(string, Template)>): (log: seq<Action>)
    ensures |log| == |files|
    ensures forall k :: 0 <= k < |log| ==> log[k] == Write(At(p, files[k].0), files[k].1)
    ensures Inside(log, p)
  {
    seq(|files|, k requires 0 <= k < |files| => Write(At(p, files[k].0), files[k].1))
  }

  function TemplatesIn(files: seq<(string, Template)>): set<Template> {
    set k | 0 <= k < |files| :: files[k].1
  }

  lemma {:induction false} WrittenWrites(p: string, files: seq<(string, Template)>)
    ensures Written(Writes(p, files)) == TemplatesIn(files)
  {
    if |files| > 0 {
      WrittenWrites(p, files[1..]);
      assert Writes(p, files)[1..] == Writes(p, files[1..]);
      var rest := TemplatesIn(files[1..]);
      assert TemplatesIn(files) == {files[0].1} + rest by {
        forall t | t in rest ensures t in TemplatesIn(files) {
          var k :| 0 <= k < |files| - 1 && files[1..][k].1 == t;
          assert files[k + 1].1 == t;
        }
      }
    }
  }

  /** The files every project gets before the optional base entity. */
  function CoreFiles(pp: string, mainClass: string): (files: seq<(string, Template)>)
    ensures TemplatesIn(files) == {Pom, Properties, MainClass, BaseResponse}
  {
    var files := [("pom.xml", Pom),
     ("src/main/resources/application.properties", Properties),
     (SourceFile(pp, mainClass + ".java"), MainClass),
     (SourceFile(pp, "model/response/BaseResponse.java"), BaseResponse)];
    assert files[0].1 == Pom && files[1].1 == Properties && files[2].1 == MainClass && files[3].1 == BaseResponse;
    files
  }

  function EntityFiles(pp: string, db: DatabaseType): (files: seq<(string, Template)>)
    ensures TemplatesIn(files) == if db != NONE then {BaseEntity} else {}
  {
    var files := if db != NONE then [(SourceFile(pp, "model/entity/BaseEntity.java"), BaseEntity)] else [];
    assert db != NONE ==> files[0].1 == BaseEntity;
    files
  }

  function WebFiles(pp: string): (files: seq<(string, Template)>)
    ensures TemplatesIn(files) == {ExceptionHandler, LoggingFilter}
  {
    var files := [(SourceFile(pp, "web/handler/GlobalExceptionHandler.java"), ExceptionHandler),
     (SourceFile(pp, "web/filter/RequestLoggingFilter.java"), LoggingFilter)];
    assert files[0].1 == ExceptionHandler && files[1].1 == LoggingFilter;
    files
  }

  function AssetFiles(style: Style): (files: seq<(string, Template)>)
    ensures TemplatesIn(files) == if style == JavaRestApiWithStatic then {IndexHtml, StyleCss, AppJs} else {}
  {
    var files := if style == JavaRestApiWithStatic then
      [("src/main/resources/static/index.html", IndexHtml),
       ("src/main/resources/static/css/style.css", StyleCss),
       ("src/main/resources/static/js/app.js", AppJs)]
    else [];
    assert style == JavaRestApiWithStatic ==> files[0].1 == IndexHtml && files[1].1 == StyleCss && files[2].1 == AppJs;
    files
  }

  function DataDir(p: string, db: DatabaseType): (log: seq<Action>)
    ensures Inside(log, p) && Written(log) == {}
  {
    if db == SQLITE then [MakeDir(At(p, "data"))] else []
  }

  /**
    The effects of generating a Java project into folder `p` with package path
    `pp` and main class `mainClass`, in the order they happen.
  */
  function JavaProjectLog(p: string, pp: string, mainClass: string, db: DatabaseType, style: Style): (log: seq<Action>)
    ensures Inside(log, p)
  {
    var a := MakeDirs(p, Directories(pp, db, style));
    var b, c, d := Writes(p, CoreFiles(pp, mainClass)), Writes(p, EntityFiles(pp, db)), Writes(p, WebFiles(pp));
    var e, f := DataDir(p, db), Writes(p, AssetFiles(style));
    InsideConcat(a, b, p);
    InsideConcat(a + b, c, p);
    InsideConcat(a + b + c, d, p);
    InsideConcat(a + b + c + d, e, p);
    InsideConcat(a + b + c + d + e, f, p);
    a + b + c + d + e + f
  }

  /** Every effect of `log` lies inside folder `p`. */
  predicate Inside(log: seq<Action>, p: string) {
    forall k :: 0 <= k < |log| ==> StartsWith(log[k].path, p + "/")
  }

  lemma InsideConcat(a: seq<Action>, b: seq<Action>, p: string)
    requires Inside(a, p) && Inside(b, p)
    ensures Inside(a + b, p)
  {
    forall k | 0 <= k < |a + b| ensures StartsWith((a + b)[k].path, p + "/") {
      if k >= |a| { assert (a + b)[k] == b[k - |a|]; }
    }
  }

  /** Generation of a Java project: the back-end folder, and what is done inside it. */
  function GenerateJavaProject(c: ProjectConfig): (r: (string, seq<Action>))
    ensures r.0 == BackendProjectPath(c)
    ensures forall k :: 0 <= k < |r.1| ==> StartsWith(r.1[k].path, r.0 + "/")
  {
    var p := BackendProjectPath(c);
    (p, JavaProjectLog(p, PackagePath(c), MainClassName(c), c.databaseType, c.style))
  }

  /**
    The templates written: the six every project gets, the base entity exactly
    when a database is configured, the static pages exactly for the layout with
    static resources.
  */
  lemma TemplatesWritten(p: string, pp: string, mainClass: string, db: DatabaseType, style: Style)
    ensures var ts := Written(JavaProjectLog(p, pp, mainClass, db, style));
      && ts >= {Pom, Properties, MainClass, BaseResponse, ExceptionHandler, LoggingFilter}
      && (BaseEntity in ts <==> db != NONE)
      && (IndexHtml in ts <==> style == JavaRestApiWithStatic)
  {
    var a := MakeDirs(p, Directories(pp, db, style));
    var b, c, d := Writes(p, CoreFiles(pp, mainClass)), Writes(p, EntityFiles(pp, db)), Writes(p, WebFiles(pp));
    var e, f := DataDir(p, db), Writes(p, AssetFiles(style));
    assert JavaProjectLog(p, pp, mainClass, db, style) == a + b + c + d + e + f;
    WrittenSix(a, b, c, d, e, f);
    WrittenWrites(p, CoreFiles(pp, mainClass));
    WrittenWrites(p, EntityFiles(pp, db));
    WrittenWrites(p, WebFiles(pp));
    WrittenWrites(p, AssetFiles(style));
    TemplateSets(Written(a + b + c + d + e + f), db, style);
  }

  /** The set algebra behind `TemplatesWritten`, apart from the effects that produce the sets. */
  lemma TemplateSets(ts: set<Template>, db: DatabaseType, style: Style)
    requires ts == {} + {Pom, Properties, MainClass, BaseResponse}
      + (if db != NONE then {BaseEntity} else {}) + {ExceptionHandler, LoggingFilter} + {}
      + (if style == JavaRestApiWithStatic then {IndexHtml, StyleCss, AppJs} else {})
    ensures ts >= {Pom, Properties, MainClass, BaseResponse, ExceptionHandler, LoggingFilter}
    ensures BaseEntity in ts <==> db != NONE
    ensures IndexHtml in ts <==> style == JavaRestApiWithStatic
  {
  }

  /** The same, for the project a configuration describes. */
  lemma GeneratedTemplates(c: ProjectConfig)
    ensures var ts := Written(GenerateJavaProject(c).1);
      && ts >= {Pom, Properties, MainClass, BaseResponse, ExceptionHandler, LoggingFilter}
      && (BaseEntity in ts <==> HasDatabase(c))
      && (IndexHtml in ts <==> c.style == JavaRestApiWithStatic)
  {
    TemplatesWritten(BackendProjectPath(c), PackagePath(c), MainClassName(c), c.databaseType, c.style);
  }

  /** The main class is written under the package folder, named after the project. */
  lemma MainClassWritten(c: ProjectConfig)
    ensures Write(At(BackendProjectPath(c), SourceFile(PackagePath(c), MainClassName(c) + ".java")), MainClass) in GenerateJavaProject(c).1
  {
    var p, pp := BackendProjectPath(c), PackagePath(c);
    var a := MakeDirs(p, Directories(pp, c.databaseType, c.style));
    var log := JavaProjectLog(p, pp, MainClassName(c), c.databaseType, c.style);
    assert log[|a| + 2] == Writes(p, CoreFiles(pp, MainClassName(c)))[2];
  }

  /** The SQLite data folder is created exactly for SQLite. */
  lemma DataFolderIffSqlite(p: string, pp: string, mainClass: string, db: DatabaseType, style: Style)
    ensures MakeDir(At(p, "data")) in JavaProjectLog(p, pp, mainClass, db, style) <==> db == SQLITE
  {
    var dirs := Directories(pp, db, style);
    var a := MakeDirs(p, dirs);
    var b, c, d := Writes(p, CoreFiles(pp, mainClass)), Writes(p, EntityFiles(pp, db)), Writes(p, WebFiles(pp));
    var e, f := DataDir(p, db), Writes(p, AssetFiles(style));
    assert JavaProjectLog(p, pp, mainClass, db, style) == a + (b + c + d) + e + f;
    DirectoriesUnderSrc(pp, db, style);
    DataNotAmongDirs(p, dirs);
    var m := MakeDir(At(p, "data"));
    NoDirAmongWrites(m, b);
    NoDirAmongWrites(m, c);
    NoDirAmongWrites(m, d);
    NoDirAmongWrites(m, f);
    if db == SQLITE {
      assert e == [m];
    }
  }

  /** No directory under `src` is the data folder. */
  lemma DataNotAmongDirs(p: string, dirs: seq<string>)
    requires forall k :: 0 <= k < |dirs| ==> StartsWith(dirs[k], "src/")
    ensures MakeDir(At(p, "data")) !in MakeDirs(p, dirs)
  {
    var a := MakeDirs(p, dirs);
    forall k | 0 <= k < |a| ensures a[k] != MakeDir(At(p, "data")) {
      assert At(p, dirs[k])[|p| + 1..] == dirs[k];
      assert dirs[k][0] == 's';
    }
  }

  /** A list of file writes holds no directory creation. */
  lemma NoDirAmongWrites(m: Action, log: seq<Action>)
    requires m.MakeDir? && forall k :: 0 <= k < |log| ==> log[k].Write?
    ensures m !in log
  {
  }
}
