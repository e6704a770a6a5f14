/**
  The settings of one project to generate, and the package name and
  directories derived from them (`ProjectConfig.java` with the two enums it
  refers to). A Java string that may be null is an `Option<string>`, and the
  way Java's `+` prints a null reference ("null") is spelled out by `Shown`.
*/
module ProjectConfigs {
  import opened Optional
  import opened Text

  datatype DatabaseType = NONE | H2 | SQLITE | POSTGRESQL | MYSQL

  datatype Style = JavaRestApi | JavaRestApiWithStatic | FullStackSeparated | ReactWebOnly

  /** The driver artifact each database type names, the column of the enum the pom relies on. */
  function DriverArtifact(db: DatabaseType): (a: string)
    ensures a == [] <==> db == NONE
  {
    match db
    case NONE => ""
    case H2 => "h2"
    case SQLITE => "sqlite-jdbc"
    case POSTGRESQL => "postgresql"
    case MYSQL => "mysql-connector-j"
  }

  /** The Maven group of each database type's driver; the enum gives "none" a placeholder group. */
  function DriverGroup(db: DatabaseType): (g: string)
    ensures g == "none" <==> db == NONE
  {
    match db
    case NONE => "none"
    case H2 => "com.h2database"
    case SQLITE => "org.xerial"
    case POSTGRESQL => "org.postgresql"
    case MYSQL => "com.mysql"
  }

  function DisplayName(db: DatabaseType): string {
    match db
    case NONE => "No Database"
    case H2 => "H2 Database"
    case SQLITE => "SQLite"
    case POSTGRESQL => "PostgreSQL"
    case MYSQL => "MySQL"
  }

  datatype ProjectConfig = ProjectConfig(
    projectName: string,
    basePackage: string,
    description: Option<string>,
    version: string,
    javaVersion: string,
    databaseType: DatabaseType,
    style: Style,
    workspacePath: Option<string>)

  const DefaultVersion := "1.0.0"
  const DefaultJavaVersion := "17"

  /** A configuration as the form binding creates it: only name and package set, every other field at its default. */
  function NewConfig(projectName: string, basePackage: string): (c: ProjectConfig)
    ensures c.projectName == projectName && c.basePackage == basePackage
    ensures c.version == "1.0.0" && c.javaVersion == "17"
    ensures c.databaseType == NONE && c.style == JavaRestApi
    ensures c.description == None && c.workspacePath == None
  {
    ProjectConfig(projectName, basePackage, None, DefaultVersion, DefaultJavaVersion, NONE, JavaRestApi, None)
  }

  /** How Java's string concatenation prints a possibly-null string. */
  function Shown(s: Option<string>): (r: string)
    ensures s.Some? ==> r == s.value
  {
    if s.Some? then s.value else "null"
  }

  /** The characters of `s` that are lower-case ASCII letters or digits, in order (`replaceAll("[^a-z0-9]", "")`). */
  function KeepLowerAlnum(s: string): (r: string)
    ensures |r| <= |s|
    ensures forall i :: 0 <= i < |r| ==> IsLowerAlnum(r[i])
  {
    if |s| == 0 then ""
    else (if IsLowerAlnum(s[0]) then [s[0]] else "") + KeepLowerAlnum(s[1..])
  }

  /** Every lower-case letter and digit of `s` survives, as often as it occurs; everything else is gone. */
  lemma {:induction false} KeepLowerAlnumCounts(s: string, c: char)
    ensures multiset(KeepLowerAlnum(s))[c] == if IsLowerAlnum(c) then multiset(s)[c] else 0
  {
    if |s| > 0 {
      KeepLowerAlnumCounts(s[1..], c);
      assert s == [s[0]] + s[1..];
      assert multiset(s) == multiset{s[0]} + multiset(s[1..]);
    }
  }

  /** The characters of `s` other than '-' and '_', in order (`replaceAll("[-_]", "")`). */
  function DropDashUnderscore(s: string): (r: string)
    ensures |r| <= |s|
    ensures forall i :: 0 <= i < |r| ==> r[i] != '-' && r[i] != '_'
  {
    if |s| == 0 then ""
    else (if s[0] == '-' || s[0] == '_' then "" else [s[0]]) + DropDashUnderscore(s[1..])
  }

  /** The second clean-up pass never finds anything: the first one already removed '-' and '_'. */
  lemma {:induction false} SecondPassIsIdentity(s: string)
    requires forall i :: 0 <= i < |s| ==> IsLowerAlnum(s[i])
    ensures DropDashUnderscore(s) == s
  {
    if |s| > 0 {
      SecondPassIsIdentity(s[1..]);
      assert s == [s[0]] + s[1..];
    }
  }

  /** The project name as a package segment: lower-cased, then only [a-z0-9] kept. */
  function PackageSegment(projectName: string): (seg: string)
    ensures forall i :: 0 <= i < |seg| ==> IsLowerAlnum(seg[i])
    ensures seg == KeepLowerAlnum(ToLower(projectName))
  {
    var first := KeepLowerAlnum(ToLower(projectName));
    SecondPassIsIdentity(first);
    DropDashUnderscore(first)
  }

  /** Text made only of lower-case letters and digits passes both clean-up passes unchanged. */
  lemma {:induction false} KeepLowerAlnumFixed(s: string)
    requires forall i :: 0 <= i < |s| ==> IsLowerAlnum(s[i])
    ensures KeepLowerAlnum(s) == s
  {
    if |s| > 0 {
      KeepLowerAlnumFixed(s[1..]);
      assert s == [s[0]] + s[1..];
    }
  }

  /** Cleaning is idempotent: a cleaned name used as the project name yields itself. */
  lemma PackageSegmentIdempotent(projectName: string)
    ensures PackageSegment(PackageSegment(projectName)) == PackageSegment(projectName)
  {
    var seg := PackageSegment(projectName);
    assert ToLower(seg) == seg;
    KeepLowerAlnumFixed(seg);
  }

  /** The base package, a dot, and the cleaned project name. */
  function FullPackage(c: ProjectConfig): (p: string)
    ensures |p| == |c.basePackage| + 1 + |PackageSegment(c.projectName)|
    ensures p[..|c.basePackage| + 1] == c.basePackage + "."
    ensures forall i :: |c.basePackage| < i < |p| ==> IsLowerAlnum(p[i])
  {
    c.basePackage + "." + PackageSegment(c.projectName)
  }

  /** Where the project lives: the workspace itself for the separated layout, a folder named after the project otherwise. */
  function EffectiveWorkspacePath(c: ProjectConfig): (p: Option<string>)
    ensures c.style == FullStackSeparated ==> p == c.workspacePath
    ensures c.style != FullStackSeparated ==> p == Some(Shown(c.workspacePath) + "/" + c.projectName)
  {
    if c.style == FullStackSeparated then c.workspacePath
    else Some(Shown(c.workspacePath) + "/" + c.projectName)
  }

  /** The folder the Java project is generated into. */
  function BackendProjectPath(c: ProjectConfig): (p: string)
    ensures c.style == FullStackSeparated ==> p == Shown(c.workspacePath) + "/" + c.projectName + "-api"
    ensures c.style != FullStackSeparated ==> Some(p) == EffectiveWorkspacePath(c)
  {
    if c.style == FullStackSeparated then Shown(c.workspacePath) + "/" + c.projectName + "-api"
    else Shown(EffectiveWorkspacePath(c))
  }

  /** The folder the web front end is generated into. */
  function FrontendProjectPath(c: ProjectConfig): (p: string)
    ensures c.style == FullStackSeparated ==> p == Shown(c.workspacePath) + "/" + c.projectName + "-web"
    ensures c.style != FullStackSeparated ==> p == Shown(EffectiveWorkspacePath(c)) + "/src/main/resources/static"
  {
    if c.style == FullStackSeparated then Shown(c.workspacePath) + "/" + c.projectName + "-web"
    else Shown(EffectiveWorkspacePath(c)) + "/src/main/resources/static"
  }

  /**
    Both generated folders start with the workspace and the project name, and
    they never coincide: the separated layout puts them side by side, every
    other layout puts the static resources inside the back end.
  */
  lemma ProjectFolders(c: ProjectConfig)
    ensures StartsWith(BackendProjectPath(c), Shown(c.workspacePath) + "/" + c.projectName)
    ensures StartsWith(FrontendProjectPath(c), Shown(c.workspacePath) + "/" + c.projectName)
    ensures BackendProjectPath(c) != FrontendProjectPath(c)
    ensures c.style != FullStackSeparated ==> StartsWith(FrontendProjectPath(c), BackendProjectPath(c) + "/")
  {
    var root := Shown(c.workspacePath) + "/" + c.projectName;
    var b := BackendProjectPath(c);
    var f := FrontendProjectPath(c);
    if c.style == FullStackSeparated {
      assert b == root + "-api" && f == root + "-web";
      assert b[|root| + 1] == 'a' && f[|root| + 1] == 'w';
    } else {
      assert b == root;
      assert f == root + "/src/main/resources/static";
      assert |f| > |b|;
    }
  }
}
