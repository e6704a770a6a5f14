/**
  What the analysis of an existing project produces (`ProjectStructure.java`):
  the per-file facts, the detected endpoints and a metadata map whose values are
  strings, flags or counts. References the analysis always sets are plain
  values; the two the consumers test for null are `Option`s.
*/
module ProjectStructures {
  import opened Optional
  import opened Text

  datatype FileInfo = FileInfo(
    fileName: string,
    filePath: string,
    relativePath: string,
    fileType: string,
    className: string,
    packageName: string)

  datatype ApiEndpoint = ApiEndpoint(
    httpMethod: string,
    path: string,
    controllerClass: string,
    methodName: string,
    description: string)

  /** The three kinds of object the metadata map holds. */
  datatype MetaValue = Str(s: string) | Flag(b: bool) | Number(n: nat)

  /** How a metadata value prints (`toString` of a String, Boolean or Long). */
  function MetaText(v: MetaValue): (t: string)
    ensures v.Str? ==> t == v.s
    ensures v.Flag? ==> t == (if v.b then "true" else "false")
    ensures v.Number? ==> t == NatToString(v.n)
  {
    match v
    case Str(s) => s
    case Flag(b) => if b then "true" else "false"
    case Number(n) => NatToString(n)
  }

  datatype ProjectStructure = ProjectStructure(
    projectName: string,
    basePackage: string,
    projectTree: string,
    javaFiles: Option<seq<FileInfo>>,
    apiEndpoints: seq<ApiEndpoint>,
    projectMetadata: Option<map<string, MetaValue>>)
}
