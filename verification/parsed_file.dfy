/**
  One extracted file: a valid file carries its code, file type and parser type; an
  invalid file carries only its path and an error message. The file name is always
  the last segment of the path.
*/
module ParsedFiles {
  import opened Text
  import opened Optional

  datatype ParsedFile = ParsedFile(
    fileName: string,
    filePath: string,
    content: Option<string>,
    fileType: Option<string>,
    parserType: Option<string>,
    isValid: bool,
    errorMessage: Option<string>)

  /** The suffix of `path` after its last '/' or '\\', or the whole path when it has neither. */
  function FileName(path: string): (name: string)
    ensures EndsWith(path, name)
    ensures '/' !in name && '\\' !in name
    ensures name == path || path[|path| - |name| - 1] == '/' || path[|path| - |name| - 1] == '\\'
    ensures '/' !in path && '\\' !in path ==> name == path
  {
    var slash := LastIndexOfChar(path, '/');
    var backslash := LastIndexOfChar(path, '\\');
    var last := if slash > backslash then slash else backslash;
    if last >= 0 then path[last + 1..] else path
  }

  /** The file-name extraction on a path that may be null: a null path has a null name. */
  function FileNameOf(path: Option<string>): (name: Option<string>)
    ensures name.None? <==> path.None?
    ensures path.Some? ==> EndsWith(path.value, name.value)
  {
    match path
    case None => None
    case Some(p) => Some(FileName(p))
  }

  /** The shape every constructor and setter keeps. */
  predicate WellFormed(f: ParsedFile) {
    && f.fileName == FileName(f.filePath)
    && (f.isValid ==> f.content.Some? && f.fileType.Some? && f.parserType.Some? && f.errorMessage.None?)
    && (!f.isValid ==> f.content.None? && f.fileType.None? && f.parserType.None? && f.errorMessage.Some?)
  }

  /** A successfully extracted file. */
  function Valid(path: string, content: string, fileType: string, parserType: string): (f: ParsedFile)
    ensures WellFormed(f) && f.isValid
    ensures f.filePath == path && f.content == Some(content)
    ensures f.fileType == Some(fileType) && f.parserType == Some(parserType)
  {
    ParsedFile(FileName(path), path, Some(content), Some(fileType), Some(parserType), true, None)
  }

  /** A file whose code failed the extractor's validity test. */
  function Invalid(path: string, message: string): (f: ParsedFile)
    ensures WellFormed(f) && !f.isValid
    ensures f.filePath == path && f.errorMessage == Some(message)
  {
    ParsedFile(FileName(path), path, None, None, None, false, Some(message))
  }

  /** Moving a file keeps its name in step with its new path and changes nothing else. */
  function SetFilePath(f: ParsedFile, path: string): (g: ParsedFile)
    ensures g.filePath == path && g.fileName == FileName(path)
    ensures WellFormed(f) ==> WellFormed(g)
    ensures g.content == f.content && g.fileType == f.fileType && g.parserType == f.parserType
    ensures g.isValid == f.isValid && g.errorMessage == f.errorMessage
  {
    f.(filePath := path, fileName := FileName(path))
  }
}
