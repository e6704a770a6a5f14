# claudeforge code extraction, modelled in Dafny

claudeforge is a Spring Boot service that sends a prompt to Claude and turns the
free-form reply into a project on disk. This project models its extraction engine
(`service/parser/`). That engine finds every file the reply contains, checks it,
labels it, and aggregates the outcome of the extractors. The model is pure: strings
are `seq<char>`, results are immutable datatypes, and every operation is a function
with a contract.

- `Text`: Java's `trim`, `contains`, `startsWith`/`endsWith`, `indexOf`/`lastIndexOf`,
  ASCII case mapping, literal `split`/`replace`, and line splitting.
- `Optional`: `Option<T>`, standing for a Java reference that may be null.
- `ParsedFiles`: one extracted file (`ParsedFile.java`).
- `ParseResults`: the aggregate of a run (`ParseResult.java`).
- `Scanner`: a line-oriented stand-in for the extractors' regular expressions.
  - Tier 1 is fenced "```tag // path" blocks.
  - Tier 2 is raw "// path" header segments.
  - Tier 3 is a single header-led file.
  - A fourth, HTML-only form is the doctype fences.
  - `Tiers` takes the first form that finds anything.
- `JavaParser`, `ReactParser`, `TypeScriptParser`, `CssParser`, `HtmlParser`: the five
  extractors.
  - `CanHandle` is the pre-check.
  - `IsValidContent` is the validity test.
  - `DetermineFileType` is the first-match classifier.
  - `CreateFile` turns one match into one file.
  - `Parse` runs the tiered extraction.
- `Parsers`: the extractors behind one interface.
- `Manager`: the registry and its fold (`CodeParseManager.java`).
  - The fold is written over an arbitrary behaviour per extractor: its pre-check
    answer and its files. `Observe` plugs in the real extractors, so
    `ParseAll(content, faults) = ParseAllWith(Observe(content), faults)`.
  - Exceptions are a parameter. `faults` says which extractor's `canHandle` or `parse`
    throws, and with what message.

Around the engine the model covers the pure parts of the services that use it.

- `ProjectConfigs`: the project settings (`ProjectConfig.java`, `DatabaseType.java`).
  They give the package name and the folders a project is generated into.
- `JavaGenerator`: the Java project generator (`JavaCodeGeneratorService.java`).
  - The directory list and the pom dependencies are modelled exactly.
  - The main-class name is modelled with letters classified as ASCII only (see "Left out").
  - The generator's effect is a log of `MakeDir` and `Write` actions.
  - Each written file's text is abstracted to a `Template` token.
- `ProjectStructures`: the analysis result (`ProjectStructure.java`).
- `ProjectAnalyzer`: the analysis of an existing project (`ProjectAnalyzerService.java`).
  - It covers the file classifier, class and package extraction, and the base package.
  - It covers the endpoint list, built from the matches of the mapping pattern.
  - It covers the directory tree with its filter, order and connectors, and the
    metadata map.
  - The file system is a parameter: an `Entry` tree, file contents, and whether the
    pom and properties files exist.
- `Patterns`: the `\s+(\w+)` step several regular expressions share.
- `TemplateUtils`: format detection, `capitalize`, the getter/setter text, and the
  `@GENERATE_GETTERS_SETTERS` expansion (`TemplateUtils.java`).
- `Mermaid`: the project diagram (`MermaidGenerator.java`).
- `PromptGenerator`: the structured prompt (`PromptGeneratorService.java`). The prompt
  is a list of sections in a fixed order; each section renders to the exact text the
  service appends.
- `DatabaseNotes`: the per-database instructions of the parent README
  (`CodeGeneratorService.getDatabaseInstructions`).
- `CodeGenerator`: the rest of `CodeGeneratorService.java`.
  - The valid files of a parse become generated files and file writes.
  - The workspace defaults when it is missing.
  - Generation dispatches on the layout; the generators it calls are recorded as `Step`s.
- `CodeAnalyzer`: `CodeAnalyzer.java`.
  - The Spring test.
  - The first class declaration, the annotation set and the import set. Each scan is
    proved equal to its declarative reading: "a match at some position".
  - The endpoint records built from the mapping matches.

## Model

| member | source | states |
|---|---|---|
| ParsedFiles.FileName | src/main/java/com/sonic/claudeforge/service/parser/ParsedFile.java:40-44 | the name is a suffix of the path, holds neither '/' nor '\\', and is preceded by a separator unless it is the whole path; a path without separators is its own name |
| ParsedFiles.FileNameOf | src/main/java/com/sonic/claudeforge/service/parser/ParsedFile.java:40-43 | a null path, and only a null path, has a null name; otherwise the name is a suffix of the path |
| ParsedFiles.Valid | src/main/java/com/sonic/claudeforge/service/parser/ParsedFile.java:19-26 | a valid file keeps path, content, file type and parser type as given, has no error, and its name is derived from the path |
| ParsedFiles.Invalid | src/main/java/com/sonic/claudeforge/service/parser/ParsedFile.java:31-38 | an invalid file carries the path and the message; content, file type and parser type are null |
| ParsedFiles.SetFilePath | src/main/java/com/sonic/claudeforge/service/parser/ParsedFile.java:51-54 | the new path comes with the name derived from it; every other field is unchanged and a well-formed file stays well formed |
| ParseResults.ValidFilesMembers | src/main/java/com/sonic/claudeforge/service/parser/ParseResult.java:57-61 | a file is kept exactly when it is in the list and valid |
| ParseResults.InvalidFilesMembers | src/main/java/com/sonic/claudeforge/service/parser/ParseResult.java:67-71 | a file is kept exactly when it is in the list and invalid |
| ParseResults.FiltersDistribute | src/main/java/com/sonic/claudeforge/service/parser/ParseResult.java:57-71 | both filters commute with concatenation, so each keeps the files in their original order |
| ParseResults.FiltersPartition | src/main/java/com/sonic/claudeforge/service/parser/ParseResult.java:57-71 | the valid and the invalid files together are the list, as a multiset; their counts add up to its length |
| ParseResults.UpdateCounts | src/main/java/com/sonic/claudeforge/service/parser/ParseResult.java:136-139 | the valid count is the number of valid files, the two counts add up to the list length, and nothing else changes |
| ParseResults.AddParserResult | src/main/java/com/sonic/claudeforge/service/parser/ParseResult.java:30-33 | the list is stored under the parser type, replacing any earlier one; other entries, the files and the errors are unchanged; the counts are consistent |
| ParseResults.AddError | src/main/java/com/sonic/claudeforge/service/parser/ParseResult.java:40-42 | the message is stored under the parser type, overwriting an earlier one; nothing else changes |
| ParseResults.SetAllFiles | src/main/java/com/sonic/claudeforge/service/parser/ParseResult.java:143-146 | the list is replaced and the counts agree with it afterwards; maps and flag are unchanged |
| ParseResults.FilesByParser | src/main/java/com/sonic/claudeforge/service/parser/ParseResult.java:49-51 | the stored list for a known type, the empty list for an unknown one |
| ParseResults.SuccessfulParsers | src/main/java/com/sonic/claudeforge/service/parser/ParseResult.java:121-126 | exactly the keys whose stored list is non-empty |
| ParseResults.FailedParsers | src/main/java/com/sonic/claudeforge/service/parser/ParseResult.java:132-134 | exactly the keys of the error map; it is non-empty exactly when the result has errors |
| ParseResults.FreshHasNoParsers | src/main/java/com/sonic/claudeforge/service/parser/ParseResult.java:16-23 | a new result names no successful and no failed parser, and every lookup is empty |
| ParseResults.FilesByParserAfterAdd | src/main/java/com/sonic/claudeforge/service/parser/ParseResult.java:30-33 | after a parser's files are recorded, its lookup returns exactly them and every other type's lookup is unchanged |
| ParseResults.ParsersAfterAdd | src/main/java/com/sonic/claudeforge/service/parser/ParseResult.java:30-33 | recording a parser's files puts it among the successful parsers exactly when the list is non-empty, leaves every other type's standing and the failed parsers unchanged |
| ParseResults.ParsersAfterError | src/main/java/com/sonic/claudeforge/service/parser/ParseResult.java:40-42 | recording a failure adds that parser to the failed ones and leaves the successful ones unchanged |
| Scanner.Tiers | src/main/java/com/sonic/claudeforge/service/parser/JavaCodeParser.java:35-55 | the fenced blocks when there are any; otherwise the raw segments when there are any; otherwise the single-file form |
| Scanner.TiersEmptyIffAllEmpty | src/main/java/com/sonic/claudeforge/service/parser/JavaCodeParser.java:35-55 | the tiers find nothing exactly when all three forms find nothing |
| Scanner.SingleTierAtMostOne | src/main/java/com/sonic/claudeforge/service/parser/JavaCodeParser.java:91-106 | without fences or raw segments at most one block is found |
| Scanner.FencedBlocks | src/main/java/com/sonic/claudeforge/service/parser/JavaCodeParser.java:23-24 | every fenced block carries one of the syntax's tags and a non-empty path |
| Scanner.FencedTagInText | src/main/java/com/sonic/claudeforge/service/parser/JavaCodeParser.java:23-24 | every fenced block's "```" + tag occurs in the reply |
| Scanner.RawBlocks | src/main/java/com/sonic/claudeforge/service/parser/JavaCodeParser.java:27-28 | every raw segment is named by a header path the syntax accepts |
| Scanner.SingleBlocks | src/main/java/com/sonic/claudeforge/service/parser/JavaCodeParser.java:31-32 | at most one block, named by an accepted header path |
| Scanner.HeaderTierPaths | src/main/java/com/sonic/claudeforge/service/parser/JavaCodeParser.java:27-32 | without fences, every block found is named by an accepted header path |
| Scanner.DoctypeBlocks | src/main/java/com/sonic/claudeforge/service/parser/HtmlCodeParser.java:35-36 | every doctype block's body contains "<!DOCTYPE html" |
| JavaParser.CleanFilePath | src/main/java/com/sonic/claudeforge/service/parser/JavaCodeParser.java:123-132 | "src/" paths are kept; otherwise a path holding "src/main/java/" is cut to start there; any other path is kept; the result is always a suffix of the path |
| JavaParser.CleanFilePathIdempotent | src/main/java/com/sonic/claudeforge/service/parser/JavaCodeParser.java:123-132 | cleaning a cleaned path changes nothing |
| JavaParser.DetermineFileType | src/main/java/com/sonic/claudeforge/service/parser/JavaCodeParser.java:140-159 | one of nine labels; each label but "Class" is backed by its marker; a controller annotation always wins; "Class" exactly when no marker is present |
| JavaParser.CreateFile | src/main/java/com/sonic/claudeforge/service/parser/JavaCodeParser.java:108-121 | the file is under the cleaned path; it is valid exactly when the code passes the validity test, and then it is labelled and typed "Java"; otherwise it carries the fixed message |
| JavaParser.FilesOf | src/main/java/com/sonic/claudeforge/service/parser/JavaCodeParser.java:57-72 | one file per match, in match order, built from the trimmed code |
| JavaParser.Parse | src/main/java/com/sonic/claudeforge/service/parser/JavaCodeParser.java:35-55 | one file per block of the first productive tier, in block order |
| JavaParser.SingleYieldsAtMostOne | src/main/java/com/sonic/claudeforge/service/parser/JavaCodeParser.java:91-106 | without fences or raw segments at most one file is found |
| JavaParser.HeaderPathsNeedNoCleaning | src/main/java/com/sonic/claudeforge/service/parser/JavaCodeParser.java:123-132 | files found outside fences keep their header path, which lies under "src/" and names a ".java" file |
| JavaParser.ParsedFilesShape | src/main/java/com/sonic/claudeforge/service/parser/JavaCodeParser.java:108-121 | every file is well formed; valid ones carry the "Java" type and a known label; invalid ones carry the fixed message |
| JavaParser.FencedReplyIsClaimed | src/main/java/com/sonic/claudeforge/service/parser/JavaCodeParser.java:172-180 | a reply with a fenced Java block passes the pre-check |
| ReactParser.ValidIffNotBlank | src/main/java/com/sonic/claudeforge/service/parser/ReactCodeParser.java:130-147 | the validity test accepts exactly the code that is not blank |
| ReactParser.ExtensionType | src/main/java/com/sonic/claudeforge/service/parser/ReactCodeParser.java:178-193 | a known fallback label; "TypeScript/React" exactly when the extension is null |
| ReactParser.DetermineFileType | src/main/java/com/sonic/claudeforge/service/parser/ReactCodeParser.java:152-194 | a content label only when its markers are present; "export interface" with "interface " always gives "TypeScript Interfaces"; the extension decides exactly when no content rule fires |
| ReactParser.ExtensionFallback | src/main/java/com/sonic/claudeforge/service/parser/ReactCodeParser.java:178-190 | with no content rule firing, ts, tsx, jsx and js give their own labels |
| ReactParser.CreateFile | src/main/java/com/sonic/claudeforge/service/parser/ReactCodeParser.java:114-125 | valid exactly when the code is not blank, and then labelled and typed "React/TypeScript"; otherwise "Invalid React/TypeScript content" |
| ReactParser.FilesOf | src/main/java/com/sonic/claudeforge/service/parser/ReactCodeParser.java:57-74 | one file per match, in match order |
| ReactParser.Parse | src/main/java/com/sonic/claudeforge/service/parser/ReactCodeParser.java:35-55 | one file per block of the first productive tier, in block order |
| ReactParser.ParsedFilesShape | src/main/java/com/sonic/claudeforge/service/parser/ReactCodeParser.java:114-125 | every file is well formed, valid exactly when its trimmed code is non-empty, typed "React/TypeScript" when valid |
| ReactParser.TrimTwice | src/main/java/com/sonic/claudeforge/service/parser/ReactCodeParser.java:146 | trimming is idempotent, so trimming a trimmed match again changes nothing |
| ReactParser.ReactFenceIsClaimed | src/main/java/com/sonic/claudeforge/service/parser/ReactCodeParser.java:207-231 | a reply with a fenced tsx or jsx block passes the pre-check |
| TypeScriptParser.TsxFenceIsClaimed | src/main/java/com/sonic/claudeforge/service/parser/TypeScriptCodeParser.java:202-204 | any "```tsx" fence passes the "```ts" test |
| TypeScriptParser.ReactMarkersExclude | src/main/java/com/sonic/claudeforge/service/parser/TypeScriptCodeParser.java:202-222 | with no ts fence and a failing path clause, any React marker makes the pre-check fail |
| TypeScriptParser.ValidIffNotBlank | src/main/java/com/sonic/claudeforge/service/parser/TypeScriptCodeParser.java:127-145 | the validity test accepts exactly the code that is not blank |
| TypeScriptParser.Counted | src/main/java/com/sonic/claudeforge/service/parser/TypeScriptCodeParser.java:163-173 | the count suffix appears exactly when the count exceeds 1 |
| TypeScriptParser.DetermineFileType | src/main/java/com/sonic/claudeforge/service/parser/TypeScriptCodeParser.java:150-188 | interface, enum and type markers together give "TypeScript Definitions"; "TypeScript" exactly when no rule fires |
| TypeScriptParser.CreateFile | src/main/java/com/sonic/claudeforge/service/parser/TypeScriptCodeParser.java:111-125 | valid exactly when the code is not blank, and then typed "TypeScript"; otherwise the fixed message |
| TypeScriptParser.Parse | src/main/java/com/sonic/claudeforge/service/parser/TypeScriptCodeParser.java:35-55 | one file per block of the first productive tier, in block order |
| TypeScriptParser.HeaderFilesAreTs | src/main/java/com/sonic/claudeforge/service/parser/TypeScriptCodeParser.java:27-32 | files found outside fences are named by "src/....ts" paths |
| CssParser.FencedReplyIsClaimed | src/main/java/com/sonic/claudeforge/service/parser/CssCodeParser.java:175-192 | a reply with any css, scss or sass fence passes the pre-check |
| CssParser.ValidIffNotBlank | src/main/java/com/sonic/claudeforge/service/parser/CssCodeParser.java:127-141 | the validity test accepts exactly the code that is not blank |
| CssParser.DetermineFileType | src/main/java/com/sonic/claudeforge/service/parser/CssCodeParser.java:143-162 | "@tailwind" always gives "Tailwind CSS"; without an at-rule a scss or sass extension decides; "CSS" exactly when no rule fires |
| CssParser.CreateFile | src/main/java/com/sonic/claudeforge/service/parser/CssCodeParser.java:114-125 | valid exactly when the code is not blank, and then typed "CSS"; otherwise the fixed message |
| CssParser.Parse | src/main/java/com/sonic/claudeforge/service/parser/CssCodeParser.java:35-55 | one file per block of the first productive tier, in block order |
| CssParser.HeaderSuffixDecides | src/main/java/com/sonic/claudeforge/service/parser/CssCodeParser.java:27-32 | a valid file named by a ".scss" header gets "SCSS" unless an at-rule decides first |
| CssParser.SuffixFromPath | src/main/java/com/sonic/claudeforge/service/parser/CssCodeParser.java:27-28 | the captured extension of a ".scss" header path is scss |
| HtmlParser.AngleBracketsAreClaimed | src/main/java/com/sonic/claudeforge/service/parser/HtmlCodeParser.java:209-219 | any text with both '<' and '>' passes the pre-check |
| HtmlParser.ValidityByBrackets | src/main/java/com/sonic/claudeforge/service/parser/HtmlCodeParser.java:161-172 | both angle brackets make code valid; valid code always holds a '<' |
| HtmlParser.DetermineFileType | src/main/java/com/sonic/claudeforge/service/parser/HtmlCodeParser.java:174-196 | one of nine labels; a doctype gives "HTML5 Document"; "HTML" exactly when no marker is present |
| HtmlParser.CreateFile | src/main/java/com/sonic/claudeforge/service/parser/HtmlCodeParser.java:149-159 | valid exactly when the validity test passes, and then typed "HTML"; otherwise the fixed message |
| HtmlParser.Dashify | src/main/java/com/sonic/claudeforge/service/parser/HtmlCodeParser.java:130-131 | same length; only [a-z0-9-] characters; lower-case letters and digits stay in place |
| HtmlParser.Collapse | src/main/java/com/sonic/claudeforge/service/parser/HtmlCodeParser.java:132 | never longer, first and last characters kept, no two dashes in a row |
| HtmlParser.Slug | src/main/java/com/sonic/claudeforge/service/parser/HtmlCodeParser.java:130-133 | the result holds only [a-z0-9-], never "--", and neither starts nor ends with '-' |
| HtmlParser.SlugIdempotent | src/main/java/com/sonic/claudeforge/service/parser/HtmlCodeParser.java:130-133 | slugging a slug changes nothing |
| HtmlParser.CollapseKeepsSingleDashes | src/main/java/com/sonic/claudeforge/service/parser/HtmlCodeParser.java:132 | collapsing a string without "--" is the identity |
| HtmlParser.TitleFrom | src/main/java/com/sonic/claudeforge/service/parser/HtmlCodeParser.java:127-129 | a found title is non-empty, free of '<', and occurs between "<title>" and "</title>" in the code |
| HtmlParser.PathStem | src/main/java/com/sonic/claudeforge/service/parser/HtmlCodeParser.java:125-138 | always a non-empty slug; "index" when the code has no "<title>" |
| HtmlParser.DoctypePath | src/main/java/com/sonic/claudeforge/service/parser/HtmlCodeParser.java:125-138 | "src/main/resources/static/" + stem + ".html" |
| HtmlParser.DoctypeFiles | src/main/java/com/sonic/claudeforge/service/parser/HtmlCodeParser.java:117-147 | one file per doctype block, in block order |
| HtmlParser.Parse | src/main/java/com/sonic/claudeforge/service/parser/HtmlCodeParser.java:39-64 | the three common tiers when they find anything, otherwise the doctype blocks |
| HtmlParser.DoctypeFilesAreDocuments | src/main/java/com/sonic/claudeforge/service/parser/HtmlCodeParser.java:117-147 | files of the fourth tier are valid "HTML5 Document" files under the static root, ending in ".html" |
| Parsers.TypesDistinct | src/main/java/com/sonic/claudeforge/service/parser/CodeParseManager.java:82-85 | no two extractors share a type name, not even up to case |
| Manager.Run | src/main/java/com/sonic/claudeforge/service/parser/CodeParseManager.java:45-63 | an extractor fails exactly when its pre-check throws, or its pre-check accepts and its extraction throws; it contributes exactly when it has no fault and accepts, and then with its own files |
| Manager.Contribution | src/main/java/com/sonic/claudeforge/service/parser/CodeParseManager.java:49-56 | an outcome adds files exactly when it found a non-empty list |
| Manager.Step | src/main/java/com/sonic/claudeforge/service/parser/CodeParseManager.java:50-62 | a fresh key ends up recorded as the outcome says; every other key is untouched; the list and the flag are unchanged |
| Manager.RunAllFiles | src/main/java/com/sonic/claudeforge/service/parser/CodeParseManager.java:44-56 | the fold's list is the start list followed by each contribution in order |
| Manager.RunAllRecords | src/main/java/com/sonic/claudeforge/service/parser/CodeParseManager.java:44-64 | with distinct fresh keys, each extractor is recorded as its outcome says and every other key is untouched |
| Manager.ParseAllFiles | src/main/java/com/sonic/claudeforge/service/parser/CodeParseManager.java:38-71 | the list is the registry-order concatenation of every contribution, the counts agree, and success means a non-empty list |
| Manager.ParseAllRecords | src/main/java/com/sonic/claudeforge/service/parser/CodeParseManager.java:44-64 | a result entry exactly for extractors that reported files, an error entry exactly for those that threw |
| Manager.ParseAllOnlyRegistered | src/main/java/com/sonic/claudeforge/service/parser/CodeParseManager.java:44-64 | no key other than a registered type name appears |
| Manager.ParseAllLookups | src/main/java/com/sonic/claudeforge/service/parser/CodeParseManager.java:44-64 | a registered extractor is among the successful parsers exactly when it reported files, among the failed ones exactly when it threw, and its lookup returns the files it reported |
| Manager.ParseAllParsersRegistered | src/main/java/com/sonic/claudeforge/service/parser/CodeParseManager.java:44-64 | the successful and the failed parsers are all registered type names |
| Manager.ObservedRun | src/main/java/com/sonic/claudeforge/service/parser/CodeParseManager.java:45-56 | with the real extractors, one contributes exactly when it has no fault and its canHandle accepts, and then with its parse result |
| Manager.FaultIsolation | src/main/java/com/sonic/claudeforge/service/parser/CodeParseManager.java:45-63 | a fault in one extractor changes nothing recorded about another |
| Manager.NoFaultsNoErrors | src/main/java/com/sonic/claudeforge/service/parser/CodeParseManager.java:60-63 | without faults the error map is empty |
| Manager.FindParser | src/main/java/com/sonic/claudeforge/service/parser/CodeParseManager.java:82-85 | a found extractor is in the list and matches the name up to case; nothing is found exactly when none matches |
| Manager.FindsRegistered | src/main/java/com/sonic/claudeforge/service/parser/CodeParseManager.java:82-85 | each registered extractor is found under its own type name in any case |
| Manager.TypeScriptNotFound | src/main/java/com/sonic/claudeforge/service/parser/CodeParseManager.java:27 | the unregistered TypeScript extractor cannot be found by name |
| Manager.AttemptOf | src/main/java/com/sonic/claudeforge/service/parser/CodeParseManager.java:87-105 | missing exactly when no extractor was found; a failure exactly when its extraction throws; otherwise its files, with no pre-check asked |
| Manager.Report | src/main/java/com/sonic/claudeforge/service/parser/CodeParseManager.java:87-107 | an unknown name gives only the "Manager" error; a throwing extraction gives only an error under the name; otherwise the files are the list and are stored under the name as given; success means a non-empty list |
| Manager.SpecificParserRunsIt | src/main/java/com/sonic/claudeforge/service/parser/CodeParseManager.java:79-108 | asking for a fault-free registered extractor by its type name gives exactly its files |
| Manager.TypeNames | src/main/java/com/sonic/claudeforge/service/parser/CodeParseManager.java:114-118 | one name per extractor, in order |
| Manager.AvailableTypes | src/main/java/com/sonic/claudeforge/service/parser/CodeParseManager.java:23-27 | the types are Java, React/TypeScript, CSS, HTML in that order, without TypeScript |
| Manager.DetectFrom | src/main/java/com/sonic/claudeforge/service/parser/CodeParseManager.java:139-144 | exactly the names of the extractors whose pre-check accepts, as an order-preserving sub-list of all names |
| Manager.DetectApplicableParsersWith | src/main/java/com/sonic/claudeforge/service/parser/CodeParseManager.java:139-144 | the accepted registered types, as a sub-list of the available types |
| Manager.ReportedAreDetected | src/main/java/com/sonic/claudeforge/service/parser/CodeParseManager.java:50-53 | an extractor with a result entry after a full run is among the detected types |
| Manager.ParserInformation | src/main/java/com/sonic/claudeforge/service/parser/CodeParseManager.java:124-132 | one entry per registered extractor, in registry order |
| Manager.InformationMatchesTypes | src/main/java/com/sonic/claudeforge/service/parser/CodeParseManager.java:124-132 | the information lists the available types in the same order |
| ProjectConfigs.DriverArtifact | src/main/java/com/sonic/claudeforge/model/DatabaseType.java:5-9 | the driver artifact of each database type; empty exactly for "no database" |
| ProjectConfigs.DriverGroup | src/main/java/com/sonic/claudeforge/model/DatabaseType.java:5-9 | the driver group of each database type; the placeholder "none" exactly for "no database" |
| ProjectConfigs.NewConfig | src/main/java/com/sonic/claudeforge/model/ProjectConfig.java:9-21 | a new configuration has version "1.0.0", Java 17, no database and the REST API layout; it has no description and no workspace |
| ProjectConfigs.KeepLowerAlnum | src/main/java/com/sonic/claudeforge/model/ProjectConfig.java:53-54 | the result is no longer than the input and holds only lower-case letters and digits |
| ProjectConfigs.KeepLowerAlnumCounts | src/main/java/com/sonic/claudeforge/model/ProjectConfig.java:53-54 | every lower-case letter and digit survives as often as it occurs; every other character is removed |
| ProjectConfigs.DropDashUnderscore | src/main/java/com/sonic/claudeforge/model/ProjectConfig.java:55 | the result is no longer than the input and holds no '-' or '_' |
| ProjectConfigs.SecondPassIsIdentity | src/main/java/com/sonic/claudeforge/model/ProjectConfig.java:53-55 | the second clean-up pass changes nothing once the first has run |
| ProjectConfigs.PackageSegment | src/main/java/com/sonic/claudeforge/model/ProjectConfig.java:53-55 | the cleaned project name holds only lower-case letters and digits, and is the one-pass cleaning of the lower-cased name |
| ProjectConfigs.KeepLowerAlnumFixed | src/main/java/com/sonic/claudeforge/model/ProjectConfig.java:53-54 | text made only of lower-case letters and digits passes the cleaning unchanged |
| ProjectConfigs.PackageSegmentIdempotent | src/main/java/com/sonic/claudeforge/model/ProjectConfig.java:53-55 | cleaning an already cleaned name gives it back |
| ProjectConfigs.FullPackage | src/main/java/com/sonic/claudeforge/model/ProjectConfig.java:52-57 | the full package is the base package and a dot, then only lower-case letters and digits; its length is the sum of the parts |
| ProjectConfigs.EffectiveWorkspacePath | src/main/java/com/sonic/claudeforge/model/ProjectConfig.java:62-68 | the workspace itself for the separated layout; otherwise the workspace, a slash and the project name, a null workspace printing as "null" |
| ProjectConfigs.BackendProjectPath | src/main/java/com/sonic/claudeforge/model/ProjectConfig.java:73-78 | the "-api" sibling folder for the separated layout, the effective workspace otherwise |
| ProjectConfigs.FrontendProjectPath | src/main/java/com/sonic/claudeforge/model/ProjectConfig.java:83-88 | the "-web" sibling folder for the separated layout, the static-resources folder inside the project otherwise |
| ProjectConfigs.ProjectFolders | src/main/java/com/sonic/claudeforge/model/ProjectConfig.java:62-88 | both folders start with the workspace and the project name, and they never coincide; outside the separated layout the front end lies inside the back end |
| JavaGenerator.Letters | src/main/java/com/sonic/claudeforge/service/codegenerator/JavaCodeGeneratorService.java:667-685 | the letters of the name, no more of them than characters |
| JavaGenerator.PascalFrom | src/main/java/com/sonic/claudeforge/service/codegenerator/JavaCodeGeneratorService.java:667-685 | one output character per letter of the input, each the letter itself or its upper case |
| JavaGenerator.ToPascalCase | src/main/java/com/sonic/claudeforge/service/codegenerator/JavaCodeGeneratorService.java:667-685 | the name's letters in order, up to case; non-letters are dropped |
| JavaGenerator.PascalFromSplits | src/main/java/com/sonic/claudeforge/service/codegenerator/JavaCodeGeneratorService.java:671-682 | a non-letter cuts the input into two parts converted independently, the second starting a new word |
| JavaGenerator.PascalSplitsAtSeparator | src/main/java/com/sonic/claudeforge/service/codegenerator/JavaCodeGeneratorService.java:667-685 | the conversion of a name with a separator is the conversion of the part before it followed by the part after it |
| JavaGenerator.PascalFromWordTail | src/main/java/com/sonic/claudeforge/service/codegenerator/JavaCodeGeneratorService.java:676-677 | inside a word, letters are copied unchanged |
| JavaGenerator.PascalOfWord | src/main/java/com/sonic/claudeforge/service/codegenerator/JavaCodeGeneratorService.java:667-685 | a single word of letters only has its first letter upper-cased and the rest kept |
| JavaGenerator.MainClassName | src/main/java/com/sonic/claudeforge/service/codegenerator/JavaCodeGeneratorService.java:286 | the main class name is made of letters and ends in "Application" |
| JavaGenerator.Under | src/main/java/com/sonic/claudeforge/service/codegenerator/JavaCodeGeneratorService.java:72-95 | one directory per suffix, each under the common head |
| JavaGenerator.UnderMembers | src/main/java/com/sonic/claudeforge/service/codegenerator/JavaCodeGeneratorService.java:72-95 | a directory is listed exactly when its suffix is |
| JavaGenerator.Directories | src/main/java/com/sonic/claudeforge/service/codegenerator/JavaCodeGeneratorService.java:66-100 | ten directories, three more with a database, four more for the static layout |
| JavaGenerator.DirectoriesUnderSrc | src/main/java/com/sonic/claudeforge/service/codegenerator/JavaCodeGeneratorService.java:72-95 | every directory created lies under "src/" |
| JavaGenerator.RepositoryDirIffDatabase | src/main/java/com/sonic/claudeforge/service/codegenerator/JavaCodeGeneratorService.java:69-88 | the repository package is created exactly when a database is configured |
| JavaGenerator.StaticDirIffStatic | src/main/java/com/sonic/claudeforge/service/codegenerator/JavaCodeGeneratorService.java:90-95 | the static-resources folder is created exactly for the static layout |
| JavaGenerator.Dependencies | src/main/java/com/sonic/claudeforge/service/codegenerator/JavaCodeGeneratorService.java:107-155 | web and validation come first; the number of further dependencies depends on the database type (none, two, or three for SQLite) |
| JavaGenerator.JpaIffDatabase | src/main/java/com/sonic/claudeforge/service/codegenerator/JavaCodeGeneratorService.java:117-121 | JPA is declared exactly when a database is configured |
| JavaGenerator.DriverMatchesEnum | src/main/java/com/sonic/claudeforge/service/codegenerator/JavaCodeGeneratorService.java:123-153 | the driver dependency carries the database type's own group and artifact, at runtime scope except for SQLite |
| JavaGenerator.PomArtifactId | src/main/java/com/sonic/claudeforge/service/codegenerator/JavaCodeGeneratorService.java:158-161 | the pom's artifact id is the project name, with "-api" for the separated layout |
| JavaGenerator.WrittenConcat | src/main/java/com/sonic/claudeforge/service/codegenerator/JavaCodeGeneratorService.java:36-60 | the files written by consecutive steps are those of each step together |
| JavaGenerator.At | src/main/java/com/sonic/claudeforge/service/codegenerator/JavaCodeGeneratorService.java:98 | a path under the project folder, with the relative part after the separator |
| JavaGenerator.MakeDirs | src/main/java/com/sonic/claudeforge/service/codegenerator/JavaCodeGeneratorService.java:97-99 | one directory creation per listed directory, in order, inside the project folder, writing no file |
| JavaGenerator.Writes | src/main/java/com/sonic/claudeforge/service/codegenerator/JavaCodeGeneratorService.java:283-309 | one write per file, in order, inside the project folder |
| JavaGenerator.WrittenWrites | src/main/java/com/sonic/claudeforge/service/codegenerator/JavaCodeGeneratorService.java:283-309 | the templates written are exactly those listed |
| JavaGenerator.CoreFiles | src/main/java/com/sonic/claudeforge/service/codegenerator/JavaCodeGeneratorService.java:37-42 | pom, properties, main class and base response are written |
| JavaGenerator.EntityFiles | src/main/java/com/sonic/claudeforge/service/codegenerator/JavaCodeGeneratorService.java:44-47 | the base entity is written exactly when a database is configured |
| JavaGenerator.WebFiles | src/main/java/com/sonic/claudeforge/service/codegenerator/JavaCodeGeneratorService.java:49-50 | the exception handler and the logging filter are written |
| JavaGenerator.AssetFiles | src/main/java/com/sonic/claudeforge/service/codegenerator/JavaCodeGeneratorService.java:57-60 | the index page, style sheet and script are written exactly for the static layout |
| JavaGenerator.DataDir | src/main/java/com/sonic/claudeforge/service/codegenerator/JavaCodeGeneratorService.java:52-55 | the data folder step stays inside the project and writes no file |
| JavaGenerator.JavaProjectLog | src/main/java/com/sonic/claudeforge/service/codegenerator/JavaCodeGeneratorService.java:36-60 | every action of the generator stays inside the project folder |
| JavaGenerator.GenerateJavaProject | src/main/java/com/sonic/claudeforge/service/codegenerator/JavaCodeGeneratorService.java:31-64 | the generator returns the back-end folder, and every action stays inside it |
| JavaGenerator.TemplatesWritten | src/main/java/com/sonic/claudeforge/service/codegenerator/JavaCodeGeneratorService.java:36-60 | the six fixed files are always written; the base entity exactly with a database; the static assets exactly for the static layout |
| JavaGenerator.GeneratedTemplates | src/main/java/com/sonic/claudeforge/service/codegenerator/JavaCodeGeneratorService.java:31-64 | for a configuration: the six fixed files are always written; the base entity exactly with a database; the static assets exactly for the static layout |
| JavaGenerator.MainClassWritten | src/main/java/com/sonic/claudeforge/service/codegenerator/JavaCodeGeneratorService.java:283-309 | the main class is written under the package path, named after the Pascal-cased project with "Application" |
| JavaGenerator.DataFolderIffSqlite | src/main/java/com/sonic/claudeforge/service/codegenerator/JavaCodeGeneratorService.java:52-55 | the "data" folder is created exactly for SQLite |
| JavaGenerator.DataNotAmongDirs | src/main/java/com/sonic/claudeforge/service/codegenerator/JavaCodeGeneratorService.java:97-99 | no created source directory is the data folder |
| ProjectAnalyzer.DetermineFileType | src/main/java/com/sonic/claudeforge/service/ProjectAnalyzerService.java:197-210 | the label of the first marker present in the fixed order; "Class" exactly when no marker is present |
| ProjectAnalyzer.FileTypeAgreesWithExtractor | src/main/java/com/sonic/claudeforge/service/ProjectAnalyzerService.java:197-210 | agrees with the Java extractor's classifier whenever a marker is present; otherwise that classifier answers one of its fallbacks |
| ProjectAnalyzer.ExtractClassName | src/main/java/com/sonic/claudeforge/service/ProjectAnalyzerService.java:193-195 | a file name without ".java" is its own class name |
| ProjectAnalyzer.ClassNameOfJavaFile | src/main/java/com/sonic/claudeforge/service/ProjectAnalyzerService.java:193-195 | removing ".java" from "Name.java" gives back "Name" |
| ProjectAnalyzer.FirstJavaSuffix | src/main/java/com/sonic/claudeforge/service/ProjectAnalyzerService.java:193-195 | in "Name.java", the first ".java" is the suffix |
| ProjectAnalyzer.ExtractPackage | src/main/java/com/sonic/claudeforge/service/ProjectAnalyzerService.java:163-170 | always a non-empty run of word characters and dots |
| ProjectAnalyzer.ExtractPackageIsFirstMatch | src/main/java/com/sonic/claudeforge/service/ProjectAnalyzerService.java:163-170 | the package of the first "package ...;" match; the default package when there is no match |
| ProjectAnalyzer.PackageFromFirst | src/main/java/com/sonic/claudeforge/service/ProjectAnalyzerService.java:163-170 | the scan from a position finds the first match at or after it |
| ProjectAnalyzer.PackageFromNone | src/main/java/com/sonic/claudeforge/service/ProjectAnalyzerService.java:163-170 | with no match ahead, the scan yields the default package |
| ProjectAnalyzer.DeclaredPackage | src/main/java/com/sonic/claudeforge/service/ProjectAnalyzerService.java:163-170 | a file opening with "package p;" yields p |
| ProjectAnalyzer.FindBasePackage | src/main/java/com/sonic/claudeforge/service/ProjectAnalyzerService.java:150-161 | the default package when no file carries the application annotation |
| ProjectAnalyzer.BasePackageOfFirstApp | src/main/java/com/sonic/claudeforge/service/ProjectAnalyzerService.java:150-161 | the package of the first file carrying the application annotation |
| ProjectAnalyzer.ScanFile | src/main/java/com/sonic/claudeforge/service/ProjectAnalyzerService.java:172-191 | a file's record carries its names and paths, its class name, package and type, each as the extractors define them |
| ProjectAnalyzer.VerbName | src/main/java/com/sonic/claudeforge/service/ProjectAnalyzerService.java:233 | the upper-cased verb of the matched annotation, one of five |
| ProjectAnalyzer.ParseApiEndpoints | src/main/java/com/sonic/claudeforge/service/ProjectAnalyzerService.java:225-243 | one endpoint per mapping match, in order, with the verb, path, method name, the controller and the fixed description |
| ProjectAnalyzer.ExtractApiEndpoints | src/main/java/com/sonic/claudeforge/service/ProjectAnalyzerService.java:212-223 | every endpoint comes from a controller and names that controller; without controllers there are none |
| ProjectAnalyzer.EndpointsAppend | src/main/java/com/sonic/claudeforge/service/ProjectAnalyzerService.java:212-223 | the endpoints of two file lists scanned one after the other are those of the first followed by those of the second |
| ProjectAnalyzer.EndpointsCounted | src/main/java/com/sonic/claudeforge/service/ProjectAnalyzerService.java:212-223 | there are exactly as many endpoints as mapping matches in the controllers |
| ProjectAnalyzer.EndpointsOfFile | src/main/java/com/sonic/claudeforge/service/ProjectAnalyzerService.java:212-223 | each controller's endpoints appear as one block, in match order, right after those of the files before it; a file of any other label adds none |
| ProjectAnalyzer.Kept | src/main/java/com/sonic/claudeforge/service/ProjectAnalyzerService.java:89-96 | no kept entry has an ignored name |
| ProjectAnalyzer.KeptMembers | src/main/java/com/sonic/claudeforge/service/ProjectAnalyzerService.java:89-96 | an entry is kept exactly when it is listed and its name is not ignored |
| ProjectAnalyzer.CompareIgnoreCase | src/main/java/com/sonic/claudeforge/service/ProjectAnalyzerService.java:103 | equal names compare equal |
| ProjectAnalyzer.CompareAntisymmetric | src/main/java/com/sonic/claudeforge/service/ProjectAnalyzerService.java:103 | swapping the names negates the comparison |
| ProjectAnalyzer.CompareTransitive | src/main/java/com/sonic/claudeforge/service/ProjectAnalyzerService.java:103 | the case-insensitive order is transitive |
| ProjectAnalyzer.BeforeTransitive | src/main/java/com/sonic/claudeforge/service/ProjectAnalyzerService.java:100-104 | the entry order is transitive |
| ProjectAnalyzer.BeforeTotal | src/main/java/com/sonic/claudeforge/service/ProjectAnalyzerService.java:100-104 | any two entries are ordered one way or the other |
| ProjectAnalyzer.SortedPairwise | src/main/java/com/sonic/claudeforge/service/ProjectAnalyzerService.java:100-104 | in a sorted listing every earlier entry comes before every later one |
| ProjectAnalyzer.Insert | src/main/java/com/sonic/claudeforge/service/ProjectAnalyzerService.java:100-104 | inserting into a sorted listing keeps it sorted and adds exactly the one entry |
| ProjectAnalyzer.SortEntries | src/main/java/com/sonic/claudeforge/service/ProjectAnalyzerService.java:100-104 | the result is sorted (directories first, then case-insensitive name order) and a permutation of the input |
| ProjectAnalyzer.Visible | src/main/java/com/sonic/claudeforge/service/ProjectAnalyzerService.java:89-104 | the listed entries are sorted and are exactly the entries whose names are not ignored |
| ProjectAnalyzer.Listing | src/main/java/com/sonic/claudeforge/service/ProjectAnalyzerService.java:106-120 | every line starts with the prefix followed by a connector or an indentation |
| ProjectAnalyzer.ListingShape | src/main/java/com/sonic/claudeforge/service/ProjectAnalyzerService.java:106-120 | an entry line, its directory's lines and the remaining lines keep the prefix-and-connector shape |
| ProjectAnalyzer.ConnectorRule | src/main/java/com/sonic/claudeforge/service/ProjectAnalyzerService.java:106-114 | an entry's line carries the last-branch connector exactly when it is the last entry |
| ProjectAnalyzer.ProjectTree | src/main/java/com/sonic/claudeforge/service/ProjectAnalyzerService.java:74-84 | the tree opens with the root's name and a slash, then at least one line per visible entry |
| ProjectAnalyzer.DetectDatabase | src/main/java/com/sonic/claudeforge/service/ProjectAnalyzerService.java:254-265 | the label of the first marker the pom contains, in the fixed order; "NONE" exactly when it contains none |
| ProjectAnalyzer.ProjectMetadata | src/main/java/com/sonic/claudeforge/service/ProjectAnalyzerService.java:245-277 | the pom keys appear exactly when the pom exists, with the detected database; the properties flag appears exactly when that file exists; the file count is always present |
| Patterns.SpacedWord | src/main/java/com/sonic/claudeforge/util/TemplateUtils.java:118 | a match of whitespace then a word ends after its start and captures a word |
| Patterns.RunIsWord | src/main/java/com/sonic/claudeforge/util/TemplateUtils.java:118 | a non-empty run of word characters is a word |
| Patterns.SpacedWordAt | src/main/java/com/sonic/claudeforge/util/TemplateUtils.java:118 | a space then a word ended by a non-word character is matched, with that word and its end |
| TemplateUtils.ExtractExpectedFormat | src/main/java/com/sonic/claudeforge/util/TemplateUtils.java:18-31 | the format of the first keyword the lower-cased prompt contains; the default exactly when it contains none |
| TemplateUtils.FormatIgnoresCase | src/main/java/com/sonic/claudeforge/util/TemplateUtils.java:18-31 | prompts that differ only in case get the same format |
| TemplateUtils.Capitalize | src/main/java/com/sonic/claudeforge/util/TemplateUtils.java:132-137 | null stays null; otherwise same length, the first character upper-cased, the rest kept |
| TemplateUtils.CapitalizeIdempotent | src/main/java/com/sonic/claudeforge/util/TemplateUtils.java:132-137 | capitalising twice is capitalising once |
| TemplateUtils.Cap | src/main/java/com/sonic/claudeforge/util/TemplateUtils.java:132-137 | capitalising keeps the length |
| TemplateUtils.CapKeepsOut | src/main/java/com/sonic/claudeforge/util/TemplateUtils.java:132-137 | capitalising introduces no non-letter the name lacks |
| TemplateUtils.GetterSetter | src/main/java/com/sonic/claudeforge/util/TemplateUtils.java:91-107 | the text holds the getter heading, the return of the field, the setter heading and the assignment; it has no '@' unless the name or type has one |
| TemplateUtils.AccessorsHaveNoAt | src/main/java/com/sonic/claudeforge/util/TemplateUtils.java:91-107 | the pieces of the accessor text hold no '@' unless the name or type has one |
| TemplateUtils.FieldMatch | src/main/java/com/sonic/claudeforge/util/TemplateUtils.java:118 | a field match starts with "private" and captures a type word and a name word |
| TemplateUtils.FieldsFrom | src/main/java/com/sonic/claudeforge/util/TemplateUtils.java:118-125 | every field found has a word as type and as name |
| TemplateUtils.Fields | src/main/java/com/sonic/claudeforge/util/TemplateUtils.java:118-125 | the fields are exactly one per position where a declaration starts, in text order, each with a word as type and as name |
| TemplateUtils.FieldParts | src/main/java/com/sonic/claudeforge/util/TemplateUtils.java:118 | a matched declaration is the keyword, whitespace, a word, whitespace, a word and a ';', and the two captures are those words |
| TemplateUtils.PrivateLetters | src/main/java/com/sonic/claudeforge/util/TemplateUtils.java:118 | the keyword is all word characters and only its first letter is 'p' |
| TemplateUtils.FieldNotAtOtherLetter | src/main/java/com/sonic/claudeforge/util/TemplateUtils.java:118 | no declaration starts at a character other than 'p' |
| TemplateUtils.FieldNotAcross | src/main/java/com/sonic/claudeforge/util/TemplateUtils.java:118 | no declaration starts where the keyword would cover a non-word character |
| TemplateUtils.FieldNotBeforeNonSpace | src/main/java/com/sonic/claudeforge/util/TemplateUtils.java:118 | no declaration starts where the keyword is not followed by whitespace |
| TemplateUtils.FieldsDoNotOverlap | src/main/java/com/sonic/claudeforge/util/TemplateUtils.java:118-121 | no declaration starts inside another one, so resuming after a match skips none |
| TemplateUtils.DeclaredSkip | src/main/java/com/sonic/claudeforge/util/TemplateUtils.java:118-121 | positions where no declaration starts add no field |
| TemplateUtils.FieldsFromAll | src/main/java/com/sonic/claudeforge/util/TemplateUtils.java:118-125 | the search resuming after each match finds the same fields, in the same order, as trying every position |
| TemplateUtils.DeclaredFound | src/main/java/com/sonic/claudeforge/util/TemplateUtils.java:118-125 | every listed field is declared at some position |
| TemplateUtils.DeclaredCollected | src/main/java/com/sonic/claudeforge/util/TemplateUtils.java:118-125 | every declaration is listed |
| TemplateUtils.FieldsExact | src/main/java/com/sonic/claudeforge/util/TemplateUtils.java:118-125 | a field is found exactly when a declaration of it starts somewhere in the text |
| TemplateUtils.WordHasNoAt | src/main/java/com/sonic/claudeforge/util/TemplateUtils.java:118 | a word holds no '@' |
| TemplateUtils.DeclaredFieldFirst | src/main/java/com/sonic/claudeforge/util/TemplateUtils.java:118-125 | "private T n;" at the start of the text is the first field found, with type T and name n |
| TemplateUtils.NoFieldsWithoutP | src/main/java/com/sonic/claudeforge/util/TemplateUtils.java:118-125 | text without a 'p' has no fields |
| TemplateUtils.Accessors | src/main/java/com/sonic/claudeforge/util/TemplateUtils.java:120-125 | the accessors of word fields hold no '@'; each field's block opens with a newline |
| TemplateUtils.AccessorsAreBlocks | src/main/java/com/sonic/claudeforge/util/TemplateUtils.java:120-125 | the text is one block per field, in field order, each a newline followed by that field's getter/setter pair |
| TemplateUtils.AccessorsAppend | src/main/java/com/sonic/claudeforge/util/TemplateUtils.java:120-125 | the blocks of two field lists follow one another: appending fields appends their blocks |
| TemplateUtils.AccessorsContainEachField | src/main/java/com/sonic/claudeforge/util/TemplateUtils.java:120-125 | the generated text contains every field's getter and setter |
| TemplateUtils.ProcessGetterSetter | src/main/java/com/sonic/claudeforge/util/TemplateUtils.java:112-128 | text without the marker is returned unchanged; otherwise the first marker is replaced by the accessors of all fields, the text before it is kept and the rest is expanded the same way |
| Text.ReplaceFirst | src/main/java/com/sonic/claudeforge/util/TemplateUtils.java:128 | replacing every occurrence replaces the first one, where the search finds it, keeps the text before it and carries on after it |
| TemplateUtils.MarkerLetters | src/main/java/com/sonic/claudeforge/util/TemplateUtils.java:113 | the marker's '@' is its only one |
| TemplateUtils.SingleMarkerSpliced | src/main/java/com/sonic/claudeforge/util/TemplateUtils.java:112-128 | with a single marker, the result is the text before it, the accessors of all the fields, then the text after it |
| TemplateUtils.MarkerGone | src/main/java/com/sonic/claudeforge/util/TemplateUtils.java:112-128 | once fields are found, no marker is left in the result |
| Mermaid.Layer | src/main/java/com/sonic/claudeforge/util/MermaidGenerator.java:22-26 | the five layer nodes are consecutive letters from 'B' |
| Mermaid.HeaderLines | src/main/java/com/sonic/claudeforge/util/MermaidGenerator.java:21-26 | six header lines: "graph TD", then the project node and its edge to each layer, all from node A |
| Mermaid.CountOf | src/main/java/com/sonic/claudeforge/util/MermaidGenerator.java:30-39 | a count never exceeds the number of files |
| Mermaid.Types | src/main/java/com/sonic/claudeforge/util/MermaidGenerator.java:30-39 | the file types, one per file, in order |
| Mermaid.CountOfIsMultiplicity | src/main/java/com/sonic/claudeforge/util/MermaidGenerator.java:30-39 | a layer's count is the number of files of that type |
| Mermaid.LayerTotalBounded | src/main/java/com/sonic/claudeforge/util/MermaidGenerator.java:30-39 | the five counts together never exceed the number of files |
| Mermaid.CountLine | src/main/java/com/sonic/claudeforge/util/MermaidGenerator.java:41-55 | a count line hangs from its layer's node |
| Mermaid.CountLineShowsCount | src/main/java/com/sonic/claudeforge/util/MermaidGenerator.java:41-55 | a count line shows the count followed by the caption |
| Mermaid.LayerCounts | src/main/java/com/sonic/claudeforge/util/MermaidGenerator.java:30-39 | one count per layer, each the number of that layer's files |
| Mermaid.PresentLayers | src/main/java/com/sonic/claudeforge/util/MermaidGenerator.java:41-55 | only layers with files are selected |
| Mermaid.PresentLayersComplete | src/main/java/com/sonic/claudeforge/util/MermaidGenerator.java:41-55 | every layer with files is selected |
| Mermaid.PresentLayersIncreasing | src/main/java/com/sonic/claudeforge/util/MermaidGenerator.java:41-55 | the selected layers keep the fixed layer order |
| Mermaid.CountLines | src/main/java/com/sonic/claudeforge/util/MermaidGenerator.java:41-55 | one count line per layer with files, in layer order, each showing that layer's count |
| Mermaid.DiagramLines | src/main/java/com/sonic/claudeforge/util/MermaidGenerator.java:18-59 | the header, then the count lines when the file list is known; only the header otherwise |
| Mermaid.CountLineIff | src/main/java/com/sonic/claudeforge/util/MermaidGenerator.java:41-55 | a layer's count line is in the diagram exactly when the layer has files |
| Mermaid.HeaderNotCountLine | src/main/java/com/sonic/claudeforge/util/MermaidGenerator.java:21-26 | no header line is mistaken for a count line |
| Mermaid.DiagramStartsWithHeader | src/main/java/com/sonic/claudeforge/util/MermaidGenerator.java:18-29 | the diagram text opens with the header; without a file list it is the header alone |
| Mermaid.CountLinesInLayerOrder | src/main/java/com/sonic/claudeforge/util/MermaidGenerator.java:41-55 | count lines appear in layer order |
| PromptGenerator.ConfiguredDatabase | src/main/java/com/sonic/claudeforge/service/PromptGeneratorService.java:61-67 | a database is named exactly when a structure with metadata records a database other than "NONE"; the name is that entry's text |
| PromptGenerator.Candidates | src/main/java/com/sonic/claudeforge/service/PromptGeneratorService.java:19-111 | each section appears at its place exactly under the condition the service tests |
| PromptGenerator.CandidatesRanked | src/main/java/com/sonic/claudeforge/service/PromptGeneratorService.java:19-111 | each section sits in the slot its rank names |
| PromptGenerator.Filled | src/main/java/com/sonic/claudeforge/service/PromptGeneratorService.java:19-111 | dropping the absent slots never lengthens the list |
| PromptGenerator.FilledMembers | src/main/java/com/sonic/claudeforge/service/PromptGeneratorService.java:19-111 | a section is kept exactly when one of the slots holds it |
| PromptGenerator.FilledAscending | src/main/java/com/sonic/claudeforge/service/PromptGeneratorService.java:19-111 | the kept sections keep their slots' order |
| PromptGenerator.Sections | src/main/java/com/sonic/claudeforge/service/PromptGeneratorService.java:23-24 | the prompt always opens with the user's request, a null prompt printing as "null" |
| PromptGenerator.InSlot | src/main/java/com/sonic/claudeforge/service/PromptGeneratorService.java:19-111 | a section is in the prompt exactly when its condition holds |
| PromptGenerator.SectionsOrdered | src/main/java/com/sonic/claudeforge/service/PromptGeneratorService.java:19-111 | the sections appear in the service's order |
| PromptGenerator.FixedSections | src/main/java/com/sonic/claudeforge/service/PromptGeneratorService.java:47-89 | both headings are always present; the knowledge section exactly when requested |
| PromptGenerator.JavaSections | src/main/java/com/sonic/claudeforge/service/PromptGeneratorService.java:49-99 | the Java requirements and the Java example exactly for "java" or "both" |
| PromptGenerator.ReactSections | src/main/java/com/sonic/claudeforge/service/PromptGeneratorService.java:70-108 | the React requirements and the React example exactly for "react" or "both" |
| PromptGenerator.ContextChoice | src/main/java/com/sonic/claudeforge/service/PromptGeneratorService.java:27-67 | the tree exactly with a structure; endpoints exactly with a non-empty list; the database note exactly for Java with a configured database |
| PromptGenerator.EndpointLines | src/main/java/com/sonic/claudeforge/service/PromptGeneratorService.java:36-41 | one line per endpoint, in order |
| PromptGenerator.RenderAll | src/main/java/com/sonic/claudeforge/service/PromptGeneratorService.java:19-111 | one text per section, in order |
| PromptGenerator.PromptStartsWithRequest | src/main/java/com/sonic/claudeforge/service/PromptGeneratorService.java:23-24 | the prompt text opens with the request heading and the request |
| PromptGenerator.SectionTextInPrompt | src/main/java/com/sonic/claudeforge/service/PromptGeneratorService.java:19-111 | every selected section's text occurs in the prompt |
| PromptGenerator.EndpointListed | src/main/java/com/sonic/claudeforge/service/PromptGeneratorService.java:34-42 | every existing endpoint's line occurs in the prompt |
| DatabaseNotes.Lead | src/main/java/com/sonic/claudeforge/service/CodeGeneratorService.java:323-357 | the word each database's instructions open with, at least two letters |
| DatabaseNotes.DatabaseInstructions | src/main/java/com/sonic/claudeforge/service/CodeGeneratorService.java:323-357 | the instructions open with their database's word |
| DatabaseNotes.InstructionsIdentify | src/main/java/com/sonic/claudeforge/service/CodeGeneratorService.java:323-357 | the instructions tell the databases apart; only the "no database" text opens with "No" |
| CodeGenerator.Convert | src/main/java/com/sonic/claudeforge/service/CodeGeneratorService.java:124-131 | name, path and content are copied; a valid file's type reads "type (parser)" |
| CodeGenerator.ConvertAll | src/main/java/com/sonic/claudeforge/service/CodeGeneratorService.java:124-131 | one generated file per valid file, in order |
| CodeGenerator.WritesOf | src/main/java/com/sonic/claudeforge/service/CodeGeneratorService.java:133-134 | one write per valid file, in order |
| CodeGenerator.Generate | src/main/java/com/sonic/claudeforge/service/CodeGeneratorService.java:107-157 | the result keeps the workspace and the response, with one write per generated file |
| CodeGenerator.GenerateKeepsValid | src/main/java/com/sonic/claudeforge/service/CodeGeneratorService.java:107-157 | exactly the valid files are generated; each is written to the workspace, a slash and its path |
| CodeGenerator.GenerateCount | src/main/java/com/sonic/claudeforge/service/CodeGeneratorService.java:107-157 | as many files are generated as the parse counted valid |
| CodeGenerator.ParseAndGenerateCount | src/main/java/com/sonic/claudeforge/service/CodeGeneratorService.java:107-157 | generating from a reply yields as many files as a full parse counts valid |
| CodeGenerator.ParseAndGenerateCountWithParser | src/main/java/com/sonic/claudeforge/service/CodeGeneratorService.java:162-191 | generating with one extractor yields as many files as that parse counts valid |
| CodeGenerator.UnknownParserWritesNothing | src/main/java/com/sonic/claudeforge/service/CodeGeneratorService.java:162-191 | an unknown extractor name generates and writes nothing |
| CodeGenerator.WithWorkspace | src/main/java/com/sonic/claudeforge/service/CodeGeneratorService.java:54-57 | a missing or empty workspace becomes the base path; nothing else changes |
| CodeGenerator.DispatchGenerators | src/main/java/com/sonic/claudeforge/service/CodeGeneratorService.java:59-102 | the Java generator runs exactly for layouts other than web-only; the web generator exactly for web-only and separated; each gets its configured folder |
| CodeGenerator.DispatchFolders | src/main/java/com/sonic/claudeforge/service/CodeGeneratorService.java:50-102 | the folder returned for each layout; for the separated layout, a parent holding both projects, which differ |
| CodeAnalyzer.IsSpringBootClass | src/main/java/com/sonic/claudeforge/util/CodeAnalyzer.java:80-92 | true exactly when one of the seven stereotype annotations occurs |
| CodeAnalyzer.StereotypesAreSpring | src/main/java/com/sonic/claudeforge/util/CodeAnalyzer.java:80-92 | files the analysis labels controller, service, repository or configuration are Spring classes |
| CodeAnalyzer.EntityIsNotSpring | src/main/java/com/sonic/claudeforge/util/CodeAnalyzer.java:80-92 | code with "@Entity" and none of the Spring annotations is labelled an entity by the analysis yet is not a Spring class |
| CodeAnalyzer.EntityAloneIsNotSpring | src/main/java/com/sonic/claudeforge/util/CodeAnalyzer.java:80-92 | such code exists: "@Entity" on its own |
| CodeAnalyzer.AnnotationsFrom | src/main/java/com/sonic/claudeforge/util/CodeAnalyzer.java:59-64 | every collected annotation name is a word |
| CodeAnalyzer.AnnotationFound | src/main/java/com/sonic/claudeforge/util/CodeAnalyzer.java:59-64 | a collected name is the name of an annotation in the text |
| CodeAnalyzer.AnnotationCollected | src/main/java/com/sonic/claudeforge/util/CodeAnalyzer.java:59-64 | every annotation in the text is collected |
| CodeAnalyzer.AnnotationsExact | src/main/java/com/sonic/claudeforge/util/CodeAnalyzer.java:59-64 | a name is in the annotation set exactly when "@" and that word occur in the text |
| CodeAnalyzer.ImportMatch | src/main/java/com/sonic/claudeforge/util/CodeAnalyzer.java:20 | an import match starts with "import" and captures a non-empty run of word characters and dots |
| CodeAnalyzer.NotAtOtherLetter | src/main/java/com/sonic/claudeforge/util/CodeAnalyzer.java:20 | no import match starts at a character other than 'i' |
| CodeAnalyzer.NotAcrossSemicolon | src/main/java/com/sonic/claudeforge/util/CodeAnalyzer.java:20 | no import match starts where a ';' falls inside the keyword |
| CodeAnalyzer.NotBeforeNonSpace | src/main/java/com/sonic/claudeforge/util/CodeAnalyzer.java:20 | an import match needs whitespace after the keyword |
| CodeAnalyzer.MatchesDoNotOverlap | src/main/java/com/sonic/claudeforge/util/CodeAnalyzer.java:66-72 | no import match starts inside another |
| CodeAnalyzer.ImportFound | src/main/java/com/sonic/claudeforge/util/CodeAnalyzer.java:66-72 | a collected name is the name of an import statement in the text |
| CodeAnalyzer.ImportCollected | src/main/java/com/sonic/claudeforge/util/CodeAnalyzer.java:66-72 | every import statement in the text is collected |
| CodeAnalyzer.ImportsExact | src/main/java/com/sonic/claudeforge/util/CodeAnalyzer.java:66-72 | a name is in the import set exactly when an import statement in the text names it |
| CodeAnalyzer.KeywordAt | src/main/java/com/sonic/claudeforge/util/CodeAnalyzer.java:16 | a keyword found is one of "class", "interface", "enum" and occurs there |
| CodeAnalyzer.KeywordStart | src/main/java/com/sonic/claudeforge/util/CodeAnalyzer.java:16 | a keyword starts with "cl", "in" or "e" |
| CodeAnalyzer.DeclarationAt | src/main/java/com/sonic/claudeforge/util/CodeAnalyzer.java:16 | a declaration found is a type keyword, followed by a word as its name |
| CodeAnalyzer.DeclarationStart | src/main/java/com/sonic/claudeforge/util/CodeAnalyzer.java:16 | an optional "public" and whitespace are skipped |
| CodeAnalyzer.ClassMatchAt | src/main/java/com/sonic/claudeforge/util/CodeAnalyzer.java:16 | a declaration at a position is matched there |
| CodeAnalyzer.FindClassFrom | src/main/java/com/sonic/claudeforge/util/CodeAnalyzer.java:29-33 | the scan yields a type keyword and a word as name |
| CodeAnalyzer.ExtractClassInfo | src/main/java/com/sonic/claudeforge/util/CodeAnalyzer.java:25-75 | name and type are both set or both unset; the type is a type keyword; the annotation and import sets are those of the text |
| CodeAnalyzer.NothingInsidePublic | src/main/java/com/sonic/claudeforge/util/CodeAnalyzer.java:16 | no declaration starts inside the skipped "public" prefix |
| CodeAnalyzer.FirstDeclaration | src/main/java/com/sonic/claudeforge/util/CodeAnalyzer.java:29-33 | the scan finds the first declaration at or after its start |
| CodeAnalyzer.NoDeclarationAtEnd | src/main/java/com/sonic/claudeforge/util/CodeAnalyzer.java:16 | no declaration starts at the end of the text |
| CodeAnalyzer.NothingFoundMeansNone | src/main/java/com/sonic/claudeforge/util/CodeAnalyzer.java:29-33 | when the scan finds nothing, no declaration occurs ahead |
| CodeAnalyzer.NoneMeansNothingFound | src/main/java/com/sonic/claudeforge/util/CodeAnalyzer.java:29-33 | when no declaration occurs ahead, the scan finds nothing |
| CodeAnalyzer.ClassInfoIsFirstDeclaration | src/main/java/com/sonic/claudeforge/util/CodeAnalyzer.java:25-33 | no class information exactly when the text declares no type; otherwise that of the first declaration |
| CodeAnalyzer.VerbIndex | src/main/java/com/sonic/claudeforge/util/CodeAnalyzer.java:102 | the position of the verb among the six alternatives |
| CodeAnalyzer.UpperVerb | src/main/java/com/sonic/claudeforge/util/CodeAnalyzer.java:109 | the upper-cased verb is the method name at the verb's position |
| CodeAnalyzer.ToEndpoint | src/main/java/com/sonic/claudeforge/util/CodeAnalyzer.java:107-113 | the method is one of the six verbs, the one matched; path, return type and method name are copied |
| CodeAnalyzer.ExtractEndpoints | src/main/java/com/sonic/claudeforge/util/CodeAnalyzer.java:97-117 | one endpoint per match, in order, each with one of the six verbs |
| CodeAnalyzer.HttpMethodNamesVerb | src/main/java/com/sonic/claudeforge/util/CodeAnalyzer.java:109 | two endpoints have the same method exactly when their annotations have the same verb |

## Left out

- Regular expressions: the scanner is line-oriented. A fence opener is a line whose trimmed text starts with "```" + tag. A header is a line whose trimmed text starts with "//" (or "/*" for stylesheets). Matches that begin in the middle of a line are not found.
- Tier 4 of the HTML extractor only sees doctype fences whose opening line is "```html" alone; a doctype match spanning several fences is not modelled.
- Case mapping is ASCII only; Java's `trim` is modelled exactly (characters up to U+0020), and `\s` as the six regex whitespace characters.
- CssParser.IsValidContent: the `matches` disjunct of the source is left out; every text it accepts contains ':' and is already accepted.
- ReactParser.ExtensionType: the null-extension branch is modelled, although every match of the source carries an extension.
- Exceptions are the `faults` parameter of the manager; the extractors themselves are total.
- Logging, timestamps, `getSummary`, `originalContent`, and `HashMap` iteration order (maps are Dafny maps; key lists are sets).
- `getClass().getSimpleName()` is the constant class name of each extractor.
- The TypeScript extractor is modelled on its own. As in the source, the manager's registry does not include it.
- File I/O: `FileUtils`, `getRelativePath` and `extractProjectName` are not part of this model. The analysis takes the directory tree, the file contents and the existence of the pom and properties files as parameters.
- The texts the Java generator writes (pom body, properties, classes, static assets) are `Template` tokens. Only the dependency list, the directory list, the paths and the main-class name are modelled as data.
- `ReactCodeGeneratorService` is not part of this model. Dispatch records a `WebProject` step with its folder.
- CodeGenerator.GenerateProject: the Java step records only the back-end folder. The generator's own actions are `JavaGenerator.GenerateJavaProject`.
- The parent README of the separated layout is a `ParentReadme` step carrying the database type. Its text is left out; the database instructions it embeds are `DatabaseNotes`.
- DatabaseNotes.DatabaseInstructions: states that each text opens with its database's word. That two databases never share a text is `DatabaseNotes.InstructionsIdentify`.
- `generatedAt` timestamps and all logging are left out.
- CodeAnalyzer.ExtractClassInfo: the method and field lists (`METHOD_PATTERN`, `FIELD_PATTERN`) are left out. Their lazy `.*?` matching is not modelled.
- The mapping patterns of `CodeAnalyzer.extractEndpoints` and `ProjectAnalyzerService.parseApiEndpoints` are not modelled as text. Each match is given as its captured groups (`MappingMatch`).
- ProjectAnalyzer.SortEntries: an insertion sort stands in for `List.sort`. Sortedness and permutation are proved; stability is not.
- ProjectAnalyzer.Listing: states the prefix-and-connector shape of every line, not the exact line count.
- ProjectAnalyzer.CompareIgnoreCase: compares ASCII case-folded characters, not Java's full Unicode `compareToIgnoreCase`.
- PromptGenerator.InSlot: presence is stated section by section, and `SectionTextInPrompt` places each section's text in the prompt. Whether a fixed text could occur inside another section's text is not stated.
- JavaGenerator.Letters / ToPascalCase: letters are classified as ASCII only. Java's `Character.isLetter` also keeps non-ASCII letters, which the model drops.
- TemplateUtils.ProcessGetterSetter: with the marker but no fields, the marker is replaced by nothing. The replacement text could re-form the marker from surrounding characters; `MarkerGone` states only the case where fields are found.
- The `driverClassName` and `urlPrefix` columns of `DatabaseType`, and the `@Pattern` validation of the base package, are not used by the modelled code and are left out.
