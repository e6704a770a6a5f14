/**
  The five extractors behind one interface: their type name, the file suffixes they
  produce, the implementation name the manager reports, the pre-check and extraction.
*/
module Parsers {
  import opened Text
  import opened ParsedFiles
  import JavaParser
  import ReactParser
  import TypeScriptParser
  import CssParser
  import HtmlParser

  datatype Parser = Java | React | TypeScript | Css | Html

  function TypeOf(p: Parser): string {
    match p
    case Java => JavaParser.ParserType
    case React => ReactParser.ParserType
    case TypeScript => TypeScriptParser.ParserType
    case Css => CssParser.ParserType
    case Html => HtmlParser.ParserType
  }

  function ExtensionsOf(p: Parser): seq<string> {
    match p
    case Java => JavaParser.Extensions
    case React => ReactParser.Extensions
    case TypeScript => TypeScriptParser.Extensions
    case Css => CssParser.Extensions
    case Html => HtmlParser.Extensions
  }

  /** The implementation's class name, as the manager reports it. */
  function ClassName(p: Parser): string {
    match p
    case Java => "JavaCodeParser"
    case React => "ReactCodeParser"
    case TypeScript => "TypeScriptCodeParser"
    case Css => "CssCodeParser"
    case Html => "HtmlCodeParser"
  }

  predicate CanHandle(p: Parser, content: string) {
    match p
    case Java => JavaParser.CanHandle(content)
    case React => ReactParser.CanHandle(content)
    case TypeScript => TypeScriptParser.CanHandle(content)
    case Css => CssParser.CanHandle(content)
    case Html => HtmlParser.CanHandle(content)
  }

  function Parse(p: Parser, content: string): seq<ParsedFile> {
    match p
    case Java => JavaParser.Parse(content)
    case React => ReactParser.Parse(content)
    case TypeScript => TypeScriptParser.Parse(content)
    case Css => CssParser.Parse(content)
    case Html => HtmlParser.Parse(content)
  }

  /** No two extractors share a type name, not even up to case. */
  lemma TypesDistinct(p: Parser, q: Parser)
    requires p != q
    ensures !EqualsIgnoreCase(TypeOf(p), TypeOf(q))
  {
    if {p, q} == {Java, Html} {
      assert ToLower(TypeOf(p))[0] != ToLower(TypeOf(q))[0];
    }
  }
}
