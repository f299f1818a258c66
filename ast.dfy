/** The parsed presentation tree shared by the parser and the layouts: inlines, blocks, list items. */
module Ast {
  import opened Wrappers

  /** Inline formatting; `Code` holds its text verbatim. */
  datatype Inline =
    | Text(s: string)
    | Bold(children: seq<Inline>)
    | Italic(children: seq<Inline>)
    | Strikethrough(children: seq<Inline>)
    | Code(s: string)
    | Link(text: seq<Inline>, url: string)

  /** How a list item takes part in incremental reveal. */
  datatype ListMarker = Static | NextStep | WithPrev | Ordered

  datatype ListItem = ListItem(marker: ListMarker, inlines: seq<Inline>, children: seq<ListItem>)

  /** The `@name: value` metadata attached to a slide. */
  datatype Directive = Directive(name: string, value: string)

  /** Directives found in an image's alt text. */
  datatype ImageDirectives = ImageDirectives(
    fill: bool,
    fit: bool,
    align: Option<string>,
    width: Option<string>,
    height: Option<string>)

  const NoImageDirectives := ImageDirectives(false, false, None, None, None)

  datatype Block =
    | Heading(level: nat, inlines: seq<Inline>)
    | Paragraph(inlines: seq<Inline>)
    | List(ordered: bool, items: seq<ListItem>)
    | CodeBlock(language: Option<string>, code: string, highlightLines: seq<nat>)
    | Diagram(content: string)
    | Image(alt: string, path: string, directives: ImageDirectives)
    | BlockQuote(inlines: seq<Inline>)
    | Table(headers: seq<seq<Inline>>, rows: seq<seq<seq<Inline>>>)
    | HorizontalRule
    | ColumnSeparator
}
