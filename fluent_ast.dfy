/** The syntax tree the Fluent parser produces, as far as the adapter reads
    it. The parser's own tree is not part of this model; this module declares
    the shape the adapter relies on, plus one catch-all variant where the
    adapter matches with a wildcard, standing for every kind of node the
    representation does not cover. */
module FluentAst {
  import opened Wrappers

  datatype Identifier = Identifier(name: string)

  datatype Symbol = Symbol(name: string)

  datatype Comment = Comment(content: string)

  datatype Expression =
    | MessageReference(id: Identifier)
      /** Any other expression kind the grammar has (literals, variables,
          calls, selectors, ...), named by `kind`. */
    | OtherExpression(kind: string)

  datatype PatternElement =
    | TextElement(text: string)
    | Expression(expression: Expression)

  datatype Pattern = Pattern(elements: seq<PatternElement>)

  /** A message attribute; read by the parser, ignored by the adapter. */
  datatype Attribute = Attribute(id: Identifier, value: Pattern)

  /** A message tag; read by the parser, ignored by the adapter. */
  datatype Tag = Tag(name: Symbol)

  datatype Entry =
      /** The parser may leave `value` out (a message made only of attributes). */
    | Message(id: Identifier, value: Option<Pattern>,
              attributes: Option<seq<Attribute>>, tags: Option<seq<Tag>>,
              comment: Option<Comment>)
    | Section(name: Symbol, comment: Option<Comment>)
    | Comment(c: Comment)
      /** Any other entry kind the parser emits (junk, for one), named by `kind`. */
    | OtherEntry(kind: string)

  datatype Resource = Resource(body: seq<Entry>, comment: Option<Comment>)
}
