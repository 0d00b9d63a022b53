/** The intermediate representation of a Fluent resource: the plain data
    types the adapter produces and the JSON encoding reads and writes.
    Every value is an immutable tree; nothing points back to its parent. */
module FluentIR {
  import opened Wrappers

  /** A message name, the key other messages refer to. Uniqueness within a
      resource is not a property of the representation. */
  datatype Identifier = Identifier(name: string)

  /** A section name; kept apart from Identifier although both wrap a string. */
  datatype Symbol = Symbol(name: string)

  datatype Comment = Comment(content: string)

  /** The only expression this version of the representation knows. */
  datatype Expression = MessageReference(id: Identifier)

  datatype PatternElement =
    | TextElement(value: string)
    | Expression(expression: Expression)

  /** The translatable value of a message, in source order. */
  datatype Pattern = Pattern(elements: seq<PatternElement>)

  datatype Entry =
    | Message(id: Identifier, value: Option<Pattern>)
    | Section(name: Symbol, comment: Option<Comment>)
    | Comment(c: Comment)

  /** The root: the entries in source order and the resource's own comment. */
  datatype Resource = Resource(body: seq<Entry>, comment: Option<Comment>)

  /** Every message in the resource carries a value. The representation
      allows a message without one; the adapter never builds it. */
  predicate AllMessagesHaveValues(r: Resource)
  {
    forall i :: 0 <= i < |r.body| ==> r.body[i].Message? ==> r.body[i].value.Some?
  }
}
