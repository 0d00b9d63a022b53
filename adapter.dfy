/** The adapter from the parser's syntax tree to the intermediate
    representation: one `From` conversion per node kind, each a single
    structural traversal. Where the source panics (`unwrap` on an absent
    message value, `unimplemented!` on a node kind it does not cover) the
    conversion returns `Err` instead. */
module Adapter {
  import opened Wrappers
  import opened FluentIR
  import Ast = FluentAst

  /** Why a conversion stopped. */
  datatype ConvertError =
      /** A message without a value (the source's `value.unwrap()`). */
    | MissingValue
      /** An entry kind other than message, section or comment. */
    | UnsupportedEntry(kind: string)
      /** An expression kind other than a message reference. */
    | UnsupportedExpression(kind: string)

  // ---------------------------------------------------------------------
  // Reference definitions: which trees convert, and what the result of a
  // conversion must look like, stated node by node and independently of
  // the conversion functions below.
  // ---------------------------------------------------------------------

  predicate SupportedExpression(a: Ast.Expression)
  {
    a.MessageReference?
  }

  predicate SupportedPattern(p: Ast.Pattern)
  {
    forall i :: 0 <= i < |p.elements| ==>
      p.elements[i].Expression? ==> SupportedExpression(p.elements[i].expression)
  }

  predicate SupportedEntry(a: Ast.Entry)
  {
    match a
    case Message(_, value, _, _, _) => value.Some? && SupportedPattern(value.value)
    case Section(_, _) => true
    case Comment(_) => true
    case OtherEntry(_) => false
  }

  predicate SupportedResource(a: Ast.Resource)
  {
    forall i :: 0 <= i < |a.body| ==> SupportedEntry(a.body[i])
  }

  /** Text is copied verbatim, a message reference keeps its name, and no
      element changes kind. */
  predicate ElementCorresponds(a: Ast.PatternElement, e: PatternElement)
  {
    match a
    case TextElement(t) => e == TextElement(t)
    case Expression(x) =>
      x.MessageReference? && e == Expression(MessageReference(Identifier(x.id.name)))
  }

  /** Same number of elements, each corresponding to the one at its position. */
  predicate PatternCorresponds(a: Ast.Pattern, p: Pattern)
  {
    && |p.elements| == |a.elements|
    && forall i :: 0 <= i < |a.elements| ==> ElementCorresponds(a.elements[i], p.elements[i])
  }

  predicate CommentCorresponds(a: Option<Ast.Comment>, c: Option<FluentIR.Comment>)
  {
    match a
    case None => c.None?
    case Some(ac) => c.Some? && c.value.content == ac.content
  }

  /** A message keeps its name and gets `Some` of its pattern; a section
      keeps its name and comment; a comment keeps its content. Any other
      foreign entry has no counterpart. */
  predicate EntryCorresponds(a: Ast.Entry, e: Entry)
  {
    match a
    case Message(id, value, _, _, _) =>
      && e.Message? && e.id.name == id.name
      && value.Some? && e.value.Some? && PatternCorresponds(value.value, e.value.value)
    case Section(name, comment) =>
      e.Section? && e.name.name == name.name && CommentCorresponds(comment, e.comment)
    case Comment(c) => e.Comment? && e.c.content == c.content
    case OtherEntry(_) => false
  }

  /** Same entries in the same order, and the resource comment carried over. */
  predicate ResourceCorresponds(a: Ast.Resource, r: Resource)
  {
    && |r.body| == |a.body|
    && (forall i :: 0 <= i < |a.body| ==> EntryCorresponds(a.body[i], r.body[i]))
    && CommentCorresponds(a.comment, r.comment)
  }

  // ---------------------------------------------------------------------
  // The conversions.
  // ---------------------------------------------------------------------

  /** The name is copied verbatim. */
  function ConvertIdentifier(i: Ast.Identifier): (r: Identifier)
    ensures r.name == i.name
  {
    Identifier(i.name)
  }

  /** The name is copied verbatim. */
  function ConvertSymbol(s: Ast.Symbol): (r: Symbol)
    ensures r.name == s.name
  {
    Symbol(s.name)
  }

  /** The content is copied verbatim. */
  function ConvertComment(c: Ast.Comment): (r: FluentIR.Comment)
    ensures r.content == c.content
  {
    Comment.Comment(c.content)
  }

  /** `comment.map(|c| Comment::from(c))`. */
  function ConvertOptionalComment(c: Option<Ast.Comment>): (r: Option<FluentIR.Comment>)
    ensures CommentCorresponds(c, r)
  {
    match c
    case None => None
    case Some(ac) => Some(ConvertComment(ac))
  }

  function ConvertExpression(a: Ast.Expression): (r: Result<Expression, ConvertError>)
    ensures r.Ok? <==> SupportedExpression(a)
    ensures r.Ok? ==> r.value.id.name == a.id.name
    ensures r.Err? ==> r.error == UnsupportedExpression(a.kind)
  {
    match a
    case MessageReference(id) => Ok(MessageReference(ConvertIdentifier(id)))
    case OtherExpression(kind) => Err(UnsupportedExpression(kind))
  }

  function ConvertPatternElement(a: Ast.PatternElement): (r: Result<PatternElement, ConvertError>)
    ensures r.Ok? <==> (a.Expression? ==> SupportedExpression(a.expression))
    ensures r.Ok? ==> ElementCorresponds(a, r.value)
  {
    match a
    case TextElement(t) => Ok(TextElement(t))
    case Expression(x) =>
      match ConvertExpression(x)
      case Ok(e) => Ok(Expression(e))
      case Err(err) => Err(err)
  }

  function ConvertPattern(p: Ast.Pattern): (r: Result<Pattern, ConvertError>)
    ensures r.Ok? <==> SupportedPattern(p)
    ensures r.Ok? ==> PatternCorresponds(p, r.value)
    ensures r.Err? ==> r.error.UnsupportedExpression?
  {
    match MapResult(ConvertPatternElement, p.elements)
    case Ok(es) => Ok(Pattern(es))
    case Err(e) => Err(e)
  }

  function ConvertEntry(a: Ast.Entry): (r: Result<Entry, ConvertError>)
    ensures r.Ok? <==> SupportedEntry(a)
    ensures r.Ok? ==> EntryCorresponds(a, r.value)
    ensures a.Message? && a.value.None? ==> r == Err(MissingValue)
    ensures a.OtherEntry? ==> r == Err(UnsupportedEntry(a.kind))
  {
    match a
    case Message(id, value, _, _, _) =>
      if value.None? then Err(MissingValue)
      else
        (match ConvertPattern(value.value)
         case Ok(p) => Ok(Message(ConvertIdentifier(id), Some(p)))
         case Err(e) => Err(e))
    case Section(name, comment) => Ok(Section(ConvertSymbol(name), ConvertOptionalComment(comment)))
    case Comment(c) => Ok(Entry.Comment(ConvertComment(c)))
    case OtherEntry(kind) => Err(UnsupportedEntry(kind))
  }

  /** `Resource::from`: converts the body in order, stopping at the first
      entry that does not convert, then carries the comment over. */
  function ConvertResource(a: Ast.Resource): (r: Result<Resource, ConvertError>)
    ensures r.Ok? <==> SupportedResource(a)
    ensures r.Ok? ==> ResourceCorresponds(a, r.value)
    ensures r.Err? ==>
      exists k :: 0 <= k < |a.body| && ConvertEntry(a.body[k]) == Err(r.error)
        && forall j :: 0 <= j < k ==> SupportedEntry(a.body[j])
  {
    match MapResult(ConvertEntry, a.body)
    case Ok(es) => Ok(Resource(es, ConvertOptionalComment(a.comment)))
    case Err(e) => Err(e)
  }

  // ---------------------------------------------------------------------
  // Properties of the adapter.
  // ---------------------------------------------------------------------

  /** The correspondence relation admits one representation per tree. */
  lemma PatternCorrespondsUnique(a: Ast.Pattern, p: Pattern, q: Pattern)
    requires PatternCorresponds(a, p) && PatternCorresponds(a, q)
    ensures p == q
  {
  }

  lemma {:induction false} EntryCorrespondsUnique(a: Ast.Entry, e: Entry, f: Entry)
    requires EntryCorresponds(a, e) && EntryCorresponds(a, f)
    ensures e == f
  {
    match a
    case Message(_, value, _, _, _) =>
      PatternCorrespondsUnique(value.value, e.value.value, f.value.value);
    case Section(_, _) =>
    case Comment(_) =>
  }

  /** The conversion succeeds with `r` exactly when `r` is the
      representation that corresponds to the tree: the adapter neither
      invents, drops, reorders nor renames anything. */
  lemma {:induction false} ConvertResourceExact(a: Ast.Resource, r: Resource)
    ensures ConvertResource(a) == Ok(r) <==> ResourceCorresponds(a, r)
  {
    if ResourceCorresponds(a, r) {
      assert SupportedResource(a) by {
        forall i | 0 <= i < |a.body| ensures SupportedEntry(a.body[i]) {
          assert EntryCorresponds(a.body[i], r.body[i]);
        }
      }
      var c := ConvertResource(a).value;
      forall i | 0 <= i < |a.body| ensures c.body[i] == r.body[i] {
        EntryCorrespondsUnique(a.body[i], c.body[i], r.body[i]);
      }
      assert c.body == r.body;
    }
  }

  /** A message without a value stops the conversion of the whole resource
      as soon as it is reached: it never becomes a message with no
      pattern, nor an empty one. */
  lemma MissingValueFails(a: Ast.Resource, k: nat)
    requires k < |a.body| && a.body[k].Message? && a.body[k].value.None?
    requires forall j :: 0 <= j < k ==> SupportedEntry(a.body[j])
    ensures ConvertResource(a) == Err(MissingValue)
  {
  }

  /** An entry or expression kind the representation does not cover makes
      the conversion fail; it is never dropped or replaced. */
  lemma UnsupportedKindFails(a: Ast.Resource, k: nat)
    requires k < |a.body|
    requires a.body[k].OtherEntry?
      || (a.body[k].Message? && a.body[k].value.Some?
          && exists i :: 0 <= i < |a.body[k].value.value.elements|
               && a.body[k].value.value.elements[i].Expression?
               && a.body[k].value.value.elements[i].expression.OtherExpression?)
    ensures ConvertResource(a).Err?
  {
  }

  /** Every resource the adapter produces has a value on every message. */
  lemma ConvertedMessagesHaveValues(a: Ast.Resource)
    requires ConvertResource(a).Ok?
    ensures AllMessagesHaveValues(ConvertResource(a).value)
  {
  }

  /** Two foreign entries that differ at most in a message's attributes,
      tags and comment. */
  predicate SameUpToExtras(a: Ast.Entry, b: Ast.Entry)
  {
    a == b || (a.Message? && b.Message? && a.id == b.id && a.value == b.value)
  }

  /** Converting `f` over two sequences whose elements convert alike gives
      the same result, failure included. */
  lemma {:induction false} MapResultAgrees<A, B, E>(f: A -> Result<B, E>, s: seq<A>, t: seq<A>)
    requires |s| == |t| && forall i :: 0 <= i < |s| ==> f(s[i]) == f(t[i])
    ensures MapResult(f, s) == MapResult(f, t)
  {
    if s != [] {
      assert f(s[0]) == f(t[0]);
      MapResultAgrees(f, s[1..], t[1..]);
    }
  }

  /** The attributes, tags and comment of a foreign message do not affect
      the result. */
  lemma ExtrasIgnored(a: Ast.Resource, b: Ast.Resource)
    requires |a.body| == |b.body| && a.comment == b.comment
    requires forall i :: 0 <= i < |a.body| ==> SameUpToExtras(a.body[i], b.body[i])
    ensures ConvertResource(a) == ConvertResource(b)
  {
    forall i | 0 <= i < |a.body| ensures ConvertEntry(a.body[i]) == ConvertEntry(b.body[i]) {
      assert SameUpToExtras(a.body[i], b.body[i]);
    }
    MapResultAgrees(ConvertEntry, a.body, b.body);
  }

  /** `greeting = Hello, { other }!` with `other` a message reference
      converts element by element; the same message with a variable in the
      placeable (an expression kind the representation lacks) does not
      convert at all. */
  lemma GreetingExample()
    ensures
      var text := [Ast.TextElement("Hello, "), Ast.PatternElement.Expression(Ast.MessageReference(Ast.Identifier("other"))),
                   Ast.TextElement("!")];
      var msg := Ast.Message(Ast.Identifier("greeting"), Some(Ast.Pattern(text)), None, None, None);
      ConvertResource(Ast.Resource([msg], None))
        == Ok(Resource([Message(Identifier("greeting"),
                                Some(Pattern([TextElement("Hello, "), Expression(MessageReference(Identifier("other"))),
                                              TextElement("!")])))], None))
    ensures
      var text := [Ast.TextElement("Hello, "), Ast.PatternElement.Expression(Ast.OtherExpression("variable")),
                   Ast.TextElement("!")];
      var msg := Ast.Message(Ast.Identifier("greeting"), Some(Ast.Pattern(text)), None, None, None);
      ConvertResource(Ast.Resource([msg], None)) == Err(UnsupportedExpression("variable"))
  {
    var good := [Ast.TextElement("Hello, "), Ast.PatternElement.Expression(Ast.MessageReference(Ast.Identifier("other"))),
                 Ast.TextElement("!")];
    var converted := Pattern([TextElement("Hello, "), Expression(MessageReference(Identifier("other"))),
                              TextElement("!")]);
    assert PatternCorresponds(Ast.Pattern(good), converted);
    ConvertResourceExact(
      Ast.Resource([Ast.Message(Ast.Identifier("greeting"), Some(Ast.Pattern(good)), None, None, None)], None),
      Resource([Message(Identifier("greeting"), Some(converted))], None));

    var text := [Ast.TextElement("Hello, "), Ast.PatternElement.Expression(Ast.OtherExpression("variable")),
                 Ast.TextElement("!")];
    assert text[1..][0] == text[1];
    assert MapResult(ConvertPatternElement, text) == Err(UnsupportedExpression("variable"));
    var msg := Ast.Message(Ast.Identifier("greeting"), Some(Ast.Pattern(text)), None, None, None);
    assert ConvertEntry(msg) == Err(UnsupportedExpression("variable"));
    assert MapResult(ConvertEntry, [msg]) == Err(UnsupportedExpression("variable"));
  }
}
