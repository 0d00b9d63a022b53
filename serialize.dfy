/** The JSON encoding of the representation that serde's derived
    `Serialize` and `Deserialize` fix, at the level of JSON values.
    - Structs (Resource, Pattern, Identifier, Symbol, Comment) are objects
      with one member per field; Identifier and Symbol are `{"name": ..}`.
    - Entry is internally tagged: its variant name sits in a `"type"`
      member beside the variant's own fields; the `Comment` variant wraps a
      Comment struct, whose `"content"` member sits beside the tag.
    - PatternElement and Expression are externally tagged: an object with
      a single member whose key is the variant name.
    - `None` is written as `null`; when reading, a missing optional member
      also means `None`.
    - Reading ignores members under keys the type does not have and rejects
      a key of the type that appears twice. */
module Serialize {
  import opened Wrappers
  import opened Json
  import opened FluentIR

  datatype DecodeError =
      /** A value of the wrong JSON type, e.g. a string where an object is expected. */
    | InvalidType(expected: string)
    | MissingField(field: string)
    | DuplicateField(field: string)
    | UnknownVariant(variant: string)

  // ---------------------------------------------------------------------
  // Encoding.
  // ---------------------------------------------------------------------

  function EncodeIdentifier(i: Identifier): Json
  {
    JObject([("name", JString(i.name))])
  }

  function EncodeSymbol(s: Symbol): Json
  {
    JObject([("name", JString(s.name))])
  }

  function EncodeComment(c: FluentIR.Comment): Json
  {
    JObject([("content", JString(c.content))])
  }

  function EncodeOption<T>(enc: T -> Json, o: Option<T>): Json
  {
    match o
    case None => JNull
    case Some(v) => enc(v)
  }

  function EncodeExpression(e: Expression): Json
  {
    match e
    case MessageReference(id) => JObject([("MessageReference", JObject([("id", EncodeIdentifier(id))]))])
  }

  function EncodePatternElement(e: PatternElement): Json
  {
    match e
    case TextElement(v) => JObject([("TextElement", JObject([("value", JString(v))]))])
    case Expression(x) => JObject([("Expression", EncodeExpression(x))])
  }

  function EncodePattern(p: Pattern): Json
  {
    JObject([("elements", JArray(Map(EncodePatternElement, p.elements)))])
  }

  /** The `"type"` tag that names an entry's variant. */
  function TypeTag(e: Entry): string
  {
    match e
    case Message(_, _) => "Message"
    case Section(_, _) => "Section"
    case Comment(_) => "Comment"
  }

  /** An object whose `"type"` member is the variant's name, once. */
  function EncodeEntry(e: Entry): (j: Json)
    ensures j.JObject? && Lookup(j.members, "type") == Found(JString(TypeTag(e)))
  {
    match e
    case Message(id, value) =>
      JObject([("type", JString("Message")), ("id", EncodeIdentifier(id)),
               ("value", EncodeOption(EncodePattern, value))])
    case Section(name, comment) =>
      JObject([("type", JString("Section")), ("name", EncodeSymbol(name)),
               ("comment", EncodeOption(EncodeComment, comment))])
    case Comment(c) =>
      JObject([("type", JString("Comment")), ("content", JString(c.content))])
  }

  /** An object with one `"body"` member, an array holding one object per
      entry in body order, each tagged with its entry's variant, and one
      `"comment"` member that is `null` exactly when there is no comment. */
  function EncodeResource(r: Resource): (j: Json)
    ensures j.JObject? && Lookup(j.members, "body").Found? && Lookup(j.members, "body").value.JArray?
    ensures var items := Lookup(j.members, "body").value.items;
      && |items| == |r.body|
      && forall i :: 0 <= i < |r.body| ==>
           items[i].JObject? && Lookup(items[i].members, "type") == Found(JString(TypeTag(r.body[i])))
    ensures Lookup(j.members, "comment").Found?
    ensures Lookup(j.members, "comment") == Found(JNull) <==> r.comment.None?
  {
    JObject([("body", JArray(Map(EncodeEntry, r.body))),
             ("comment", EncodeOption(EncodeComment, r.comment))])
  }

  // ---------------------------------------------------------------------
  // Decoding.
  // ---------------------------------------------------------------------

  function AsObject(j: Json, what: string): Result<seq<(string, Json)>, DecodeError>
  {
    if j.JObject? then Ok(j.members) else Err(InvalidType(what))
  }

  function AsString(j: Json): Result<string, DecodeError>
  {
    if j.JString? then Ok(j.s) else Err(InvalidType("string"))
  }

  function AsArray(j: Json): Result<seq<Json>, DecodeError>
  {
    if j.JArray? then Ok(j.items) else Err(InvalidType("sequence"))
  }

  /** A member the type requires. */
  function Required(members: seq<(string, Json)>, key: string): Result<Json, DecodeError>
  {
    match Lookup(members, key)
    case Absent => Err(MissingField(key))
    case Duplicate => Err(DuplicateField(key))
    case Found(v) => Ok(v)
  }

  /** A member of `Option` type: missing and `null` both read as `None`. */
  function DecodeOption<T>(dec: Json -> Result<T, DecodeError>, members: seq<(string, Json)>, key: string)
    : Result<Option<T>, DecodeError>
  {
    match Lookup(members, key)
    case Absent => Ok(None)
    case Duplicate => Err(DuplicateField(key))
    case Found(v) =>
      if v.JNull? then Ok(None)
      else
        var x :- dec(v);
        Ok(Some(x))
  }

  /** The single member of an externally tagged enum value. */
  function VariantOf(j: Json, what: string): Result<(string, Json), DecodeError>
  {
    if j.JObject? && |j.members| == 1 then Ok(j.members[0]) else Err(InvalidType(what))
  }

  function DecodeIdentifier(j: Json): Result<Identifier, DecodeError>
  {
    var m :- AsObject(j, "struct Identifier");
    var n :- Required(m, "name");
    var name :- AsString(n);
    Ok(Identifier(name))
  }

  function DecodeSymbol(j: Json): Result<Symbol, DecodeError>
  {
    var m :- AsObject(j, "struct Symbol");
    var n :- Required(m, "name");
    var name :- AsString(n);
    Ok(Symbol(name))
  }

  function DecodeCommentFields(m: seq<(string, Json)>): Result<FluentIR.Comment, DecodeError>
  {
    var c :- Required(m, "content");
    var content :- AsString(c);
    Ok(Comment.Comment(content))
  }

  function DecodeComment(j: Json): Result<FluentIR.Comment, DecodeError>
  {
    var m :- AsObject(j, "struct Comment");
    DecodeCommentFields(m)
  }

  function DecodeExpression(j: Json): Result<Expression, DecodeError>
  {
    var (tag, body) :- VariantOf(j, "enum Expression");
    if tag == "MessageReference" then
      var m :- AsObject(body, "struct variant Expression::MessageReference");
      var i :- Required(m, "id");
      var id :- DecodeIdentifier(i);
      Ok(MessageReference(id))
    else Err(UnknownVariant(tag))
  }

  function DecodePatternElement(j: Json): Result<PatternElement, DecodeError>
  {
    var (tag, body) :- VariantOf(j, "enum PatternElement");
    if tag == "TextElement" then
      var m :- AsObject(body, "struct variant PatternElement::TextElement");
      var v :- Required(m, "value");
      var value :- AsString(v);
      Ok(TextElement(value))
    else if tag == "Expression" then
      var x :- DecodeExpression(body);
      Ok(Expression(x))
    else Err(UnknownVariant(tag))
  }

  function DecodePattern(j: Json): Result<Pattern, DecodeError>
  {
    var m :- AsObject(j, "struct Pattern");
    var es :- Required(m, "elements");
    var items :- AsArray(es);
    var elements :- MapResult(DecodePatternElement, items);
    Ok(Pattern(elements))
  }

  /** Reads the `"type"` tag, then the fields of the variant it names.
      A decoded entry always comes from an object tagged with its own
      variant's name. */
  function DecodeEntry(j: Json): (r: Result<Entry, DecodeError>)
    ensures r.Ok? ==> j.JObject? && Lookup(j.members, "type") == Found(JString(TypeTag(r.value)))
  {
    var m :- AsObject(j, "internally tagged enum Entry");
    match Lookup(m, "type")
    case Absent => Err(MissingField("type"))
    case Duplicate => Err(DuplicateField("type"))
    case Found(t) =>
      if !t.JString? then Err(InvalidType("variant identifier"))
      else if t.s == "Message" then
        var i :- Required(m, "id");
        var id :- DecodeIdentifier(i);
        var value :- DecodeOption(DecodePattern, m, "value");
        Ok(Message(id, value))
      else if t.s == "Section" then
        var n :- Required(m, "name");
        var name :- DecodeSymbol(n);
        var comment :- DecodeOption(DecodeComment, m, "comment");
        Ok(Section(name, comment))
      else if t.s == "Comment" then
        var c :- DecodeCommentFields(m);
        Ok(Entry.Comment(c))
      else Err(UnknownVariant(t.s))
  }

  /** A decoded resource comes from an object whose single `"body"` member
      is an array of as many entries, decoded one by one in order; it has
      no comment exactly when `"comment"` is missing or `null`. */
  function DecodeResource(j: Json): (r: Result<Resource, DecodeError>)
    ensures r.Ok? ==>
      && j.JObject? && Lookup(j.members, "body").Found? && Lookup(j.members, "body").value.JArray?
      && var items := Lookup(j.members, "body").value.items;
         && |items| == |r.value.body|
         && forall i :: 0 <= i < |items| ==> DecodeEntry(items[i]) == Ok(r.value.body[i])
    ensures r.Ok? ==>
      (r.value.comment.None? <==>
         Lookup(j.members, "comment").Absent? || Lookup(j.members, "comment") == Found(JNull))
  {
    var m :- AsObject(j, "struct Resource");
    var b :- Required(m, "body");
    var items :- AsArray(b);
    var body :- MapResult(DecodeEntry, items);
    var comment :- DecodeOption(DecodeComment, m, "comment");
    Ok(Resource(body, comment))
  }

  // ---------------------------------------------------------------------
  // Properties of the encoding.
  // ---------------------------------------------------------------------

  /** An entry object without a `"type"` member does not decode. */
  lemma MissingTagRejected(j: Json)
    requires j.JObject? && forall i :: 0 <= i < |j.members| ==> j.members[i].0 != "type"
    ensures DecodeEntry(j) == Err(MissingField("type"))
  {
  }

  /** An entry object whose `"type"` names no variant does not decode; it
      is never read as some default variant. */
  lemma UnknownTagRejected(j: Json, tag: string)
    requires j.JObject? && Lookup(j.members, "type") == Found(JString(tag))
    requires tag != "Message" && tag != "Section" && tag != "Comment"
    ensures DecodeEntry(j) == Err(UnknownVariant(tag))
  {
  }

  /** An entry object whose `"type"` names a variant but that lacks a
      field the variant requires does not decode. */
  lemma MissingFieldRejected(j: Json, tag: string, field: string)
    requires j.JObject? && Lookup(j.members, "type") == Found(JString(tag))
    requires (tag == "Message" && field == "id") || (tag == "Section" && field == "name")
      || (tag == "Comment" && field == "content")
    requires Lookup(j.members, field).Absent?
    ensures DecodeEntry(j) == Err(MissingField(field))
  {
  }

  lemma IdentifierRoundTrip(i: Identifier)
    ensures DecodeIdentifier(EncodeIdentifier(i)) == Ok(i)
  {
  }

  lemma PatternElementRoundTrip(e: PatternElement)
    ensures DecodePatternElement(EncodePatternElement(e)) == Ok(e)
  {
  }

  lemma {:induction false} PatternRoundTrip(p: Pattern)
    ensures DecodePattern(EncodePattern(p)) == Ok(p)
  {
    forall i | 0 <= i < |p.elements|
      ensures DecodePatternElement(EncodePatternElement(p.elements[i])) == Ok(p.elements[i])
    {
      PatternElementRoundTrip(p.elements[i]);
    }
    MapResultInverts(EncodePatternElement, DecodePatternElement, p.elements);
  }

  /** A member present once under `key` is what `Required` reads. */
  lemma RequiredFound(m: seq<(string, Json)>, key: string, k: nat)
    requires k < |m| && m[k].0 == key
    requires forall i :: 0 <= i < |m| && i != k ==> m[i].0 != key
    ensures Required(m, key) == Ok(m[k].1)
  {
    LookupUnique(m, key, k);
  }

  /** An optional member written by `EncodeOption` reads back as the option. */
  lemma {:induction false} OptionRoundTrip<T>(enc: T -> Json, dec: Json -> Result<T, DecodeError>,
                                              o: Option<T>, m: seq<(string, Json)>, key: string, k: nat)
    requires k < |m| && m[k] == (key, EncodeOption(enc, o))
    requires forall i :: 0 <= i < |m| && i != k ==> m[i].0 != key
    requires o.Some? ==> !enc(o.value).JNull? && dec(enc(o.value)) == Ok(o.value)
    ensures DecodeOption(dec, m, key) == Ok(o)
  {
    LookupUnique(m, key, k);
  }

  lemma {:induction false} MessageRoundTrip(id: Identifier, value: Option<Pattern>)
    ensures DecodeEntry(EncodeEntry(Message(id, value))) == Ok(Message(id, value))
  {
    var m := EncodeEntry(Message(id, value)).members;
    RequiredFound(m, "id", 1);
    IdentifierRoundTrip(id);
    if value.Some? {
      PatternRoundTrip(value.value);
    }
    OptionRoundTrip(EncodePattern, DecodePattern, value, m, "value", 2);
  }

  lemma {:induction false} SectionRoundTrip(name: Symbol, comment: Option<FluentIR.Comment>)
    ensures DecodeEntry(EncodeEntry(Section(name, comment))) == Ok(Section(name, comment))
  {
    var m := EncodeEntry(Section(name, comment)).members;
    RequiredFound(m, "name", 1);
    OptionRoundTrip(EncodeComment, DecodeComment, comment, m, "comment", 2);
  }

  lemma {:induction false} CommentRoundTrip(c: FluentIR.Comment)
    ensures DecodeEntry(EncodeEntry(Entry.Comment(c))) == Ok(Entry.Comment(c))
  {
    var m := EncodeEntry(Entry.Comment(c)).members;
    RequiredFound(m, "content", 1);
  }

  lemma {:induction false} EntryRoundTrip(e: Entry)
    ensures DecodeEntry(EncodeEntry(e)) == Ok(e)
  {
    match e
    case Message(id, value) => MessageRoundTrip(id, value);
    case Section(name, comment) => SectionRoundTrip(name, comment);
    case Comment(c) => CommentRoundTrip(c);
  }

  /** Decoding inverts encoding on every resource, including entry order
      and messages without a value. */
  lemma {:induction false} ResourceRoundTrip(r: Resource)
    ensures DecodeResource(EncodeResource(r)) == Ok(r)
  {
    var m := EncodeResource(r).members;
    RequiredFound(m, "body", 0);
    OptionRoundTrip(EncodeComment, DecodeComment, r.comment, m, "comment", 1);
    forall i | 0 <= i < |r.body|
      ensures DecodeEntry(EncodeEntry(r.body[i])) == Ok(r.body[i])
    {
      EntryRoundTrip(r.body[i]);
    }
    MapResultInverts(EncodeEntry, DecodeEntry, r.body);
  }

  /** A member under a key the resource does not have changes nothing,
      wherever it stands among the others. */
  lemma UnknownFieldIgnored(m: seq<(string, Json)>, at: nat, key: string, v: Json)
    requires at <= |m| && key != "body" && key != "comment"
    ensures DecodeResource(JObject(m[..at] + [(key, v)] + m[at..])) == DecodeResource(JObject(m))
  {
    LookupIgnoresInserted(m, at, "body", key, v);
    LookupIgnoresInserted(m, at, "comment", key, v);
  }

  /** Identifiers are objects with a `"name"` member, not bare strings. */
  lemma IdentifierIsAnObject(name: string)
    ensures EncodeIdentifier(Identifier(name)) == JObject([("name", JString(name))])
    ensures DecodeIdentifier(JString(name)).Err?
  {
  }
}
