# fluent-json: a Dafny model of the intermediate representation and its adapter

This project models `src/lib.rs` of fluent-json. That file defines an intermediate
representation (IR) of a Fluent localization resource:

- a `Resource` holds an ordered body of entries and an optional comment;
- an `Entry` is a message, a section or a standalone comment;
- a message's `Pattern` is a sequence of text elements and message references.

The same file defines two transformations of the IR:

- the `From` conversions that adapt the Fluent parser's syntax tree into the IR;
- the JSON encoding that serde's derived `Serialize`/`Deserialize` give the IR types.

Everything in the core is pure, so the model is made of datatypes, functions and
lemmas. Where the Rust code panics (`value.unwrap()` on a message without a value,
`unimplemented!()` on an entry or expression kind it does not cover), the Dafny
conversion returns `Err`.

Files and modules:

- `wrappers.dfy`, module `Wrappers`: `Option`, `Result`, `Map`, and `MapResult`.
  `MapResult` is `into_iter().map(f).collect()` with a conversion that may fail. The
  leftmost failing element decides the error.
- `fluent_ir.dfy`, module `FluentIR`: the IR types (`src/lib.rs:12-64`).
- `fluent_ast.dfy`, module `FluentAst`: the parser's syntax tree, declared here
  because the `fluent` crate is not part of this model. It holds the fields the
  adapter reads. It also has the message fields the adapter skips with `..`
  (attributes, tags, comment). One catch-all variant, `OtherEntry` or
  `OtherExpression`, stands for every kind the adapter's `_ =>` arms reject.
- `adapter.dfy`, module `Adapter`: the conversions, plus a reference relation
  (`ResourceCorresponds` and the `...Corresponds` predicates under it) that says
  node by node what a correct conversion produces. A `Supported...` predicate says
  which trees convert at all.
- `json.dfy`, module `Json`: an abstract JSON value. Object members keep their
  order and may repeat a key. `Lookup` finds a member.
- `serialize.dfy`, module `Serialize`: encoding and decoding between the IR and
  JSON values, following serde's derived shape:
  - structs become objects;
  - `Entry` is internally tagged with `"type"`;
  - `PatternElement` and `Expression` are externally tagged, as single-member objects;
  - `None` is written as `null`, and a missing optional member also reads as `None`;
  - decoding ignores unknown members and rejects a known member that appears twice.

Facts about the shape of the code that the model keeps:

- `Identifier` and `Symbol` encode as `{"name": ...}` objects (`Serialize.IdentifierIsAnObject`).
- A pattern element is either a text element or one expression.
- Messages carry only an id and an optional value. Attributes, tags and message
  comments are commented out at `src/lib.rs:24-26`.
- Only `Entry` carries a `"type"` discriminant.
- Identifier names, symbol names, comment content and text are copied verbatim
  (`EntryCorresponds`, `ElementCorresponds`).
- Nothing checks that names are non-empty or that message ids are unique.

## Model

| member | source | states |
|---|---|---|
| `Wrappers.MapResult` | src/lib.rs:69-72 | collecting a fallible map succeeds iff every element converts; the result then has the same length and the i-th output is the i-th element's conversion; on failure the error is that of the leftmost failing element, all earlier ones having converted |
| `Adapter.ConvertOptionalComment` | src/lib.rs:73 | `None` maps to `None`, `Some(c)` to a comment with the same content |
| `Adapter.ConvertExpression` | src/lib.rs:125-136 | succeeds exactly on message references, keeping the referenced name; any other expression kind fails with `UnsupportedExpression` |
| `Adapter.ConvertPatternElement` | src/lib.rs:116-123 | succeeds unless the element is an unsupported expression; text is copied verbatim and each element keeps its kind |
| `Adapter.ConvertPattern` | src/lib.rs:105-114 | succeeds exactly when every expression in the pattern is supported; keeps element count and order, element by element; a failure is always an unsupported expression |
| `Adapter.ConvertEntry` | src/lib.rs:78-97 | succeeds exactly on sections, comments and messages that have a supported value; the result corresponds to the input; a message without a value fails with `MissingValue`; any other entry kind fails with `UnsupportedEntry` |
| `Adapter.ConvertResource` | src/lib.rs:66-76 | succeeds iff every entry converts; then the body keeps length and order entry by entry and the comment is carried over; on failure the error is that of the first entry that does not convert |
| `Adapter.ConvertResourceExact` | src/lib.rs:66-147 | conversion yields `r` if and only if `r` corresponds to the tree, so nothing is invented, dropped, reordered or renamed |
| `Adapter.MissingValueFails` | src/lib.rs:81-85 | a message without a value fails the whole resource with `MissingValue` once every earlier entry converts; it never becomes a message with an empty or absent pattern |
| `Adapter.UnsupportedKindFails` | src/lib.rs:78-136 | an entry of another kind, or a message whose pattern holds another expression kind, fails the whole conversion instead of being dropped |
| `Adapter.ConvertedMessagesHaveValues` | src/lib.rs:81-85 | every message in a converted resource has a value |
| `Adapter.ExtrasIgnored` | src/lib.rs:81 | two trees whose messages differ only in attributes, tags and comment convert to the same result, failures included |
| `Adapter.GreetingExample` | src/lib.rs:105-136 | a message `Hello, { other }!` converts to three elements in order; with a variable in the placeable it fails with `UnsupportedExpression` |
| `Serialize.EncodeEntry` | src/lib.rs:18-33 | an encoded entry is an object whose single `"type"` member is the variant's name |
| `Serialize.DecodeEntry` | src/lib.rs:18-33 | a successfully decoded entry comes from an object whose `"type"` member names that entry's variant |
| `Serialize.MissingTagRejected` | src/lib.rs:19 | an entry object without `"type"` fails with a missing-field error |
| `Serialize.UnknownTagRejected` | src/lib.rs:19-33 | an entry object whose `"type"` is not `Message`, `Section` or `Comment` fails with an unknown-variant error |
| `Serialize.IdentifierRoundTrip` | src/lib.rs:51-54 | decoding an encoded identifier gives it back |
| `Serialize.IdentifierIsAnObject` | src/lib.rs:51-54 | an identifier encodes as `{"name": ...}`, and a bare JSON string does not decode as one |
| `Serialize.OptionRoundTrip` | src/lib.rs:23 | an optional field written as `null` or as its value reads back as the same option |
| `Serialize.PatternElementRoundTrip` | src/lib.rs:40-49 | decoding an encoded pattern element gives it back |
| `Serialize.PatternRoundTrip` | src/lib.rs:35-38 | decoding an encoded pattern gives it back, element order included |
| `Serialize.MessageRoundTrip` | src/lib.rs:21-27 | decoding an encoded message gives it back, with or without a value |
| `Serialize.SectionRoundTrip` | src/lib.rs:28-31 | decoding an encoded section gives it back, with or without a comment |
| `Serialize.CommentRoundTrip` | src/lib.rs:32 | decoding an encoded comment entry gives it back |
| `Serialize.EntryRoundTrip` | src/lib.rs:18-33 | decoding an encoded entry gives it back |
| `Serialize.ResourceRoundTrip` | src/lib.rs:12-16 | for every resource, decoding its encoding gives the same resource back, entry order included |
| `Serialize.UnknownFieldIgnored` | src/lib.rs:12-16 | a member under a key other than `body` and `comment`, inserted at any position of a resource object, does not change what the object decodes to |
| `Serialize.MissingFieldRejected` | src/lib.rs:21-32 | an entry object tagged `Message` without `"id"`, `Section` without `"name"` or `Comment` without `"content"` fails with a missing-field error for that field |
| `Serialize.EncodeResource` | src/lib.rs:12-16 | the encoding is an object whose `"body"` array holds one object per entry, in body order, each tagged with its entry's variant, and whose `"comment"` is `null` exactly when there is no comment; `ResourceRoundTrip` states that decoding inverts it |
| `Serialize.DecodeResource` | src/lib.rs:12-16 | a decoded resource comes from an object whose `"body"` array has one element per entry, each decoding to the entry at the same position; the comment is absent exactly when `"comment"` is missing or `null` |
| `Adapter.ConvertIdentifier` | src/lib.rs:99-103 | the identifier's name is copied verbatim; `EntryCorresponds` and `ElementCorresponds` state this for every message id and reference |
| `Adapter.ConvertSymbol` | src/lib.rs:138-142 | the section name is copied verbatim; `EntryCorresponds` states this for every section |
| `Adapter.ConvertComment` | src/lib.rs:143-147 | the comment's content is copied verbatim; `CommentCorresponds` and `EntryCorresponds` state this for resource, section and standalone comments |

## Left out

- `src/main.rs`, the command-line front end, is not part of this model. It covers option parsing, file reading, choosing between the parser and the JSON reader by file name, and printing.
- The Fluent parser and its syntax-tree crate are outside the model. `FluentAst` declares only the shape the adapter reads, with one catch-all variant where the adapter has a wildcard arm.
- `serialize_json` produces JSON text through `to_string_pretty`. The model stops at JSON values and leaves out whitespace, escaping and number formatting. Numbers occur in no encoded document and stay abstract.
- Panics are not modelled as process aborts; each one is an `Err` result of the conversion.
- Serde also accepts a struct written as a JSON array of its fields in order. `Serialize` does not model this and rejects such input.
- `Serialize.DecodeEntry`: when a document has several defects, the error it names may differ from the one serde reports first, because serde's error depends on the order of the members in the text.
- `Adapter.ConvertEntry`: the Rust panics carry only a fixed message; the model returns which kind of failure occurred. The `kind` string carried by `UnsupportedEntry` and `UnsupportedExpression` is the model's own addition. It comes from the `OtherEntry`/`OtherExpression` stand-ins, and nothing in the source reports it.
