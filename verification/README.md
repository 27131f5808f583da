# Verification of the RIDL v2 runtime and contract validator

RIDL describes an RPC service in a route map: types, and operations with their
paths, bodies, transports and delivery. A validator checks the map, emitters
generate clients and schemas from it, and small runtimes in several languages
move the calls. This project models the parts of that system whose guarantees
span several functions, and proves them for all inputs, all runs or all
interleavings:

- **Frames** (`Utf8`, `Json`, `JsonParser`, `JsonRoundTrip`, `JsonText`, `JsonNumbers`,
  `JsonGrammar`, `JsonAccepted`, `JsonDenotes`, `MetaOrder`, `NameOrder`, `Frames`,
  `FrameRules`, `FrameMeaning`, `FrameWriter`, `FrameCodec`, `TcpStream`,
  `StreamMeaning`): the canonical JSON envelope, the grammar of JSON and its
  parser, and the length-prefixed byte stream.
- **Exchanges** (`StreamClient`, `StreamInterleavings`, `OpenOnce`,
  `UnaryAnswer`): the stream client, concurrent `Next` and `Cancel`, builders
  that open once with ids from a shared counter, the unary reducer.
- **Queued delivery** (`Percent`, `PercentText`, `PathTemplates`, `TemplatePieces`, `PathRoundTrip`, `MintedIds`, `Routes`,
  `Naming`, `EmittedNames`, `Delivery`, `OptoSyncTransport`, `QueuedBodies`,
  `EnumSpelling`, `ClientBodies`, `EnumExample`, `QueuedCalls`, `QueuedExamples`,
  `MintedCalls`): from the validator's rules to what the queueing transport does
  with a call.
- **Types** (`Types`, `TypeRules`, `Graph`, `Acyclic`, `Conformance`,
  `Inhabited`, `Schemas`, `SchemaProjection`, `SchemaLimits`, `OperationDocs`,
  `OrderedTypes`): cycle detection, what a type means, and the projection to
  JSON Schema.
- **Selection** (`Transports`, `CallFrames`, `CallEnvelope`, `Targets`, `TargetPaths`) and **checkers**
  (`ModelChecker`, `ManifestDiff`).

`Basics` holds shared vocabulary. `dafny verify dfyconfig.toml` checks
everything.

## How the source is read

Text is a sequence of Unicode scalar values, bytes are numbers below 256, and
error messages are error kinds. Where code updates state in place the model is
a class or a loop with invariants, tied to a function about which the lemmas
are stated. What the outside world answers (session reads, queue, readback,
wire readiness) is a script or a parameter.

Functions that do the work are described a second time without them: `JsonGrammar`
says which texts are JSON and what they mean, `FrameMeaning` which payloads are
frames, `StreamMeaning` what a buffer holds, `TemplatePieces`, `TargetPaths`,
`PercentText` and `FrameRules` the like, and a lemma equates the two.

A minted id does not mark where the path ends and the body begins. That concerns
hand-made requests only: `BoundaryIsNotMarked` says which of them share an id for
that reason, and `MaterialIsPathAndBody` that no two emitted calls of a route do.

Where the ports or their comments disagree, the model follows the code named in
the table:

- `ridl/framing.py` writes `meta` in insertion order, the Rust and Go runtimes
  sort it by name. The model sorts, so round trips are up to that order.
- A JSON parser has a nesting limit and no printer checks it, so a deep body
  can be encoded and then not decoded. The limit is a parameter and the round
  trip states exactly when it holds.
- `runtime/README.md` says a unary answer is one data frame then end;
  `unary_answer` accepts them in either order, and more than one end.
- The Go stream client marks itself done when an item fails to decode; the Rust
  one does not. `StreamClient` is the Go one.
- A comment in `ordered_types` says validation removed all cycles; recursion
  through list, map and option remains, and is what `DeclaredBeforeUse` excludes.
- `regex.match` with `$` accepts a final newline in names; the model does too.

What the proofs found to be false, each with its exact condition:

- `Next` and `Cancel` leave a stream both ended and cancelled under some answers
  exactly if a `Next` overlaps another call (`BothIffNextOverlaps`,
  `OverlapSetsBoth`).
- The session confirms two cancellations under some answers exactly if two calls
  of `Cancel` overlap (`ConfirmedTwiceIffCancelsOverlap`, `OverlapConfirmsTwice`).
- A validated queued route may still refuse calls (`QueuedIffReady`,
  `ValidatedButRefused`). Which request fields are safe depends on the client: a
  Rust client always writes a field with a default, a TypeScript client may not.
- The validator accepts templates that no emitted builder compiles
  (`LegalTemplateIsPlain`, `SlashedExample`), on some of which it reads other
  names than the builders do (`ReadersAgreeIffUnnested`, `NestedExample`).
- An accepted alias may have a schema that never finishes evaluating
  (`EvaluationEndsIffGuarded`, `AcceptedButStuck`).
- A Rust client may send enum values its own schema refuses: exactly if an
  underscore of a variant is not followed by a letter, or a newline ends it
  (`WrittenConformsIff`, `StepIsRefused`).
- `Next` may read a stream that is done, exactly if another call finishes between
  its check and its session call (`LateReadIffOvertaking`, `OvertakenReadsLate`).
- Per-type schema files carry no definitions (`PerTypeFileSelfContained`).

## Model

| member | source | states |
|---|---|---|
| `Json.QuotedReadsBack` | runtime/rust/transports.rs:321-337 | A quoted string is self-delimiting: parsing it with any text after it gives the string back and leaves exactly that text, for both escape tables the runtimes use |
| `JsonText.SpellingRead` | runtime/rust/opto_sync.rs:283-293 | Every spelling RFC 8259 gives a character (itself, a short escape, four digits of either case, a surrogate pair above U+FFFF) is read as that character, whatever follows |
| `JsonText.LoneSurrogateFails` | runtime/rust/opto_sync.rs:283-293 | An escaped surrogate without its other half is refused |
| `JsonText.WritesShortest` | runtime/rust/transports.rs:321-337 | What is written for a character is its shortest spelling, digits in lower case; the hand-written quoting alone writes backspace and form feed by number |
| `JsonNumbers.NumberIffText` | runtime/rust/frame.rs:329-345 | The number tokens accepted are exactly those of the grammar |
| `JsonDenotes.ParseIffDenotes` | runtime/rust/frame.rs:329-345 | For every text: the parser returns a value if and only if the text is written by the JSON grammar, white space, every escape and repeated names included, for a tree no deeper than the limit that has this value |
| `JsonGrammar.CollectMeans` | runtime/rust/opto_sync.rs:283-293 | In an object each name keeps the place of its first member and the value of its last |
| `JsonRoundTrip.PrintParses` | runtime/rust/frame.rs:228-305 | Printing any value and parsing it in front of any text that cannot continue a number returns the value and the text, if and only if the value nests no deeper than the parser allows |
| `JsonRoundTrip.ParsePrint` | runtime/rust/frame.rs:329-345 | The same for a whole document |
| `Utf8.DecodeEncode` | runtime/rust/frame.rs:329-345 | UTF-8 decoding inverts encoding for every text |
| `Utf8.EncodeDecode` | runtime/rust/frame.rs:329-345 | Bytes that decode are the encoding of what they decode to |
| `MetaOrder.SortCanonical` | runtime/rust/frame.rs:285-303 | Sorting `meta` by name depends on its contents alone, is idempotent, and keeps names distinct |
| `NameOrder.NameLessIffBefore` | runtime/rust/frame.rs:285-303 | Comparing names by their UTF-8 bytes is comparing them by code points, for all names |
| `NameOrder.SortAscends` | runtime/rust/frame.rs:285-303 | Sorting rearranges the entries so that names ascend by code points |
| `Frames.CheckIffValid` | runtime/rust/frame.rs:173-226 | `validate` passes exactly the frames the protocol allows: version, id length, addressing only on calls, a body on data, a code only on errors, no repeated meta name |
| `FrameRules.ReportedIffFirst` | runtime/rust/frame.rs:173-226 | An error is reported if and only if its rule, stated on its own, is broken and no rule that stands before it is; a repeated meta name is the first to repeat |
| `Frames.Validate` | runtime/rust/frame.rs:173-226 | The loop over meta names and the checks before it report what `ReportedIffFirst` describes, and nothing exactly on valid frames |
| `FrameWriter.WriteJson` | runtime/rust/frame.rs:228-305 | Pushing the members into one buffer, in the normative order and leaving absent ones out, produces the compact print of the envelope |
| `FrameWriter.EncodeFrame` | runtime/rust/frame.rs:307-319 | Encoding validates first, then refuses a payload over the limit; the bytes are the canonical ones |
| `FrameCodec.DecodeEncode` | runtime/rust/frame.rs:307-415 | Decoding an encoded frame gives it back with `meta` in name order if its body nests less deeply than the parser allows, and an error otherwise |
| `FrameCodec.AbsentAndNullBodiesDiffer` | runtime/rust/frame.rs:228-305 | An absent body and a null body never have the same bytes |
| `FrameCodec.EqualBytesIffSame` | runtime/rust/frame.rs:228-319 | Two encodable frames have equal bytes if and only if they agree up to the order of `meta` |
| `FrameCodec.DecodedIsCanonical` | runtime/rust/frame.rs:329-415 | Whatever decodes is a valid frame with `meta` already in canonical order |
| `FrameMeaning.DecodeIff` | runtime/rust/frame.rs:329-415 | For every payload and frame: decoding gives the frame if and only if the payload is within the limit and is the UTF-8 of a JSON object whose members say exactly the frame's fields, with meta entries in any order and no other member, and the frame keeps the rules |
| `TcpStream.DecodeStream` | runtime/rust/frame.rs:441-463 | The offset loop returns the frames and the consumed count that the recursive reading of the buffer defines, or its first error |
| `StreamMeaning.PullIffReads` | runtime/rust/frame.rs:441-463 | For every buffer: the result is frames and a remainder if and only if the buffer is complete payloads of these frames behind big-endian lengths and then an incomplete one; it is an error if and only if after such payloads a length is over the limit or a payload is refused |
| `TcpStream.ChunkingDoesNotMatter` | runtime/go/frame.go:350-370 | Feeding any split of a byte stream piece by piece, carrying the remainder, gives the same frames, remainder or first error as reading it whole |
| `TcpStream.TailIsBounded` | runtime/rust/frame.rs:441-463 | The remainder is a suffix of the buffer and always shorter than a prefix plus the largest frame |
| `TcpStream.EncodeTcpFrame` | runtime/rust/frame.rs:321-327 | The result is the encoded frame behind a four-byte big-endian length that reads back as its length |
| `TcpStream.StreamRoundTrip` | runtime/go/frame.go:252-370 | Reading concatenated encoded frames and the beginning of one more returns exactly those frames in canonical form and exactly that beginning |
| `TcpStream.SplitLengthPrefixed` | clients/go/framing.go:55-70 | The splitter returns what the stream reader returns when payloads are kept as they are |
| `TcpStream.SplitIsLossless` | clients/go/framing.go:55-70 | Payloads put back behind their prefixes, followed by the tail, are the buffer |
| `TcpStream.DecodingRefinesSplitting` | runtime/go/frame.go:350-370 | Decoding a stream is splitting it and decoding the payloads in order; it fails only where a split payload fails or splitting does |
| `StreamClient.RpcStreamClient.Next` | runtime/go/stream.go:88-152 | New state and result are those of the event read, as `ReadMeans` states them; once done, nothing is read and nothing changes |
| `StreamClient.ReadMeans` | runtime/go/stream.go:88-152 | For any state and each kind of event, which flags and error it leaves and what the caller gets |
| `StreamClient.RpcStreamClient.Cancel` | runtime/go/stream.go:75-86 | A refused cancellation records and returns the session's error and leaves the flags alone, a confirmed one sets cancelled and done; after either flag the session is not asked again |
| `StreamClient.PumpReads` | runtime/go/stream.go:88-152 | Without cancellation no event past the first that carries no item is read, and that event alone decides the final state |
| `StreamClient.PumpIsAFold` | runtime/go/stream.go:88-152 | Successive results are the decoded own-id data bodies in order, then one terminal result, then nothing |
| `StreamClient.Collect` | runtime/go/stream.go:88-152 | Calling `Next` on a fresh client any number of times gives the results, state and reads that the two rows above describe |
| `StreamInterleavings.WholeCall` | runtime/go/stream.go:75-152 | A call whose three moments nothing comes between leaves the state its method leaves and reads the session exactly if the method does |
| `StreamInterleavings.EveryInterleaving` | runtime/go/stream.go:75-152 | For any threads and any interleaving of checks, session calls and returns: either flag implies done, all three are permanent, and once done only a `Next` that had already made its check can still read |
| `StreamInterleavings.LateReadIffOvertaking` | runtime/go/stream.go:88-93 | Some session answers make a read begin on a stream that is done if and only if, in the schedule, a call finishes while a `Next` is between its check and its session call |
| `StreamInterleavings.OvertakenReadsLate` | runtime/go/stream.go:75-93 | Such a run: a `Cancel` completes between the check of a `Next` and its session call |
| `StreamInterleavings.ConfirmedOnce` | runtime/go/stream.go:75-86 | If no two calls of `Cancel` overlap, the session's cancellation succeeds at most once in every run, however many calls of `Next` overlap them or each other |
| `StreamInterleavings.ConfirmedTwiceIffCancelsOverlap` | runtime/go/stream.go:75-86 | Some session answers make a schedule of beginnings and ends confirm two cancellations if and only if two calls of `Cancel` overlap in it |
| `StreamInterleavings.OverlapConfirmsTwice` | runtime/go/stream.go:75-86 | The shortest such run: both ask the session before either has its answer |
| `StreamInterleavings.NeverBoth` | runtime/go/stream.go:75-152 | If no `Next` overlaps another call, no run leaves the stream both ended and cancelled, even when calls of `Cancel` overlap |
| `StreamInterleavings.BothIffNextOverlaps` | runtime/go/stream.go:75-152 | Some session answers make a schedule leave the stream both ended and cancelled if and only if a `Next` overlaps another call in it, be it a `Next` or a `Cancel` |
| `StreamInterleavings.OverlapSetsBoth` | runtime/go/stream.go:75-152 | Such a run: a pending `Next` receives the end frame after a concurrent `Cancel` completed |
| `OpenOnce.Correlator.Take` | runtime/go/frame.go:372-382 | One 64-bit wrapping increment; the id is the prefix and the new value in decimal |
| `OpenOnce.CheckedCorrelator.TryTake` | runtime/rust/frame.rs:466-491 | The Rust counter never wraps: it refuses when exhausted and leaves its state alone |
| `OpenOnce.CallBuilder.Stream` | runtime/go/stream.go:178-206 | Opens at most once; a second call or an unframed carrier takes no id and opens nothing, but the carrier check comes after the flag is flipped |
| `OpenOnce.UninterruptedStream` | runtime/go/stream.go:178-206 | A call's atomic steps taken in a row do what the method does, for an opened builder, a wrong carrier and a successful opening alike |
| `OpenOnce.RunHolds` | runtime/go/stream.go:178-206 | What every run keeps: a builder is held by one thread or logged once, turns are handed out once, values are turns modulo 2^64 |
| `OpenOnce.OpenedAtMostOnce` | runtime/go/stream.go:178-206 | For any number of threads and any interleaving `Open` is called at most once a builder |
| `OpenOnce.IdsRepeatOnlyByWrapping` | runtime/go/frame.go:379-382 | Two `Open` calls share an id if and only if their turns are congruent modulo 2^64 |
| `OpenOnce.IdsAreDistinct` | runtime/go/frame.go:379-382 | Up to 2^64 takes all ids passed to `Open` are pairwise different |
| `UnaryAnswer.Reduce` | runtime/rust/transport.rs:432-482 | The loop with early returns computes the answer or the first error, which `AnsweredIff` and `FailureIs` describe |
| `UnaryAnswer.AnsweredIff` | runtime/rust/transport.rs:432-482 | Success if and only if every frame is an own-id data or end frame, exactly one is data and has a body, and at least one is an end, in any order; the result is that body |
| `UnaryAnswer.FailureIs` | runtime/rust/transport.rs:432-482 | Every failure, on the frames alone: the first frame that is neither an own-id end nor the first own-id data frame with a body decides which one, with code and message of an error frame; without one, no data frame means no response and no end frame a missing end |
| `UnaryAnswer.FailedPrefixDecides` | runtime/rust/transport.rs:432-482 | Once a frame fails, no later frame changes the result |
| `UnaryAnswer.StreamAgrees` | runtime/rust/transport.rs:99-165 | The frames a drained stream client consumed answer a unary call if and only if it got one item and then the end, and the answer is that item |
| `Percent.EncodeSegmentLoop` | ridl/emit/rust.py:274-286 | The byte loop computes the encoding that `SegmentIsEncoded` and `EveryByteEncoded` describe |
| `PercentText.SegmentIsEncoded` | ridl/emit/rust.py:274-286 | Encoded text consists of ASCII letters, digits, `-`, `.`, `_`, `~` and percent triples with upper-case digits; text of kept characters alone is its own encoding |
| `PercentText.EveryByteEncoded` | ridl/emit/rust.py:274-286 | Wherever a byte stands among others, it is written as itself if kept and otherwise as the triple of its value |
| `PercentText.PercentDecodeIff` | runtime/rust/opto_sync.rs:251-281 | Decoding gives a value if and only if the text, read as plain bytes and percent triples of either case, represents the value's UTF-8 |
| `Percent.PercentDecodeLoop` | runtime/rust/opto_sync.rs:251-268 | The byte loop equals the recursive decoder, including its failures |
| `Percent.SegmentReadsBack` | runtime/rust/opto_sync.rs:251-281 | Decoding an encoded segment gives the text back, and an encoded segment holds no slash |
| `PathTemplates.PathSegments` | ridl/emit/base.py:181-206 | The scanner with its buffer produces the pieces of the template |
| `TemplatePieces.PiecesIffSpelled` | ridl/emit/base.py:181-206 | The pieces of any template are the one list that spells it: literal text is never empty or split, a placeholder ends at the first closing brace, and no opening brace in literal text is ever closed |
| `PathTemplates.BuildPath` | ridl/emit/rust.py:341-359 | The emitted builder concatenates literals and encoded values |
| `PathTemplates.FindSegment` | runtime/rust/opto_sync.rs:236-246 | The lockstep walk of template and path |
| `PathRoundTrip.SplitSubst` | ridl/emit/rust.py:341-359 | Splitting the built path at slashes gives the template's segments, cut at the slashes outside its placeholders, each filled in |
| `PathRoundTrip.LookupOnBuiltPath` | runtime/rust/opto_sync.rs:236-246 | For every template and all values, which template segment's text the lookup returns on the built path, and when it returns nothing |
| `PathRoundTrip.RecordIdSurvives` | runtime/rust/opto_sync.rs:236-268 | With an aligned placeholder, build, find and decode returns exactly the parameter value, whatever characters it has |
| `PathRoundTrip.RecoveredIffAligned` | runtime/rust/opto_sync.rs:236-268 | For every template: the value comes back for all parameter values if and only if the placeholder fills a whole segment and a plain split of the template finds it at the same position as in the path |
| `PathRoundTrip.WholeSegmentIsAligned` | runtime/rust/opto_sync.rs:233-246 | Where no placeholder holds a slash, filling a whole segment is all that takes |
| `PathRoundTrip.SlashFreeFindsOrFails` | runtime/rust/opto_sync.rs:233-246 | On such templates the lookup finds the placeholder's own segment or nothing, never another one |
| `MintedIds.StepIsBijective` | runtime/rust/opto_sync.rs:295-315 | Each FNV-1a/64 step is a bijection of the 64-bit state for a fixed byte, with the inverse prime |
| `MintedIds.NearMissesSeparate` | runtime/rust/opto_sync.rs:295-315 | Byte strings of equal length that differ in exactly one byte never hash alike |
| `MintedIds.HexSeparates` | runtime/rust/opto_sync.rs:314-315 | The fixed-width hex form of different words differs |
| `MintedIds.HexReadsBack` | runtime/rust/opto_sync.rs:314-315 | Reading the digits, most significant first, gives the number back |
| `MintedIds.KnownHashes` | runtime/rust/opto_sync.rs:295-315 | The hash of the empty string and of the letter a are the published FNV-1a/64 values |
| `MintedIds.MintIdLoop` | runtime/rust/opto_sync.rs:302-315 | The loop over key, path and body bytes writes the key, a dash and sixteen digits that read as the hash |
| `MintedIds.NearMissIdsDiffer` | runtime/rust/opto_sync.rs:295-315 | So two requests whose material differs in one byte at equal length get different record ids |
| `MintedIds.BoundaryIsNotMarked` | runtime/rust/opto_sync.rs:302-315 | For any two requests of one operation: their material is the same if and only if path and body text run together to the same text, and then their ids are the same |
| `MintedCalls.MaterialIsPathAndBody` | ridl/emit/rust.py:341-359 | For emitted calls of one queued route, whatever the parameter values: the material is the same if and only if path and body are |
| `Routes.ValidatePathParams` | ridl/validate.py:326-363 | Each complaint about a path template is made exactly when it is due |
| `Routes.AcceptedNames` | ridl/validate.py:326-344 | On an accepted route the declared parameters are exactly the template's placeholders, each once, without braces |
| `Routes.ReadersAgreeIffUnnested` | ridl/model.py:550-557 | The validator's regular expression and the builders' scanner see the same placeholders if and only if no brace opens inside one |
| `EmittedNames.LegalTemplateIsPlain` | ridl/emit/rust.py:290-359 | If every name the emitted builder uses is an identifier, no placeholder holds a slash or a brace, validator and builder read the same names, and a parameter is aligned exactly if it fills a whole segment |
| `EmittedNames.SlashedNameAccepted` | ridl/validate.py:326-363 | The validator accepts every template /{p/q} with a parameter of that name, although the emitted argument is no identifier |
| `EmittedNames.NestedNameAccepted` | ridl/validate.py:326-363 | The validator accepts every template /{a{b}} with the parameter b, on which validator and builder read different names |
| `EmittedNames.NestedExample` | ridl/emit/base.py:181-206 | The template `/{a{b}}` itself, with what either reader sees |
| `EmittedNames.SlashedExample` | ridl/naming.py:83-124 | The template `/{p/q}` itself |
| `Delivery.ValidateDelivery` | ridl/validate.py:465-534 | Each complaint about a route's delivery is made exactly when it is due |
| `Delivery.SourceSpelled` | ridl/validate.py:537-558 | Which settings name a minted id, a path parameter, a request field or no scope, as they are spelled |
| `Delivery.TableSpelled` | ridl/validate.py:505-507 | A table name is a word of at most 63 letters, digits and underscores that no digit begins, possibly with a newline behind it |
| `OptoSyncTransport.Transport.Call` | runtime/rust/opto_sync.rs:185-229 | From the request itself: without queued delivery and a block, one online call, an untouched queue and its answer or error; otherwise no online call, and a refusal that touches nothing or one queue operation followed by the local readback; a failed queue leaves the log alone |
| `OptoSyncTransport.ResolveRecordId` | runtime/rust/opto_sync.rs:144-178 | The id or refusal for each source, as `RecordIdMeans` states it |
| `OptoSyncTransport.RecordIdMeans` | runtime/rust/opto_sync.rs:144-178 | For every request: the path value is the text the placeholder's segment represents, the field value the string the body's object has there by the JSON grammar, and which of the missing parts each refusal names |
| `OptoSyncTransport.PlanMeans` | runtime/rust/opto_sync.rs:185-222 | For every queued request: refused with the record id's refusal, a deletion, or an upsert of the body if that is a JSON object and otherwise refused |
| `QueuedBodies.PromiseKept` | ridl/emit/json_schema.py:125-140 | A field that is always sent and always a string is a string member of every conforming body |
| `QueuedBodies.PromiseBroken` | ridl/emit/json_schema.py:125-140 | For any other field some conforming body, no deeper than a given one, lacks it or has another kind of value there |
| `EnumSpelling.SpelledIffComesBack` | ridl/emit/rust.py:150-156 | An accepted enum variant comes back unchanged from its Rust name and the renaming of it if and only if every underscore is followed by a letter and no newline ends it |
| `EnumSpelling.SpellsIffAllComeBack` | ridl/emit/rust.py:150-156 | An enum whose Rust variants have different names writes only declared values if and only if each variant comes back unchanged |
| `EnumExample.StepIsRefused` | ridl/validate.py:160-174 | The enum with the variant step_1 is accepted, and what the Rust client sends for it is no value of its type |
| `ClientBodies.WrittenConforms` | ridl/emit/rust.py:122-156 | Where every enum value is written as a declared one, what a Rust client writes, defaults included and unset options left out at every level, is a value of the declared type |
| `ClientBodies.WrittenConformsIff` | ridl/emit/rust.py:122-156 | For tables whose Rust enums compile: everything the Rust client writes with objects for `Json` has its declared type if and only if every enum variant comes back unchanged |
| `QueuedCalls.ReadyIsQueued` | ridl/validate.py:465-558 | A validated ready route turns every call the client can make into exactly one queue operation of the declared kind, for the intended record, with a payload iff it is an upsert |
| `QueuedCalls.UnreadyGoesWrong` | runtime/rust/opto_sync.rs:144-178 | A validated route that is not ready treats some call the client can make differently: with a field source one body is refused whatever the path values, with a path source and a builder that compiles every call is |
| `QueuedCalls.UnalignedRefusesAll` | runtime/rust/opto_sync.rs:144-178 | Where the emitted builder compiles, a path source whose placeholder is not a whole segment refuses every call |
| `QueuedCalls.QueuedIffReady` | ridl/validate.py:537-558 | For Rust clients and TypeScript clients, for a route whose builder compiles and whatever path values its parameter types allow: every call the client can make is queued as meant if and only if the id is minted, the parameter is aligned with a whole segment, or the field is string-valued and always written by that client |
| `QueuedCalls.AnyTextQueuedIffReady` | ridl/validate.py:537-558 | The same for every validated template when any text is a path value |
| `QueuedExamples.ValidatedButRefused` | ridl/validate.py:326-558 | A concrete accepted route, DELETE /v1/x-{id} with source path.id, compiles and refuses every call |
| `TypeRules.ValidateRefs` | ridl/validate.py:177-185 | No complaint if and only if every name is known and no option wraps an option |
| `TypeRules.ValidateTypes` | ridl/validate.py:118-174 | No complaint if and only if every definition keeps its rules and the required references have no cycle |
| `TypeRules.AcceptedIsInhabited` | ridl/validate.py:118-138 | Every type of an accepted table has a value |
| `Graph.WellFoundedIffAcyclic` | ridl/validate.py:188-229 | On a finite graph every node is grounded if and only if there is no cycle |
| `Acyclic.Colouring.Visit` | ridl/validate.py:212-225 | The three-colour visit keeps grey nodes on the stack, never fails to find one there, terminates, records only real cycles, and grounds what it blackens while there is none |
| `Acyclic.ValidateAcyclic` | ridl/validate.py:188-229 | No error if and only if the required references are well founded; every error is a cycle of them |
| `Inhabited.AcyclicIffInhabited` | ridl/validate.py:188-229 | The cycle check passes if and only if every declared type has a finite value |
| `SchemaProjection.RecordSchema` | ridl/emit/json_schema.py:125-143 | Filling `properties` and `required` in one loop gives the closed object of the fields |
| `SchemaProjection.ProjectionMeans` | ridl/emit/json_schema.py:125-174 | At every value and set of followed references, schema evaluation ends and decides membership |
| `SchemaProjection.SchemaMeansType` | ridl/emit/json_schema.py:125-174 | For a validated table where no alias reaches itself through aliases and options, a value is accepted by the emitted schema if and only if it belongs to the type, and evaluation always ends |
| `SchemaLimits.CycleStuck` | ridl/emit/json_schema.py:151-174 | On a cycle of aliases and options evaluation never ends, whatever the value |
| `SchemaLimits.EvaluationEndsIffGuarded` | ridl/emit/json_schema.py:151-174 | Evaluation ends on every value if and only if there is no such cycle |
| `SchemaLimits.AcceptedButStuck` | ridl/validate.py:118-229 | All type rules accept a table with an alias for an option of itself, which has a value but whose schema cannot be evaluated |
| `SchemaLimits.RefsResolveWithDefs` | ridl/emit/json_schema.py:30-102 | Every reference in the definitions, and in every operation document beside them, is a key of `$defs` |
| `SchemaLimits.PerTypeFileSelfContained` | ridl/emit/json_schema.py:46-60 | A per-type file, which has no `$defs`, refers to exactly the names its alias target or fields mention |
| `OperationDocs.EmitOperation` | ridl/emit/json_schema.py:61-102 | The document's properties and required list are those of the parts the route has |
| `OperationDocs.ParamsMean` | ridl/emit/json_schema.py:105-118 | A parameter object is accepted if and only if it holds declared parameters of their types, the required ones present whether or not they have defaults |
| `OperationDocs.OperationDocMeans` | ridl/emit/json_schema.py:61-102 | An operation document accepts exactly the request surfaces its route declares, body, query and headers required or not by the route's own fields, and evaluating it always ends |
| `OrderedTypes.Ordering.Visit` | ridl/emit/base.py:139-148 | The visit terminates on any table, whatever is on the stack, and appends the recursive post-order of what was not seen |
| `OrderedTypes.OrderTypes` | ridl/emit/base.py:118-150 | Every declared type is listed exactly once, in the depth-first post-order from the table's first name to its last |
| `OrderedTypes.DeclaredBeforeUse` | ridl/emit/base.py:118-150 | If a mentions b and b cannot reach a, b comes first |
| `OrderedTypes.TopologicalWhenAcyclic` | ridl/emit/base.py:118-150 | Without any recursion the list is a topological order |
| `Transports.MultiTransport.Prefer` | runtime/rust/transports.rs:203-212 | The given order, then every other registered kind once, where it is first registered; every wire's kind is covered |
| `Transports.MultiTransport.Call` | runtime/rust/transports.rs:229-269 | One send, on the first registered wire of the first preferred declared kind whose first wire is ready, after exactly the fallback reports for the unready ones before it; otherwise no send; `NoneAvailable` iff no declared kind has its first wire ready; the answer or wire error is the reply of the wire sent on, and there is one only after a send |
| `Transports.RoutedSends` | runtime/rust/transports.rs:247-261 | At most one send, and the outcome is an answer or a wire failure exactly if the wire sent on replied so |
| `Transports.ChoiceIffAvailable` | runtime/rust/transports.rs:229-269 | With a covering preference a usable kind is found if and only if some declared kind's first wire is ready |
| `Transports.FallbacksAreUnready` | runtime/rust/transports.rs:240-244 | Every reported fallback is a declared, registered kind whose first wire was not ready |
| `CallFrames.Quote` | runtime/rust/transports.rs:321-337 | The hand-written quoting loop produces the quoted string |
| `CallFrames.WriteJson` | runtime/rust/transports.rs:307-319 | Reading the written envelope member by member gives back version, request id, key, method and path, with the body text behind them |
| `CallFrames.ToJsonReadsBack` | runtime/rust/transports.rs:307-319 | Request id, key, method and path are read back from the envelope whatever characters they hold and whatever the body text is |
| `CallFrames.ToJsonDetermines` | runtime/rust/transports.rs:307-319 | Equal envelopes come from frames equal in every field, except that an absent body and the text `null` are written alike |
| `CallEnvelope.EnvelopeDenotes` | runtime/rust/transports.rs:307-337 | For every frame whose body text is JSON within the depth: parsing the envelope gives an object with exactly the seven members, the type being call, every field as it was and the body's value |
| `CallEnvelope.MissingBodyIsNull` | runtime/rust/transports.rs:307-319 | Without a body the member body is null |
| `Targets.RootsAccepted` | scripts/ores_rpc_config.py:267-273 | The nested loop accepts if and only if overlaps are allowed or no two configured roots overlap |
| `Targets.ResolvePath` | scripts/ores_rpc_config.py:302-311 | The owner if there is exactly one, else not-found or ambiguous |
| `Targets.NormalisedGoesDown` | scripts/ores_rpc_config.py:55-68 | A normalised path is the root itself or consists of proper names only, never of empty, `.` or `..` parts |
| `TargetPaths.NormalisedIs` | scripts/ores_rpc_config.py:55-68 | A path is accepted if and only if it is relative, at most 255 characters and never steps up; its names are then its segments without the empty ones and the dots |
| `TargetPaths.OwnsIffNamesBegin` | scripts/ores_rpc_config.py:302-311 | A root owns a path if and only if the path begins with the root's names |
| `TargetPaths.OverlapIffNamesBegin` | scripts/ores_rpc_config.py:104-107 | Two roots overlap if and only if the names of one begin with those of the other |
| `Targets.ResolvesToOwner` | scripts/ores_rpc_config.py:302-311 | A path resolves to a target if and only if that is its only owner, and is not found if and only if it has none |
| `Targets.AtMostOneOwner` | scripts/ores_rpc_config.py:104-107 | With disjoint roots a path has at most one owner |
| `Targets.AcceptedIsUnambiguous` | scripts/ores_rpc_config.py:267-311 | A configuration accepted with overlaps disallowed never finds a path ambiguous |
| `Targets.AmbiguousIffCrossOverlap` | scripts/ores_rpc_config.py:267-311 | Some path is ambiguous if and only if roots of two different targets overlap |
| `ModelChecker.Next` | conformance/formal_model.rs:28-39 | The candidates are exactly the successors of the state |
| `ModelChecker.Explore` | conformance/formal_model.rs:41-57 | The worklist terminates with exactly the reachable states, all satisfying the invariant; the original's assertions hold at every step |
| `ModelChecker.ReadmissionIsIdempotent` | conformance/formal_model.rs:20-26 | An admitted operation can be admitted again with its own digest alone, and nothing changes |
| `ModelChecker.ReachableIffTotal` | conformance/formal_model.rs:41-57 | The reachable states are exactly the partial maps from operations to digests |
| `ModelChecker.RunsKeepDigests` | conformance/formal_model.rs:20-39 | No run ever changes an admitted digest |
| `ManifestDiff.Comparison.Walk` | scripts/compare-authority-artifacts.py:14-55 | The walk records exactly the real differences, each under its path and kind, and keeps those recorded before |
| `ManifestDiff.EqualIffNoDifference` | scripts/compare-authority-artifacts.py:14-55 | There is no difference if and only if the trees are equal, exact types included |
| `ManifestDiff.CompareManifests` | scripts/compare-authority-artifacts.py:58-94 | Continue if and only if both headers are good and the artifacts are equal |

## Left out

- FrameCodec.DecodeEncode: numbers are kept as tokens, so re-formatting of floats and range errors of the JSON library are not modelled.
- JsonDenotes.ParseIffDenotes: likewise, a number too large for a double is accepted as its token.
- FrameMeaning.DecodeIff: likewise.
- QueuedCalls.QueuedIffReady: needs one allowed body, within the parser's nesting limit, and one choice of path values to exist; without them there is no call to speak of.
- QueuedCalls.ReadyIsQueued: a request body is any value the client's types allow, with Rust's spelling of enums and any value for `Json`; member order, number ranges, `undefined` in TypeScript and the transport of clients other than Rust are not modelled.
- QueuedCalls.AnyTextQueuedIffReady: on templates whose builder does not compile its failing call may have a path value that the parameter's type excludes; `QueuedIffReady` has no such gap.
- EmittedNames.LegalTemplateIsPlain: identifiers are judged by their ASCII characters, and letters outside ASCII keep their case.
- StreamInterleavings.EveryInterleaving: what a call does after its session call returned is one step, and torn reads of the flags under Go's memory model are not modelled.
- Transports.MultiTransport.Call: a wire's readiness is fixed while one call is routed, although a preference may name a kind twice.
- Routes.ValidatePathParams: says which complaints are made, not their order or how often one is repeated.
- Delivery.ValidateDelivery: likewise.
- TypeRules.ValidateTypes: says when there is no complaint; which complaint is made for a bad definition is left out.
- ManifestDiff.Comparison.Walk: records path and kind of a difference; the two values shown beside them and the order of the list are left out.
- SchemaProjection.SchemaMeansType: named formats and integrality of numbers are given by the schema library; titles and descriptions are ignored.
- MintedIds.NearMissesSeparate: collisions of inputs that differ in more than one byte or in length exist and are not described.
- Resolving a target by its name or the configured default: a single lookup.
- Query and header parameter rules, body and HTTP-method rules, transports, Connect and uniqueness checks of the validator: independent single conditions.
- Sockets, HTTP, Axum handlers, telemetry sinks, files, git and the GitHub API.
- The other language emitters and the text of generated code; only the emitted path builder and segment encoder are modelled.
- Catch-all `{*rest}` parameters: the lookup matches only `{name}`, so a route that takes its record id from one is not ready.
- The queue's internals: a log of accepted mutations stands for it.
- Version 1 call and receipt validation, `rust/src/fs_discovery.rs`, `catalog.rs` and `binding.rs`.
