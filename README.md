# MOON load and dump, modelled in Dafny

This project models the core of `moon`, a Python library for the MOON notation.
A MOON document is a sequence of blocks:

```
@object server
    host: example.org
    port: 8080
```

Each block is a tag word (`@object`), an identifier, and indented `key: value` lines.
Loading text runs four stages: tokenizer, event parser, AST composer and constructor.
Dumping a dict runs three: representer, serializer and event emitter.
Every stage drives the same one-item-lookahead cursor, `StatefulStreamer`.
Tag hooks (`ObjectHook` under `@object`) do the per-construct work, and type hooks plus a built-in table turn scalar texts into values and back.

The modules follow the source files:

| module | file | source |
|---|---|---|
| `Cursor` | cursor.dfy | `StatefulStreamer`: a class over a `seq<T>` with `pulled`, `current` and `lookahead` fields |
| `Errors` | errors.dfy | the exception hierarchy, with a subclass predicate `IsA` |
| `Schemas` | schemas.dfy | tokens, events, nodes, Python values |
| `Strings` | strings.dfy | the Python string operations the core relies on |
| `Tokenizer`, `TokenFacts` | tokenizer.dfy, tokenfacts.dfy | the tokenizer as a class with the `pos`, `line` and `column` counters, its specification, and its properties |
| `TagHooks` | taghooks.dfy | the tag and type tables, filled by validating registration |
| `TypeHooks` | typehooks.dfy | the ordered type-hook list and the built-in scalar codec |
| `ObjectHook` | objecthook.dfy | `ObjectHook.parse/compose/construct/represent/serialize/emit` and `_parse_pair_hook` |
| `Parser`, `ParseFacts` | parser.dfy, parsefacts.dfy | `EventParser`, and what it makes of emitted text |
| `Composer`, `Constructor` | composer.dfy, constructor.dfy | `ASTComposer` and `construct` |
| `Representer`, `Serializer`, `Emitter` | representer.dfy, serializer.dfy, emitter.dfy | the dump stages |
| `TextLexing` | textlexing.dfy | the tokens of emitted text |
| `Pipeline` | pipeline.dfy | `load` and `dump` from text and to text, and the round trip |

Each cursor-driven loop is a `method` with a `while` loop over a `Cursor.Streamer`.
Each is proved equal to an index-based function: `Tokenizer.Lex`, `Parser.Parse`, `ObjectHook.HookLoop`, `Composer.Nodes`, `Emitter.Chunks` and the others.
The properties are then proved about those functions.

A Python generator can yield items and then raise.
A stage's output is therefore modelled as the items it yielded plus how it stopped:
- `Run(items, end)` says where the cursor stopped, or gives the error;
- `Stream(items, failure)` is what the next stage pulls.

The next stage consumes those items before it meets the error.
Python exceptions that escape the core are `ErrorKind` variants: `PyAttributeError`, `PyTypeError`, `PyRuntimeError` and `PyNotImplementedError`.
A `StopIteration` raised inside a generator becomes `RuntimeError`, as PEP 479 requires.

The main theorem is `Pipeline.LoadAfterDump`.
It holds for a non-empty document whose names and keys are single words that are not registered tags, and whose values have a text that reads back as the same value.
For such a document, dump succeeds and load of its text returns the document.
`Pipeline.LoadAfterDumpDefault` states the same under the tables that `import moon` sets up.

### Where the code and the description of MOON differ

The model follows the code in each case below.
- **Block comments.** The MOON description says a `/* ... */` comment runs through its closing marker. In the code the comment token stops at the `*` (moon/core/tokenizer.py:100-101). The closing `/` then starts a word token, so a block comment leaves a stray word behind.
- **Line counter.** The tokenizer advances the line counter only on newline tokens. A block comment that spans lines therefore leaves `line` unchanged.
- **Emptiness check and BOM.** The empty-input check runs before the BOM is removed. A lone BOM passes it, and its token stream is just an eof token at pos 2, column 2 (`TokenFacts.NormalizeBomOnly`).
- **Unknown tags.** The description says an unknown tag fails with a parser error during parsing. The parser does raise ParserError, but only after yielding `tag_start`. Under `load` the composer pulls that `tag_start` first and raises UnknownEvent (`Pipeline.LoadUnknownTag`, `Pipeline.UnknownTagExample`).
- **Partial output.** The description says no stage produces partial output. Every stage is a generator, so later stages see the items yielded before an error.
- **Unrepresentable values.** The description lists an unrepresentable value type as a representer error. A top-level value with no registered representer raises AttributeError instead (`None.represent`). A field value with no text raises TypeError from `represent_type`.
- **Emitter start check.** `ObjectHook.emit` raises EmitterError only when the first event is neither a `tag_start` nor carries the hook's tag (moon/hooks/tags/object.py:210 uses `and`). The emitter never calls it on anything but a `tag_start`.

## Model

| member | source | states |
|---|---|---|
| Cursor.Streamer.constructor | moon/core/base.py:13-23 | a new cursor has pulled nothing and has neither a current item nor a lookahead |
| Cursor.Streamer.Next | moon/core/base.py:25-31 | returns the next unconsumed source item (the cached lookahead if a peek pulled it), makes it current and clears the lookahead; on an exhausted source returns nothing (StopIteration) and changes nothing |
| Cursor.Streamer.Read | moon/core/base.py:33-36 | returns the current item and changes nothing; with no current item it takes the lookahead, which stays cached, or pulls the next item |
| Cursor.Streamer.Peek | moon/core/base.py:38-44 | returns the item after the consumed ones without consuming it, or None at the end; a repeated peek changes nothing |
| Cursor.PeekTwice | moon/core/base.py:38-44 | two peeks return the same item and pull at most one item, exactly one when the source is non-empty |
| Cursor.NextAfterPeek | moon/core/base.py:25-44 | `next` after a `peek` returns the peeked item |
| Cursor.PeekReadNext | moon/core/base.py:26-36 | on a fresh cursor, peek then read then next all return the first item: read leaves the lookahead cached |
| Cursor.ReadIsStable | moon/core/base.py:33-36 | after `next`, repeated reads return what `next` returned |
| Cursor.DrainWithPeeks | moon/core/base.py:25-44 | calling `next` until the end, with peeks anywhere between, returns the source in order with nothing skipped or repeated |
| Errors.IsATransitive | moon/schemas/errors.py:7-118 | a subclass of a subclass is a subclass |
| Errors.IsAAntisymmetric | moon/schemas/errors.py:7-118 | two different error kinds are never subclasses of each other |
| Errors.MoonErrorsAreRooted | moon/schemas/errors.py:7-118 | every kind derives from the base MOON error, except the Python built-in exceptions that escape the core |
| Errors.ParserErrorFamily | moon/schemas/errors.py:37-53 | UnexpectedToken and UnexpectedEOF are ParserErrors, and UnexpectedToken is not an ASTError |
| Errors.ASTErrorFamily | moon/schemas/errors.py:55-71 | UnexpectedEvent and UnknownEvent are ASTErrors |
| Errors.ConstructorErrorFamily | moon/schemas/errors.py:73-95 | UnexpectedNode, UnknownNode and DuplicateIdentifierNode are ConstructorErrors |
| Errors.RepresenterErrorFamily | moon/schemas/errors.py:97-107 | InvalidObjectError is a RepresenterError and AttributeError is not |
| Strings.LStrip | moon/core/tokenizer.py:16 | the result is a suffix of the input that does not start with whitespace, and everything removed is whitespace |
| Strings.RStrip | moon/hooks/tags/object.py:79 | the result is a prefix of the input that does not end with whitespace, and everything removed is whitespace |
| Strings.StripOfTrimmedAfterSpace | moon/hooks/tags/object.py:74-79 | a value text with nothing to strip comes back unchanged from stripping the text after the colon |
| Strings.ReplaceCr | moon/core/tokenizer.py:25 | every carriage return becomes a newline and every other character is kept in place |
| Strings.ReplaceCrLfJoin | moon/core/tokenizer.py:25 | replacing CRLF by LF in text without other carriage returns turns the one CRLF into LF |
| Strings.NatToString | moon/hooks/types/hook.py:70-71 | `str(n)` is a digit string with no leading zero except for 0 itself |
| Strings.ParseNatToString | moon/hooks/types/hook.py:50-71 | `int(str(n)) == n` for every natural number |
| Strings.DigitsAreFloatLiterals | moon/hooks/types/hook.py:50-53 | every digit string is also a float literal, which is why the digit test comes first |
| Strings.NegativeIntIsFloatLiteral | moon/hooks/types/hook.py:50-71 | the text of a negative integer is a float literal and not a digit string |
| Strings.FloatLiteralStrip | moon/hooks/types/hook.py:30-36 | `float` ignores whitespace at both ends: a text is a float literal exactly when its strip is a signed decimal literal or a signed "inf", "infinity" or "nan" |
| Strings.SpecialFloatLiterals | moon/hooks/types/hook.py:30-36 | "inf", "nan" and "-Infinity" are float literals, and so is "1_000", which is not a digit string; "1__000" and "1_" are not |
| Tokenizer.Normalize | moon/core/tokenizer.py:14-27 | fails with TokenizerError exactly when the text is blank after left-stripping; otherwise the result has no carriage return |
| Tokenizer.SpecialKind | moon/core/tokenizer.py:35-43 | the seven special characters map to kinds other than eof, word and comment |
| Tokenizer.WordEndMaximal | moon/core/tokenizer.py:107-116 | a word has no special character after its first and ends just before a special character or at the end of the text |
| Tokenizer.CommentEndFirstStop | moon/core/tokenizer.py:91-105 | a comment ends at its first stop: before a newline for `//`, on a `*` followed by `/` for `/*`; with no stop it runs to the end |
| Tokenizer.ScanWellShaped | moon/core/tokenizer.py:67-116 | every token found is well formed: a word is maximal and special-free, a comment opens with `//` or `/*` and ends at its first stop, a special is one character of its kind; a dropped comment never finds its stop |
| Tokenizer.StepSpecial | moon/core/tokenizer.py:72-77 | a special character is a one-character token of its kind at the current counters; a newline moves to the next line and resets the column |
| Tokenizer.StepWord | moon/core/tokenizer.py:107-116 | a word token spans the text up to its end, at the start position, and moves the column by its length |
| Tokenizer.StepComment | moon/core/tokenizer.py:91-105 | a comment token spans the text up to its first stop; a comment with no stop is dropped and the scan reaches the end |
| Tokenizer.Tokenizer.constructor | moon/core/tokenizer.py:45-49 | the counters start at 1 and the cursor is fresh over the normalised text |
| Tokenizer.Tokenizer.Tok | moon/core/tokenizer.py:51-60 | a token's pos and column are those of its first character, given the counters at its last character |
| Tokenizer.Tokenizer.Advance | moon/core/tokenizer.py:62-65 | moves to the next character and adds one to pos and column; at the end of the text it changes nothing |
| Tokenizer.Tokenizer.ScanWord | moon/core/tokenizer.py:107-116 | reads exactly the word at the cursor and returns it as a word token at its start position |
| Tokenizer.Tokenizer.ScanComment | moon/core/tokenizer.py:91-105 | reads exactly the comment at the cursor; a comment with no stop yields no token and leaves the cursor on the last character |
| Tokenizer.Tokenizer.Run | moon/core/tokenizer.py:67-89 | the tokens are those of the scan specification `Lex` of the normalised text |
| Tokenizer.Tokenize | moon/core/tokenizer.py:45-89 | normalising then scanning gives `Tokens(raw)` |
| TokenFacts.LexShapes | moon/core/tokenizer.py:67-89 | without positions, the tokens are the text's lexemes followed by one eof |
| TokenFacts.LexSingleEof | moon/core/tokenizer.py:51-89 | exactly one eof token, last, with empty value, at pos = length + 1 (2 for the empty text a lone BOM leaves) |
| TokenFacts.LexPositions | moon/core/tokenizer.py:47-65 | each token's pos is 1 plus the total length of the values before it |
| TokenFacts.LexCounters | moon/core/tokenizer.py:62-77 | the first token is on line 1; after a newline the line grows by one and the column is 1, otherwise the column grows by the previous token's length |
| TokenFacts.LexText | moon/core/tokenizer.py:67-105 | the token values concatenate to the text, up to a final comment that runs to the end, which is dropped |
| TokenFacts.LexemesKinds | moon/core/tokenizer.py:72-77 | no eof before the end, and every newline token is the text "\n" |
| TokenFacts.NormalizeNormal | moon/core/tokenizer.py:14-27 | text that needs no normalising is returned unchanged |
| TokenFacts.NormalizeBom | moon/core/tokenizer.py:22-23 | a leading BOM is removed: the text normalises as it would without it |
| TokenFacts.NormalizeBomOnly | moon/core/tokenizer.py:16-23 | a lone BOM passes the emptiness check and tokenizes to one eof at pos 2, line 1, column 2 |
| TokenFacts.NormalizeCrLf | moon/core/tokenizer.py:25 | CRLF and LF input normalise alike and give the same tokens |
| TagHooks.TypePrefix | moon/hooks/tags/hook.py:37-41 | the types of a tuple up to its first non-type element |
| TagHooks.MapAll | moon/hooks/tags/hook.py:37-42 | maps each given type to the hook and keeps every other entry |
| TagHooks.ResolveTag | moon/hooks/tags/hook.py:84-86 | returns the hook filed under the tag, and None exactly when there is none |
| TagHooks.ResolveRepresenter | moon/hooks/tags/hook.py:89-91 | returns the hook filed under the exact type, and None exactly when there is none |
| TagHooks.TagCheck | moon/hooks/tags/hook.py:18-25 | an accepted tag is a string attribute starting with '@' |
| TagHooks.TagRegistry.constructor | moon/hooks/tags/hook.py:80-81 | both tables start empty |
| TagHooks.TagRegistry.Register | moon/hooks/tags/hook.py:17-47 | a bad tag changes nothing and raises its error; a good tag is filed first, so it stays filed even when `object_type` then fails: missing raises AttributeError, not a type raises TypeError, a type is mapped, and a tuple maps its type prefix and raises TypeError at its first non-type |
| TagHooks.TagRegistry.MapTuple | moon/hooks/tags/hook.py:36-42 | maps the tuple's types up to the first non-type element, and fails exactly when there is one |
| TagHooks.TypePrefixWhole | moon/hooks/tags/hook.py:36-42 | the whole tuple is mapped exactly when every element is a type |
| TagHooks.Import | moon/hooks/tags/object.py:84-86 | after `import moon` the tables hold ObjectHook under "@object" and under dict |
| TagHooks.RegisterThenResolve | moon/hooks/tags/hook.py:84-86 | after registration the tag resolves to the new hook and every other tag as before |
| TagHooks.SecondRegistrationWins | moon/hooks/tags/hook.py:27 | a second hook with the same tag replaces the first |
| TagHooks.MapAllResolves | moon/hooks/tags/hook.py:89-91 | every mapped type resolves to the hook and every other type as before |
| TagHooks.DefaultResolution | moon/hooks/tags/object.py:84-86 | under the default tables only "@object" and dict resolve, both to ObjectHook |
| TypeHooks.HookResolve | moon/hooks/types/hook.py:45-48 | no hook resolves a text exactly when none of them accepts it |
| TypeHooks.HookRepresent | moon/hooks/types/hook.py:63-66 | no hook represents a value exactly when none of them accepts it |
| TypeHooks.TypeRegistry.constructor | moon/hooks/types/hook.py:27 | the hook list starts empty |
| TypeHooks.TypeRegistry.Register | moon/hooks/types/hook.py:13-14 | defining a hook appends it to the list |
| TypeHooks.TypeRegistry.Resolve | moon/hooks/types/hook.py:39-59 | the first hook that accepts the text decides, else the built-in table |
| TypeHooks.TypeRegistry.Represent | moon/hooks/types/hook.py:62-75 | the first hook that accepts the value decides, else the built-in table |
| TypeHooks.LaterHookDefers | moon/hooks/types/hook.py:39-66 | a hook added later is consulted only when every earlier one declines, in both directions |
| TypeHooks.BuiltinCases | moon/hooks/types/hook.py:50-59 | built-in resolution: digits give an int, else a float literal gives a float, else "true"/"false" a bool, else "null" None, else the text itself; never a container |
| TypeHooks.ValueRoundTrip | moon/hooks/types/hook.py:50-75 | a scalar's text resolves back to the same value exactly for non-negative ints, float literals that are not digit strings, bools, None, and strings that look like none of these |
| TypeHooks.IntRoundTrip | moon/hooks/types/hook.py:50-71 | an int comes back as itself exactly when it is not negative |
| TypeHooks.FloatRoundTrip | moon/hooks/types/hook.py:52-71 | a float comes back as itself exactly when its text is a float literal that is not a digit string |
| TypeHooks.KeywordsAreNotNumbers | moon/hooks/types/hook.py:54-57 | "true", "false" and "null" resolve to True, False and None |
| TypeHooks.StrRoundTrip | moon/hooks/types/hook.py:50-59 | a string comes back as itself exactly when it is no number literal and no keyword |
| TypeHooks.NegativeIntComesBackAsFloat | moon/hooks/types/hook.py:50-71 | a negative int is written as "-n" and read back as a float |
| TypeHooks.StringsThatChangeType | moon/hooks/types/hook.py:50-57 | a string that looks like a number or a keyword does not come back as a string |
| TypeHooks.TextRoundTrip | moon/hooks/types/hook.py:50-75 | a text without leading zeros on a digit string is written back as itself after resolving |
| TypeHooks.LeadingZerosAreLost | moon/hooks/types/hook.py:50-71 | "007" resolves to 7 and is written back as "7" |
| ObjectHook.Pair | moon/hooks/tags/object.py:60-81 | a pair that ends normally leaves the cursor on the newline, comment or eof that ended its value |
| ObjectHook.PairLoop | moon/hooks/tags/object.py:66-81 | the loop of `_parse_pair_hook` ends on the token that ends the value |
| ObjectHook.ParsePair | moon/hooks/tags/object.py:60-81 | the cursor-driven pair parse yields what `Pair` specifies and leaves the cursor where it says |
| ObjectHook.PairExit | moon/hooks/tags/object.py:69-79 | after the colon a newline, comment or eof yields the stripped value; before it anything but a colon, space or tab is UnexpectedToken |
| ObjectHook.PairRunsOut | moon/hooks/tags/object.py:66-81 | running out of tokens inside a pair raises RuntimeError |
| ObjectHook.HookStep | moon/hooks/tags/object.py:92-114 | a round ends on the token it read unless it parsed a pair |
| ObjectHook.Parse | moon/hooks/tags/object.py:88-124 | the cursor-driven parse yields what `HookLoop` specifies and leaves the cursor where it says |
| ObjectHook.CheckStops | moon/hooks/tags/object.py:116-122 | the block ends at eof or when the next token is a registered tag, and the cursor stays put |
| ObjectHook.CheckFails | moon/hooks/tags/object.py:116-118 | peeking past the last token gives None, whose `.type` raises AttributeError |
| ObjectHook.Compose | moon/hooks/tags/object.py:126-149 | a composed node is a plain object under the hook's tag, named by the ident that follows tag_start, ending at a tag_end |
| ObjectHook.ComposeAt | moon/hooks/tags/object.py:126-149 | the cursor-driven compose gives what `Compose` specifies and leaves the cursor on the tag_end |
| ObjectHook.ComposeNoValue | moon/hooks/tags/object.py:136-139 | a key not followed by a value is UnexpectedEvent |
| ObjectHook.ConstructFrom | moon/hooks/tags/object.py:151-172 | a constructed object has one field per child, in order, each the key with its resolved value |
| ObjectHook.ConstructNode | moon/hooks/tags/object.py:151-172 | the loop over the children computes `Construct` |
| ObjectHook.ConstructSucceeds | moon/hooks/tags/object.py:155-170 | construction succeeds exactly when every child is a key with a scalar value and no key repeats |
| ObjectHook.RepresentPairs | moon/hooks/tags/object.py:179-190 | succeeds exactly when every key is a string and every value has a text, giving one key-value node per field in order |
| ObjectHook.Represent | moon/hooks/tags/object.py:174-192 | a non-dict is InvalidObjectError; a dict gives a plain object node under the hook's tag with its fields' nodes |
| ObjectHook.ConstructRepresented | moon/hooks/tags/object.py:151-192 | constructing the representation of an object with distinct keys and values that read back gives the object back |
| ObjectHook.ConstructReadsBack | moon/hooks/tags/object.py:151-172 | key-value children whose texts resolve to given values construct exactly those fields |
| ObjectHook.PairEvents | moon/hooks/tags/object.py:198-202 | a key event and a value event per pair, in order |
| ObjectHook.SerializePairs | moon/hooks/tags/object.py:198-202 | the pairs serialize without error exactly when each child is a key-value node whose value is not a tag node; a failure is SerializationError (a child that is no pair) or AttributeError (a tag-node value has no `value`); on success a key event and a value event per pair, the value event carrying the scalar's text or, for a pair-valued pair, the inner value node |
| ObjectHook.SerializePlainPairs | moon/hooks/tags/object.py:198-202 | on pairs with scalar values the events are the key and value events of each pair, in order |
| ObjectHook.Serialize | moon/hooks/tags/object.py:194-203 | starts with tag_start and ident; succeeds exactly when its pairs serialize, and on plain objects gives their events |
| ObjectHook.ComposeSerialized | moon/hooks/tags/object.py:126-149 | composing the events of a plain object gives the object back and stops on its tag_end |
| ObjectHook.Emit | moon/hooks/tags/object.py:205-235 | a successful emit stops on a tag_end after the start event |
| ObjectHook.EmitAt | moon/hooks/tags/object.py:205-235 | the cursor-driven emit gives what `Emit` specifies and leaves the cursor on the tag_end |
| ObjectHook.EmitFails | moon/hooks/tags/object.py:217-231 | a missing ident, or any event but key, value or tag_end after it, is EmitterError |
| ObjectHook.EmitMistyped | moon/hooks/tags/object.py:222-227 | a value event that carries a node, met after the ident, raises TypeError: the node is added to a string |
| ObjectHook.EmitSerialized | moon/hooks/tags/object.py:205-235 | the events of a plain object are written as the tag, a space, the name and a newline, then a four-space-indented `key: value` line per field |
| Parser.ParseTag | moon/core/parser.py:42-52 | a tag that parses leaves the cursor on a later token |
| Parser.ParseTagAt | moon/core/parser.py:42-52 | the cursor-driven `_parse_tag` yields what `ParseTag` specifies |
| Parser.Events | moon/core/parser.py:19-40 | the cursor-driven parser yields what `Parse` specifies |
| Parser.SkipRunsOut | moon/core/parser.py:19-40 | running out of tokens after a skipped token is UnexpectedEOF |
| Parser.AtEof | moon/core/parser.py:30-32 | eof at top level yields document_end and stops |
| Parser.Unexpected | moon/core/parser.py:36-37 | any other non-word token at top level is UnexpectedToken |
| Parser.ParseTagBrackets | moon/core/parser.py:42-52 | a parsed tag is bracketed by tag_start and tag_end of its word with only hook events between; an unregistered word yields tag_start and then ParserError |
| Parser.TagTracks | moon/core/parser.py:42-52 | a parsed tag closes every construct it opens |
| Parser.ParsedEvents | moon/core/parser.py:19-52 | document_end appears only as the last event, and only when parsing ends at eof; every construct before it is closed |
| ParseFacts.ObjectParse | moon/core/parser.py:42-52 | the tokens of an emitted object parse to exactly its serialized events |
| ParseFacts.DocumentParse | moon/core/parser.py:19-40 | the tokens of an emitted document parse to exactly its serialized events |
| Composer.ComposeFrom | moon/core/composer.py:25-47 | the composer keeps the nodes yielded so far and adds only plain objects |
| Composer.ComposeStream | moon/core/composer.py:25-47 | the cursor-driven composer yields what `Nodes` specifies |
| Composer.ComposeStops | moon/core/composer.py:25-47 | document_end ends the stream; another non-tag_start event is UnexpectedEvent; an unregistered tag is UnknownEvent; the hook's error passes through; running out after a node is ASTError |
| Composer.ComposeNothing | moon/core/composer.py:46-47 | an empty event stream is ASTError, or the producer's own error |
| Composer.ComposeDocument | moon/core/composer.py:25-47 | the events of a document of registered plain objects compose back into exactly those nodes |
| Composer.ComposeAfterSerialize | moon/core/composer.py:25-47 | compose after serialize is the identity on registered plain objects |
| Composer.SerializeAfterCompose | moon/core/composer.py:25-47 | serialize after compose is the identity on the events of such a document |
| Constructor.ConstructNodes | moon/core/constructor.py:18-40 | a constructed document has one entry per node, keyed by its name and holding its constructed fields, after the entries built before |
| Constructor.ConstructStream | moon/core/constructor.py:18-40 | the loop over the nodes computes `Document` |
| Constructor.NodeChecks | moon/core/constructor.py:25-38 | a non-tag node is UnexpectedNode, an unregistered tag UnknownNode, a repeated name DuplicateIdentifierNode; no nodes give what was built |
| Constructor.EmptyDocument | moon/core/constructor.py:25-40 | no nodes construct the empty dict |
| Constructor.NamesDistinct | moon/core/constructor.py:32-34 | the names of a constructed document are distinct |
| Constructor.DuplicateNames | moon/core/constructor.py:32-33 | two nodes with one name make construction fail |
| Representer.RepresentItems | moon/core/representer.py:20-26 | one node per entry in order, each the hook's representation; the first failing entry decides the error: a non-string key is InvalidObjectError, a type with no hook AttributeError, else the hook's error |
| Representer.Nodes | moon/core/representer.py:18-19 | a non-dict is InvalidObjectError |
| Representer.RepresentDocument | moon/core/representer.py:12-26 | a document is represented in full exactly when all its values have a text, as one node per object under the dict hook's tag |
| Representer.RepresentFields | moon/hooks/tags/object.py:181-190 | an object's fields are represented exactly when each value has a text |
| Serializer.DocumentEvents | moon/core/serializer.py:12-27 | the events of a document end with document_end |
| Serializer.SerializeSucceeds | moon/core/serializer.py:12-27 | serialization runs to document_end exactly when the representer finished and every node is a tag node under a registered tag whose pairs serialize; on plain objects it then yields the document's events |
| Serializer.SerializeInterrupted | moon/core/serializer.py:18-25 | when the representer raises after serializable nodes, their events pass through without document_end, followed by the exception |
| Serializer.DocumentEventsShape | moon/core/serializer.py:12-27 | the event count is the sum of 3 + 2 × children over the nodes, plus 1; document_end is last and unique; every construct is closed |
| Serializer.ObjectEventsNest | moon/hooks/tags/object.py:194-203 | an object gives 3 + 2 × children events and closes what it opens |
| Emitter.EmitFrom | moon/core/emitter.py:14-38 | the emitter keeps the chunks written so far |
| Emitter.EmitStream | moon/core/emitter.py:14-38 | the cursor-driven emitter yields what `Chunks` specifies |
| Emitter.ChunkStops | moon/core/emitter.py:17-34 | document_end stops with the chunks so far; another non-tag_start event is EmitterError; an unregistered tag is AttributeError; the hook's error passes through |
| Emitter.ChunkEmitted | moon/core/emitter.py:22-38 | after an object, the stream ending is EmitterError (or the producer's error), document_end stops, and another non-tag_start event is EmitterError |
| Emitter.ChunkMoves | moon/core/emitter.py:23-28 | an object followed by a tag_start is written, then exactly one "\n" |
| Emitter.EmitDocument | moon/core/emitter.py:14-38 | a document's events are written as the object texts separated by "\n", with nothing after the last |
| Emitter.EmitInterrupted | moon/core/emitter.py:14-38 | over the events of objects cut off by the producer's exception, each object's text is still yielded, separated by "\n", and the peek after the last raises that exception |
| Emitter.PairValuedPair | moon/hooks/tags/object.py:194-227 | an object with a pair-valued pair serializes, its value event carrying the inner scalar node, and emitting it raises TypeError with nothing written |
| TextLexing.WordLexemes | moon/core/tokenizer.py:107-116 | a word tokenizes to itself |
| TextLexing.PairLine | moon/core/tokenizer.py:67-116 | an emitted `key: value` line tokenizes to four spaces, the key, a colon, a space, the value's tokens and a newline |
| TextLexing.DocumentTextLexemes | moon/core/tokenizer.py:67-116 | the emitted text of a document tokenizes to the document's lexemes and begins with its first tag |
| Pipeline.LoadText | moon/_api.py:35-39 | tokenizer, parser, composer and constructor chained on their cursors compute `Load` |
| Pipeline.DumpText | moon/_api.py:57-60 | representer, serializer and emitter chained on their cursors, with the chunks written one by one, leave the text and the exception that `Dump` specifies |
| Pipeline.DumpNodes | moon/_api.py:57-59 | dumping a representable document writes the text of one object node per entry, all serializable, and raises nothing |
| Pipeline.DumpInterrupted | moon/core/fileio.py:95-99 | when the representer raises after some serializable nodes, the texts of those objects are written, separated by "\n", and the exception then propagates |
| Pipeline.DumpNotDict | moon/core/representer.py:18-19 | dumping anything but a dict writes nothing and raises InvalidObjectError |
| Pipeline.DumpEmpty | moon/_api.py:35-59 | the empty dict writes "" and raises nothing, and load rejects "" with TokenizerError |
| Pipeline.ComposeEmitted | moon/_api.py:35-38 | the emitted text of readable objects tokenizes, parses and composes back into those objects |
| Pipeline.LoadNodes | moon/_api.py:35-39 | loading the emitted text of readable objects gives their constructed fields under their names |
| Pipeline.LoadAfterDump | moon/_api.py:23-60 | for a non-empty document with distinct word names and keys that are not tags, and values whose text reads back, dump raises nothing and load of the text it writes gives the document back |
| Pipeline.LoadAfterDumpDefault | moon/_api.py:23-60 | the same round trip under the default tables with no type hooks, for plain scalars |
| Pipeline.LoadUnknownTag | moon/_api.py:35-39 | text starting with an unregistered tag word: the parser yields tag_start and then ParserError, and load fails with UnknownEvent |
| Pipeline.UnknownTagExample | moon/_api.py:35-39 | loading "@unknowntag x\nkey: 1" fails with UnknownEvent |

## Left out

- File I/O (moon/core/fileio.py): opening files, encodings, OS errors and the `WriteError` wrapping. `Pipeline.Load` starts from the text `read` returns. `Pipeline.Dump` is what `write` leaves in the file: the chunks written before the emitter stopped, and the exception that stopped it.
- Floating point: `_is_float` is the predicate `IsFloatLiteral`, Python's `float` grammar over ASCII: whitespace at either end, an optional sign, then a decimal literal (digits with single underscores between them, an optional point, an optional exponent) or "inf", "infinity" or "nan" in any case. Non-ASCII digits and whitespace are not modelled. A float is kept as its literal text, so `str(float(s))` normalisation (e.g. "1.50" to "1.5", "1_000" to "1000.0") is not modelled.
- Unicode: `str.isdigit` is ASCII digits, and `str.strip`/`lstrip` use a fixed whitespace set.
- Error messages, and `Token.__repr__`.
- Nested object values: `construct` models only the NotImplementedError branch (moon/hooks/tags/object.py:165-166). `represent_type` of a dict or list is TypeError.
- The test that the cursor's source is iterable (moon/core/base.py:14-21): the source is always a sequence.
- Type hooks: each `TypeHook` subclass is a pair of finite tables, one for `resolve` and one for `represent`, so a hook's own code is not modelled.
- Tag hooks other than ObjectHook: each registered hook behaves as ObjectHook under its own tag. Only the tag and `object_type` checks of registration apply to other hooks.
- The re-export modules (moon/__init__.py, moon/hooks/__init__.py and the package `__init__` files). Their one effect is that importing registers ObjectHook, which `TagHooks.Import` models.
- TagHooks.TagCheck: only the accepted direction is stated in its contract. The three error cases are in its body: missing tag is AttributeError, a non-string tag TypeError, and a tag without '@' AttributeError.
- ObjectHook.Pair, ObjectHook.HookStep, ObjectHook.Emit: their contracts state only where the cursor ends. What they yield is given by the functions' bodies, and the lemmas beside them (PairExit, CheckStops, EmitFails, ObjectParse, EmitSerialized) state it.
- Parser.ParseTag: its contract states only where the cursor ends. Parser.ParseTagBrackets states what it yields.
- ObjectHook.Compose: a value event that carries a node (from a pair-valued pair) is refused as UnexpectedEvent. The source would wrap it in a ScalarNode and fail later; compose only ever runs on parsed events, which carry text.
- Keys of key-value nodes are strings, the text of the key's scalar node: `serialize` reads `child.key.value`, and a key that is not a scalar node is not modelled.
- Emitter.EmitFrom and Composer.ComposeFrom: their contracts state only that the output so far is kept. The stop lemmas and the document lemmas state the rest.
