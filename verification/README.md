# Model-abstraction proofs

Dafny models of the cores of the model abstraction, and proofs of what they promise:

- the generated wire codec: a strict JSON reader and printer over bytes, with UTF-8 checking, bounded integers, a depth-bounded
  walker for opaque values, record decoders that ignore member order, and the request and reply envelope of the resolver
  service built on them;
- model-name identity: the scan of raw tokens into kept tokens, shards and quantisations, and the assembly of a family;
- the service host: accept loop, 32 slots, wait group, close-once and a configuration that freezes when Serve begins;
- the hunk loop of the SDK patcher, the model reference printer and parser, and the merge of local copies into sources.

## How it is laid out

Readers are modelled twice. `Reader.dfy` has the class with the mutable `pos` and `depth`, method by method; each method is
proved against a function on the bytes still to be read (`Text`, `Numbers`, `Skip`, `Records`), whose result is a value and
the bytes after it, or a refusal word and the bytes from the offending one on. What the format promises is then proved of
those functions. `Printer.dfy` and `Endpoint.dfy` do the same for the printers, the client and the dispatcher, `PyReader.dfy`
for the parts of the Python reader that work differently, and `Identity.dfy` and `Family.dfy` hold the Go and the Python
loops side by side, both proved against one specification.

| file | content |
|---|---|
| Bytes, Utf8, Text, Numbers | white space; code points; strings and escapes; integers and numbers |
| Skip, Raw | the walker of opaque values and its grammar; re-indenting a walked value |
| Walk, Break, Moved | what the walker refuses, by word: names and nesting; text that leaves the grammar; a printed record re-indented |
| Records, Encode, Messages, Layout | decoding and printing records by schema; `Ref`; every layout of a `Ref` |
| Typing | what a decoder makes of any well-formed object: the value of its kind, or the word of its first offence |
| Envelope, Carried, Rpc, Dispatch | frames and replies; values carried opaque; client and dispatcher, transparency of a call; what is answered to any frame |
| Reader, Printer, Endpoint, PyReader | the same as code with state |
| Identity, Append, Family, Version | the scan; a token written after a name; families, components, both implementations; which tokens are versions, levels, parameters |
| Host, Liveness, Admission | the host as interleaved steps: what every step keeps; that the steps end, and where; what is let in, set and reported |
| Patch, Insertion, Reference, Locator, Local | hunks; hunks without an old side; references as text; what any text is read as; local copies |
| Powers | powers of ten |

A codec imported from another module (the download request inside a `LookupResult`) is a parameter with a contract: it
decodes only what the walker accepts, to the same byte and without exceeding the depth on walked bytes; what it encodes
decodes back and consumes exactly its own bytes. The `Ref` codec, generated by the same rules, is proved to meet it
(`Messages.RefCodecMeetsContract`). Where refusal words matter (`Typing`), its verdict on a value depends on the value and
the levels left, as the `Ref` codec's does (`Typing.RefCodecSays`).

The standards are RFC 8259 sections 2 to 7 (JSON), RFC 3629 sections 3 and 4 (UTF-8) and RFC 2781 section 2 (surrogates).

## Where code and promise part

- Go adds shard numbers in a machine word. Both implementations see the same segments of a part, and keep the same tokens
  of it, exactly when no shard that Python sees has a number that wraps to zero or below (`Identity.ScansAgreeExactly`,
  `Identity.KeptAgreeExactly`), which up to 18 digits none does (`Families.ShortNamesAgree`). Quantisations agree even then (`Identity.QuantsAgree`); families agree exactly when their
  base parts do (`Families.ImplementationsAgree`), and need not (`Families.NamesDiffer`).
- "A fine-tune never joins its base" is not true of every token. For the tokens that reach the assembly the exact condition
  is `Families.FineTuneNeverJoins`: a token joins when it is packaging, a role or token already there, or what base and
  version make together. For whole names the scan comes first: a token that starts a run, goes on with an open one, or
  closes a shard is taken (`Appends.AppendScans`). "llama-fp8-ember" has the family of "llama-fp8", because "ember" reads as
  a block format (`Families.FineTuneCanJoin`). `Families.TunedNameDiffers` is the exact condition over all names and tokens.
- Close takes no lock, so an Enable that passed its check sets its value after the close has begun and reports success
  (`Hosts.CloseDoesNotFreeze`). Once a close has begun the configuration is final exactly when no Enable stands before a
  write that would change it (`Hosts.CloseFreezesExactly`); from Serve on it is final (`Hosts.ConfigurationIsFrozen`).
- A unified diff numbers an empty old side by the line before it, and the hunk loop reads that number like any other. No such
  diff gets there: `_patch_poll` refuses every diff and file but the pinned pair by their hashes first
  (tools/windows_go_sdk.py:103), and every hunk of the pinned diff has both sides. Of the loop alone
  `Insertions.DiffLands` says what it gives for every ordered diff, and `Insertions.DiffIsRightExactly` when that is what
  the diff means.
- Local copies are said to be ahead of anything a registry supplied. They are exactly while there are at most 100 new places
  (`Locals.CopiesLeadExactly`); the hundred-and-first copy has priority 0 (`Locals.CopiesRunOut`).
- Not every reference survives being printed and parsed; `References.PrintReadsBackExactly` says which do.

## Model

| member | source | states |
|---|---|---|
| Utf8.ValidUTF8 | go/abstraction/model/api/rec.go:931-965 | the checking loop answers whether the bytes are well-formed UTF-8, shortest forms only, no surrogates, nothing above 0x10FFFF |
| Utf8.RuneReads | go/abstraction/model/api/rec.go:919-965 | a written scalar value is read back as itself with its own length, whatever follows |
| Utf8.RuneWrites | go/abstraction/model/api/rec.go:919-965 | what is read as one code point is exactly what is written for it |
| Utf8.ValidExactly | go/abstraction/model/api/rec.go:919-965 | accepted exactly when some scalar values are written as these bytes |
| Utf8.DecompositionIsUnique | go/abstraction/model/api/rec.go:919-965 | two lists of scalar values written as the same bytes are the same list |
| Utf8.RuneLayout | go/abstraction/model/api/rec.go:919-929 | the bytes of a code point are laid out by the table of section 3 of RFC 3629: length, leading bits and payload of each byte |
| Text.Esc | go/abstraction/model/api/rec.go:9-31 | the printing loop appends the quoted text and keeps what was in the buffer |
| Text.StrExactly | go/abstraction/model/api/rec.go:818-895 | a string is read as some text, leaving some bytes, exactly when the input is a spelling of that well-formed text in front of those bytes |
| Text.QuotedReads | go/abstraction/model/api/rec.go:184-190 | reading what was quoted gives the same text, or bad_string at the closing quote when it was not UTF-8 |
| Text.SurrogatesAreABijection | go/abstraction/model/api/rec.go:850-895 | each code point from 0x10000 to 0x10FFFF is joined from its surrogates by section 2.1 of RFC 2781 and from no other pair |
| Text.EscapedPairReads | go/abstraction/model/api/rec.go:850-895 | four digits in either case for each of the two surrogates that section 2.1 of RFC 2781 gives a code point are read as that code point in UTF-8 |
| Text.EscapedUnitReads | go/abstraction/model/api/rec.go:850-895 | four digits in either case that spell a scalar below 0x10000 are read as it in UTF-8 |
| Text.HexDigitsExactly | go/abstraction/model/api/rec.go:897-917 | a byte is the digit n exactly when it is the n-th of "0" to "f" in either case |
| Text.EscapesExactly | go/abstraction/model/api/rec.go:850-867 | the eight short escapes and what they stand for, and no others |
| Text.BrokenStringIsRefused | go/abstraction/model/api/rec.go:818-895 | a string that goes on as no string does is malformed at the end of the bytes, or after a last backslash, and else bad_string |
| Text.PrintedIsShortest | go/abstraction/model/api/rec.go:9-31 | the printed spelling of a text is no longer than any other of it |
| Numbers.Num | go/abstraction/model/api/rec.go:33-52 | over all of int64, -2^63 included, the digit buffer method appends the canonical decimal spelling |
| Numbers.IntegerExactly | go/abstraction/model/api/rec.go:967-1014 | an integer within [min, max] is read exactly from its canonical int64 spelling, with no digit, point or exponent after it |
| Numbers.IntegerReads | go/abstraction/model/api/rec.go:33-52 | reading inverts printing on all of int64; out of bounds is number_spelling just after the digits |
| Numbers.PyIntegerAgrees | py/abstraction/model/api/_codec.py:620-646 | the digit-counting reader gives the same value, or the same refusal word, as the guarded one, on all bytes and bounds |
| Numbers.NumberReads | go/abstraction/model/api/rec.go:1154-1196 | every number of the grammar that nothing continues is walked to its end |
| Numbers.NumberSplits | go/abstraction/model/api/rec.go:1154-1196 | whatever is walked as a number is a number of the grammar |
| Numbers.MarkNeedsDigits | go/abstraction/model/api/rec.go:1154-1196 | a number whose point or exponent has no digits is refused number_spelling where they should be |
| Numbers.BareSignIsRefused | go/abstraction/model/api/rec.go:967-1014 | a sign without a digit is number_spelling to the walker and malformed to the integer reader, which refuses wrong_type what starts with neither |
| Numbers.IntegerIsNumber | go/abstraction/model/api/rec.go:967-1014 | what is read as an integer is walked as a number, to the same byte |
| Skip.SkipReads | go/abstraction/model/api/rec.go:1124-1248 | every grammar value with unique names, nested within the limit and properly ended, is walked to its end |
| Skip.SkipSplits | go/abstraction/model/api/rec.go:1124-1248 | whatever is walked is a value of the grammar with unique names, nested within the limit |
| Skip.SkipExactly | go/abstraction/model/api/rec.go:1124-1248 | over all bytes, with no condition: walked to some rest exactly when the input is such a value in front of a rest that does not go on with it |
| Skip.SkipStopsAtLimit | go/abstraction/model/api/rec.go:810-816 | a well-formed value nested beyond the limit is refused as depth_exceeded and as nothing else |
| Walks.WalkIsDecided | go/abstraction/model/api/rec.go:1124-1248 | over all values in which names may repeat: walked to the end when nothing offends, else refused with the word of the first offence, duplicate_key for a name that came before and depth_exceeded for a container beyond the limit |
| Breaks.BreakIsRefused | go/abstraction/model/api/rec.go:1124-1248 | over all texts that leave the grammar somewhere, however deep, within the limit and before any repeated name: refused with malformed, number_spelling or bad_string as the place says, at the first byte that does not fit (where a string breaks off, the word alone) |
| Breaks.RecordNameBreaks | go/abstraction/model/api/rec.go:1250-1357 | the record decoder refuses a name that breaks off, or has no colon, after any members with the same word and place |
| Breaks.RecordIsNotClosed | go/abstraction/model/api/rec.go:1250-1357 | after a member anything but a comma or the closing brace is malformed there |
| Skip.WalkEndsInRest | go/abstraction/model/api/rec.go:1116-1122 | the bytes after a walked value are the end of the input, so a raw value is a slice in bounds |
| Raw.Reindent | go/abstraction/model/api/rec.go:78-136 | the token loop over a raw value appends its re-indented bytes whenever no slice leaves the buffer |
| Raw.NormKeeps | go/abstraction/model/api/rec.go:78-136 | normal spacing keeps every token in its place and the nesting, and normalising again changes nothing |
| Raw.NormOfTokens | go/abstraction/model/api/rec.go:78-136 | normal spacing depends on the tokens alone |
| Raw.SameTokensSameBytes | go/abstraction/model/api/rec.go:78-136 | two values with the same tokens, however spaced, are re-indented to the same bytes |
| Raw.ReindentKeepsTokens | go/abstraction/model/api/rec.go:78-136 | on any walked value: no slice out of bounds, the same tokens in order, the same bytes for every value of these tokens, idempotent at a depth, and the output is walked again at the same nesting |
| Moved.IndentIsSpaces | go/abstraction/model/api/rec.go:54-59 | an indent is a line break and two spaces for each level |
| Moved.RecordMoves | go/abstraction/model/api/rec.go:78-136 | a record of texts printed at any depth is re-indented to the bytes it is printed as at the new depth |
| Moved.RefMoves | go/abstraction/model/api/rec.go:536-578 | so a reference carried opaque stands as if printed in its place |
| Moved.EmptyIsTight | go/abstraction/model/api/rec.go:78-136 | an empty container is re-indented to its two brackets |
| Records.OutcomeWords | go/abstraction/model/api/rec.go:214-247 | a word parses to an outcome exactly when it is that outcome's word |
| Records.OutcomeTable | go/abstraction/model/api/rec.go:214-247 | the words of the tags 1 to 5, and none for any other |
| Records.DecodeIsWalked | go/abstraction/model/api/rec.go:1250-1357 | whatever a record decoder accepts at a depth, the walker accepts at that depth, to the same byte |
| Records.WalkedIsShallow | go/abstraction/model/api/rec.go:1521-1578 | bytes the walker accepted at a depth never make a decoder at that depth refuse depth_exceeded |
| Carried.RawIsWalked | go/abstraction/model/api/rec.go:1116-1122 | the bytes a raw value answers are, cut out of their buffer, one whole walked value, with no white space before it |
| Carried.CarriedIsShallow | go/abstraction/model/api/rec.go:2046-2125 | for every buffer that is read as a record, whoever wrote it, and every opaque member: decoding its bytes as any record, in a new reader one level down, never refuses depth_exceeded |
| Carried.ArgumentsAreShallow | go/abstraction/model/api/rec.go:2386-2414 | so the dispatcher never refuses the arguments of a frame it has read for their depth |
| Carried.AnswerIsShallow | go/abstraction/model/api/rec.go:2092-2125 | and the client refuses a reply for its depth only when the reply itself is too deep, never for the error or the result in it |
| Encode.RecordDecodesBefore | go/abstraction/model/api/rec.go:1250-1434 | a record printed by its schema decodes to its members whatever follows |
| Encode.OpaqueDecodes | go/abstraction/model/api/rec.go:1116-1122 | what a decoder accepts is carried whole by an opaque field |
| Messages.RefDecodes | go/abstraction/model/api/rec.go:536-578 | a printed reference of UTF-8 texts decodes to itself at every depth |
| Messages.BadRefIsRefused | go/abstraction/model/api/rec.go:536-578 | a printed reference with a text that is not UTF-8 is refused by the walker as bad_string |
| Messages.RefRoundTrip | go/abstraction/model/api/rec.go:2615-2616 | encoding at a depth succeeds exactly for depths 0 to 63 and UTF-8 texts; decoding then gives the same reference and leaves exactly what followed |
| Messages.RefCodecMeetsContract | go/abstraction/model/api/rec.go:2615-2616 | the reference codec meets the contract assumed of the imported codec |
| Layout.DecodeRefExactly | go/abstraction/model/api/rec.go:1250-1357 | a reference is decoded exactly from the objects that lay it out, in any member order, spacing and escape spelling |
| Layout.DecodedRefIsCanonical | go/abstraction/model/api/rec.go:2616-2618 | whatever was decoded encodes at every depth to bytes that decode to it: one canonical form |
| Typing.DecodeIsTyped | go/abstraction/model/api/rec.go:1250-1357 | over all schemas and all well-formed values, members in any order and spacing with names that may repeat: the decoded value is what the value tree is of its kind, or the refusal has the word of the first offence |
| Typing.MemberIsTyped | go/abstraction/model/api/rec.go:1250-1357 | one member: unknown_field for no field's name and duplicate_field for one that came before, both at the value; else the word of the value's refusal, or the member is added |
| Typing.FirstOffenceTells | go/abstraction/model/api/rec.go:1250-1357 | the first member that is unknown, comes again or is refused gives the word; with none, missing_field exactly when a required field has no member |
| Typing.DecodeRefRefuses | go/abstraction/model/api/rec.go:1250-1357 | a reference is refused unknown_field, duplicate_field or wrong_type by its first offending member; with none, missing_field exactly when a required one is not there |
| Typing.RefCodecSays | go/abstraction/model/api/rec.go:2615 | the reference codec decides by the value and the levels left, as is taken of the imported codec |
| Printers.EncRef | go/abstraction/model/api/rec.go:536-578 | the printer appends the reference's record to what is in the buffer, credential only when there is one |
| Printers.EncLookupResult | go/abstraction/model/api/rec.go:580-601 | appends the result's record, or panics for an outcome without a word or a request its codec refuses |
| Printers.EncFrame | go/abstraction/model/api/rec.go:656-684 | appends the frame with the encoded arguments spliced in verbatim |
| Printers.EncReply | go/abstraction/model/api/rec.go:686-724 | appends the reply with the encoded payload spliced in verbatim |
| Printers.EncError | go/abstraction/model/api/rec.go:726-742 | appends the error record of a code and a message |
| Readers.Reader.constructor | go/abstraction/model/api/rec.go:784-790 | a reader starts at the first byte, at the given depth and limit |
| Readers.Reader.Enter | go/abstraction/model/api/rec.go:810-816 | one level down, refused when that exceeds the limit |
| Readers.Reader.Str | go/abstraction/model/api/rec.go:818-848 | answers the value, end and refusal of the string function at the cursor |
| Readers.Reader.Escape | go/abstraction/model/api/rec.go:850-895 | appends what the escape at the cursor means, or refuses at the byte it stands on |
| Readers.Reader.Hex4 | go/abstraction/model/api/rec.go:897-917 | four hexadecimal digits in either case, or bad_string |
| Readers.Reader.Integer | go/abstraction/model/api/rec.go:967-1014 | answers the integer function at the cursor |
| Readers.Reader.Magnitude | go/abstraction/model/api/rec.go:967-1014 | the uint64 accumulator never overflows and holds the value of the digits read |
| Readers.Reader.SkipNumber | go/abstraction/model/api/rec.go:1154-1184 | walks exactly what the number function walks |
| Readers.Reader.SkipValue | go/abstraction/model/api/rec.go:1124-1147 | walks exactly what the value function walks, ends inside the buffer and restores the depth |
| Readers.Reader.SkipContainer | go/abstraction/model/api/rec.go:1198-1248 | the same for one container; the mutual recursion ends because bytes run out |
| Readers.Reader.RawValue | go/abstraction/model/api/rec.go:1116-1122 | answers the bytes the walked value spans |
| Readers.Reader.Record | go/abstraction/model/api/rec.go:1250-1357 | decodes what the record function decodes, with its refusals and offsets, and restores the depth |
| Readers.DecodeRefAt | go/abstraction/model/api/rec.go:2615 | the reference and the number of bytes consumed, or the refusal |
| Endpoints.ServicePayloadOf | go/abstraction/model/api/rec.go:2046-2062 | the frame, or the refusal, trailing bytes or unknown version |
| Endpoints.ServiceResponseOf | go/abstraction/model/api/rec.go:2092-2125 | the payload, the service error, or what is wrong with the reply |
| Endpoints.ServiceReplyOf | go/abstraction/model/api/rec.go:2127-2164 | the reply frame for a payload or an error, read once before it is given out |
| Endpoints.InvokeResolve | go/abstraction/model/api/rec.go:2415-2446 | the handler's outcome as payload or error, panics included |
| Endpoints.ExchangeFrame | go/abstraction/model/api/rec.go:2386-2414 | one request frame to one reply frame, as the dispatcher function gives it |
| Endpoints.ResolveCall | go/abstraction/model/api/rec.go:2303-2344 | the client's whole call over a transport |
| Endpoints.Call | go/abstraction/model/api/rec.go:2303-2446 | client, dispatcher and handler run together: for a UTF-8 reference the caller gets what the handler came to, for any other a bad_string refusal |
| Endpoints.EncodeRef | go/abstraction/model/api/rec.go:2616 | the encoder that reads its own output back before giving it out |
| Rpc.HandlerSeesRef | go/abstraction/model/api/rec.go:2386-2446 | for every UTF-8 reference the dispatcher calls the handler with exactly that reference |
| Rpc.ResolveDelivers | go/abstraction/model/api/rec.go:2303-2446 | for every UTF-8 reference and every handler: its result arrives unchanged when it can be encoded, its UTF-8 error under a non-empty code with the same message, its own refusal with any word as a code or as bad_string, its panic as the stated error |
| Rpc.ErrorArrives | go/abstraction/model/api/rec.go:2127-2164 | an error passes through both envelopes under its code, or nothing is sent |
| Rpc.BadErrorIsRefused | go/abstraction/model/api/rec.go:2127-2164 | an error text that is not UTF-8 never reaches the wire |
| Rpc.BadRefIsNeverSent | go/abstraction/model/api/rec.go:2303-2344 | a reference that is not UTF-8 is refused by the client whatever the transport |
| Dispatches.ExchangeAnswers | go/abstraction/model/api/rec.go:2386-2446 | over all frames: an unreadable one is not answered; the endpoint's service is described; the caller of another service reads unknown_service, of another method unknown_method, with refused arguments the refusal's word; a call of the resolver delivers what the handler comes to on the decoded reference |
| Dispatches.OtherVersionIsRefused | go/abstraction/model/api/rec.go:2046-2062 | over all printed frames of any version, one of another version than 1 is refused unknown_version and any other answered as above |
| Dispatches.NothingFollows | go/abstraction/model/api/rec.go:2046-2062 | a printed record is the whole of a buffer exactly when white space alone follows it, else trailing_bytes at the first other byte |
| Dispatches.ReplyIsRead | go/abstraction/model/api/rec.go:2092-2125 | over all printed replies: unknown_version for another version, then mismatched_response for another call, then the payload |
| Dispatches.ErrorIsRead | go/abstraction/model/api/rec.go:2092-2125 | a reply that is not ok is read as its code and message, or as invalid_error without a code |
| PyReaders.FastPathAgrees | py/abstraction/model/api/_codec.py:543-575 | where the fast path may be taken it gives the bytewise path's text, end, or bad_string at the same byte |
| PyReaders.String | py/abstraction/model/api/_codec.py:543-575 | the reader with both paths answers the string function, for every buffer and position |
| PyReaders.Integer | py/abstraction/model/api/_codec.py:620-646 | the reader without an accumulator answers the digit-counting function |
| Identity.TablesAreSound | identity/identity.go:300-324 | in the real tables no quant word reads as a number, a tail, "ud" or "of", and "ud" is packaging |
| Identity.DigitsGo | identity/identity.go:122-134 | the number a token spells, added up in a 64-bit word |
| Identity.IsVersionGo | identity/identity.go:232-243 | the loop decides whether a token is a version |
| Identity.IsParamsGo | identity/identity.go:245-273 | the counting loop decides what the Python expression says of digits, points and letters |
| Identity.QuantRunAt | identity/identity.go:136-157 | the length of the quant run at a position, through a prefix "ud" and the tails |
| Identity.TokensGo | identity/identity.go:78-99 | the scan gives the kept tokens and the first quant run |
| Identity.TokensPy | python/abstraction_model.py:100-117 | so does the Python scan, against the same specification |
| Identity.ScanPartitions | identity/identity.go:78-157 | the raw tokens are, in order, exactly the kept tokens, the shard triples and the quant runs |
| Identity.DigitsWrap | identity/identity.go:122-134 | the Go number is the true number wrapped to 64 bits |
| Identity.ScansAgreeExactly | python/abstraction_model.py:100-158 | both scans see the same segments exactly when no number of a shard that Python sees wraps to zero or below |
| Identity.KeptAgreeExactly | python/abstraction_model.py:100-117 | for every raw list Go keeps no fewer tokens than Python, and the same exactly when no shard that Python sees wraps |
| Identity.ScansAgree | python/abstraction_model.py:100-158 | which is so with digit runs of at most 18 digits |
| Identity.QuantsAgree | identity/identity.go:78-157 | both scans always find the same quantisation, whatever wraps |
| Identity.LongNumbersDisagree | identity/identity.go:118-134 | the input at which they part: 2^64 of 2^64 is a shard in Python and none in Go |
| Identity.QuantRunKeepsTokens | identity/identity.go:78-157 | a quant run after any raw list leaves its kept tokens, but for a "ud" at the very end |
| Appends.AppendScans | identity/identity.go:78-157 | over all raw lists and every further token: kept last if the scan has no use for it; if it closes a shard, index and "of" go with it; else it is dropped with at most a "ud" before it |
| Appends.AppendedIsKeptExactly | identity/identity.go:78-157 | a further token is kept in its place exactly when it is not absorbed: it starts no run, goes on with no open run, and is not the count of a shard |
| Families.SplitsAgree | python/abstraction_model.py:100-103 | replacing, splitting and dropping empty pieces gives Go's fields |
| Families.JoinInjective | identity/identity.go:159-166 | part lists with the same joined family are the same list |
| Families.SameExactly | identity/identity.go:30-35 | two names are the same model exactly when their part lists are equal and not empty |
| Families.FineTuneNeverJoins | identity/identity.go:159-211 | over all token lists a further token leaves the family as it was exactly when it is packaging, a role already there, or a name token already there or equal to the base, and not the version a lone base waits for |
| Families.TunedNameDiffers | identity/identity.go:15-26 | over all names and all tokens written at the end with any separator: the family stays exactly when the token is absorbed by a run, or is represented, or closes a shard whose index and "of" were represented |
| Families.TwoTokensJoinExactly | identity/identity.go:159-211 | two further tokens leave the family exactly when each is represented in its turn |
| Versions.VersionExactly | identity/identity.go:232-243 | a version is an optional v, a digit, and digits and points, and nothing else is |
| Versions.VersionMerges | identity/identity.go:190-195 | the parts of a name and its version are those of the two written as one |
| Versions.OthersStandAlone | identity/identity.go:190-195 | a second name token that holds anything else is a part behind the base |
| Versions.VersionJoinsExactly | identity/identity.go:172-211 | over token lists, a second token gives the family of the two written as one exactly when it is of that shape |
| Versions.VersionedNamesAreSame | identity/identity.go:15-35 | over whole names, "w-v-..." and "wv-..." have one family exactly when v is of that shape, and always one quant |
| Versions.ParamsExactly | identity/identity.go:245-273 | the shape of a parameter count, and nothing else is one |
| Versions.LevelExactly | identity/identity.go:275-286 | a level is an optional i, a q and digits, and nothing else is |
| Versions.LevelTakesTails | identity/identity.go:136-157 | a level takes exactly the tails after it, and with them is the quantisation |
| Versions.BlockTakesFormat | identity/identity.go:144-147 | a block word takes the token after it exactly when that has four characters or more, an e first and an m in it |
| Versions.UdBelongsToRun | identity/identity.go:136-157 | "ud" belongs to a run right after it and to nothing else |
| Versions.LastQuantWins | identity/identity.go:15-26 | the quant of a name is that of its last part that has one |
| Versions.ParamsComeFirst | identity/identity.go:195-211 | behind the base the parameter counts stand before everything else |
| Families.BlockFormatIsAbsorbed | identity/identity.go:144-147 | after a block word any token that reads as a block format is dropped |
| Families.FineTuneCanJoin | identity/identity.go:293-298 | with the real tables "llama-fp8-ember" has the family of "llama-fp8", though "ember" is nowhere in it |
| Families.QuantLeavesFamily | identity/identity.go:15-26 | writing any quant run after any part of a name leaves the family as it was |
| Families.PlaceIsFree | identity/identity.go:172-211 | packaging anywhere changes nothing, a role anywhere changes only the set of roles |
| Families.RoleAtEitherEnd | identity/identity.go:326-332 | a name's one role gives the same family wherever it stands |
| Families.InterleavingIsFree | identity/identity.go:190-210 | after the settled base only the order among parameters and the order among variants matter |
| Families.ComponentExactly | identity/identity.go:213-230 | answers exactly when there is a name and one distinct role; then the family is base, dash, role, and the base is the family of the tokens without the role |
| Families.TokensAgreeExactly | python/abstraction_model.py:52-59 | for every name Go keeps no fewer tokens than Python, and the same exactly when no shard in it wraps |
| Families.ImplementationsAgree | python/abstraction_model.py:52-59 | over all names: the same quant; the same segments, and the same kept tokens, exactly when no shard wraps, and then the same name; the same name exactly when the base parts are the same |
| Families.ShortNamesAgree | python/abstraction_model.py:52-59 | with digit runs of at most 18 digits nothing wraps and every name is the same |
| Families.NamesDiffer | identity/identity.go:122-134 | with the real tables the part "2^64-of-2^64", written out, has no family in Python and one in Go |
| Families.SplitParts | identity/identity.go:172-211 | the two loops over Go maps give the base parts and the roles |
| Families.AssembleGo | identity/identity.go:159-166 | the family of the tokens, and the quant |
| Families.ComponentGo | identity/identity.go:219-230 | the component of a name, or two empty strings |
| Families.ParseGo | identity/identity.go:15-26 | family and quant of a name from its parts, the last quant winning |
| Families.AssemblePy | python/abstraction_model.py:161-185 | the Python assembly gives the same family |
| Families.ParsePy | python/abstraction_model.py:52-59 | the Python parse gives the same name from the same parts |
| Hosts.StepKeepsInv | go/service/service.go:50-165 | every step of every thread keeps the lock, close-once, slot, wait-group, configuration and log invariants |
| Hosts.HostIsSafe | go/service/service.go:105-165 | in every run: slots equal the connections admitted and not released plus the one being started, and are at most 32; a connection is dropped only with exactly 32 admitted and not released, and admitted only with fewer; one Serve is let in; the listener is shut once; OnStopped, if set, runs once after that and before the end; the end comes only when every worker has left |
| Hosts.ConfigurationIsFrozen | go/service/service.go:50-84 | once serving, policy and applier never change |
| Hosts.CallsSeeOneConfiguration | go/service/service.go:190-196 | any two calls of a run are decided by the same policy and applier |
| Hosts.LateEnableIsRefused | go/service/service.go:50-84 | an Enable not past its check when the host serves or its close has begun, or with a nil value, is refused in every continuation |
| Hosts.CloseFreezesExactly | go/service/service.go:50-109 | from any state after a close began, no continuation changes the configuration exactly when no Enable stands before a write that would change it |
| Hosts.CloseDoesNotFreeze | go/service/service.go:105-109 | a run from the start in which Enable succeeds after the close began |
| Admissions.OfferIsDecided | go/service/service.go:135-142 | in every reachable state with a connection in hand: with fewer than 32 admitted and not released it can be let in by any unused worker, and with 32 it is dropped |
| Admissions.AllAreAdmitted | go/service/service.go:135-142 | from the start any number of connections up to 32 can be let in at once |
| Admissions.EnableIsDecided | go/service/service.go:50-84 | an Enable before its check sets its value and answers true exactly when the host neither serves nor is cancelled and the value is one |
| Admissions.FailureIsReported | go/service/service.go:128-134 | in all runs what a Serve reports is whether its listener failed with neither the context ended nor a close begun |
| Admissions.ShutIsCancelled | go/service/service.go:105-109 | in every reachable state a listener that was shut fails without being reported |
| Liveness.HostNeverBlocks | go/service/service.go:105-165 | in every reachable state a step that needs nothing from outside can be taken exactly when some thread is neither through nor waiting for the listener |
| Liveness.RunsAreBounded | go/service/service.go:105-165 | every run, from any state, takes no more steps than its threads have left, twelve for each call from outside and eleven for each connection |
| Liveness.HostComesToRest | go/service/service.go:105-165 | in every reachable state: nothing but a call or a connection can happen exactly when every thread is through, and then lock, slots and wait group are free, whoever was admitted has left, and a host that served is shut and its Serve has returned |
| Patches.Apply | tools/windows_go_sdk.py:105-124 | the nested loops compute the outcome of the two mutually recursive functions, Python slices and negative indices included |
| Patches.UsualHeadersReadRight | tools/windows_go_sdk.py:113 | the header reader reads the old side's number of a unified header, with or without counts of one and with any note after it, and takes no hunk line for a header |
| Patches.DiffSplices | tools/windows_go_sdk.py:109-124 | for ordered, non-overlapping hunks with an old side each: success exactly when every context and deleted line matches, and then each old side replaced by its new side |
| Patches.EditedBothWays | tools/windows_go_sdk.py:109-124 | edited lines read backwards are the reversed edits |
| Patches.SwappedDiffRestores | tools/windows_go_sdk.py:109-124 | the diff with + and - swapped at the new starts restores the file |
| Insertions.DiffLands | tools/windows_go_sdk.py:109-124 | over all ordered diffs, with hunks of any sides and from any position of the loop, what the loop gives; a hunk without an old side is placed a line early |
| Insertions.LagsByOne | tools/windows_go_sdk.py:113-114 | after an insertion the loop gives the line before once more |
| Insertions.DiffIsRightExactly | tools/windows_go_sdk.py:109-124 | for every ordered diff that fits: the loop gives what it means exactly when each insertion, those at one place taken together, is below a line no hunk touched and only copies it, or is at the top, the next hunk begins at the last line, and the lines above that commute with the new ones |
| Insertions.InsertionGoesWrong | tools/windows_go_sdk.py:113-114 | of the loop alone: one line added after the first of two lands before it |
| Insertions.TouchingGoesWrong | tools/windows_go_sdk.py:113-114 | of the loop alone: a copy of a replaced line added right below it brings the old line back as well |
| References.String | go/ref.go:32-56 | the print reads back as the reference exactly when it is an hf or ollama reference of the surviving kind |
| References.ParseHF | go/ref.go:80-116 | reads organisation, name, revision, file and quant, or says what is missing |
| References.ParseOllama | go/ref.go:119-133 | reads name and tag, the default tag included |
| References.ParseRef | go/ref.go:60-74 | trims, finds the scheme and reads the rest by it |
| References.PrintReadsBackExactly | go/ref.go:32-133 | over all references, parsing the print gives the same reference exactly under the stated conditions on an hf or an ollama reference |
| References.ReadPrintsBackExactly | go/ref.go:60-116 | a parsed hf reference survives printing exactly unless it has both file and quant, an unpinned file with "@", or a print that ends in white space |
| Locators.HFReadsExactly | go/ref.go:80-116 | over all texts, an hf reference is read as the pieces it is written from, a file at a revision before a path |
| Locators.OllamaReadsExactly | go/ref.go:119-133 | over all texts, an ollama reference is a name with the tag "latest", or a name and what follows its last colon |
| Locators.SchemesExactly | go/ref.go:60-74 | a text with a scheme is read by it, or refused as unsupported |
| Locators.NoSchemeIsRefused | go/ref.go:60-74 | a text without a scheme is refused |
| Locals.Find | go/local.go:60-74 | exactly the stored copies that have a path, in order |
| Locals.Augment | go/local.go:83-114 | the loops over a map give the copies in front of the unchanged sources |
| Locals.CopiesAre | go/local.go:98-111 | one file source for each hit place not yet named and no other, keys distinct, priorities -100, -99 and so on |
| Locals.AugmentKeepsAndNames | go/local.go:112-113 | the registry's sources are an unchanged suffix; a place is named exactly when it was or a hit has it |
| Locals.AugmentIsIdempotent | go/local.go:83-114 | a second merge over the same stores and keys changes nothing |
| Locals.CopiesLeadExactly | go/local.go:105-110 | every copy is below a priority p exactly when there is no new place among the hits or there are at most p + 100 |
| Locals.CopiesRunOut | go/local.go:105-110 | with copies in 101 places the last is level with a registry source of priority 0 |

## Left out

- The imported request codec and the transport: parameters; a transport is a function from frame to answer.
- The record decoders one by one: the generated decoders differ only in their tables, so one decoder runs over a schema,
  with the names decoded so far in place of the `seen` bitmask.
- `ManifestResult`, the `ModelManifest` client and dispatcher: the same template over another table.
- `DescribeEndpoint`, `ServeEndpoint`, `WriteFrame`, `ServiceName`: the endpoint's own answer is a parameter of the dispatcher.
- `strs`, `rawmap`, `strList`, `rawMap`, sorted keys: not used by the modelled records.
- The trailing newline of `EncodeRef` and the whole-buffer `DecodeRef`: the forms with a depth are modelled.
- Records printed inside records: the printers take the inner record's bytes and append them, where the source appends in
  place; the bytes are the same.
- The C++, Rust and JavaScript codecs, and the rest of the Python one: further copies of the same definition. The bytewise
  part of the Python string reader is the one of `Readers.Reader`.
- `parts` and `_parts`: lower-casing, trimming, publisher and extension handling; the model starts at the part strings.
- Identity.DigitsGo: tokens are taken as ASCII; what Python's isdigit and int accept beyond ASCII digits is not modelled.
- Identity.TokensPy: is total, where `_digits` (python/abstraction_model.py:139-140) calls `int`: a current CPython raises
  ValueError for more than 4300 digits unless told otherwise, so a part such as 5000 digits and "-of-3" has no Python name.
- Families.ParsePy: total for the same reason; the agreement of the two implementations is stated for a Python without that limit.
- `Shard` and `shard`: the first shard of a name, which only adds a search.
- The two scanning loops share one method for a turn, as their bodies differ only in index arithmetic.
- Raw.Reindent: is stated for inputs on which no slice panics; on the others the function it computes answers none. Walked
  values are never such inputs (`Raw.ReindentKeepsTokens`).
- Time limits, peer identity, operating-system principals and what a call answers: steps with any outcome.
- The context's own cancel hook of Serve: any thread may call Close at any time, which includes it.
- Panics of a handler in the host, and calling Serve's hooks that never return.
- Patches.Apply: the hash checks, which let only the pinned diff and file through, decoding and splitting into lines are outside; header numbers are ASCII digits with an optional
  sign, where Python's int also takes underscores and other digits; white space is blank, tab, line feed, carriage return.
- `HF.Resolve`, `Ollama.Resolve`, credentials, `pick`, `lookup`, the store scan behind `Find`, `SameVolume`, command-line tools.
- Priorities and hit counts are unbounded integers.
