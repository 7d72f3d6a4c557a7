# sqlite-server in Dafny

A model of the SQLite server and its two clients, with proofs of what they promise. A client binds
values into SQL text and sends length-prefixed JSON requests; the server admits peers by a CIDR
whitelist, reads requests (repairing unquoted keys), gates them by a password, runs them on cached
database handles under a semaphore, and replies in frames; the client decodes rows and blobs.

Check everything with `dafny verify dfyconfig.toml`.

## How the files fit together

| part | files |
|---|---|
| text, decimals, hex | `Basics`, `Decimal`, `Hex` |
| client-side binding | `SqlLexer` (SQLite's tokenizer as an automaton), `SqlBinder` (Rust client), `SqlPython` (Python client), `SqlLiterals`, `SqlMeaning`, `SqlSpoilers`, `SqlMinus`, `SqlExactness` |
| whitelist | `Cidr` (bytes and masks), `CidrArithmetic` (prefix arithmetic), `Whitelist` (text), `WhitelistCsv` (the option) |
| requests | `KeyRepair` (the regular expression as a rewriter), `JsonReader` (strict RFC 8259 reader), `JsonGrammar`, `JsonStrings`, `JsonNumbers` (the grammar that it is proved exact for), `LenientJson`, `LenientProofs`, `JsonText` (escapes) |
| one connection | `JsonValue`, `Tables`, `Names`, `HandlerSpec` (a request as a function), `Handler` (the object), `Cache`, `CacheExamples`, `Framing`, `Wire`, `Streams`, `Connection` (the loop) |
| the server | `System` (interleaved steps), `Reception` (what can always happen next), `Permits`, `Gating`, `Freshness`, `Service` (framing and replies), `History`, `Uninterrupted`, `Aliases`, `Server` (accept loop) |
| client to server | `Client` (calls and their texts), `Replies` (what the client makes of the answers), `EndToEnd` |

**Binding.** `SqlMeaning.Safe` is the side condition for a number of parameters: every placeholder that
so many parameters bind starts after a complete token and is followed by the end or by a character no
literal runs into; a placeholder without a parameter is ordinary text, and nothing after a NUL
matters. A safe template keeps its meaning for all NUL-free values, and `SqlExactness.SafetyIsExact`
shows for every number of parameters that no weaker condition would do: any other template loses its
meaning for some values. Most misplaced placeholders are lost for a value whose literal runs into its
neighbour (`SqlSpoilers`). A placeholder right after a minus sign is fine with 1 and starts a comment
with -1; there the tokens read and the tokens expected cannot agree for both -1 and -11 (`SqlMinus`).
A finite float is any decimal with optional fraction and exponent, which covers what either client
prints.

**One request.** A handle is a file identity and a scratch state: its open transaction, temporary
tables and attached files. A statement sees the whole folder and its handle and yields what it
writes, in its own file or others, the entries it creates, and the new scratch state. Files are
identities with contents, so a name deleted and created again is another file. `Handler` is a class
with the source's two fields, proved against `HandlerSpec.Handle`. What a statement may touch besides
its own file is settled by `HandlerSpec.RequestTouches`, with `VACUUM INTO` as an example
(`HandlerSpec.VacuumTouchesAnother`).

**The cache.** `Cache` compares a connection with a reference that reopens its database on every
request. On plain names, and statements that leave the journal mode alone, the two agree after every
request if and only if no statement that runs on a cached handle minds its scratch state. `BEGIN` and
`COMMIT` in two requests (`CacheExamples.TransactionsNeedTheCache`), and a request after
`PRAGMA journal_mode=DELETE` (`CacheExamples.JournalModeShows`), are runs on which they differ.

**Answers.** `Replies` reads each reply as the client does and says what the call has done. The history
records what every handler step did and what came of it (`History.HistoryIsTrue`), and every reply
tells what the history records for its request, whatever others did in between
(`Service.OutputIsExact`).

**The server.** A state holds any number of connections, each with its byte streams, the free permits,
the first-in first-out queue of waiting connections, the folder and a history of what handlers did to
it. Bytes arrive in any pieces at any time. A handler call is several steps (gate, open, run, list,
remove, forget, return), and every other connection may act in between. A reply is written in pieces
of any size. The results of `Permits`, `Gating`, `Freshness`, `Service`, `Server` and
`EndToEnd.OnlyWhatWasAsked` hold for every run from an initial state, whatever the interleaving.
`Cache`, `Connection` and `Uninterrupted` are about one connection that nobody interrupts;
`Uninterrupted.ServesOneFrame` ties the two views together.

**Foreign behaviour** is a parameter (`HandlerSpec.Engine`): decoding, reading and encoding JSON (where
the reader matters, `Client.Reads` says that it is the one of `LenientJson`), reaching a file, the
pragmas of a new handle, running a statement, `remove_file`, directory order. What its types assume is
that a statement removes no entry of the folder, that what it does depends on the folder's committed
contents and its handle alone, and that closing a handle commits nothing. IPv6 text is a parser and
printer assumed to round-trip and to use only hexadecimal digits, colons and dots (`Whitelist.V6Text`).
The semaphore is assumed to serve waiters in order of arrival. Bytes are numbers below 256; the two
halves of one and their joining are the source's shifts and masks (`Hex.BitsAgree`).

## Where code and documentation differ

The model follows the code.

- README.md (Database name rules) says path separators in `db` are rejected. The check counts path
  components, so `a/` and `a/.` pass as second names of `a` (`Names.SeparatorNames`). Each is a cache
  key of its own, `remove_file` fails on it, and deleting `a` leaves the handle cached under `a/` on a
  file that is gone (`Aliases.AliasOutlivesOwnDeletion`).
- README.md (Authentication) says a combined `auth` and `cmd` message only authenticates. That holds
  when it carries the right password; on a connection already authenticated a wrong one is ignored
  and the command runs (`HandlerSpec.GateExact`).
- `(any)`, shown for an empty whitelist, is not itself a valid whitelist (`Whitelist.WhitelistRoundTrip`).
- The Python blob pattern ends in `$` and so also accepts a literal followed by one newline
  (`Hex.DecodersAgree`). Its `_recv_data` reports an empty body as no answer (`Streams.Stream.ReceiveData`).
- A body of 2^32 bytes or more gets a truncated length (`Framing.FrameRoundTrip`).

## Model

| member | source | states |
|---|---|---|
| SqlMeaning.BindingPreservesMeaning | examples/rust/client.rs:92-141 | For every list of NUL-free values and every template that is safe for so many, tokenizing the bound SQL gives the template's tokens with each bound placeholder replaced by its value's literal tokens and all others unchanged |
| SqlExactness.SafetyIsExact | examples/rust/client.rs:117-141 | For every template and every number n: meaning is preserved for all lists of n NUL-free parameters if and only if the placeholders that n parameters bind are well placed |
| SqlExactness.FewerAreSafe | examples/rust/client.rs:117-141 | A template safe for n parameters is safe for fewer |
| SqlExactness.SafeForAll | examples/rust/client.rs:117-141 | No parameter list of any length spoils a template if and only if it is safe for as many parameters as there can be |
| SqlSpoilers.Spoils | examples/rust/client.rs:117-141 | Of the placeholders that n parameters bind, the first misplaced other than by a minus sign is lost for some NUL-free value, whatever the rest of the template |
| SqlMinus.ActualLags | examples/rust/client.rs:92-141 | With bound placeholders misplaced only by minus signs, the tokens read grow by less than one character for each of them between the values -1 and -11 |
| SqlMinus.ExpectedGrowth | examples/rust/client.rs:92-141 | The tokens expected grow by exactly one character for each bound placeholder |
| SqlMeaning.LeftSafeIsExact | examples/rust/client.rs:92-113 | From a reachable tokenizer state every NUL-free literal is read as its own tokens if and only if the state is left-safe |
| SqlMeaning.RightSafeIsExact | examples/rust/client.rs:92-113 | A following character leaves every NUL-free literal intact if and only if it is right-safe |
| SqlMeaning.NulFreeIsExact | examples/rust/client.rs:92-113 | A value's literal is read as its tokens if and only if the value holds no NUL |
| SqlLiterals.ScanText | examples/rust/client.rs:109 | A text literal is self-delimiting: scanning stops exactly at what follows it, unless that is a quote |
| SqlLiterals.UnescapeEscape | examples/rust/client.rs:109 | Undoing the doubled quotes gives back the text |
| SqlLiterals.LiteralDenotesValue | examples/rust/client.rs:92-113 | Reading a literal's tokens by SQLite's literal rules gives the bound value, with booleans as 0 and 1, NaN as NULL, and a finite float printed without fraction and exponent as an integer when it fits 64 bits |
| SqlBinder.Bind | examples/rust/client.rs:117-141 | The left-to-right pass with its counter renders every placeholder by its rank or its number and keeps everything else |
| SqlPython.LiteralsAgree | examples/python/sqlite.py:335-360 | The Python serializer, with its checks by type and its quote replacement by pieces, writes the same literal as the Rust one |
| SqlPython.Prepare | examples/python/sqlite.py:300-333 | The Python pass, which consumes an iterator, gives the same text as the Rust client, and raises an error exactly if some `?N` has more digits than `int` takes |
| SqlPython.BindersAgree | examples/python/sqlite.py:300-360 | From any common point on both clients send the same text, with leading zeros, `?0` and indices beyond a machine word included, if and only if no `?N` has more digits than `int` takes |
| SqlBinder.BindIsDeclarative | examples/rust/client.rs:117-141 | Bare placeholder number k takes parameter k, `?N` takes parameter N without moving the counter, and whatever has no parameter stays |
| SqlBinder.BindConcat | examples/rust/client.rs:117-141 | Binding two parts, the second from the counter the first leaves, binds the whole if the cut goes through no placeholder |
| SqlBinder.NoParamsNoChange | examples/rust/client.rs:310-314 | Skipping the binding when there are no parameters changes nothing |
| KeyRepair.MatcherIsExact | src/handler.rs:297-300 | The key pattern fits at a place in at most one way, and the matcher finds it |
| KeyRepair.RewrittenIffKeyed | src/handler.rs:293-299 | A colon is rewritten if and only if its own left context is an alphanumeric, or one with a quote after it |
| KeyRepair.RepairIsIdempotent | src/handler.rs:293-299 | Repairing any string twice is repairing it once |
| LenientProofs.QuietDocumentsAreRepaired | src/handler.rs:288-300 | Any document whose rendered strings hold no key-like colon is repaired to exactly its strict form, whatever the quoting style of each key |
| LenientProofs.RequestMeaning | src/handler.rs:288-300 | A printed document, with any white space around, with numbers in a double's range and surrogates in pairs, is understood as its meaning if it is nested less than 128 deep and all its keys are in double quotes or its strings hold no key-like colon, and refused otherwise |
| LenientProofs.StylesAgree | src/handler.rs:288-300 | For such quiet documents the lenient and the strict print are read alike: as the meaning, or refused if nested too deep |
| LenientProofs.NestingIs127 | src/handler.rs:288-300 | Arrays in arrays are understood up to a depth of 127 and no deeper |
| LenientProofs.ReadPrinted | src/handler.rs:289-291 | The strict reader accepts a printed document exactly when all its keys are in double quotes and it is not nested too deep, and then reads its meaning |
| JsonGrammar.ReaderIsExact | src/handler.rs:289-291 | The strict reader returns a value for a text if and only if the grammar of RFC 8259, with white space between any two tokens, derives the text, nested no deeper than 127, and the value is what the derivation denotes |
| JsonGrammar.RequestIsExact | src/handler.rs:288-300 | Any request whatever is understood as what the grammar derives it with or, if the grammar does not derive it, as what it derives the repaired text with, and refused otherwise |
| JsonStrings.StringsAreExact | src/handler.rs:289-291 | A text between quotes is a string, and that string, if and only if the grammar spells the string by it: plain characters, escapes by a letter, by four digits and by pairs of surrogates |
| JsonNumbers.NumbersAreExact | src/handler.rs:289-291 | The reader takes a text for a number if and only if the grammar of RFC 8259 produces it |
| JsonNumbers.RangeIsExact | src/handler.rs:289-291 | A number is in range if and only if its digits, scaled by its exponent, stay below half a unit above the largest double |
| JsonText.LastMemberCounts | src/handler.rs:289-291 | Of several members with one key the last counts |
| JsonText.KeysOfMembers | src/handler.rs:289-291 | The keys of an object are those of its members and no others |
| JsonText.ClientStringsAreRead | src/handler.rs:289-291 | A string that either client escapes, with short escapes, `\u` escapes and pairs of surrogates, is read back as it was, whatever its characters |
| Client.CallIsUnderstood | examples/rust/client.rs:295-340 | Each request a client makes, in the Rust or the Python client's order, spacing and escapes, is understood by the server as it was meant |
| Client.CallIsGated | src/handler.rs:51-82 | The gate takes a client's request for what it asks for: a login succeeds exactly with the right password, and any other call goes to its command exactly if no password is set or the connection has logged in |
| CidrArithmetic.MaskedEqIsLeadingEq | src/config.rs:104-117 | The byte-and-mask comparison holds if and only if the leading prefix bits are equal as numbers |
| CidrArithmetic.MaskInPlace | src/config.rs:121-131 | Zeroing host bits in place subtracts the address's remainder by the size of the network |
| CidrArithmetic.CanonicalIsFloor | src/config.rs:120-144 | Canonicalising rounds the address down to a multiple of the network's size, once and for all |
| CidrArithmetic.MembershipIsPrefixArithmetic | src/config.rs:59-144 | Membership in the canonical network of an address holds if and only if both addresses have the same family and the same quotient by 2^(width - prefix) |
| CidrArithmetic.MembershipIsInterval | src/config.rs:83-94 | Membership is lying in the interval from the network address to its last address |
| CidrArithmetic.CanonicalisationIsHarmless | src/config.rs:119-144 | Zeroing the host bits of the stored address changes no membership |
| CidrArithmetic.Laminar | src/config.rs:83-94 | Two networks with a common address are nested |
| CidrArithmetic.AllowedIsUnionOfIntervals | src/config.rs:31-33 | With a non-empty whitelist an address is allowed if and only if it lies in one of the intervals, whatever their order or repetitions |
| Whitelist.V4RoundTrip | src/config.rs:69 | A text parses to an IPv4 address if and only if it is that address's dotted quad |
| Whitelist.EntryMeaning | src/config.rs:59-94 | Address text with any prefix text parses, exactly if the prefix reads as a number that fits, to a network whose members are the addresses with the same leading bits |
| Whitelist.PrefixIsExact | src/config.rs:66-71 | A prefix is digits for a number below 256, leading zeros allowed, after a plus sign or none; no other text is one |
| Whitelist.BareAddressMeaning | src/config.rs:66-71 | A bare address parses to a network of that address alone |
| Whitelist.ParsedIsValid | src/config.rs:59-80 | Every parsed network has a prefix within its width and a canonical address |
| Whitelist.NetworkRoundTrip | src/config.rs:59-101 | A valid network's text parses back to it |
| Whitelist.WhitelistRoundTrip | src/config.rs:36-154 | A list of valid networks is recovered from its representation if and only if it is not empty |
| Whitelist.ReprLists | src/config.rs:36-44 | The representation names the networks in order as address, slash and prefix, with a comma and a blank in between |
| WhitelistCsv.CsvMeaning | src/config.rs:146-154 | The whitelist option is read as the networks of its non-blank entries, in order, whatever blanks stand around them, or refused with the first entry that is no network |
| WhitelistCsv.BlanksAreWhiteSpace | src/config.rs:146-154 | Blanks are exactly the 25 characters that Unicode gives the property White_Space |
| WhitelistCsv.AnyCsv | src/config.rs:148-153 | Every text is such a list of entries with blanks around them |
| WhitelistCsv.DefaultAdmitsAll | src/config.rs:200-203 | The default option is the empty whitelist, which admits everybody |
| Hex.EncodeIsPositional | src/handler.rs:262-270 | Byte i is written as two lower-case digits, the high one first |
| Hex.ToHex | src/handler.rs:262-270 | The push loop writes two lower-case digits for each byte |
| Hex.DecodeBlobLiteral | examples/rust/client.rs:381-401 | The checks and the digit loop compute the specified decoder |
| Hex.RustDecode | examples/rust/client.rs:381-410 | A string is accepted exactly if it is `X` or `x`, a quote, an even number of hex digits of either case, and a quote |
| Hex.BlobRoundTrip | src/handler.rs:258-270 | Either client decodes the server's blob text to the original bytes |
| Hex.Normalise | examples/rust/client.rs:370-410 | Re-encoding an accepted literal gives its lower-case form, which decodes to the same bytes |
| Hex.DecodersAgree | examples/python/sqlite.py:20-45 | The two decoders agree on a string unless it is a literal followed by one newline |
| Hex.EncodeDecode | examples/rust/client.rs:390-410 | Decoding succeeds exactly on an even number of hex digits, and re-encoding gives the lower-cased text |
| Tables.CellIsRead | src/handler.rs:246-260 | Every reader of the client's rows takes an encoded cell for what it is: integers, floats and texts as themselves, NULL and non-finite floats as null, a blob as its bytes, and nothing as anything else, except that a text written like a blob literal is also read as one |
| Tables.AbsentIsRead | examples/rust/client.rs:152-175 | A column that a row does not have is null to one reader and nothing to the others |
| Tables.NoScalar | examples/rust/client.rs:218-226 | A result without rows, or whose rows have no columns, has no scalar |
| Tables.ScalarWithoutColumns | examples/rust/client.rs:218-226 | Of a payload without a column list `scalar` is the value of the first key of its first row |
| Tables.BuildPayload | src/handler.rs:121-136 | The row loop builds the payload from which the client reads the columns in order, the number of rows, and under each name the cell of its last column |
| Tables.RowObjectLastWins | src/handler.rs:125-132 | A row object has the column names as keys, and each is read as the cell of the last column of that name |
| Tables.TableSurvives | examples/rust/client.rs:150-204 | With distinct names the client reads the columns in order, the number of rows, none included, and every cell as what it is |
| Tables.RepeatedNames | examples/rust/client.rs:150-204 | With repeated names the client reads each name as its last column's cell |
| Tables.ScalarIsFirstCell | examples/rust/client.rs:218-226 | `scalar` is read as the first cell of the first row exactly if no later column repeats the first name's, and otherwise as the last such cell |
| Tables.BlobSurvives | examples/rust/client.rs:199-204 | A blob cell comes back as the bytes that were stored |
| Names.SafeNamesStayInside | src/handler.rs:201-220 | An accepted name always resolves to a plain entry directly in the folder |
| Names.PlainNames | src/handler.rs:201-220 | A name without separator is accepted if and only if it is not empty, `.` or `..`, and is its own entry |
| Names.SeparatorNames | src/handler.rs:201-220 | A name with a separator is accepted if and only if a plain component comes first and only empty or `.` components follow, and is never its own entry |
| HandlerSpec.HandleKeepsValid | src/handler.rs:40-82 | Every request keeps the folder consistent and every cached handle on an existing file identity |
| HandlerSpec.RequestTouches | src/handler.rs:40-196 | Opening touches the entry of the name and its file, and nothing if the handle is cached; the query's statement keeps to that file and entry if and only if it stays on its handle's file; a deletion touches at most its entry and no contents, and every other request, a refused one included, nothing |
| Handler.RequestHandler.HandleRequest | src/handler.rs:40-82 | The object's step on the folder, the flag and the cache, and its reply, are the specified ones |
| Handler.RequestHandler.HandleQuery | src/handler.rs:84-109 | The checks of a query in their order, then the query on the cached or a new handle |
| Handler.RequestHandler.RunQuery | src/handler.rs:111-137 | One statement runs on the handle, with its effect on the folder and on the handle's scratch state, and its table or error becomes the reply |
| Handler.RequestHandler.GetConnection | src/handler.rs:179-196 | The cached handle, or a file created on demand, tuned, and cached with a clean scratch state; a failure caches nothing, and a failed pragma leaves the file behind |
| Handler.RequestHandler.HandleDeleteDb | src/handler.rs:158-175 | A removed file's entry and its own handle go together; a failed removal changes nothing |
| Cache.CacheIsExact | src/handler.rs:158-196 | On plain names and statements that keep files tuned, a lone connection with its cache gives the same replies and files as a reference that reopens on every request, after every request, if and only if every statement that runs on a cached handle is indifferent to its scratch state; failing opens included |
| Cache.LoneConnection | src/handler.rs:158-196 | So the two runs agree where the statements sent ignore all scratch states that arise |
| Cache.ScratchShows | src/handler.rs:179-196 | For every engine: once a cached handle's scratch state makes a statement answer otherwise than a clean handle would, the replies of the two runs differ, whatever follows |
| Cache.RetuningShows | src/handler.rs:183-193 | For every engine: on a file that the pragmas would change again, a statement that writes nothing leaves other contents with the cache than with the reference |
| Framing.HeaderIsLittleEndian | examples/rust/client.rs:351 | The four length bytes have the least significant first |
| Framing.FrameRoundTrip | examples/rust/client.rs:349-363 | A frame is read back with nothing taken from what follows if and only if its body is shorter than 2^32 bytes |
| Framing.FramesAreRead | src/connection.rs:24-42 | Complete in-limit frames are read in order whatever incomplete or over-limit tail follows |
| Framing.StreamsDecompose | src/connection.rs:24-42 | Every byte stream is the frames of the requests read followed by a tail from which no request can be read |
| Streams.Stream.ReadExact | examples/python/sqlite.py:410-423 | Exactly the next n bytes however they are chunked, or nothing if the peer closes before that |
| Streams.Stream.ReceiveFrame | examples/rust/client.rs:356-363 | One frame is taken off the stream and nothing more |
| Streams.Stream.ReceiveData | examples/python/sqlite.py:393-408 | As the Rust client, but an empty body counts as no answer |
| Connection.Turn | src/connection.rs:27-61 | One turn of the loop reads only, when no request can be read, or handles one request and writes or loses its reply |
| Connection.HandleConnection | src/connection.rs:16-63 | When no other connection changes the folder, whatever the chunking, exactly the readable requests are handled, in order, and their replies framed and sent in order up to the first failed write |
| Connection.ExactService | src/connection.rs:24-62 | On such a connection a client that sends complete in-limit frames and reads frames back sees the replies to its requests in order, none invented, and all of them when writes succeed |
| Service.InputIsExact | src/connection.rs:24-43 | In every reachable state of the server the requests a connection has begun are the first complete in-limit frames of the bytes it received, in order, what follows them is unread, and a cleanly closed connection has begun them all |
| Service.OutputIsExact | src/connection.rs:49-61 | In every reachable state what a connection was sent is the frames of one reply for each request begun but the one in progress, in order, each telling what the history records for that request: the outcome of its statement, the failed opening, the names listed, the entry deleted or kept; during and after an unfinished write a part of one more, which the bytes still to be sent complete |
| Service.ClientSeesReplies | examples/rust/client.rs:356-363 | A client reading frames from what it was sent, in any reachable state, sees exactly those replies, and perhaps the one whose bytes are all out though its write has not returned |
| History.HistoryIsTrue | src/handler.rs:84-196 | Whatever the history records happened at a step of the run, on the folder and the handle as they then were: the statement's outcome is the engine's, the names are those of the folder, the entry was there |
| Reception.ArrivedIsRead | src/connection.rs:27-53 | In every reachable state a request that has arrived complete and within the limit can be read, however many wait; it executes at once if a permit is free, is otherwise the last in the queue, and what follows it stays unread |
| Reception.ArrivedIsAnswered | src/connection.rs:24-62 | In every reachable state the run can be extended so that such a request is answered and the connection reads on behind it |
| Reception.PeerIsTaken | src/server.rs:34-60 | Before the shutdown any peer can arrive, and gets a fresh connection exactly if it is admitted |
| Reception.BytesAreTaken | src/connection.rs:27-41 | Until the client ends its side any bytes can arrive, and wait behind those that have |
| Reception.EndIsTaken | src/connection.rs:27-41 | A client that has not ended its side can end it at any time |
| Reception.HandlerGoesOn | src/connection.rs:49-55 | An unfinished handler can always take its next step, which brings it closer to its end, and a finished one can always return |
| Reception.ReplyGoesOut | src/connection.rs:57-61 | Any number of the bytes still to be sent can always go out |
| Reception.ReplyIsDone | src/connection.rs:57-61 | A reply all of whose bytes are out is done, and the connection reads on |
| Reception.FailuresHappen | src/connection.rs:27-61 | A read, a write and the accepting of peers can each fail or end whenever they are under way |
| Reception.CloseWhenDone | src/connection.rs:27-43 | A connection from which no request can be read can close cleanly if and only if its client has ended its side or announced a packet over the limit |
| System.ApplyKeepsSound | src/server.rs:34-60 | Every step of every connection keeps the folder, all caches and the queue consistent |
| Permits.PermitsAreConserved | src/connection.rs:49-55 | In every reachable state free permits and holders make max(workers, 1), exactly executing connections hold one, and exactly waiting ones queue, each once |
| Permits.NeverStuck | src/connection.rs:49-55 | Whenever somebody waits, some handler can take a step, even with no workers configured and whatever clients do |
| Permits.ServedInTurn | src/connection.rs:49-55 | Along any run a waiting connection's place is its first place less the releases so far, and nothing but arriving bytes touches it |
| Permits.WorkIsPaid | src/connection.rs:49-55 | Meanwhile the handler steps are bounded by the work there was and four for each release |
| Permits.GrantedAfterReleases | src/connection.rs:49-55 | A request waiting at place k executes with its permit after exactly k + 1 releases |
| Permits.GrantedAfterWork | src/server.rs:13-15 | Any run with more than 4 * (max(workers, 1) + k) handler steps has started it |
| Gating.OnlyAfterThePassword | src/handler.rs:51-66 | In every reachable state whatever a connection did to the folder was asked for by one of its own requests and, with a password set, only after an earlier request of its own carried it; the flag says whether any did; every peer is whitelisted |
| Gating.FlagNeverFallsBack | src/handler.rs:54-63 | Along every run the flag never falls back and requests only accumulate |
| Freshness.HandlesAreFresh | src/handler.rs:158-196 | In every reachable state a cached handle is on the file the folder holds under its name if and only if nobody deleted the name since it was opened; for a plain name, if and only if no other connection did |
| Freshness.StatementsRunOnCurrentFile | src/handler.rs:111-137 | A statement on a plain name runs on the file of that name if and only if no other connection deleted it since this one opened it |
| Freshness.DeletedByOthersMeans | src/handler.rs:168-172 | The recursive reading of the history agrees with its plain one: a deletion by another connection with no opening after it |
| Aliases.AliasOutlivesOwnDeletion | src/handler.rs:158-196 | On a run with one connection that opens `a/` and deletes `a`, the handle for `a/` stays cached on a file the folder no longer holds |
| Uninterrupted.ServesLikeTheHandler | src/connection.rs:49-55 | The steps of a request that nobody interrupts end in exactly the request handler's folder, session and reply |
| Uninterrupted.ServesOneFrame | src/connection.rs:24-62 | A frame that arrives while nobody else acts is read, handled as the request handler says and answered by one frame, and the connection is ready for the next |
| EndToEnd.OnlyWhatWasAsked | examples/rust/client.rs:309-354 | In every reachable state, if the bytes a connection received are those of a client's framed calls, as far as they have arrived, then whatever the server did on it was asked for by one of those calls, after a successful login if a password is set; every statement that ran is that call's template with its parameters bound |
| EndToEnd.StatementKeepsMeaning | examples/rust/client.rs:309-318 | If the template is safe for its parameters, that statement has the template's tokens with each bound placeholder replaced by its value's |
| EndToEnd.CallIsServed | examples/rust/client.rs:295-354 | A call whose frame arrives while nobody else acts is done and answered by one frame, as the client reads it: a login succeeds exactly with the password, `delete_db` is true exactly if the entry was there and is gone, a list has the entries, and a query its outcome |
| EndToEnd.QueryIsServed | src/handler.rs:84-137 | A permitted query is answered with the outcome that the engine gives its bound statement on the handle of its name: every cell of the result set to every reader, or code, message and request; what the statement wrote is in the folder, and its scratch state in the handle |
| Replies.LoginIsAnswered | examples/rust/client.rs:295-305 | To the client a login succeeds, and authenticates the connection, if and only if its password is the configured one |
| Replies.LockedOut | src/handler.rs:54-63 | Before the login every other call is answered by an error and does nothing |
| Replies.DeleteIsAnswered | examples/rust/client.rs:338-341 | `delete_db` returns true if and only if the name was an entry before and is none after, and that is for exactly the plain names of entries that the system lets be removed |
| Replies.ListIsAnswered | examples/rust/client.rs:324-335 | `list` returns exactly the names the folder lists and that are no sidecar files, in that order |
| Replies.HandleMeans | src/handler.rs:179-196 | The handle of a name is the cached one, or one on the file of its entry, created empty if there was none, as the pragmas leave it; an unreachable file changes nothing |
| Replies.QueryIsAnswered | src/handler.rs:84-137 | A query runs its statement on that handle; its writes, its scratch state and its outcome are in the folder, in the handle and in the reply |
| Replies.BadQueryIsRefused | src/handler.rs:98-120 | A query on a name that is not accepted is refused with code 3, and a blank statement fails with code 21 |
| Replies.BadRequestIsRefused | src/handler.rs:68-103 | A request that cannot be carried out is refused with the code of its fault and changes nothing |
| Replies.NonsenseIsRefused | src/handler.rs:40-49 | A text that is not understood is answered with code 0, the reader's message and the text |
| Replies.CaseDoesNotMatter | src/handler.rs:68-82 | What a command does depends on its name in lower case, the database name and the statement alone |
| Replies.TableIsSeen | examples/rust/client.rs:231-242 | A result set is read as what it is and reports no error |
| Replies.SqlErrorIsSeen | examples/rust/client.rs:231-242 | An SQL error is reported to the caller with its message |
| Server.Run | src/server.rs:34-60 | The accept loop makes a connection for exactly the whitelisted peers, in order, until the shutdown signal |
| Server.AdmittedInOrder | src/server.rs:34-60 | A failed accept is passed over, a peer counts exactly if it is whitelisted, and nothing counts from the shutdown signal on |
| Server.PeersAreAdmitted | src/server.rs:34-60 | In every run, whatever connections do in between, the connections are those of the whitelisted peers in order of arrival, none after shutdown |

## Left out

- SqlMeaning.BindingPreservesMeaning: the tokenizer takes digit separators in numbers, and the `::` and `(..)` suffixes of Tcl-style variables, as other tokens than SQLite does.
- Tables.CellIsRead: `get_f64` of an integer is the integer, without the rounding of large ones to a double.
- SqlLiterals.LiteralDenotesValue: a finite float is given by the digits its client prints; which digits those are for a double, and that SQLite reads them back as the same double, is not part of this model.
- SqlPython.BindersAgree: finite floats that the clients print differently (`1` and `1.0`, for example), integers beyond 64 bits, which only Python has, values bound by way of `str`, and templates with non-ASCII digits, which `\d` matches in both languages.
- Cache.CacheIsExact: names that are aliases, and that other connections act in between; for those the results of `Freshness` hold.
- Handler.RequestHandler.RunQuery: locks that other handles hold on a file, and a busy timeout that they exhaust, are not part of what a statement's outcome depends on.
- Handler.RequestHandler.GetConnection: likewise, whether the pragmas succeed depends on the file's contents and not on locks.
- Connection.HandleConnection: that other connections change the folder between two requests; for any interleaving see `Service`.
- Connection.ExactService: the same.
- Permits.GrantedAfterReleases: assumes that the semaphore hands a dropped permit to the longest waiter, and that shutting down does not cut handlers short.
- Names.SeparatorNames: the lexical check only; the guard against symbolic links and Windows paths are not part of this model.
- Whitelist.WhitelistRoundTrip: IPv6 text syntax is assumed to round-trip.
- HandlerSpec.HandleKeepsValid: SQLite execution, locking, write-ahead logs and pragmas stay uninterpreted.
- LenientProofs.RequestMeaning: error messages are parameters, numbers stay as written, and one is refused as out of range exactly where correct rounding would make it infinite.
- UTF-8: request bodies are decoded by a parameter, and Python strings with lone surrogates are not strings here.
- Sockets, tasks and signals of the runtime beyond the step model, in particular that leaving the accept loop ends the process.
- Command line and configuration file, logging, endpoint resolution, the binary's entry point.
- Python's `struct.pack`, which refuses a body of 2^32 bytes or more where the Rust side truncates.
