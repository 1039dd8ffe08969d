# coredns-llm in Dafny

A model of the query path of the coredns-llm CoreDNS plugin, which answers TXT
questions with text from a language model:

- `Handler.ServeDNS` (handler.go) dispatches a DNS request:
  - no question is a format error;
  - a question other than TXT goes to the next plugin;
  - a TXT question whose name decodes to an empty prompt is a name error;
  - any other TXT question is put to the model once;
  - the answer, or the model's error as text, is written back as TXT records;
  - a failed write is a server failure.
- `decodeQName` (textutil.go) turns a query name into a prompt. The name is in
  the presentation form of section 5.1 of RFC 1035. The decoder drops the root
  dot and undoes the `\DDD` (decimal) and `\X` escapes. A separator dot or a
  0x1A byte becomes a space, and the result is trimmed.
- `splitUTF8ByByteLimit` (textutil.go) cuts the answer into chunks of whole
  code points whose UTF-8 encoding (section 3 of RFC 3629) fits in a byte limit.
  Code points too wide for any chunk are dropped.
- `addTXTChunks` (textutil.go) appends one TXT record per chunk. Records are
  numbered `[i/N] ` when there is more than one.

The modules follow the source:

| module | file | what it holds |
|---|---|---|
| `Utf8` | utf8.dfy | `byte`, rune lengths, the encoding of a code point and of a string |
| `Strings` | strings.dfy | `strings.TrimSuffix` and `strings.TrimSpace` on bytes |
| `Decimal` | decimal.dfy | the digits `%d` writes, and a parse that reads them back |
| `Dns` | dns.dfy | questions, TXT records, response codes, the `Msg` class |
| `Wrappers` | wrappers.dfy | `Option` |
| `QName` | qname.dfy | `decodeQName` |
| `Chunking` | chunking.dfy | `splitUTF8ByByteLimit` |
| `TxtAnswer` | txtanswer.dfy | `addTXTChunks`, and how a client reads the records back |
| `Handler` | handler.dfy | `Handler.ServeDNS` and the objects it talks to |

Each loop of the source is a method proved against a specification function:

- `QName.DecodeQName` is proved against `QName.Decoded`, a recursive reading of
  the escapes.
- `Chunking.SplitUtf8ByByteLimit` is proved against `Chunking.Split`: drop the
  code points that cannot fit, then repeatedly take the longest prefix that fits.
- `TxtAnswer.AddTxtChunks` is proved against `TxtAnswer.Records`.

Lemmas then state what the source promises of those functions.

The other objects of `ServeDNS` record how they were used:

- the model client (`ChatClient`) keeps the prompts it was asked;
- the response writer keeps the messages it sent;
- the next plugin keeps the requests it was handed.

So `ServeDNS`'s contract says exactly who was called, with what, and what was
written, for every outcome.

The escapes are decimal, as textutil.go reads them and its tests expect:
`\032` is a space, `\046` is a dot and `\049` is "1". The comment on
`decodeQName` (textutil.go:11) calls these escapes octal. The code reads three
decimal digits whose value is at most 255, and the model follows the code.

## Model

| member | source | states |
|---|---|---|
| `QName.DecodeQName` | textutil.go:13-47 | the byte loop, with its 1- and 3-byte index steps, returns exactly `Decoded(qname)`: the root dot dropped, escapes undone, the result trimmed |
| `QName.ScanSingle` | textutil.go:18-21 | one loop step on a plain byte: 0x1A and a separator dot append a space, any other byte appends itself, and the loop's invariant is kept |
| `QName.ScanDdd` | textutil.go:22-31 | one loop step on a `\DDD` escape worth at most 255 appends that byte, skips four bytes and keeps the invariant |
| `QName.ScanQuoted` | textutil.go:34-38 | one loop step on any other backslash before more bytes appends the next byte, skips two bytes and keeps the invariant |
| `QName.Decoded` | textutil.go:13-47 | the prompt is never longer than the name, is strictly shorter when the name ends in a dot, and neither starts nor ends with whitespace |
| `QName.Unescape` | textutil.go:16-45 | undoing the escapes never lengthens the text |
| `QName.UnescapeWithoutBackslash` | textutil.go:16-45 | without a backslash, every separator dot and every 0x1A byte becomes one space and every other byte is copied, position by position |
| `QName.UnescapeDdd` | textutil.go:22-31 | `\DDD` for any byte value yields exactly that byte, consumes four bytes and is not read again, so `\046` gives a dot, not a space |
| `QName.UnescapeQuoted` | textutil.go:34-38 | a backslash before a non-digit yields that byte (a dot, a backslash or 0x1A) whatever follows |
| `QName.UnescapeOutOfRange` | textutil.go:22-38 | a backslash before three digits worth more than 255 quotes only the first digit: `\256` yields "256" |
| `QName.UnescapePlain` | textutil.go:44 | bytes that are not a backslash, a dot or 0x1A are copied unchanged in front of whatever the rest decodes to |
| `QName.UnescapeShortTail` | textutil.go:22-38 | a backslash followed by only one or two bytes, whatever they are, quotes the first of them and leaves the rest to be read as usual (so `\..` yields ". " and `\1.` yields "1 "); a lone trailing backslash stays a backslash |
| `QName.DecodeRoot` | textutil.go:14-46 | the root name "." and the empty name both decode to the empty prompt |
| `QName.UnescapeByte` | textutil.go:16-45 | a label byte in its escaped presentation form decodes to that byte, whatever follows |
| `QName.UnescapeLabel` | textutil.go:16-45 | an escaped label decodes to the label, whatever follows |
| `QName.UnescapeLabels` | textutil.go:16-45 | escaped labels joined by dots decode to the labels joined by single spaces |
| `QName.DecodePresentName` | textutil.go:13-47 | any name written in presentation form decodes to its labels joined by spaces and trimmed (so "hello.world." asks "hello world") |
| `QName.DecodedRooted` | textutil.go:14-46 | a name whose labels unescape to text with nothing to trim decodes, once the root dot is added, to exactly that text |
| `QName.UnescapeHelloWorld` | textutil_test.go:12 | the labels of "hello.world." unescape to "hello world" |
| `QName.UnescapeWhatIsUp` | textutil_test.go:13 | the labels of `what\032is\032up.` unescape to "what is up" |
| `QName.UnescapeSlashDot` | textutil_test.go:14 | the label of `slash\046dot.` unescapes to "slash.dot" |
| `QName.UnescapeOctal` | textutil_test.go:15 | the label of `octal\049\050\051.` unescapes to "octal123" |
| `QName.DecodeHelloWorld` | textutil_test.go:10-22 | the test case "hello.world.", byte for byte, decodes to "hello world" |
| `QName.DecodeWhatIsUp` | textutil_test.go:10-22 | the test case `what\032is\032up.` decodes to "what is up" |
| `QName.DecodeSlashDot` | textutil_test.go:10-22 | the test case `slash\046dot.` decodes to "slash.dot" |
| `QName.DecodeOctal` | textutil_test.go:10-22 | the test case `octal\049\050\051.` decodes to "octal123" |
| `Strings.TrimSuffix` | textutil.go:14 | exactly one trailing dot is removed when there is one, and otherwise the name is unchanged |
| `Strings.TrimSpace` | textutil.go:46 | the result is the slice of the input between its leading and its trailing whitespace, and starts and ends with a non-space |
| `Strings.TrimSpaceUnchanged` | textutil.go:46 | text with nothing to trim is returned unchanged |
| `Strings.TrimSpaceIdempotent` | textutil.go:46 | trimming twice is trimming once |
| `Strings.TrimSpaceEmpty` | textutil.go:46 | the trimmed text is empty exactly when the input is all whitespace, the condition for a name error |
| `Utf8.RuneLen` | textutil.go:70 | a code point takes one to four bytes |
| `Utf8.EncodeRune` | textutil.go:78 | the bytes written for a code point are `RuneLen` many: a leading byte announcing that length, then continuation bytes |
| `Utf8.EncodeRuneRoundTrip` | textutil.go:78 | the bytes written for a code point decode back to it |
| `Utf8.EncodeLength` | textutil.go:74 | the builder's byte count is the length of the encoding of its code points |
| `Utf8.EncodeAppend` | textutil.go:78 | the encoding of a concatenation is the concatenation of the encodings |
| `Chunking.SplitUtf8ByByteLimit` | textutil.go:66-87 | the loop over code points, with its builder and byte count, returns exactly `Split(s, limit)` |
| `Chunking.SplitDrop` | textutil.go:71-73 | a code point wider than the limit is skipped and the loop's invariant is kept |
| `Chunking.SplitSeal` | textutil.go:74-77 | a builder that the next code point would overflow is non-empty and sealed as a chunk, keeping the invariant |
| `Chunking.SplitAppend` | textutil.go:78 | a code point that fits goes into the builder, whose byte count grows by its length, keeping the invariant |
| `Chunking.SplitEnd` | textutil.go:80-82 | at the end, the chunks sealed and the builder, when not empty, are all the greedy chunks |
| `Chunking.Split` | textutil.go:83-85 | there is always at least one chunk |
| `Chunking.Keep` | textutil.go:71-73 | skipping the code points too wide for a chunk never adds any |
| `Chunking.KeepFits` | textutil.go:71-73 | every code point that is kept fits in a chunk on its own |
| `Chunking.KeepAllFit` | textutil.go:71-73 | nothing is skipped when every code point fits |
| `Chunking.KeepAppend` | textutil.go:69-73 | the skipping works code point by code point: what is kept of a concatenation is what is kept of each part |
| `Chunking.FitLongest` | textutil.go:74-77 | the prefix taken fits in the limit, one more code point would not fit, and it is not empty when its first code point fits |
| `Chunking.GreedyConcat` | textutil.go:69-82 | the greedy chunks concatenate, in order, to the text they cut |
| `Chunking.GreedyChunksFit` | textutil.go:74-82 | every greedy chunk is non-empty and at most `limit` bytes |
| `Chunking.GreedyMaximal` | textutil.go:74-77 | every chunk but the last is sealed only because the first code point of the next one would overflow it |
| `Chunking.GreedyIsGreedyPartition` | textutil.go:69-82 | the greedy chunks cover the kept text with non-empty chunks of at most `limit` bytes, each one maximal |
| `Chunking.GreedyPartitionUnique` | textutil.go:69-82 | any partition with those properties is the greedy one, so the properties determine the result |
| `Chunking.SplitProperties` | textutil.go:66-87 | at least one chunk; the sole `""` exactly when nothing is kept; otherwise a greedy partition of the kept code points that reads back as them in order |
| `Chunking.ChunkEncodings` | textutil.go:74-82 | each chunk's encoding is at most `limit` bytes, and the encodings in order are the encoding of the kept text, so no code point is cut between records |
| `Chunking.GreedyRepeat` | textutil.go:74-82 | a run of one-byte code points is cut into full chunks of `limit` bytes and one last chunk with the rest |
| `Chunking.ThreeChunks` | textutil.go:66-87 | between two and three limits' worth of one-byte code points give two full chunks and a partial one |
| `Chunking.FiveHundredLetters` | textutil_test.go:26-31 | five hundred letters at a 200-byte limit give chunks of 200, 200 and 100 letters |
| `Decimal.Format` | textutil.go:59 | `%d` writes at least one digit, only digits, and a leading zero only for zero |
| `Decimal.ParseFormat` | textutil.go:59 | the digits `%d` writes read back as the number |
| `Decimal.FormatInjective` | textutil.go:59 | two different numbers never get the same digits |
| `TxtAnswer.EffectiveLimit` | textutil.go:52-54 | a limit that is not positive becomes the default 200; a positive limit is kept; the result is always positive |
| `TxtAnswer.Records` | textutil.go:56-63 | one record per chunk, each a TXT record named `qname`, class IN, TTL 0, with one character string |
| `TxtAnswer.AddTxtChunks` | textutil.go:51-64 | the answer section becomes the records that were there, unchanged, followed by one record per chunk of the text at the effective limit |
| `TxtAnswer.ParseNumbered` | textutil.go:59 | a text "[a/b] chunk" with digit runs `a` and `b` reads back as their values and the chunk |
| `TxtAnswer.LabelRoundTrip` | textutil.go:57-60 | when there are several chunks, record `i`'s text reads back as the 1-based index `i+1`, the total and the chunk |
| `TxtAnswer.ChunkOfRecord` | textutil.go:57-61 | a record made for chunk `i` of `total` carries that chunk, tagged or bare |
| `TxtAnswer.RecordsFrom` | textutil.go:56-63 | records `i` onwards read back as chunks `i` onwards |
| `TxtAnswer.RecordsRoundTrip` | textutil.go:56-63 | the records read back, in order, as the chunks they were made from |
| `TxtAnswer.AnswerRoundTrip` | textutil.go:51-64 | there is always at least one record, and joining what the records carry gives the text without the code points too wide for the effective limit |
| `TxtAnswer.ThreeRecords` | textutil.go:57-62 | three chunks are tagged "[1/3] ", "[2/3] " and "[3/3] " |
| `TxtAnswer.FiveHundredLetterRecords` | textutil_test.go:25-38 | five hundred letters at the default limit give three records, "[1/3] " and "[2/3] " with 200 letters each and "[3/3] " with 100 |
| `Dns.Msg.constructor` | handler.go:44 | a new message has no question and no answer, and is not a response |
| `Dns.Msg.SetReply` | handler.go:45 | the message becomes a response carrying the request's first question, and its answer section is untouched |
| `Handler.ChatClient.Chat` | handler.go:11-14 | the model is asked the prompt once, and the answer or error is what the model gives for that prompt |
| `Handler.ResponseWriter.WriteMsg` | handler.go:48 | the message is sent once, and the writer's outcome is returned |
| `Handler.NextHandler.ServeDNS` | handler.go:31 | the next plugin is handed the request and its result is returned |
| `Handler.Handler.constructor` | handler.go:17-21 | a handler holds the next plugin, the chunk size and the client it is given |
| `Handler.Handler.ServeDNS` | handler.go:25-52 | no question: FORMERR and nothing else; non-TXT: the next plugin's result, or SERVFAIL with "plugin/llm: no next plugin found" when there is none; empty prompt: NXDOMAIN; otherwise the decoded prompt is asked once and one reply is written with the TXT records of the answer or error text, and the write decides SERVFAIL or success; the model and the writer are untouched on every other path |
| `Handler.Handler.ServeTxt` | handler.go:34-51 | for a TXT question: NXDOMAIN with nothing asked or written when the name decodes to nothing; otherwise the decoded prompt is asked once and one reply with the TXT records of the answer or error text is written, and the write decides SERVFAIL or success |
| `Handler.Handler.Reply` | handler.go:40-51 | the reply written carries the request's first question and the TXT records of the answer or error text, and the writer's outcome decides SERVFAIL or success |
| `Handler.ReplyReadsBack` | handler.go:40-46 | the written records read back, in order, as the answer text less any code point too wide for a chunk; a failed completion reads as "Error: " followed by its message |
| `Handler.ErrorTextKept` | handler.go:40-42 | the "Error: " prefix survives chunking whatever the chunk size |

## Left out

- llm.go is not part of this model. It is an older version of the plugin that redeclares the handler and the text helpers. Its `decodeQName` reads `\DDD` as octal, which the current tests contradict (`\049` must give "1").
- openai_client.go, setup.go and config.go are not part of this model. They cover HTTP transport and JSON, Corefile parsing and environment variables, and the configuration defaults.
- The remote model is a function fixed when the client is built (`ChatClient.respond`). Which answer a prompt gets, and the context's deadline and cancellation, are outside the model.
- `plugin.NextOrFailure` is not part of this model's source. With a next plugin it is modelled as handing on the request. Without one it is SERVFAIL with the error text CoreDNS uses, "plugin/llm: no next plugin found". What the next plugin writes itself is not recorded.
- `dns.Msg.SetReply` is modelled only for the question section, the response flag and the untouched answer section. Header bits (id, opcode, recursion desired) and wire encoding are not modelled. Neither is the 255-byte limit of a single TXT character string, which miekg/dns enforces when packing.
- The error text `%v` prints for an error is taken as an opaque string (`ChatResult.Failure`'s message).
- Strings.TrimSpace: trims ASCII whitespace only; Go's strings.TrimSpace also trims Unicode spaces such as U+0085 and U+00A0.
- Chunking.SplitUtf8ByByteLimit: the answer is a sequence of Unicode scalar values; Go's `range` over invalid UTF-8 yields U+FFFD, which is not modelled.
- Integer widths: the chunk size and the byte counts are unbounded integers. Go's 64-bit `int` cannot overflow at these sizes. Query types are naturals instead of 16-bit values.
