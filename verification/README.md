# Stipple, verified

A model of the parts of Stipple, a firmware for a 52 by 16 pixel clock and its
web page and site tools, in which most can go wrong unnoticed, with proofs about
every input, every run and every reachable state. `dafny verify dfyconfig.toml`
checks all of it.

Each stateful component is there twice: as a class with the fields and loops of
the original (`JsonParser`, `HttpParser`, `DhcpClient`, `NotificationQueue`,
`ScriptFetcher`, `Canvas`, `Md5`, `Sound`, `Carousel`, `IconStore`,
`ConfigStore`), and as functions on its state, to which every method is tied.
What the component promises is proved about the functions, mostly in a module of
its own (`JsonAcceptance`, `JsonErrors`, `HttpCuts`, `DhcpRuns`, `DhcpPackets`,
`DhcpTimers`, `DhcpPolls`, `NotificationRuns`, `NotificationTimes`, `FetchRuns`,
`FetchBodies`, `Rotation`, `IconRoundTrip`, `ConfigRuns`).

| modules | part of the system |
|---|---|
| Bits, GifLzw, PreviewGif, WebGif | the two GIF compressors and the standard decoder |
| JsonGrammar, JsonReader, JsonSoundness, JsonCompleteness, JsonAcceptance | the grammar of RFC 8259 and what the reader accepts |
| JsonBeginnings, JsonLocality, JsonErrors | what its errors and their places mean |
| JsonTrees, JsonParser, JsonSights, JsonDocument | the token array, the tree it flattens, and finding one's way in it |
| Numerals, JsonText, JsonWriter | escapes and numbers, the writer, and that what it writes is read back |
| HttpResponse, HttpCuts, HttpRendering, HttpParser | the response parser, fed in pieces of any size |
| Dhcp, DhcpRuns, DhcpPackets, DhcpTimers, DhcpPolls, DhcpClient | the address lease, the packets that keep it, and what the platform loop shows of it |
| Notifications, NotificationRuns, NotificationTimes, NotificationQueue | who is shown and for how long, who waits, who makes way |
| ScriptFetch, FetchRuns, FetchBodies, ScriptFetcher | the fetch schedule of scripts and what they are told |
| Calendar, Line, Canvas, Checksum, Md5 | dates, Bresenham lines under a clip, CRC-32, MD5's buffering |
| Tone, Sound | tones and melodies as one stream of samples |
| AppRegistry, Rotation, Carousel, AppOrder | the apps, their rotation, and their stored order |
| Icons, IconRoundTrip, IconStore | the icon store and its saved form |
| ConfigRecord, ConfigRuns, ConfigStore | the stored settings through power cuts and damage |

Numbers are mathematical integers except where the original relies on wrapping
around (CRC, MD5's length, tone phases, transaction ids), and C++ division, which
rounds toward zero, is `TruncDiv`. Characters in texts stand for bytes. Clocks,
the network, storage outcomes and `strtod` are parameters.

## Where the code and its description part

Followed as the code has it, with the exact condition proved:

- A failed `IconStore::deserialize` does not always leave the store empty, as its
  header says: it keeps icons exactly when a proper prefix of the bytes is itself
  accepted and has some (`LoadingIsSafe`, `KeptIsAccepted`).
- An interrupted `ConfigStore::save` can lose the only good copy of the settings,
  against its header: when the primary is already unusable, the backup is
  overwritten with it (`CutSaveKeepsIff`). The result of the backup write is not
  looked at. Destroying the primary then costs everything exactly when no backup
  ever landed, and more than one change exactly when the primary has changed
  twice since one did, but for settings that repeat (`DestroyedCostsAllIff`,
  `DestroyedCostsOneChangeIff`, with `FailedBackupCostsAll` as an instance).
- `ResponseParser` counts header bytes that wait for a line end twice, so that
  only half of kMaxHeaderBytes is safe from an unlucky cut, and refuses a size
  line whose first 65 bytes come without its end (`EveryCutCompletesIff`).
- A backwards clock step lengthens a DHCP lease exactly when the grant was read
  later than the ticks on both sides, and by that much (`LengthenedIff`,
  `OpeningIs`, with `LateGrantLengthens` as an instance). Only a caller that gives
  a reply another time than the tick after it can bring that about; the platform
  does not (`TurnsNeverLengthen`).
- The header says a renewal onto another address raises both flags; a grant
  never changes the one for a lost lease, and raises the other exactly when the
  settings differ (`GrantFlags`, with `RenewalRaisesOne` as an instance).
- The interface is left cleared under a bound client exactly when one batch of
  replies refuses the renewal and grants a lease anew (`PollShowsIff`, with
  `EarlyAnswersUnshown` as an instance).
- The notification queue is not bounded by kMaxQueued: refreshes that lower a
  priority let one more wait for each step down (`WaitingMeasured`, met for every
  number of steps by `LoweringOverfills`).
- The shown app, moved and then removed, is not always followed by the next in
  the ring, because its position is only noted when it comes up
  (`RemovalAdvancesIff`, with `MovedThenRemoved` as an instance).
- A script fetcher whose client is exchanged during a fetch has two in flight
  exactly when the next tick asks the new client for a feed (`ExchangeDoublesIff`);
  otherwise it waits for an answer of the new one, and recovers when that has
  nothing to say (`SetClientSoundIff`, `SetClientRecovers`).
- An app order whose save fails is saved by no later look while the registry does
  not change (`FailedSaveIsNotRetried`), but by any other save of the settings
  (`OtherSaveCarriesOrder`): it is saved exactly when a save has succeeded since
  it was put there, but for orders that come back (`OrderIsSavedIff`, `ComesBack`).
- A stored app order that names an app that is gone, or leaves one out, never
  matches the registry and is applied again at every look (`ArrangedMatchesIff`).
- The page's GIF coder turns an empty picture into a single zero (`LzwEncode`).
- The JSON reader takes bytes from 0x80 up without looking at whether they are
  UTF-8: what it accepts is exactly the grammar over bytes (`AcceptedIffJson`).
  What it decodes is UTF-8 when the literal is (`DecodeKeepsUtf8`).

## Model

| member | source | states |
|---|---|---|
| PreviewGif.Lzw | tooling/site/build-previews.py:185-261 | A viewer that unframes and decompresses the image data by Appendix F of GIF89a gets exactly the pixels put in, for every picture over the alphabet, through every width growth and every clear at 4096 codes |
| PreviewGif.EmitCodes | tooling/site/build-previews.py:200-257 | The loop over the pixels emits exactly the code and width stream of the coder, the string-keyed table, width and run being those of the step function |
| PreviewGif.SubBlocks | tooling/site/build-previews.py:264-272 | The output is the data in runs of at most 255 bytes, each after its length, closed by an empty run |
| PreviewGif.FramedRoundTrip | tooling/site/build-previews.py:264-272 | Data of any length, framed and followed by anything, is unframed to itself and leaves what followed |
| GifLzw.DecodesToPicture | tooling/site/build-previews.py:200-261 | The standard decoder, one table entry behind the coder all the way, turns the coder's codes back into the picture, however the last byte is padded |
| GifLzw.InterpretsRun | tooling/site/build-previews.py:231-242 | Each code of the coder means the coder's run to the decoder, including the code that is not in the decoder's table yet, and brings its table up to the coder's |
| GifLzw.StaysBehind | tooling/site/build-previews.py:239-245 | After a miss the decoder is one entry behind again at the coder's new width: widening at next_code above 1 << width is what keeps them in step |
| GifLzw.DecodeEnd | tooling/site/build-previews.py:256-261 | The end code, which may be one bit narrower than a decoder that has just widened expects, still ends the picture and nothing else |
| GifLzw.DecodeFull | tooling/site/build-previews.py:246-252 | With a full table the decoder does not widen, so that the clear is read at the width it was written at |
| Bits.BitPacker.Emit | tooling/site/build-previews.py:208-215 | The bits of the code, least significant first, are appended to the stream, whatever bits were held |
| Bits.BitPacker.Flush | tooling/site/build-previews.py:259-261 | The bytes carry the whole stream and then fewer than eight zero bits |
| WebGif.LzwEncode | firmware/web/app.js:2956-3010 | The page's coder decodes to its input exactly when the input has an index; for an empty one it writes the picture of a single zero |
| WebGif.WebEmitCodes | firmware/web/app.js:2963-3007 | The loop with its pair-keyed dictionary emits exactly the codes of the step function |
| WebGif.SameCodes | firmware/web/app.js:2956-3010 | For every picture with a pixel the two coders emit the same codes at the same widths, although one is keyed by strings and clears on a full table and the other is keyed by code and index and clears when a thirteenth bit is due |
| WebGif.StepAgrees | firmware/web/app.js:2982-3004 | One pixel keeps the two tables the mirror of each other, entry by entry, and lets out the same codes |
| JsonAcceptance.AcceptedIffJson | firmware/src/json/Json.cpp:78-353 | The reader accepts a text if and only if some document of the RFC 8259 grammar (sections 2 to 7) within the depth, token and child limits spells it |
| JsonAcceptance.DocumentSound | firmware/src/json/Json.cpp:78-353 | What is read is a grammatical document that spells the text and is within the limits |
| JsonAcceptance.DocumentComplete | firmware/src/json/Json.cpp:78-353 | Every grammatical document within the limits is read, and as itself |
| JsonAcceptance.Unambiguous | firmware/src/json/Json.cpp:78-353 | No text spells two documents |
| JsonErrors.ErrorMeans | firmware/src/json/Json.cpp:78-353 | Every error at the place it is reported means what it is called, in terms of the texts the grammar has: what comes before begins one of them, and what stands there begins none (unexpected character, bad character of a string, bad escape, bad number, bad literal), or the text ends too soon, or a whole text comes before, or everything that goes on from there passes the depth or the token limit |
| JsonBeginnings.ReadBegins | firmware/src/json/Json.cpp:78-353 | What was read up to any error, and whatever could stand there, can be completed to a JSON text |
| JsonLocality.DocumentSettled | firmware/src/json/Json.cpp:78-353 | A text refused at a place is refused however it goes on after what the error has seen, and under no stricter limits |
| JsonSoundness.ValueSound | firmware/src/json/Json.cpp:78-107 | A value that is read stands in the text at that place, is well formed and within what is left of the limits |
| JsonCompleteness.BareComplete | firmware/src/json/Json.cpp:78-107 | A well-formed value within the limits that stands in the text is what is read there |
| JsonSoundness.StringSound | firmware/src/json/Json.cpp:223-288 | The bytes up to the closing quote are well-formed characters and escapes |
| JsonCompleteness.NumberComplete | firmware/src/json/Json.cpp:290-340 | Every number of the grammar is read whole, in its four parts |
| JsonParser.Parser.ParseValue | firmware/src/json/Json.cpp:78-107 | Appends the preorder of the value's syntax tree to the token array, or stops with the error and the place the reader gives |
| JsonParser.Parser.ParseArray | firmware/src/json/Json.cpp:178-219 | The same for an array: elements, commas, child count, end |
| JsonParser.Parser.ParseObject | firmware/src/json/Json.cpp:109-176 | The same for an object, a key owning its value |
| JsonParser.Parser.ParseString | firmware/src/json/Json.cpp:223-288 | A token for what is between the quotes, or the reader's error at its place |
| JsonParser.Parser.ParseNumber | firmware/src/json/Json.cpp:290-340 | A token for the number, or the reader's error at its place |
| JsonParser.Parser.ParseLiteral | firmware/src/json/Json.cpp:342-353 | A token for the word, or an error |
| JsonParser.Parser.Allocate | firmware/src/json/Json.cpp:56-67 | A new token at the end, or the token limit |
| JsonParser.Parser.AddChild | firmware/src/json/Json.cpp:69-75 | One more child counted, up to what sixteen bits hold |
| JsonDocument.Document.Parse | firmware/src/json/Json.cpp:463-500 | Succeeds if and only if the text is no longer than the limit and is JSON within the limits; then the tokens are the preorder of its tree, and otherwise the document is empty; a text over the limit is the one error at offset 0, and every other error and its offset mean what they are called |
| JsonDocument.Document.Skip | firmware/src/json/Json.cpp:502-514 | Lands one past the subtree of the token it starts at |
| JsonSights.SkipsSubtree | firmware/src/json/Json.cpp:502-514 | In the preorder of any tree, counting pending children steps over exactly one subtree, from every token |
| JsonSights.TokenAt | firmware/src/json/Json.cpp:154-159 | Token k of the preorder is the token of the piece of syntax that stands k places into the tree |
| JsonDocument.Document.ElementOf | firmware/src/json/Json.cpp:539-548 | The i-th element of an array is what the cursor then points at; out of range it points nowhere |
| JsonDocument.Document.KeyAt | firmware/src/json/Json.cpp:550-559 | The i-th key of an object, or nowhere |
| JsonDocument.Document.ValueAt | firmware/src/json/Json.cpp:561-568 | The value of the i-th member, or nowhere |
| JsonDocument.Document.Find | firmware/src/json/Json.cpp:570-579 | The value of the first member whose decoded key is the name, or nowhere if no member has it |
| JsonDocument.Document.RawSeen | firmware/src/json/Json.cpp:581-591 | The raw text of a token is the spelling of the syntax it stands for |
| JsonDocument.Document.ToBool | firmware/src/json/Json.cpp:593-598 | The flag of a literal, the fallback for anything else |
| JsonDocument.Document.ToIntAt | firmware/src/json/Json.cpp:623-670 | The integer a number without fraction and exponent spells when 64 bits hold it, the fallback when they do not or it is no number |
| JsonDocument.Document.StringEqualsAt | firmware/src/json/Json.cpp:672-696 | True if and only if the token is a string and decodes to the text |
| JsonDocument.Document.ToString | firmware/src/json/Json.cpp:698-711 | The decoded string, the fallback for anything else |
| JsonText.ToInt | firmware/src/json/Json.cpp:630-657 | The digit loop, checked before each step, gives the integer if and only if it fits and the fallback otherwise |
| JsonText.DecodeEscaped | firmware/src/json/Json.cpp:389-440 | The loop over the escapes yields the string the escapes stand for, surrogate pairs joined and lone ones replaced |
| JsonText.StringEquals | firmware/src/json/Json.cpp:672-696 | The comparison without decoding first is equality with the decoded string |
| JsonText.DecodeKeepsUtf8 | firmware/src/json/Json.cpp:356-440 | Decoding a well-formed UTF-8 string literal gives well-formed UTF-8, whatever surrogates it escapes |
| JsonText.EscapeRoundTrip | firmware/src/api/JsonWriter.cpp:7-34 | Every string, escaped, is a legal string body and decodes to itself |
| JsonText.AppendJsonString | firmware/src/api/JsonWriter.cpp:7-34 | Appends the quoted escaped string |
| JsonText.DecimalReads | firmware/src/api/JsonWriter.cpp:95-99 | Every integer's decimal text is a number of the grammar and reads back as that integer |
| JsonWriter.WrittenReadsBack | firmware/src/api/JsonWriter.cpp:36-121 | Any tree written by well-nested calls is read back, within the limits, as what was written: without raw values as the same tree, and with raw values that are JSON with what those mean in their place |
| JsonWriter.RawIsDocument | firmware/src/api/JsonWriter.cpp:113-121 | Every text the reader accepts can be such a raw value and stands for one document |
| JsonWriter.CallsWrite | firmware/src/api/JsonWriter.cpp:36-121 | Well-nested calls write exactly the tree's spelling, with a comma where one is due and nowhere else, at any nesting |
| JsonWriter.Writer.Separate | firmware/src/api/JsonWriter.cpp:36-49 | A comma only between siblings and never between a key and its value |
| JsonWriter.Writer.StartObject | firmware/src/api/JsonWriter.cpp:51-56 | The writer's output and stack after opening an object |
| JsonWriter.Writer.FinishObject | firmware/src/api/JsonWriter.cpp:58-64 | The same for closing one |
| JsonWriter.Writer.StartArray | firmware/src/api/JsonWriter.cpp:66-71 | The same for opening an array |
| JsonWriter.Writer.FinishArray | firmware/src/api/JsonWriter.cpp:73-79 | The same for closing one |
| JsonWriter.Writer.WriteKey | firmware/src/api/JsonWriter.cpp:81-87 | The key, a colon, and that a value is due |
| JsonWriter.Writer.WriteString | firmware/src/api/JsonWriter.cpp:89-93 | The quoted string, separated |
| JsonWriter.Writer.WriteInt | firmware/src/api/JsonWriter.cpp:95-99 | The decimal text, separated |
| JsonWriter.Writer.WriteBool | firmware/src/api/JsonWriter.cpp:101-105 | The word, separated |
| JsonWriter.Writer.WriteNull | firmware/src/api/JsonWriter.cpp:107-111 | null, separated |
| JsonWriter.Writer.WriteRaw | firmware/src/api/JsonWriter.cpp:113-121 | The given JSON, or null for none |
| HttpCuts.EveryCutCompletesIff | firmware/src/net/HttpFetch.cpp:360-405 | All ways of cutting a response end the same, if and only if its head takes at most half of kMaxHeaderBytes and every chunk size line that is reached and can be read is at most 63 bytes long: with its status and the first kMaxBodyBytes of its payload, complete when the end is announced by length, chunks or a status without a body, or more than that has come, and still reading otherwise; or, when the head comes to a line that is refused or the chunks to a size line that cannot be read, broken for that reason with what came before |
| HttpCuts.EveryCutCompletes | firmware/src/net/HttpFetch.cpp:360-405 | Under those conditions each cut, empty pieces included, ends so |
| HttpCuts.LongHeadFails | firmware/src/net/HttpFetch.cpp:370-388 | A longer head is refused as too long when only its last byte comes late: bytes that wait for a line end are counted twice |
| HttpCuts.LongSizeLineFails | firmware/src/net/HttpFetch.cpp:294-300 | A longer size line is refused when its end comes late |
| HttpCuts.HeadRuns | firmware/src/net/HttpFetch.cpp:370-397 | One call's turn over the head, wherever the piece begins and ends: it reads on, is refused only for a long head, or ends at the body with nothing lost |
| HttpCuts.ChunksRun | firmware/src/net/HttpFetch.cpp:292-358 | One call's turn over the chunks, wherever the piece ends: it is complete with the whole payload that is kept, or stands at a chunk boundary with the rest pending |
| HttpCuts.BodyRuns | firmware/src/net/HttpFetch.cpp:267-290 | The same for a body of declared length |
| HttpRendering.SizedResponse | firmware/src/net/HttpFetch.cpp:220-290 | A response with Content-Length among any other fields comes through every cut |
| HttpRendering.ChunkedResponse | firmware/src/net/HttpFetch.cpp:220-358 | A response with data in hexadecimally sized chunks and any trailer comes through every cut |
| HttpRendering.BodilessResponseIff | firmware/src/net/HttpFetch.cpp:220-230 | A response with status 204 or 304 is complete and empty at the end of its head in every cut, whatever its fields declare and whatever follows, if and only if the head takes at most half the limit |
| HttpRendering.OpenResponse | firmware/src/net/HttpFetch.cpp:267-290 | One that declares neither length nor chunks keeps its payload in every cut, complete once more than kMaxBodyBytes have come |
| HttpRendering.RefusedFieldIff | firmware/src/net/HttpFetch.cpp:220-265 | One whose head comes to a field that is refused is broken for that reason in every cut, whatever follows, if and only if the head so far takes at most half the limit |
| HttpRendering.RefusedStatusLineIff | firmware/src/net/HttpFetch.cpp:198-218 | The same for a status line |
| HttpRendering.LengthJudged | firmware/src/net/HttpFetch.cpp:240-255 | A length is taken if and only if it is a number of at most two to the fortieth; otherwise it is called absurd if and only if it begins with a number that is more, and malformed if not |
| HttpRendering.LengthFieldDeclares | firmware/src/net/HttpFetch.cpp:220-265 | A decimal Content-Length is read as the number, up to the limit |
| HttpRendering.HexSizeLine | firmware/src/net/HttpFetch.cpp:302-324 | A hexadecimal size of up to eight digits is read as the number |
| HttpParser.ResponseParser.Feed | firmware/src/net/HttpFetch.cpp:360-405 | The fields after a call are the function of the fields before and the bytes; false exactly when broken |
| HttpParser.ResponseParser.ConsumeHead | firmware/src/net/HttpFetch.cpp:370-397 | The same for the loop over the lines of the head |
| HttpParser.ResponseParser.ConsumeStatusLine | firmware/src/net/HttpFetch.cpp:198-218 | The status code, or why the line is refused |
| HttpParser.ResponseParser.ConsumeHeader | firmware/src/net/HttpFetch.cpp:220-265 | What a field says about the body, or why it is refused; the blank line ends the head |
| HttpParser.ResponseParser.ConsumeBody | firmware/src/net/HttpFetch.cpp:267-290 | Body bytes kept as far as there is room, and completion |
| HttpParser.ResponseParser.ConsumeChunks | firmware/src/net/HttpFetch.cpp:292-358 | Whole chunks taken off the front, and completion |
| HttpParser.ReadChunkSize | firmware/src/net/HttpFetch.cpp:302-324 | The size a size line gives, or that it gives none |
| HttpParser.Trim | firmware/src/net/HttpFetch.cpp:29-43 | The text without the white space around it |
| HttpParser.EqualsIgnoringCase | firmware/src/net/HttpFetch.cpp:17-27 | Equality but for the case of ASCII letters |
| DhcpRuns.RunSound | firmware/src/net/DhcpClient.cpp:37-343 | In every run of starts, stops, ticks and replies: Selecting and Requesting hold no lease, the other states a real one, renewal is before rebinding before expiry, retries stay between four seconds and a minute, an offer is asked for at most four times |
| DhcpRuns.NothingExpiredAfterTick | firmware/src/net/DhcpClient.cpp:211-276 | After a tick of any reachable client a finite lease that is held has not expired, and a bound client is not due to renew |
| DhcpRuns.LeaseNeverOutlived | firmware/src/net/DhcpClient.cpp:211-276 | Over a whole run with a clock that may step back at any time, a lease still held after a tick has been charged less than it was granted |
| DhcpRuns.LengthenedIff | firmware/src/net/DhcpClient.cpp:98-157 | In every run a finite lease that is held lives, by the time ticks see go forward, longer than its grant if and only if it was opened in credit, and then by exactly that credit |
| DhcpRuns.OpeningIs | firmware/src/net/DhcpClient.cpp:98-157 | The credit is how much later the grant was read than the ticks on both sides of it, so that only a clock step no tick sees lengthens a lease |
| DhcpRuns.LateGrantLengthens | firmware/src/net/DhcpClient.cpp:98-157 | A run in which that happens: a grant read at 100 between ticks at 0 and 50 is good for fifty milliseconds more than it says |
| DhcpPolls.TurnsNeverLengthen | firmware/src/platform/tc002/Tc002Dhcp.cpp:338-367 | Not on the platform, whose turns give all their replies and their tick one reading of the clock: over every run of beginnings, ends and turns, however often the clock steps back, no account is opened in credit and no lease that is held lives longer than its grant |
| DhcpPolls.TurnIsPoll | firmware/src/platform/tc002/Tc002Dhcp.cpp:492-521 | The turns of those runs leave the client as the turns of the platform loop do |
| DhcpRuns.AlwaysAsksAgain | firmware/src/net/DhcpClient.cpp:81-88 | With a clock that goes forward, a client that is asking sends again at the first tick a minute after the last event, however long nobody answers |
| DhcpPackets.PacketsSay | firmware/src/net/DhcpClient.cpp:159-276 | In every run a tick sends a packet exactly when one is due: when a transaction begins or an offer is accepted, and then 4, 8, 16, 32 and every 60 seconds after the last. It carries the id and the age of the transaction; selecting, it is a DISCOVER for the address last preferred or granted; requesting, a REQUEST for the address of the offer last accepted under that id, of the server that made it; renewing, one for the address last granted, to the server it is renewed with alone; rebinding, the same to everybody |
| DhcpPackets.OfferGivenUpIff | firmware/src/net/DhcpClient.cpp:244-250 | An offer asked for four times in vain is given up at the next tick, and not before |
| DhcpTimers.LeaseFollowsUse | firmware/src/net/DhcpClient.cpp:225-262 | In every run, with a clock that may step back, a tick leaves a finite lease alone until its renewal time has been used, then renews it, rebinds it once the rebinding time has been used or at once when its server is not known, and gives it up exactly when all of it has been used |
| DhcpTimers.TimersGiven | firmware/include/stipple/net/DhcpMessage.h:395-403 | Timers that make sense are the ones kept; without any, half and seven eighths of the lease are |
| DhcpRuns.TransactionsDiffer | firmware/src/net/DhcpClient.cpp:37-43 | In any run that was started, the next transaction the running client begins has another id than the one before: the generator, rng * 1664525 + 1013904223 modulo 2 to the 32, with zero read as one, never gives an id twice in a row |
| DhcpRuns.RestartRepeats | firmware/src/net/DhcpClient.cpp:45-58 | A new start from the same seed gives the same id again, which is why starts are not covered above |
| DhcpPolls.PollShowsIff | firmware/src/platform/tc002/Tc002Dhcp.cpp:492-521 | After a turn of the platform loop the interface shows the client's lease, or nothing when it has none, if and only if the replies taken in do not refuse the renewal that is asked for and then offer and grant, under the id drawn after the refusal, a lease that outlasts any step back of the clock |
| DhcpPolls.PollShows | firmware/src/platform/tc002/Tc002Dhcp.cpp:492-521 | In particular it does when no reply answers a question not sent yet |
| DhcpPolls.EarlyAnswersUnshown | firmware/src/platform/tc002/Tc002Dhcp.cpp:492-521 | A refusal and two early answers in one turn leave the client bound and the interface cleared |
| DhcpPolls.GrantFlags | firmware/src/net/DhcpClient.cpp:98-157 | A granting reply never changes the flag for a lost lease and raises the one for an acquired lease if and only if address, mask, router or resolver differ from what was held |
| DhcpPolls.RenewalRaisesOne | firmware/include/stipple/net/DhcpClient.h:108-120 | So a renewal onto another address raises one flag and not both |
| Dhcp.FilledGrantable | firmware/include/stipple/net/DhcpMessage.h:395-403 | The timers filled in for a server that left them out leave 0 < renew < rebind < lease, so that adopt's unchecked subtraction is safe |
| DhcpRuns.TickSound | firmware/src/net/DhcpClient.cpp:211-276 | What a tick does to a lease: it keeps it to its end or drops it |
| DhcpClient.DhcpClient.Start | firmware/src/net/DhcpClient.cpp:45-58 | The fields after a start are the function of those before |
| DhcpClient.DhcpClient.Stop | firmware/src/net/DhcpClient.cpp:60-65 | The same for a stop |
| DhcpClient.DhcpClient.BeginTransaction | firmware/src/net/DhcpClient.cpp:72-79 | The same for a new transaction, its id, its deadlines and its retries |
| DhcpClient.DhcpClient.Retry | firmware/src/net/DhcpClient.cpp:81-88 | The same for the next retry, twice as far away up to a minute |
| DhcpClient.DhcpClient.Drop | firmware/src/net/DhcpClient.cpp:90-96 | The same for a lease that is given up |
| DhcpClient.DhcpClient.Grant | firmware/src/net/DhcpClient.cpp:98-157 | The same for a lease that is adopted, with what the server left out carried over |
| DhcpClient.DhcpClient.Tick | firmware/src/net/DhcpClient.cpp:211-276 | The same for a tick, and the packet it sends |
| DhcpClient.DhcpClient.Build | firmware/src/net/DhcpClient.cpp:159-209 | The packet for the phase, if it sends one |
| DhcpClient.DhcpClient.Receive | firmware/src/net/DhcpClient.cpp:278-328 | The same for a reply |
| NotificationRuns.RunSound | firmware/src/notify/Notifications.cpp:89-247 | In every run ids and sequence numbers stay distinct, numbers to come are new and never given out again, and nobody waits while nothing is shown |
| NotificationRuns.TickSettles | firmware/src/notify/Notifications.cpp:155-184 | After any run a tick leaves nobody waiting who outranks what is shown |
| NotificationTimes.NoteHasItsTime | firmware/src/notify/Notifications.cpp:82-184 | In every run a note that came up or was refreshed, by whatever operation, and is neither refreshed, dismissed nor outranked afterwards, is what is shown at every tick before its own seconds from then are over, and is gone after the first tick from then on unless it holds |
| NotificationTimes.TickEndsTime | firmware/src/notify/Notifications.cpp:155-184 | After any run a tick takes the shown note out if and only if that time is over and it does not hold; otherwise it stays, or waits behind one of higher priority |
| NotificationRuns.WaitingMeasured | firmware/src/notify/Notifications.cpp:89-153 | In every run at most kMaxQueued + 3 wait and one more for each step by which refreshes have lowered a priority, of the note that is shown or of one that waits, hence at most three more for each refresh that lowered one |
| NotificationRuns.WaitingBounded | firmware/src/notify/Notifications.cpp:89-153 | Without such refreshes at most kMaxQueued + 3 wait, although preemption pushes without looking at the size |
| NotificationRuns.BoundIsMet | firmware/src/notify/Notifications.cpp:89-153 | kMaxQueued + 3 do come to wait in such a run |
| NotificationRuns.LoweringOverfills | firmware/src/notify/Notifications.cpp:89-153 | The measure is exact: for every w, up to as many notes as an id can number, there is a run with w such steps in which kMaxQueued + 3 + w wait |
| NotificationRuns.OverflowDropsLast | firmware/src/notify/Notifications.cpp:121-153 | From a full queue exactly one note is dropped, and it ranks behind all that stay |
| NotificationRuns.TickKeeps | firmware/src/notify/Notifications.cpp:155-184 | A tick loses the shown note when its time is over and no other note, however notes make way for each other |
| NotificationRuns.PushKeeps | firmware/src/notify/Notifications.cpp:89-153 | A push adds just the note it was given, under a new number or in place of the note of its id and under its number, and loses that one or one from a full queue and nothing else |
| NotificationRuns.DismissTakes | firmware/src/notify/Notifications.cpp:186-209 | A dismissal takes away the note of that id if there is one that may be dismissed, and nothing else |
| NotificationRuns.DismissAllTakes | firmware/src/notify/Notifications.cpp:218-241 | Dismissing all leaves just the notes that may not be dismissed |
| NotificationRuns.BestRanks | firmware/src/notify/Notifications.cpp:55-66 | The scan finds the one note ahead of all others |
| NotificationRuns.WorstRanks | firmware/src/notify/Notifications.cpp:68-80 | The scan finds the one note behind all others |
| NotificationQueue.NotificationQueue.Push | firmware/src/notify/Notifications.cpp:89-153 | The fields and the answer after a push are the function of the fields before |
| NotificationQueue.NotificationQueue.Tick | firmware/src/notify/Notifications.cpp:155-184 | The same for a tick; it reports whether what is shown changed |
| NotificationQueue.NotificationQueue.Dismiss | firmware/src/notify/Notifications.cpp:186-209 | The same for a dismissal by id |
| NotificationQueue.NotificationQueue.DismissActive | firmware/src/notify/Notifications.cpp:211-216 | The same for what is shown |
| NotificationQueue.NotificationQueue.DismissAll | firmware/src/notify/Notifications.cpp:218-241 | The same for all that may be dismissed, and how many went |
| NotificationQueue.NotificationQueue.BestQueuedIndex | firmware/src/notify/Notifications.cpp:55-66 | The loop finds the best, or -1 |
| NotificationQueue.NotificationQueue.WorstQueuedIndex | firmware/src/notify/Notifications.cpp:68-80 | The loop finds the worst, or -1 |
| FetchRuns.RunScheduled | firmware/src/net/ScriptFetcher.cpp:17-241 | In every run, whatever the network does and whenever the client is exchanged, running_ names a feed or none, and feeds are distinct, paced and bounded, however they come and go |
| FetchRuns.RunSound | firmware/src/net/ScriptFetcher.cpp:17-241 | The client is moreover fetching what running_ names, and nothing when it names none, as long as the client is only exchanged between fetches |
| FetchRuns.OneInFlight | firmware/include/stipple/net/ScriptFetcher.h:47-47 | Under that proviso at most one fetch is in flight in every run, those counted that clients set aside are still busy with |
| FetchRuns.ExchangeDoublesIff | firmware/include/stipple/net/ScriptFetcher.h:47-47 | After an exchange and a tick two are in flight at once if and only if a fetch was running and the tick asks the new client for a feed |
| FetchRuns.SetClientSoundIff | firmware/include/stipple/net/ScriptFetcher.h:47-47 | After an exchange the client is fetching what running_ names if and only if no fetch was running |
| FetchRuns.SetClientRecovers | firmware/include/stipple/net/ScriptFetcher.h:47-47 | Exchanged during a fetch it is so again after the tick at which the new client says it has no such fetch |
| FetchRuns.NobodyTwiceBefore | firmware/src/net/ScriptFetcher.cpp:131-241 | Once a feed is due, no feed is asked for twice before it is, so that it waits for fewer fetches than there are feeds |
| FetchRuns.EveryDueFeedIsReached | firmware/src/net/ScriptFetcher.cpp:131-241 | With the network up and ticks at most gap apart, a due feed is asked for within one full timeout and gap per feed, whatever the client answers or fails to answer |
| FetchRuns.TickWaits | firmware/src/net/ScriptFetcher.cpp:131-241 | One tick asks for the feed or leaves it waiting; what is asked for instead cannot be asked for again before it |
| FetchRuns.DueIsLongest | firmware/src/net/ScriptFetcher.cpp:205-222 | The scan finds a feed that is due and has been due longest, or that none is due |
| FetchRuns.ForgetSound | firmware/src/net/ScriptFetcher.cpp:100-129 | Forgetting a script removes all its feeds and abandons what was in flight |
| FetchRuns.FollowTakenIff | firmware/src/net/ScriptFetcher.cpp:17-65 | A feed can be followed exactly when it already is or there is room for one more of its script and in all; it then has the pace asked for within the limits, and no other feed is touched |
| FetchBodies.FeedsTell | firmware/src/net/ScriptFetcher.cpp:68-203 | In every run, for every script and URL: the body told is that of the last answer from 200 to 299 to a request for that feed, and none before the first or after the script is forgotten; its age counts from that tick; status and failure are those of the last such request that ended or was refused. Timeouts, failures, other statuses and other feeds' answers change neither body nor age |
| FetchBodies.WaitsForRequest | firmware/src/net/ScriptFetcher.cpp:144-241 | What running_ names is the request last taken by the client that has neither ended nor been dropped with some feed |
| ScriptFetcher.ScriptFetcher.Follow | firmware/src/net/ScriptFetcher.cpp:17-65 | The fields and the answer after a follow are the function of the fields before |
| ScriptFetcher.ScriptFetcher.Forget | firmware/src/net/ScriptFetcher.cpp:100-129 | The feeds compacted in place are those of the other scripts, in order |
| ScriptFetcher.ScriptFetcher.Tick | firmware/src/net/ScriptFetcher.cpp:131-142 | The same for a tick |
| ScriptFetcher.ScriptFetcher.Collect | firmware/src/net/ScriptFetcher.cpp:144-203 | The same for what the client answered |
| ScriptFetcher.ScriptFetcher.Start | firmware/src/net/ScriptFetcher.cpp:205-241 | The same for the next request |
| ScriptFetcher.ScriptFetcher.Body | firmware/src/net/ScriptFetcher.cpp:68-75 | The last body fetched with success |
| ScriptFetcher.ScriptFetcher.Status | firmware/src/net/ScriptFetcher.cpp:76-80 | The status of the feed, 0 when it is not followed |
| ScriptFetcher.ScriptFetcher.Failure | firmware/src/net/ScriptFetcher.cpp:94-98 | Its failure, none when it is not followed |
| ScriptFetcher.ScriptFetcher.Age | firmware/src/net/ScriptFetcher.cpp:82-92 | The age of its body at the last tick, or -1 |
| ScriptFetcher.ScriptFetcher.SetClient | firmware/include/stipple/net/ScriptFetcher.h:47-47 | The client is another one, or none, and nothing else changes |
| Calendar.DatesFollow | firmware/src/apps/ClockApp.cpp:172-192 | Every day, before 1970 and after, has a valid date, and the next day has the next date under the 4, 100 and 400 year rule |
| Calendar.DayNumberInverts | firmware/src/apps/ClockApp.cpp:172-192 | Counting the days to the date of a day, year by year and month by month, gives the day |
| Calendar.CivilInverts | firmware/src/apps/ClockApp.cpp:172-192 | Every valid date is the date of its day |
| Calendar.DayZero | firmware/src/apps/ClockApp.cpp:172-192 | Day 0 is 1970-01-01 |
| Calendar.WeekdaysFollow | firmware/src/apps/ClockApp.cpp:194-198 | Weekdays advance by one modulo seven through negative days too; day 0 is a Thursday |
| Line.PointsKeepToLine | firmware/src/graphics/Canvas.cpp:74-105 | The points go from one end to the other without a gap, one for each step of the longer side, inside the bounding box and at most half a pixel from the ideal line |
| Line.StepNear | firmware/src/graphics/Canvas.cpp:92-104 | One turn of the error term keeps within half a step of the line and advances along the longer side |
| Line.PlottedExactly | firmware/src/graphics/Canvas.cpp:23-28 | Plotting colours exactly the points inside the clip |
| Line.ClippedAway | firmware/src/graphics/Canvas.cpp:80-85 | Points outside the clip change no pixel |
| Canvas.Canvas.DrawLine | firmware/src/graphics/Canvas.cpp:74-105 | The loop, with its early rejection by the clip, plots exactly those points under the clip |
| Canvas.OutsideNothing | firmware/src/graphics/Canvas.cpp:80-85 | A line whose box misses the clip has no point inside it |
| Canvas.Canvas.FillRect | firmware/src/graphics/Canvas.cpp:44-54 | Exactly the points of the rectangle inside the clip take the colour |
| Canvas.Canvas.Outline | firmware/src/graphics/Canvas.cpp:56-72 | Exactly the points on the rim inside the clip take the colour, for thin and empty rectangles too |
| Canvas.Canvas.HLine | firmware/src/graphics/Canvas.cpp:30-35 | Exactly the points of the row inside the clip take the colour |
| Canvas.Canvas.VLine | firmware/src/graphics/Canvas.cpp:37-42 | Exactly the points of the column inside the clip take the colour |
| Canvas.Canvas.SetPixel | firmware/src/graphics/Canvas.cpp:23-28 | One pixel, if the clip holds it |
| Canvas.Canvas.SetClip | firmware/include/stipple/graphics/Canvas.h:42-42 | The clip holds the points of the rectangle that are on the panel |
| Checksum.Crc32 | firmware/src/core/Checksum.cpp:26-35 | The table-driven loop computes the checksum that the reflected 0xEDB88320 shift register of RFC 1952, section 8, defines bit by bit |
| Checksum.Table | firmware/src/core/Checksum.cpp:9-22 | Entry n is eight shifts of n |
| Checksum.LookUp | firmware/src/core/Checksum.cpp:30-33 | Eight shifts of a register are the table entry of its low byte combined with its other bytes, by linearity |
| Checksum.BurstDetected | firmware/src/core/Checksum.cpp:26-35 | A change confined to four bytes in a row changes the checksum of any message |
| Md5.Md5.Update | firmware/src/core/Md5.cpp:95-131 | After any updates the state has seen the whole blocks of all bytes so far and the buffer holds the rest, however the bytes were cut |
| Md5.Md5.Finish | firmware/src/core/Md5.cpp:133-161 | The digest is the compression of the message followed by the padding and length of RFC 1321, sections 3.1 and 3.2, from every fill of the buffer; a second call pads nothing |
| Md5.SplitsAgree | firmware/src/core/Md5.cpp:95-161 | A message in one piece and in two gives the same digest |
| Md5.PaddedWhole | firmware/src/core/Md5.cpp:133-155 | A padded message is whole blocks |
| Md5.ZerosDueLeast | firmware/src/core/Md5.cpp:140-146 | No smaller number of zeros reaches eight bytes short of a block |
| Sound.MelodyPlayer.Fill | firmware/src/audio/Sound.cpp:194-231 | Writes the next count samples of the sound, or all that are left, and leaves the rest of it: the same samples however the calls are cut |
| Sound.MelodyPlayer.Start | firmware/src/audio/Sound.cpp:137-143 | What then plays is the whole sound, as long as its steps together |
| Sound.MelodyPlayer.Stop | firmware/src/audio/Sound.cpp:157-161 | Nothing is left to play |
| Sound.MelodyPlayer.BeginStep | firmware/src/audio/Sound.cpp:167-192 | Past steps of no length to one that sounds |
| Sound.BegunStream | firmware/src/audio/Sound.cpp:167-192 | Beginning a step, skipped ones included, takes no sample off the sound |
| Sound.StepsStreamLength | firmware/src/audio/Sound.cpp:167-231 | The sound lasts exactly the sum of its steps |
| Sound.TakenInTurn | firmware/src/audio/Sound.cpp:194-231 | Taking n samples and then m takes the first n + m |
| Tone.ToneGenerator.Start | firmware/src/audio/Tone.cpp:27-58 | A tone's length, phase step and gain, clamped |
| Tone.ToneGenerator.Fill | firmware/src/audio/Tone.cpp:64-110 | Writes the next samples of the faded tone and silence after its end, and advances the phase by as many steps |
| Tone.AdvancedStream | firmware/src/audio/Tone.cpp:64-110 | The tone that is left after n samples is the tone without its first n samples |
| Tone.PitchHeard | firmware/src/audio/Tone.cpp:27-58 | After n samples the phase has gone on by the cycles the frequency, clamped to half the sample rate, makes in that time, short by less than one part of a cycle in 4194304 per sample |
| Tone.EndsFade | firmware/src/audio/Tone.cpp:64-110 | No sample is louder than the level, and those near either end are softer in proportion to how near, over at most a quarter of the tone each |
| AppRegistry.RingNearest | firmware/src/app/AppRegistry.cpp:142-170 | The next enabled app is the nearest one ahead in the ring, the previous the nearest behind, and nothing is found only when none is enabled |
| AppRegistry.PreviousUndoesNext | firmware/src/app/AppRegistry.cpp:142-170 | Going back undoes going on |
| AppRegistry.EveryoneGetsATurn | firmware/src/app/AppRegistry.cpp:142-156 | Going on reaches every enabled app within as many turns as there are apps |
| AppRegistry.AppRegistry.PutApp | firmware/src/app/AppRegistry.cpp:18-41 | Inserts or replaces in place, or says why not; ids stay unique |
| AppRegistry.AppRegistry.Remove | firmware/src/app/AppRegistry.cpp:43-51 | Takes out that app only |
| AppRegistry.AppRegistry.MoveTo | firmware/src/app/AppRegistry.cpp:95-109 | The app goes to the position and the others shift along |
| AppRegistry.AppRegistry.SetEnabled | firmware/src/app/AppRegistry.cpp:111-121 | Only that flag changes, and the revision only if it did |
| AppRegistry.AppRegistry.Next | firmware/src/app/AppRegistry.cpp:142-156 | The loop is the ring search |
| AppRegistry.AppRegistry.Previous | firmware/src/app/AppRegistry.cpp:158-170 | The loop is the ring search the other way |
| AppRegistry.AppRegistry.Expire | firmware/src/app/AppRegistry.cpp:172-186 | The erasing loop from the back leaves the apps that have not run out, in order |
| AppRegistry.LastingKept | firmware/src/app/AppRegistry.cpp:172-186 | Just the temporary apps whose time is over are gone |
| AppRegistry.MovedBag | firmware/src/app/AppRegistry.cpp:95-109 | Moving loses and doubles nothing |
| AppRegistry.PutAcceptedIff | firmware/src/app/AppRegistry.cpp:18-41 | An app is taken if and only if its id and scene fit and the ids there would then be do; it is then what its id finds, the others stay where they were and a new one comes last |
| AppOrder.AppliedIsArranged | firmware/src/host/ApplicationHost.cpp:978-1020 | The loop of moves puts the stored apps that exist first, in stored order and with their stored settings, and leaves the rest in the order they had |
| AppOrder.AppliedKeeps | firmware/src/host/ApplicationHost.cpp:978-1020 | Whatever was stored, every app stays exactly once with its content |
| AppOrder.ArrangedTwice | firmware/src/host/ApplicationHost.cpp:978-1020 | Applying an order twice is applying it once |
| AppOrder.ArrangedMatchesIff | firmware/src/host/ApplicationHost.cpp:1022-1042 | After it was applied a stored order matches the registry if and only if it names exactly the apps that are not temporary; otherwise the host applies it again at every look |
| AppOrder.Host.ApplyStoredAppOrder | firmware/src/host/ApplicationHost.cpp:978-1020 | The method, with its lookups after each move, does what the function says |
| AppOrder.Host.StoredOrderMatchesRegistry | firmware/src/host/ApplicationHost.cpp:1022-1042 | The loop decides whether what is stored is what would be remembered |
| AppOrder.Host.RememberAppOrder | firmware/src/host/ApplicationHost.cpp:1084-1105 | What is remembered matches |
| AppOrder.Host.PersistAppOrderIfChanged | firmware/src/host/ApplicationHost.cpp:1044-1082 | The fields and the registry after a look are the function of those before: a changed registry is remembered and saved, changed settings are applied, safe mode writes nothing, and a save that fails leaves what was saved |
| AppOrder.OrderIsSavedIff | firmware/src/host/ApplicationHost.cpp:1044-1105 | Over every sequence of looks, registry changes and other saves of the settings, with another order in them or not: the order in the settings is the saved one when a save has succeeded since it was put there, by the event that put it there or a later one, and for an order not held before only then |
| AppOrder.SavedThen | firmware/src/host/ApplicationHost.cpp:1044-1082 | What is saved is what the settings held at the last save that succeeded |
| AppOrder.ComesBack | firmware/src/host/ApplicationHost.cpp:1044-1082 | An order that comes back to the saved one needs no save |
| AppOrder.FailedSaveIsNotRetried | firmware/src/host/ApplicationHost.cpp:1044-1082 | A look whose save fails is not made up for by any number of later looks while the registry does not change |
| AppOrder.OtherSaveCarriesOrder | firmware/src/host/ApplicationHost.cpp:883-924 | Another save of the settings, such as those for the hotspot or the rescue, makes up for it |
| Rotation.TickSettles | firmware/src/app/Carousel.cpp:80-124 | Whatever was shown, pinned or removed before, after a tick an enabled app is shown when there is one and nothing otherwise |
| Rotation.EveryAppIsShown | firmware/src/app/Carousel.cpp:80-124 | With nothing pinned or paused and ticks at any times at most gap apart, every enabled app is on the panel at some tick no later than the sum of all dwells and one gap for each app |
| Rotation.HeldUntilThen | firmware/src/app/Carousel.cpp:109-123 | A tick leaves everything as it is if and only if what is shown has not had its time |
| Rotation.ShownForItsSeconds | firmware/src/app/Carousel.cpp:7-15 | An app that a tick has brought up stays through all ticks before its own seconds, or the common ones when it has none, or a second, are over, and the first one from then on brings up the next |
| Rotation.GoneResumes | firmware/src/app/Carousel.cpp:98-107 | When the shown app is gone the next tick shows the nearest enabled app from the position noted when it came up, stale or not |
| Rotation.RemovalAdvancesIff | firmware/src/app/Carousel.cpp:98-107 | Removing the shown app leads to the one that was next in the ring if and only if that one is the nearest enabled app from the position noted |
| Rotation.RemovalAdvances | firmware/src/app/Carousel.cpp:98-107 | In particular when the shown app stands where it came up |
| Rotation.MovedThenRemoved | firmware/src/app/Carousel.cpp:98-107 | Not always: of four apps, one moved back while it is shown and then removed is not followed by the next in the ring |
| Rotation.PinnedStays | firmware/src/app/Carousel.cpp:85-96 | What is pinned stays through any ticks that find it enabled |
| Rotation.PreviousUndoes | firmware/src/app/Carousel.cpp:126-142 | One button undoes the other |
| Carousel.Carousel.Tick | firmware/src/app/Carousel.cpp:80-124 | Expires what has run out, then does what the function says; what is shown is settled, and the answer says whether it changed |
| Carousel.Carousel.Next | firmware/src/app/Carousel.cpp:126-133 | The same for the next button |
| Carousel.Carousel.Previous | firmware/src/app/Carousel.cpp:135-142 | The same for the previous button |
| Carousel.Carousel.Pin | firmware/src/app/Carousel.cpp:70-78 | The same for pinning, which fails for an unknown or disabled app |
| Carousel.Carousel.Activate | firmware/src/app/Carousel.cpp:15-25 | The same for a jump, which ends a pin |
| IconRoundTrip.SavedLoads | firmware/src/asset/IconStore.cpp:194-303 | Loading what was saved succeeds with the same icons in the same order if and only if two bytes hold every frame time; longer ones come back as the longest |
| IconRoundTrip.LoadingIsSafe | firmware/src/asset/IconStore.cpp:226-303 | Whatever the bytes, the store is sound after loading them, and a failed load has left it empty if and only if no proper prefix of them is itself accepted with at least one icon |
| IconRoundTrip.KeptIsAccepted | firmware/src/asset/IconStore.cpp:226-303 | The icons a failed load keeps are those of a proper prefix that is accepted |
| IconRoundTrip.TrailingBytesKeep | firmware/src/asset/IconStore.cpp:226-303 | A saved store with anything after it is such a load: it reports failure and keeps the icons |
| IconRoundTrip.LoadedSavesBack | firmware/src/asset/IconStore.cpp:194-303 | A store loaded from bytes of any kind, saved and loaded again, is the same |
| IconRoundTrip.IconBack | firmware/src/asset/IconStore.cpp:194-291 | An icon's bytes are read back as that icon wherever they stand |
| Icons.PutSound | firmware/src/asset/IconStore.cpp:37-92 | Bytes are counted exactly and stay within budget, ids stay unique and every icon storable |
| Icons.RemovedSound | firmware/src/asset/IconStore.cpp:94-104 | The same for a removal |
| Icons.PutIsFound | firmware/src/asset/IconStore.cpp:21-92 | An icon that was taken is what its id finds, no other id finds anything else than before, and a refused one changes nothing |
| Icons.PutAcceptedIff | firmware/src/asset/IconStore.cpp:37-92 | An icon is taken if and only if it is well named and well formed and the store it would leave, in the place of the one of its id, is within both limits; each refusal says which of these fails |
| Icons.RemovedIsGone | firmware/src/asset/IconStore.cpp:94-104 | Only the removed id finds nothing any more |
| IconStore.IconStore.Put | firmware/src/asset/IconStore.cpp:37-92 | The fields and the answer after a put are the function of those before, and the store stays sound |
| IconStore.IconStore.Remove | firmware/src/asset/IconStore.cpp:94-104 | Takes out that icon only, and its bytes |
| IconStore.IconStore.Clear | firmware/src/asset/IconStore.cpp:106-110 | The empty store |
| IconStore.IconStore.Serialize | firmware/src/asset/IconStore.cpp:194-224 | The loops write the saved form |
| IconStore.IconStore.Deserialize | firmware/src/asset/IconStore.cpp:226-303 | The reader's loop loads what the bytes say, never reading past their end |
| IconStore.Reader.Bytes | firmware/src/asset/IconStore.cpp:176-183 | The next bytes, or nothing when there are fewer |
| ConfigRuns.CutSaveKeepsIff | firmware/src/config/Config.cpp:510-525 | A save cut off between its two writes leaves what is loaded as it was, except exactly when the primary was unusable and the backup was not: then the backup has been overwritten |
| ConfigRuns.LastSavedIsLoaded | firmware/src/config/Config.cpp:467-525 | In every run of saves, cut off or failing at any write, the settings of the last one that reached the primary are loaded from it |
| ConfigRuns.ReportTells | firmware/src/config/Config.cpp:467-508 | In every run the report says what happened: loaded, migrated from an older schema, or missing, with the primary whole; with it gone or unreadable, recovered exactly when some save has backed anything up, and otherwise missing, from a future schema, or corrupt |
| ConfigRuns.DestroyedLoadsKept | firmware/src/config/Config.cpp:467-525 | If the primary is destroyed after any run of saves, what is loaded is exactly the change the backup was taken from, and nothing when no backup ever landed |
| ConfigRuns.DestroyedCostsAllIff | firmware/src/config/Config.cpp:467-525 | That costs all settings if and only if no save of the run had something to back up whose backup landed |
| ConfigRuns.KeptRecentIff | firmware/src/config/Config.cpp:467-525 | The backup is one of the last two changes of the primary if and only if a backup has landed since which the primary has changed at most once |
| ConfigRuns.DestroyedCostsOneChangeIff | firmware/src/config/Config.cpp:467-525 | Then, and unless older settings happen to be the same only then, one of the last two settings is loaded after the primary is destroyed |
| ConfigRuns.DestroyedCostsOneChange | firmware/src/config/Config.cpp:467-525 | In particular when every backup has landed |
| ConfigRuns.FailedBackupCostsAll | firmware/src/config/Config.cpp:516-524 | A failed backup is not noticed by a save, and then destroying the primary can cost everything |
| ConfigRecord.StoredReadsBack | firmware/src/config/Config.cpp:272-328 | A record carrying any settings object that fits is read back with the text it carries, at its own version |
| ConfigRecord.TruncatedUnusable | firmware/src/config/Config.cpp:286-304 | Every proper prefix of an accepted record that ends with its closing brace is refused |
| ConfigRecord.SavedTruncatedUnusable | firmware/src/config/Config.cpp:272-304 | So is every proper prefix of what a save writes |
| ConfigRecord.DamageUnusable | firmware/src/config/Config.cpp:306-313 | Settings changed within four bytes in a row are refused even when they are still well formed |
| ConfigStore.Deserialize | firmware/src/config/Config.cpp:286-328 | Parses, looks up and compares as the function says |
| ConfigStore.ConfigStore.Load | firmware/src/config/Config.cpp:467-508 | Primary, then backup, then the defaults, and the report of which |
| ConfigStore.ConfigStore.Save | firmware/src/config/Config.cpp:510-525 | The two writes in order, the first only for a value that differs |
| ConfigStore.SaveThenLoad | firmware/src/config/Config.cpp:467-525 | Settings that fit are saved and loaded as the same text, whatever was stored before |

## Left out

- DhcpRuns.LeaseNeverOutlived: charges only the time that ticks see go forward; LengthenedIff and OpeningIs say by how much a lease may live longer, and TurnsNeverLengthen that on the platform none does.
- DhcpRuns.TransactionsDiffer: a start seeds the generator anew and may repeat an id, as RestartRepeats shows.
- DhcpClient.DhcpClient.Receive: what reading the packet's bytes gave is a parameter.
- HttpCuts.EveryCutCompletesIff: the text of a chunk's data is taken to be followed by its line end, whose two bytes the parser drops without looking at them.
- JsonDocument.Document.ToIntAt: numbers with a fraction or an exponent go through strtod, whose result is a parameter.
- FetchRuns.EveryDueFeedIsReached: assumes ticks keep coming at a bounded distance and no feed is followed or forgotten meanwhile.
- Rotation.EveryAppIsShown: the apps and their dwells stay as they are meanwhile; that a tick settles is proved for apps that change in any way.
- FetchRuns.RunSound: the client is exchanged between fetches only, as SetClientSoundIff shows to be necessary; RunScheduled says what holds without that.
- ScriptFetcher.ScriptFetcher.Follow: whether the text is a URL that can be fetched is a parameter.
- NotificationRuns.LoweringOverfills: goes up to the notes that decimal ids of kMaxIdBytes can number, 10 to the 64th less one.
- Md5.Md5.Finish: the compression function is any function on states, and the order in which a digest's words become bytes is left out.
- PreviewGif.Lzw: covers the code sizes 2 to 8 that build_gif uses.
- JsonWriter.WrittenReadsBack: raw values that are no JSON are left out, which the writer passes on unread all the same; a number in one that has a fraction or an exponent has a syntax but no meaning here.
- ConfigRecord.StoredReadsBack: the settings are any JSON object; their fields, defaults and clamps are not part of this model.
- ConfigStore.Deserialize: the same; a body of an older version is kept as text, and its migration is not part of this model.
- Machine limits of offsets, times, sequence numbers and sizes in 32 and 64 bits, except where named above.
- The or-assignments of the bit packer and the byte readers are additions of disjoint bits, and the CRC register is a list of bits.
- The page coder's dictionary keys are pairs of numbers, where the original joins the two with a comma.
- Bytes of DHCP messages: only the filling in of missing timers is modelled, not the parsing of options, the host name or the hardware address.
- parseUrl and buildGet of the HTTP client, and the client itself, which answers each poll with a parameter.
- Canvas::blit, blitKeyed and text; the clock faces and everything else that is drawn.
- The boot record, safe mode and the rest of ApplicationHost beyond the app order.
- DnsMessage, Png, encodeGif with its palette, highlightBerry, scale_rows and open_on_content.
- The sound catalogue, Carousel::reset, unpin and restartDwell, NotificationQueue's view for drawing, frameAt and frameView of icons.
- API requests, MQTT, static files and the page's user interface.
