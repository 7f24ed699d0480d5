# ShareNotepad: a model in Dafny

ShareNotepad lets two people edit one text. One of them, the host, runs a server inside the desktop
client; the other, the guest, connects to it directly or through a relay. This project models the logic
that decides whether both see the same text, from the diff of an editor to the frames on the wire, and
proves what it promises. Text is a sequence of UTF-16 code units throughout.

| part | files |
|---|---|
| Edit algebra: checked edits, the single-replacement diff of both clients, the caret | `DocumentModel`, `EditorDiff`, `Caret` |
| Wire: messages, flat JSON, UTF-8, frames over a byte stream | `Protocol`, `KeyOrder`, `JsonPrinter`, `JsonGrammar`, `JsonParser`, `JsonAcceptance`, `JsonRoundTrip`, `WireFormat`, `WireTransparency`, `Frames`, `Utf8`, `WireBytes`, `FrameSizes`, `ValidText`, `SurrogateCuts` |
| Sync protocol: the host's sequencer, the windows that follow it, chunked full syncs, admission | `SyncServer` (module `Server`), `ServingLoop`, `Replica`, `HostWindow`, `Chunks`, `Reassembly`, `RelayReceiver`, `SequencerRuns`, `PassiveGuest`, `TurnTaking`, `Receiving`, `HostSteps`, `SingleEdits`, `Crossing`, `Divergence`, `Admission` |
| Relay: rooms and peers, rate limiter, WebSocket frames | `RelayHub`, `RelayTrace`, `RelayRuns`, `RelayVerdicts`, `RateLimiter`, `Octet8`, `WebSocketFrames`, `WebSocketStreams` |
| Block editor: Markdown text, span index, caret save and restore | `Markdown`, `MarkdownReading`, `MarkdownRoundTrip`, `MarkdownReload`, `Spans` |

Code of the program that changes state in place is a class or a method with loops, tied to a function of
the old state; the theorems are about those functions and about runs built from them. Code made of
expressions is a function.

The main results:

- **Passive guest** (`PassiveGuest`). The link may lose, repeat and reorder. Once one full sync has
  completed, the guest's text is always the server's document at exactly the guest's revision.
- **Turn taking** (`TurnTaking`). If nobody types while the other's edits are on their way, host, server
  and guest agree in every state up to what is on its way, and from every such state the messages on
  their way can be received until all three are equal. Three assumptions are explicit. The host types
  with its event queue drained and no request waiting at the server. The guest types with no host APPLY
  in flight to it. And every edit goes through: its text is within the document limit, its insert is
  within the request limit, and each of its messages can be sent. The last is not only a matter of size:
  the diff compares single code units, so replacing a character by another with the same high surrogate
  inserts half a pair, which has no UTF-8 form; the INSERT is then dropped while the DELETE is sent.
  Applying an edit and queueing its announcement are one step.
- **What the assumptions are needed for** (`Receiving`, `SingleEdits`, `Crossing`, `Divergence`). For every
  order in which the messages are received: one report from a settled session reaches everybody if and only
  if it goes through in that sense, with the exact reading of "valid text" for a diff and the run of the
  replaced character for either side. A report of the host and any number of reports of the guest that cross
  end where a formula says: through dropped and refused requests, failed announcements, full syncs, and the
  end of the connection at the first accepted edit that cannot be announced, after which the server reads no
  more requests. They agree if and only if the connection lasts and the guest's last text with the host's
  diff is the server's document or the guest is repaired by a full sync. For changes in different places
  this is a condition on the text between the raw and the moved place of the change behind.
- **The host's window** (`HostWindow`). Over every run, whoever types what and when, the events that wait at
  the host are old or numbered without a gap up to the server's revision. Once they are received the window
  is at that revision, with the announcements in line applied or, from the first that does not apply on,
  with the server's document.
- **The serving loop** (`ServingLoop`). What every message of the peer is answered with: a ping with its pong,
  which never ends the connection, a full-sync request with the chunks, an edit with its announcement or the
  first reason against it.
- **Wire** (`JsonAcceptance`, `JsonRoundTrip`, `WireFormat`, `WireBytes`, `WireTransparency`, `Frames`,
  `FrameSizes`, `SurrogateCuts`). The accepted payloads are exactly those of a grammar, read last-wins, and
  every other payload gets a stated verdict; printing and parsing are inverse, UTF-8 included. Messages
  that are printed, encoded, framed and cut up in any way on the road come out of the receiving loop and the
  parser one by one, exactly up to 61441 bytes of payload, and do on arrival what they would have done
  at the sender. A full sync of valid text is sent whole exactly when no chunk boundary falls inside a
  surrogate pair.
- **Relay** (`RelayHub`, `RelayTrace`, `RelayRuns`, `RateLimiter`, `WebSocketFrames`). Every call changes the
  state of the hub, its rooms and its peers as a relation on recorded states says, so every run is a trace of
  that relation. Over every run from an empty hub a room is registered in the end if and only if it has a
  peer and no call condemned it while it was registered, where the condemning calls are given exactly; two
  runs show a room in use that is lost that way. Also the exact number of actions a minute can contain, that
  none is refused without as many in the minute before, the reading of frames in both directions under each
  length encoding, and of streams that are cut off anywhere.
- **Block editor** (`MarkdownReading`, `MarkdownRoundTrip`, `MarkdownReload`, `Spans`). The exact spellings
  that are read as something else than a paragraph, the exact lists of blocks that
  survive being written and read, the exact texts, of all texts, that survive loading and saving, and the
  exact carets that are restored where they were saved, with the place for every other offset.

Where the repository's documentation and its code differ, the model follows the code:

- `docs/01-protocol.md` names the author of an APPLY `author` and the revision in a full-sync request
  `known_rev`; the code writes `client` and `current_rev` (client/sync_server.cpp:556-644,
  client/sync_client.cpp:303-310).
- `docs/01-protocol.md` bounds one insert by 32 KB of UTF-8; the code counts 32 * 1024 UTF-16 units
  (client/sync_server.cpp:584-612).
- `docs/01-protocol.md` closes a connection after more than five errors; the code closes it on the first
  frame or message it cannot parse (client/sync_server.cpp:56-88).
- `docs/08-session-auth-security.md` closes the connection after five wrong codes; in the code the count
  belongs to the server, is never reset while it runs, and refuses every later connection
  (client/sync_server.cpp:475-484).

## Model

| member | source | states |
|---|---|---|
| DocumentModel.ApplyInsertToContent | client/document_model.cpp:5-20 | An insert that is empty, starts past the end or outgrows 5 * 1024 * 1024 units leaves the text alone and says which; any other puts exactly the given text there |
| DocumentModel.ApplyDeleteToContent | client/document_model.cpp:22-33 | A deletion that is empty or not inside the text is refused and changes nothing; any other removes exactly that range |
| DocumentModel.EditThenInverse | client/document_model.cpp:5-33 | Every applied edit is undone by the opposite edit, which is itself accepted |
| DocumentModel.FoldAppend | client/document_model.cpp:5-33 | Replaying two lists of edits one after the other is replaying their concatenation, including where it stops |
| DocumentModel.FoldStaysWithinLimit | client/document_model.cpp:5-33 | No replay of accepted edits takes a text past the size limit that was not past it before |
| EditorDiff.ComputeEditorDiff | client/editor_diff.cpp:7-59 | Two marker loops find the one replacement between the longest common prefix and the longest common suffix outside it; equal texts give no edit, a text over the limit gives an invalid result |
| EditorDiff.ComputeRelayDiff | ui/app.js:496-526 | The browser's upward-counting suffix loop finds the same operations as the native client for every pair of texts |
| EditorDiff.DiffReplays | client/editor_diff.cpp:15-56 | Every operation of the diff is accepted in turn and the old text becomes exactly the new one |
| EditorDiff.DiffIsSmallest | client/editor_diff.cpp:15-56 | Any other contiguous replacement with the same effect deletes and inserts at least as many units |
| EditorDiff.RelayAgreesWithClient | ui/app.js:528-548 | The browser and the native client give the same text whenever both apply an operation; the browser alone also takes exactly the empty edits and the inserts over the document limit |
| EditorDiff.FoldRelayAgrees | ui/app.js:528-548 | A list of operations the native client can replay gives the same text in the browser |
| EditorDiff.DiffReplaysOnBothSides | ui/app.js:496-548 | A diff computed on either side and replayed on either side gives the new text |
| EditorDiff.DiffFlags | client/editor_diff.cpp:7-59 | A text over the limit gives an invalid result and nothing to send; any other is valid, and changed exactly when the texts differ, and exactly then there is something to send |
| EditorDiff.RelayRefusesIff | ui/app.js:528-548 | The browser refuses exactly the operations that are not inside the text, for every integer position and length |
| Caret.NativeMatchesBrowser | client/window.cpp:113-138 | The 32-bit native caret rule and the browser's rule agree on one edit exactly when the native one has nothing to clamp |
| Caret.CaretFollowsEdits | client/window.cpp:117-150 | Over any run of applied edits the caret stays in the text and what stands before and after it is the old left and right text with the edits' effect on each; the browser's caret is the same |
| Caret.SelectionStaysOrdered | client/window.cpp:140-150 | The ends of a selection never cross |
| Caret.SelectionFollowsEdits | client/window.cpp:140-157 | Over any run a selection stays ordered and inside the text, so the final clamp has nothing to do |
| Caret.EditAroundIsEdit | ui/app.js:994-1013 | The view of an edit from the caret, part before it and part after it, is the edit of the whole text |
| Caret.ClampIsInside | client/window.cpp:140-157 | The last clamp brings both ends of a selection inside the text, leaves alone what is inside, and keeps their order; the browser leaves a missing caret and a missing operation alone |
| Protocol.TypeNamesRoundTrip | client/protocol.cpp:203-248 | Type names and types correspond one to one, and every other name is the unknown type |
| KeyOrder.SortedKeysAscend | client/protocol.cpp:288-296 | The order in which an ordered map of strings is written is strictly ascending and lists every key |
| JsonPrinter.EscapeJsonString | client/protocol.cpp:96-130 | The escaping loop writes the escape of every unit in order |
| JsonPrinter.SerializeMessage | client/protocol.cpp:269-313 | A message without known type, session or client, with text that has no UTF-8 form, or longer than 64 KiB is refused; any other is printed as common, string and number fields in key order |
| JsonParser.SkipWhitespace | client/protocol.cpp:16-20 | Moves the index over white space and no further |
| JsonParser.ParseJsonString | client/protocol.cpp:22-75 | The scanning loop returns the string literal at the index and the index after it, and fails on an open string or an escape that is not listed |
| JsonParser.ParseUnsignedNumber | client/protocol.cpp:77-94 | The digit loop returns the number of the longest run of digits, and fails when it has more than 64 bits |
| JsonParser.DeserializeMessage | client/protocol.cpp:315-419 | The index-driven parser computes the verdict of the recursive reading for every payload, with its error kinds |
| JsonGrammar.LastWins | client/protocol.cpp:167-181 | Both maps hold, for every key, the value of its last member of that kind, and type, session and client mirror the string map |
| JsonAcceptance.GrammarIsAccepted | client/protocol.cpp:333-418 | Every text of the grammar, with any white space and escapes, gets the verdict its members deserve |
| JsonAcceptance.AcceptedIsGrammar | client/protocol.cpp:333-418 | Every accepted text is the text of some object of the grammar: no trailing comma, no trailing text |
| JsonAcceptance.ReadingIsUnique | client/protocol.cpp:315-419 | A text means one message, through whichever tree it is seen |
| JsonAcceptance.AcceptedIff | client/protocol.cpp:315-419 | A payload within the frame limit is accepted if and only if it is an object whose last type is known and last session and client are non-empty; its maps are the last-wins reading |
| JsonAcceptance.DigitsAreRead | client/protocol.cpp:77-94 | A run of digits is read as its value exactly when that fits 64 bits, and refused otherwise |
| JsonRoundTrip.EscapeItemsStandFor | client/protocol.cpp:96-130 | Escaped text is a string literal that stands for the original text, for every content |
| JsonRoundTrip.DecimalStandsFor | client/protocol.cpp:140-146 | A printed number is a digit run without a sign that stands for that number |
| JsonRoundTrip.PrintThenParse | client/protocol.cpp:269-419 | What is printed parses back to the same type, session, client, numbers and other string fields, for every content and every 64-bit number |
| JsonRoundTrip.ParsePrintParse | client/protocol.cpp:269-419 | A parsed message whose reprint fits a frame parses again to the same message |
| WireFormat.FieldNames | client/protocol.cpp:269-313 | The names of the fields and of the three parties, letter by letter |
| WireFormat.TypeNames | client/protocol.cpp:203-232 | The names of the twelve types |
| WireFormat.ReasonNames | client/sync_server.cpp:556-582 | The reasons of the error replies, letter by letter |
| WireFormat.MoreReasonNames | client/document_model.cpp:35-52 | The other reasons |
| WireFormat.EscapeTable | client/protocol.cpp:22-130 | Which units are written escaped and how, which escapes are read and as what, what is white space and what a digit |
| WireFormat.RequestText | client/sync_client.cpp:271-301 | The text of every request, field by field, in the order of the names |
| WireFormat.ApplyText | client/sync_server.cpp:617-643 | The text of every announcement |
| WireFormat.ChunkText | client/sync_server.cpp:503-512 | The text of every chunk of a full sync |
| WireFormat.ShortTexts | client/sync_server.cpp:405-418 | The texts of a full-sync request, a pong and an error reply |
| WireFormat.VerdictIs | client/protocol.cpp:315-419 | The verdict on every payload within the limit: a lone opening brace has no known type, an object closed at once lacks its fields, any other object is judged by its reading, and everything else is no JSON |
| Utf8.EncodeThenDecode | client/text_encoding.cpp:9-40 | Exactly the texts without an unpaired surrogate have a UTF-8 form, of the length the limits count, and it is read back as the text (table of section 3 of RFC 3629) |
| Utf8.DecodeThenEncode | client/text_encoding.cpp:42-70 | Bytes that are read at all are the one UTF-8 form of the text they are read as |
| WireBytes.PayloadIsOpened | client/protocol.cpp:269-419 | From message to bytes and back: what can be sent is within 64 KiB and is opened as the same message |
| WireBytes.RefusalIs | client/protocol.cpp:269-313 | Why a message is not sent, in the order of the checks, with the limit on the bytes of its UTF-8 form |
| WireBytes.UnfitIsRefused | client/protocol.cpp:322-331 | Payloads over the limit and payloads that are no UTF-8 are refused before they are parsed |
| WireBytes.SentIsReceived | client/sync_client.cpp:64-96 | Any messages with payloads within the safe bound, framed and split in any way on the road, come out of the receiving loop and the parser one by one, and then the end |
| WireTransparency.WindowSeesTheSame | client/webview_window.cpp:582-754 | Printing and parsing a message in between does not change what it does to a window |
| WireTransparency.ServerSeesTheSame | client/sync_server.cpp:556-644 | Printing and parsing a request in between does not change what the server decides |
| Frames.LengthRoundTrip | client/protocol.cpp:152-157 | The length read from the front of an encoded frame is the payload's length |
| Frames.FrameDecoder.Append | client/protocol.cpp:434-444 | Bytes are appended only while the buffer stays within one largest frame; otherwise the buffer is cleared and the caller is told |
| Frames.FrameDecoder.TryReadFrame | client/protocol.cpp:446-469 | Takes the first whole frame off the buffer and leaves the rest, waits when it is incomplete, reports a length over the limit |
| Frames.ReceivePayload | client/sync_client.cpp:64-96 | The try-read, receive, append loop delivers one payload or ends, and leaves decoder and source where the stream reading leaves them |
| Frames.ReceivePayloads | client/sync_client.cpp:64-96 | Calling the loop until it ends collects the payloads of the stream reading |
| Frames.EverySplitDelivers | client/sync_client.cpp:64-96 | Payloads of at most 61441 bytes arrive in order and complete under every split into pieces of 1 to 4096 bytes, with no error and an empty buffer at the end |
| Frames.OverTheBoundBreaks | client/protocol.cpp:434-444 | For every larger payload the encoder allows there are a stream and a split that end in an error |
| Frames.SafePayloadIff | client/protocol.cpp:421-469 | A payload bound is safe under every split if and only if it is at most 61441 bytes |
| Frames.StreamEnds | client/protocol.cpp:446-469 | Under every split, payloads before the end of the connection inside a frame are delivered and the part is kept; payloads before a header of more than 64 KiB are delivered, and the header is an error as soon as it is there |
| FrameSizes.ChunkFrameIsSafe | client/sync_server.cpp:486-519 | With a six-unit code and no pair cut, every chunk message takes at most 24910 bytes, below the safe bound |
| FrameSizes.EditMessageTakes | client/sync_client.cpp:271-301 | Requests and announcements of edits that insert up to 20359 units of valid text take at most 61441 bytes, whatever the text escapes to |
| FrameSizes.SmallEditIsCarried | client/sync_client.cpp:271-301 | Such edits go through on both ways, under every 64-bit revision |
| FrameSizes.SyncRequestFits | client/sync_client.cpp:303-310 | A request for a full sync always fits a frame |
| ValidText.FieldNeedsValidText | client/protocol.cpp:300-304 | A message that holds half of a surrogate pair in any field cannot be sent, whatever stands around it |
| SurrogateCuts.CleanCutsIff | client/sync_server.cpp:499-507 | For valid text, every chunk is valid text exactly when no cut falls inside a surrogate pair |
| SurrogateCuts.SyncIsSentIff | client/sync_server.cpp:486-519 | A full sync of any document is sent whole if and only if every chunk is valid text |
| SurrogateCuts.FullSyncIsSentIff | client/sync_server.cpp:486-519 | A full sync of valid text is sent whole if and only if no cut falls inside a surrogate pair |
| Chunks.CutsConcat | client/sync_server.cpp:486-519 | The pieces in order make up the document again |
| Chunks.CutsCount | client/sync_server.cpp:493-496 | They are max(1, ceil(n / size)) |
| Chunks.CutsAtOffset | client/sync_server.cpp:499-507 | Piece i starts at i times the size and is shorter only at the end |
| Chunks.ChunkText | ui/app.js:386-392 | The browser's loop cuts the same way in pieces of 10000 units, with one empty piece for empty text |
| Server.SyncServer.SetDocument | client/sync_server.cpp:201-205 | The server restarts from the given content and revision |
| Server.SyncServer.ApplyMessageToDocument | client/sync_server.cpp:556-644 | An accepted request edits the document, adds one to the revision and yields its announcement; a refused one changes nothing and names the first reason that applies |
| Server.SyncServer.ApplyLocalOperation | client/sync_server.cpp:207-235 | The host's own edit goes through the same decision, and its announcement to the peer if there is one |
| Server.SyncServer.SendSyncResponse | client/sync_server.cpp:486-519 | The chunk loop sends the pieces of the current document in order under the current revision, and stops for good at the first that does not fit a frame |
| Server.SyncServer.HandleEditMessage | client/sync_server.cpp:530-554 | Only the guest may ask; an accepted request is announced to peer and host, a refused one is answered with its reason; the connection ends only when an announcement does not fit a frame |
| Server.SyncServer.HandleMessage | client/sync_server.cpp:386-430 | One turn of the serving loop on the server's own fields: session check, ping, edit, full-sync request and everything else, as `ServingLoop` states case by case |
| Server.ApplyForReadsBack | client/sync_server.cpp:617-643 | An announcement reads back as the operation, revision and author it was made from |
| Server.RequestReadsBack | client/sync_client.cpp:271-301 | A request reads back as the operation it was made from |
| Server.ChunkMessageReadsBack | client/sync_server.cpp:503-512 | A chunk message reads back as its index, count, revision and text |
| ServingLoop.PingIsAnswered | client/sync_server.cpp:405-418 | A ping of the session changes nothing and is answered with one pong from the server, in the peer's session, with the ping's time or none; the connection ends only if the pong cannot be sent |
| ServingLoop.PingKeepsConnection | client/sync_server.cpp:405-418 | The pong of a six-unit session and a 64-bit time always fits a frame |
| ServingLoop.SyncIsAnswered | client/sync_server.cpp:486-519 | A full-sync request is answered from the server with the chunks in order, each with its place, their number and the revision; the connection goes on exactly when all could be sent, and they make up the document |
| ServingLoop.StrangeMessage | client/sync_server.cpp:400-430 | A message of another session, an edit of another author and a message of any other type are each answered with their error, and nothing else happens |
| ServingLoop.InsertVerdict | client/sync_server.cpp:556-643 | Every insert of the peer: the first fault it has is the reason it is refused for; without a fault the document has the text in its place, and host and peer are told the same |
| ServingLoop.DeleteVerdict | client/sync_server.cpp:556-643 | Every deletion of the peer, likewise |
| ServingLoop.WrongSender | client/sync_server.cpp:560-570 | An edit request is refused for a wrong session before it is refused for a wrong author, and for both before anything else |
| ServingLoop.SpeaksAsGuest | client/sync_client.cpp:271-301 | The edits of a client without a name or with the guest's are made under the guest's name |
| ServingLoop.SpeaksAsHost | client/sync_server.cpp:207-235 | The edits of a host window without a name or with the host's are made and announced under the host's name |
| ServingLoop.RefusedHostIsRestored | client/webview_window.cpp:606-616 | A host whose edit is refused shows its server's document at its revision again |
| SequencerRuns.AcceptedIff | client/sync_server.cpp:556-615 | A request is accepted if and only if session and client are right, its fields are there, its insert is within 32 * 1024 units and its edit applies |
| SequencerRuns.AcceptedIsAnnounced | client/sync_server.cpp:617-643 | The announcement of an accepted request carries that operation, that author and the next revision, and the document is edited by it |
| SequencerRuns.RunIsReplay | client/sync_server.cpp:201-235 | Over every run of requests the document is the fold of the announcements over the starting content, revisions count them without a gap, and no insert takes the document past the limit |
| SequencerRuns.FollowNumbered | client/webview_window.cpp:700-754 | A window that receives announcements in order counts them all, applies the others' edits and leaves its text alone for its own |
| SequencerRuns.FollowerConverges | client/webview_window.cpp:700-754 | A window in step, host or guest, with none of the accepted edits to its name ends with the server's document and revision |
| SequencerRuns.MixedFollower | client/webview_window.cpp:717-753 | With edits of both authors a window at the starting revision, whatever it shows, ends at the server's revision with exactly the others' edits applied to its own text, when they apply |
| Replica.SyncClient.EnqueueMessage | client/sync_client.cpp:402-419 | A message is queued exactly if the client is connected and it fits a frame |
| Replica.SyncClient.SendInsert | client/sync_client.cpp:271-285 | An insert is queued as a request under the client's identity, and reported as sent, exactly when it is not empty, its message can be sent and the client is connected |
| Replica.SyncClient.SendDelete | client/sync_client.cpp:287-301 | Likewise for a deletion |
| Replica.WebViewWindow.ApplySyncResponse | client/webview_window.cpp:638-690 | One chunk malformed, collected, or completing the document, with the whole new state of the window |
| Replica.WebViewWindow.ApplySyncApply | client/webview_window.cpp:700-754 | An announcement that is old, own, next in line, or a gap: ignored, confirmed, applied, or answered with a full sync |
| Replica.WebViewWindow.RequestFullSync | client/webview_window.cpp:756-766 | The host's window takes its server's document and revision, the guest's asks for a full sync from its revision on and stays as it is, and any other does nothing |
| Replica.WebViewWindow.HandleSyncEvent | client/webview_window.cpp:582-599 | Announcements and chunks go to their handlers, everything else changes nothing |
| Replica.WebViewWindow.SendLocalOperations | client/webview_window.cpp:601-636 | Every operation of a change goes to the host's server or to the guest's queue, in order, with a repair after each refusal; an offline window sends nothing and changes nothing |
| Replica.WebViewWindow.HandleEditorChanged | client/webview_window.cpp:427-443 | The window sends the difference and then shows the typed text, even after a refusal; a text over the limit changes nothing |
| HostWindow.OwnRaises | client/webview_window.cpp:713-721 | An announcement of the window's own above its revision only raises the revision, whatever the gap |
| HostWindow.HostReceivesOne | client/webview_window.cpp:700-766 | The host and the next waiting event: an old one and its own leave the text alone, one that follows is applied, and after any other the window is at its server's document and revision |
| HostWindow.GuestReceivesOne | client/webview_window.cpp:700-766 | The guest likewise, except that after an announcement it cannot follow it stays as it is and asks for a full sync from its revision on |
| HostWindow.UnknownOperation | client/webview_window.cpp:727-748 | An announcement whose operation is none of the two or lacks its field is followed by no window |
| HostWindow.TypedIsShown | client/webview_window.cpp:427-443 | What is typed is shown whether it goes through or not; a text over the document limit changes nothing at all |
| HostWindow.NothingIsSentAfterTheEnd | client/sync_server.cpp:432-451 | After the end of the connection nothing is sent either way and the server changes only by the host's typing |
| HostWindow.LineIsKept | client/webview_window.cpp:571-621 | Over every run, whoever types what and when, the events that wait at the host are old or numbered without a gap up to the server's revision |
| HostWindow.HostComesBack | client/webview_window.cpp:571-621 | Over every such run, once the waiting events are received the host is at the server's revision, with the announcements in line applied or, if one of them does not apply, with the server's document |
| HostWindow.FirstFailureRestores | client/webview_window.cpp:741-766 | The first announcement in line that does not apply restores the host's window, and so it stays through the events after it |
| Reassembly.ResponseDelivers | client/webview_window.cpp:638-690 | A window takes a chunk message of the server for exactly the chunk it carries |
| Reassembly.DeliverIsSound | client/webview_window.cpp:638-690 | One chunk either shows exactly the document, or changes neither text nor revision and keeps the collection correct |
| Reassembly.FeedIncomplete | client/webview_window.cpp:659-675 | While an index is missing nothing is shown, and exactly the indices that came are marked |
| Reassembly.FeedCompletes | client/webview_window.cpp:659-690 | In any order and with any repetition, the arrival of the last missing index, and no earlier one, shows exactly the document |
| Reassembly.PlainResponse | client/webview_window.cpp:638-690 | A response that names no chunk is the whole text; one without text or revision, without chunks or with a chunk past the last changes nothing |
| Reassembly.IgnoredMessage | client/webview_window.cpp:582-712 | An announcement without its fields and a message of any other type change nothing |
| RelayReceiver.Browser.ReceiveRelayFullSync | ui/app.js:417-446 | One chunk in the browser, with the whole new state; out of range it changes nothing |
| RelayReceiver.BrowserFollowsWindow | ui/app.js:417-446 | Over any stream of chunks of any revisions, in range or not, browser and native window show the same text at the same revision |
| RelayReceiver.RelayDocumentArrives | ui/app.js:386-446 | The browser's own pieces in any order show exactly the document when the last missing one arrives, and never before |
| PassiveGuest.PassiveGuestIsExact | client/webview_window.cpp:638-766 | Over every run with loss, repetition and reordering, a guest that has synced once and types nothing shows the server's document of exactly its revision |
| PassiveGuest.ResyncOnlyOnGap | client/webview_window.cpp:713-730 | Such a guest asks for another sync if and only if the APPLY skips a revision |
| PassiveGuest.NextKeepsInv | client/webview_window.cpp:638-766 | Every step of the room keeps: all messages ever emitted are true of the history, and the collection is of one past document |
| TurnTaking.TurnsConverge | client/webview_window.cpp:601-754 | In every state reached by turns in which edits go through, the guest's text with host APPLYs in flight equals the server's document with queued requests, and with nothing on its way all texts and revisions are equal |
| TurnTaking.Settle | client/webview_window.cpp:571-599 | From every state the invariant allows, receiving ends: all queues empty, all copies equal to what the last typist saw |
| TurnTaking.NextKeepsInv | client/sync_server.cpp:530-644 | Every allowed step keeps roles, gapless numbering on both ways and the equation of texts |
| TurnTaking.HostTypesKeepsInv | client/webview_window.cpp:601-621 | After the host's turn the server's document is the typed text |
| TurnTaking.GuestTypesKeepsInv | client/webview_window.cpp:601-635 | After the guest's turn the server's document with the queue applied is the typed text |
| TurnTaking.HostSendsAll | client/webview_window.cpp:606-621 | A host's edits whose announcements can be sent are accepted edit by edit, announced under consecutive revisions, and all of it is sent |
| TurnTaking.GuestSendsAll | client/webview_window.cpp:606-635 | A guest's edits whose requests can be sent are queued completely and read back as the edits |
| TurnTaking.ServeRequest | client/sync_server.cpp:530-554 | A queued request that applies is announced to both windows, and the connection stays |
| TurnTaking.OnNextApply | client/webview_window.cpp:713-753 | The next announcement in line confirms an own edit or applies the other's |
| Receiving.ServeOneEdit | client/sync_server.cpp:530-554 | Any request of the guest is accepted and announced, or refused with at most an error reply; the connection ends exactly if the announcement cannot be sent |
| Receiving.OnFailingApply | client/webview_window.cpp:742-748 | An announcement in line that does not apply leaves the window as it is and calls for a full sync |
| Receiving.AnswerArrives | client/webview_window.cpp:638-690 | A full sync received in order shows its document at its revision, whatever the window showed before |
| Receiving.PendingNext | client/sync_server.cpp:411-422 | Every receive step keeps the prospect of the session: where the server will end, what the guest will show, whether the connection lasts; once it has ended the server reads no further request |
| Receiving.EveryOrderEnds | client/webview_window.cpp:571-599 | Every order of receiving that leaves nothing on its way ends in that state: host and server with the requests taken up to the first one that was accepted and could not be announced |
| Receiving.Drains | client/webview_window.cpp:571-599 | Receiving comes to an end, full syncs included, whether the connection lasts or not |
| Receiving.ReadyIsPending | client/sync_server.cpp:530-554 | A session in which the guest has every announcement or it is on its way has that prospect: the server ends with the queued requests taken one by one until the connection ends, and the connection lasts if and only if none of the accepted ones is impossible to announce |
| HostSteps.HostStaysInStepIff | client/webview_window.cpp:434-441 | A host in step with its own server stays in step after typing if and only if the diff inserts at most 32 * 1024 units |
| SingleEdits.InsertIsValidIff | client/editor_diff.cpp:24-56 | For a valid new text the inserted text is valid if and only if it is empty or neither end of the changed part falls inside a surrogate pair |
| SingleEdits.GuestReportSettlesIff | client/sync_client.cpp:271-301 | A guest's report from a settled session reaches everybody, in every order of receiving, if and only if its insert is valid text, is within 32 * 1024 units, and its request and its announcement fit a frame |
| SingleEdits.HostReportSettlesIff | client/webview_window.cpp:606-621 | The same for the host, whose edit needs no request |
| SingleEdits.GuestMayIff | client/webview_window.cpp:618-635 | In a settled session that condition is the assumption of turn taking on the guest's edit |
| SingleEdits.HostMayIff | client/webview_window.cpp:606-621 | In a settled session that condition is the assumption of turn taking on the host's edit |
| SingleEdits.ReportBreaks | client/sync_server.cpp:539-552 | A report whose insert is accepted and cannot be announced leaves the server with the whole reported text and ends the connection |
| SingleEdits.GuestReplacesCharacter | client/text_encoding.cpp:12-25 | The guest replaces U+1F600 by U+1F601: all revisions agree, its window has the new character, host and server are left with half of the old one |
| SingleEdits.HostReplacesCharacter | client/text_encoding.cpp:12-25 | The host does: host and server have the new character, the guest is left with half of the old one and one revision behind |
| SingleEdits.GuestReplacementRests | client/sync_client.cpp:402-419 | The guest's run comes to rest |
| SingleEdits.HostReplacementRests | client/sync_server.cpp:207-235 | The host's run comes to rest |
| Crossing.ReportsEnd | client/sync_server.cpp:530-554 | A host report that goes through and any guest reports that cross it, in every order of receiving: the final texts and revisions, with dropped and refused requests, failed announcements and full syncs, and exactly when the connection lasts |
| Crossing.ReportsAgreeIff | client/webview_window.cpp:700-766 | They end connected and with equal copies if and only if every accepted request could be announced and either the guest's last text with the host's diff is the server's document, or the guest cannot apply the host's diff and the full sync can be sent |
| Crossing.ReportsDrain | client/webview_window.cpp:571-599 | Such an order of receiving exists for all of these reports, whether the connection lasts or not |
| Crossing.CrossingEnds | client/webview_window.cpp:700-766 | The same for one report each, none of whose messages is dropped: the texts and revisions in terms of the two diffs |
| Crossing.CrossingAgreesIff | client/webview_window.cpp:700-766 | Such reports end with equal copies if and only if the guest's text with the host's diff is the host's text with what is accepted of the guest's diff, or the guest cannot apply the host's diff and the full sync can be sent |
| Crossing.ReportsCommute | client/webview_window.cpp:427-443 | Who reports first makes no difference |
| Crossing.ServedIsFold | client/sync_server.cpp:556-615 | When all requests apply and are within their limit, the server's end is the plain fold of the diff |
| Divergence.ConcurrentEditsDiverge | client/webview_window.cpp:717-753 | The guest types a letter while the host's is on its way: in every order of receiving all revisions agree in the end and the texts differ |
| Divergence.GuestFirstDiverges | client/webview_window.cpp:717-753 | The same when the guest types first and the host types while that request waits |
| Divergence.LettersComeToRest | client/webview_window.cpp:571-599 | There is such a run |
| Divergence.DifferentPlacesAgreeIff | client/webview_window.cpp:717-753 | Crossing changes in different places, neither refused, agree if and only if the text between the raw and the moved place of the change behind rolls over what that change inserts |
| Divergence.EqualLengthInFrontAgrees | client/webview_window.cpp:717-753 | In particular they agree when the change in front keeps its length, whichever side made it |
| Divergence.RestIsUnread | client/sync_server.cpp:411-422 | When a report is accepted whole and its insert cannot be announced, host and server end with that report whatever the guest types after it before hearing, and the connection has ended |
| Admission.JoinGate.RegisterJoinFailure | client/sync_server.cpp:475-479 | Counts one failure and says whether the limit is reached |
| Admission.JoinGate.IsJoinBlocked | client/sync_server.cpp:481-484 | Refuses exactly from the fifth counted failure on |
| Admission.JoinGate.Admit | client/sync_server.cpp:364-375 | Joins exactly if nobody has joined, and then the peer is this socket |
| Admission.JoinGate.Abandon | client/sync_server.cpp:381-386 | When the confirmation cannot be sent nobody is joined any more |
| Admission.JoinGate.Release | client/sync_server.cpp:432-443 | Clears the peer exactly if it is still this handler's socket, which is also when the handler may close it |
| Admission.OnePeerAtMost | client/sync_server.cpp:327-451 | In every interleaving of handlers a peer is marked as joined exactly when one handler is between admission and release; it is that handler's socket, there is no second, and it gave the right code |
| Admission.BlockedForGood | client/sync_server.cpp:475-484 | After the fifth failure every later check refuses, and no handler passes that had not passed before |
| Admission.NextKeepsInv | client/sync_server.cpp:327-451 | Every step of every handler keeps the agreement between the marked socket and the one admitted handler |
| Admission.FailuresAreCounted | client/sync_server.cpp:327-364 | In every interleaving the count is exactly the number of failed handshakes and wrong codes, of all connections together |
| Admission.CheckPassesIff | client/sync_server.cpp:475-484 | So a block check passes if and only if there were fewer than five failures so far |
| Admission.PlaceIsGivenIff | client/sync_server.cpp:364-443 | In every interleaving a handler with the right code is let in if and only if nobody is in the room, and nobody is in it after its handler ends |
| Admission.RightCodeGetsIn | client/sync_server.cpp:327-390 | After any run with fewer than five failures an undisturbed connection with the right code is served whenever nobody is in the room |
| RelayHub.Hub.CreateRoom | relay-server/main.go:430-473 | The first refusal that applies is answered and changes nothing; otherwise a fresh room with this peer as A is registered under a drawn code that was free |
| RelayHub.Hub.GenerateRoomCode | relay-server/main.go:585-596 | Returns a drawn code that is not registered, and fails exactly if the first hundred draws all are |
| RelayHub.Hub.JoinRoom | relay-server/main.go:475-523 | The first refusal that applies is answered, an expired code also loses its registration; otherwise the peer takes the free id, both are told, and no other room or outbox changes |
| RelayHub.Hub.RelayPayload | relay-server/main.go:525-550 | A payload in order reaches exactly the other peers of the sender's room and refreshes exactly that room; otherwise only the sender hears |
| RelayHub.Hub.RemovePeer | relay-server/main.go:552-572 | The peer leaves, the others of its room are told, and every other room stays registered if and only if it is not the last peer of a room whose code was reissued |
| RelayHub.Hub.NotifyRoom | relay-server/main.go:574-583 | The loop over a room's peers sends the message once to each but one, and to nobody else |
| RelayHub.Hub.CleanupExpiredRooms | relay-server/main.go:607-630 | Exactly the registered rooms unused for longer than the limit lose their registration, exactly their peers are told, and old limiter windows go |
| RelayHub.TwoPeersAtMost | relay-server/main.go:505-512 | In every consistent state a room, registered or not, has at most two peers, with different ids from A and B |
| RelayHub.InRoomIff | relay-server/main.go:510-512 | In every consistent state a peer's room field and the room's peer table agree, even after expiry |
| RelayTrace.RegisteredIff | relay-server/main.go:475-630 | A room is registered after a call if and only if it was before, still has a peer, and the call is no join with its code after it expired, no cleanup for which it is due, and not the end of the last peer of another room of its code; an empty room gets no peer |
| RelayTrace.RegisteredInTheEndIff | relay-server/main.go:475-630 | Over every trace: registered in the end if and only if registered in the beginning, with a peer in the end, and not condemned by any call while registered; a lost registration is never regained |
| RelayTrace.FromEmptyIff | relay-server/main.go:430-630 | Over every trace from an empty hub, for rooms opened on the way too: registered in the end if and only if it has a peer and no call condemned it while it was registered |
| RelayRuns.Step | relay-server/main.go:430-630 | One call of any kind changes the recorded state of hub, rooms, peers and limiter as the relation on recorded states says, with every refusal |
| RelayRuns.Watch | relay-server/main.go:430-630 | Over any sequence of calls from any consistent hub the recorded states are a trace, and each room is registered in the end if and only if it was in the beginning, has a peer in the end, and no call condemned it in a recorded state in which it was registered |
| RelayRuns.Run | relay-server/main.go:430-630 | Any sequence of calls at any times from an empty hub ends in a consistent hub, with links both ways, rooms filed under their own codes and at most `maxRooms` of them; a room is registered in the end if and only if it has a peer and no call condemned it while it was registered |
| RelayRuns.ReissuedCode | relay-server/main.go:564-565 | For every code there is a run after which a peer sits in a room used just now that is not registered, because its code was reissued and the other room emptied |
| RelayRuns.ExpiredByJoin | relay-server/main.go:500-504 | For every valid code there is such a run without a reissued code: a join finds the room expired, its peer hears nothing and goes on using it |
| RelayVerdicts.ValidCodeIff | relay-server/main.go:658-668 | The codes a join may name: 6 to 32 digits from 2 and capital letters but I and O |
| RelayVerdicts.JoinVerdict | relay-server/main.go:475-508 | Every answer to a join and exactly when it is given, in every state of the hub |
| RelayVerdicts.CreateVerdict | relay-server/main.go:430-455 | Every answer to the wish for a room and exactly when it is given |
| RelayVerdicts.CreatedCanBeJoined | relay-server/main.go:430-523 | A room created under a drawn code is joined by that code, until it expires, by any free connection the limiter lets through, as peer B |
| RelayVerdicts.CleanupLeaves | relay-server/main.go:607-630 | A cleanup leaves exactly the rooms used within the limit and the limiter windows less than two minutes old, as they were |
| RateLimiter.Limiter.AllowRateLimitedAction | relay-server/main.go:366-387 | The in-place limiter decides and counts as the window function says |
| RateLimiter.Limiter.CleanupRateLimits | relay-server/main.go:607-616 | The loop drops exactly the windows at least two minutes old |
| RateLimiter.CleanupIsInvisible | relay-server/main.go:607-616 | Over every run with a clock that does not go back, all answers are those of a limiter that never forgets |
| RateLimiter.AtMostTwiceLessOne | relay-server/main.go:366-387 | Every half-open minute contains at most 2L - 1 allowed actions of an address |
| RateLimiter.BoundIsReached | relay-server/main.go:366-387 | For every positive L some run and some minute contain exactly 2L - 1 |
| RateLimiter.RefusedForCause | relay-server/main.go:366-387 | Over every run with a positive limit L an action is refused only if at least L actions of its address were allowed in the minute that ends with it |
| RateLimiter.LetInAgain | relay-server/main.go:366-387 | So after a minute without an allowed action the next one is allowed, however often the address was refused meanwhile |
| RateLimiter.CleanupKeepsRecent | relay-server/main.go:607-616 | After a cleanup the table lists every address allowed an action in the last minute and none that was not allowed one in the last two |
| RateLimiter.NoLimitRefusesNothing | relay-server/main.go:366-370 | Without a positive limit every action of every run is allowed |
| WebSocketFrames.WsConn.ReadFrame | relay-server/main.go:982-1043 | Reading step by step from the connection gives the frame, or the failure, of the whole input and leaves what follows it |
| WebSocketFrames.Unmask | relay-server/main.go:1038-1040 | The in-place loop combines every octet with the mask key octet of its position |
| WebSocketFrames.WsConn.ReadText | relay-server/main.go:960-980 | Skips pongs, answers pings with their payload, returns the next text or the end |
| WebSocketFrames.WsConn.WriteFrame | relay-server/main.go:1053-1083 | Writes the final unmasked frame with the shortest length encoding |
| WebSocketFrames.BigEndianRoundTrip | relay-server/main.go:1005-1023 | Extended lengths of any width are read back |
| WebSocketFrames.MaskingTwice | relay-server/main.go:1038-1040 | Masking is its own inverse |
| WebSocketFrames.FrameRoundTrip | relay-server/main.go:982-1043 | The client encoding of section 5.2 and section 5.3 of RFC 6455 of every opcode, key and payload, under each of the three length encodings that can hold it, is read back with exactly the following octets left, or refused as too large if it is over the limit |
| WebSocketFrames.OversizedIsRefused | relay-server/main.go:1018-1027 | Every frame over the limit is refused as too large, under each of the three length encodings |
| WebSocketStreams.ServerFrameIsRead | relay-server/main.go:1053-1083 | What a browser reads of the relay's frames by section 5.2 of RFC 6455: final, not masked, the opcode and the whole payload, with what follows left, under the shortest length form |
| WebSocketStreams.StandardExamples | relay-server/main.go:982-1083 | The example frames of section 5.7 of RFC 6455, octet by octet, in both directions |
| WebSocketStreams.LongExamples | relay-server/main.go:1063-1074 | The two frames of that section with extended lengths |
| WebSocketStreams.StreamEnds | relay-server/main.go:960-1043 | From a stream of text, ping and pong frames and whatever ends it the texts come out in order with the right reason for the end, and what is written reads back as one pong per ping with the ping's own payload, in order |
| WebSocketStreams.CutAnywhere | relay-server/main.go:960-1043 | The same for a stream that is cut off at any octet: exactly the frames that came whole are read and answered |
| WebSocketStreams.StreamIsRead | relay-server/main.go:960-980 | In particular a stream of whole frames is read to its end, with every ping answered |
| Markdown.ParseMarkdown | ui/app.js:762-805 | The line loop with its code state yields the blocks of the recursive reading, and one empty paragraph when there are none |
| Markdown.SerializeEditor | ui/app.js:936-966 | The block loop writes the lines of the blocks with one fence around each run of code |
| MarkdownReading.ReadingIff | ui/app.js:779-801 | A line outside code is read as a block other than a paragraph if and only if it is one of the spellings of that block, listed character by character; every other line is a paragraph |
| MarkdownReading.SpellingIsRead | ui/app.js:779-801 | Every spelling has its meaning: all three check marks, with and without white space after the box, stars and dashes, every label, dividers inside white space |
| MarkdownReading.SpacesAre | ui/app.js:779-782 | The white space and the line ends of the patterns, unit by unit |
| MarkdownReading.TextIsRead | ui/app.js:762-805 | For every text the blocks are those of its lines in order without the fences: code after an odd number of fences, read by its spelling otherwise; a text of fences alone gives one empty paragraph |
| MarkdownReading.LinesAreSplit | ui/app.js:763-764 | A line ends at a line feed, with or without a carriage return before it, and nowhere else |
| MarkdownReading.WrittenIsSpelled | ui/app.js:830-859 | Every block is written in the editor's own spelling; paragraphs and code as they stand |
| MarkdownReading.ZeroWidthIsDropped | ui/app.js:687-695 | Zero-width spaces are not written, and everything else is |
| MarkdownRoundTrip.RoundTripIff | ui/app.js:762-966 | For every non-empty list of blocks, reading what was written gives the same blocks if and only if the list is canonical: each type avoids its own pitfalls, and only the last line may end with a carriage return |
| MarkdownRoundTrip.CanonicalComesBack | ui/app.js:762-966 | Every canonical list comes back: no block is lost, merged, retyped or altered |
| MarkdownRoundTrip.OnlyCanonicalComesBack | ui/app.js:762-966 | A list that comes back is canonical; no pitfall of one block is made up for by another |
| MarkdownRoundTrip.LineReadsBack | ui/app.js:830-859 | The line of a canonical block is read as that block and never as a fence |
| MarkdownRoundTrip.ReadBackIsCanonical | ui/app.js:779-801 | A block whose line reads back as itself is canonical |
| MarkdownRoundTrip.LossShows | ui/app.js:763 | A line that lost a carriage return to normalization never reads back as its block |
| MarkdownRoundTrip.LinesComeBack | ui/app.js:763-764 | Joined lines are split into the same lines, except that all but the last lose one final carriage return |
| MarkdownReload.ReadIsCanonicalIff | ui/app.js:779-801 | A line that is no fence is read as a canonical block exactly when it holds no zero-width space and, outside code, is not a star bullet that looks like a check box |
| MarkdownReload.ZeroWidthIsKept | ui/app.js:779-801 | Reading a line leaves out no zero-width space |
| MarkdownReload.ReloadIff | ui/app.js:762-966 | For every text, loading, saving and loading again shows the same blocks if and only if outside fence lines there is no zero-width space, no star bullet outside code looks like a check box, and no block keeps a carriage return at its end but the last, outside code |
| Spans.SerializedBlockSpans | ui/app.js:884-934 | The offset-counting loop gives one span for every block, in order |
| Spans.PrefixLengthIsPrefix | ui/app.js:861-882 | The separately listed prefix lengths are those of the prefixes that are written |
| Spans.SpansAgree | ui/app.js:884-966 | Each block's text is exactly the slice of the written document between the ends of its span |
| Spans.SpansAreOrdered | ui/app.js:884-934 | The spans are strictly ordered and never touch |
| Spans.RestoreDocumentCaret | ui/app.js:1015-1038 | The search loop finds the first span that ends at or after the clamped offset, or the last one |
| Spans.SaveThenRestoreIff | ui/app.js:976-1038 | A saved caret is restored to the same block and offset if and only if the offset is within the block's written text |
| Spans.RestoreThenSave | ui/app.js:976-1038 | An offset inside a block's text is restored there, and saving gives it back |
| Spans.RestoredAnywhere | ui/app.js:1015-1038 | Every offset: inside a block's text it is that place, in a prefix, a fence or a line break the start of the next block, before everything the start of the first and past everything the end of the last |
| Spans.RestoredSomewhere | ui/app.js:1015-1038 | Nothing is restored exactly without an offset or a block, and what is restored lies inside a block's text |

## Left out

- Sockets, timeouts, select, discovery, the HTTP upgrade, origin, TLS and access-key checks: input and output; byte chunks and message queues stand in for them.
- Threads: the server applies an edit and sends its announcement under different locks (client/sync_server.cpp:225-230 and 539-550); the model makes the two one step. The passive-guest theorem does not depend on the order.
- Sending: a frame is sent whole or not at all; two threads writing one socket at the same time are not modelled.
- UTF-8 conversion: the system's conversion functions are taken to be the strict ones of RFC 3629. The JSON theorems are about UTF-16 text; `WireBytes` joins them to the bytes.
- Integer widths: revisions, failure counts and sizes are unbounded; wrap-around of a 64-bit revision and of the join failure count is not modelled. Where a number must fit 64 bits to be parsed, the theorem says so.
- Memory: allocation never fails, also not for a chunk count that a peer made very large.
- `iswdigit` is taken as the ten ASCII digits.
- Replica.WebViewWindow.HandleEditorChanged: does not model saving to disk and status texts, and takes the text as already decoded from the web view's message.
- Admission.OnePeerAtMost: does not model stopping the server while handlers run, nor the reconnect token.
- TurnTaking.TurnsConverge: starts with both windows synced; joining is covered by the passive-guest theorem.
- FrameSizes.SmallEditIsCarried: says nothing of inserts above 20359 units; whether those fit depends on their characters, and `SingleEdits` takes the fit itself as the condition.
- FrameSizes.EditMessageTakes: bounds inserts of up to 20359 units of valid text only.
- Crossing.ReportsEnd: the host reports once, with an edit that goes through; what a host's edit does that does not is in `SingleEdits`.
- Crossing.CrossingEnds: one guest report, none of whose messages is dropped; `Crossing.ReportsEnd` has the others.
- TurnTaking.Settle: no peer disconnects while messages are on their way.
- PassiveGuest.PassiveGuestIsExact: messages are delivered whole; that the wire does not change them is `WireTransparency`.
- RelayHub.Hub.JoinRoom: trimming and upper-casing the asked code is the caller's; the result is a parameter. Outboxes are unbounded and never closed, where the relay closes a connection whose queue of messages is full.
- RelayHub.Hub.CreateRoom: the limiter and the room are two holds of the mutex with two clock readings in the program (also in JoinRoom); the model makes them one step, so calls that come between the two are not modelled.
- RelayHub.Hub.RelayPayload: the checks on the payload's JSON are represented by their verdict.
- RelayHub.Hub.CleanupExpiredRooms: closing the connections of an expired room is a later call of `RemovePeer`.
- RelayRuns.Run: clocks are parameters of the calls and may go anywhere. Random codes are parameters of the calls. What a call sends is stated by the hub's methods and is no part of a recorded state.
- RateLimiter.AtMostTwiceLessOne: the clock of the limiter never goes back.
- Frames.ReceivePayload: stops at the payload's bytes; what they are opened as is in `WireBytes`. A receive that times out is not modelled.
- WebSocketFrames.WsConn.ReadFrame: connection errors other than the end of the input, and the handling of opcodes by the browser.
- The browser relay's debounce timers, snapshots and acknowledgements (ui/app.js:448-676): they let remote edits replace unsent local text, so no equation of the copies holds over their runs.
- The native rich-edit window's copy of the same protocol (client/window.cpp:1685-2025), reconnecting, menus, slash commands, tabs, preview, composition flags: user interface around the same operations.
- Blocks are records of type, text content and check mark; the page structure, the current selection and composed text inside a block are not modelled. An editor without any block is not modelled.
- Storage, configuration, logging, session files, installation: file input and output with little state.
