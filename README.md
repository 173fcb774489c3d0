# TmiK core in Dafny

This project models the core of TmiK, a Kotlin client for Twitch chat over WebSocket IRC, and proves properties of that model. It covers five layers.

- **The wire-line parser** (module `MessageParsing`). `parseMessage` turns one IRC line into a `RawMessage` with tags, prefix, command, channel and text. It runs as the library writes it: a `RawMessageBuilder` class whose fields are filled in step by step. The function `Parse` specifies it. The helpers of `Utility.kt` are in module `Utility`: channel names, the author of a prefix, badge pair sets and emote ranges.
- **The connection layer** (`TwitchIrc`, `Client`). `IrcClient` holds the state machine DISCONNECTED / CONNECTING / CONNECTED. It also covers the three-line handshake, PING→PONG, the welcome reply and how a received frame is split into parsed lines. `TmiClient` adds the CONNECTED guard on `sendRaw`, learns the user name from the first `001`, and orders connect and disconnect.
  - The socket is a log of the calls made on it (`transport`).
  - Each shared flow is a log of what was emitted on it.
- **The multicast registry** (`Dispenser`). `FlowDispenser` is a class with:
  - its list of callbacks and its source channel;
  - the draining job, taken one step at a time;
  - logs of every `onNextValue` and `onClose` call.
- **The plugin pipeline** (`Plugins`, `Throttle`, `Reconnect`, `Containers`).
  - A `Container` keeps an insertion-ordered plugin list with unique names. It filters and maps outgoing lines and incoming messages, and hands every connection state to each plugin.
  - `ThrottleOut` spaces lines out by a clock reading passed in.
  - `Reconnect` keeps the list of joined channels, retries while disconnected and rejoins on reconnection.
- **Typed messages and commands** (`TwitchMessages`, `UserNotice`, `ChannelEvents`, `Commands`, `CommandScope`). These cover:
  - the dispatch from command name to message class;
  - the typed getters and their exceptions;
  - the outgoing command lines, each decoded back to what was sent;
  - the command-pattern language `{}`/`[]`/`<>`/`||` and its `parseInput` matcher.

Three helper modules model the Kotlin library calls the core relies on. `Strings` has `trim`, `split`, `lines`, `indexOf`, `isBlank` and `joinToString`. `Numbers` has `toInt`, `toIntOrNull` and `toLongOrNull`, with the 32- and 64-bit ranges written out. `Collections` has `toMap`, `remove`, `filter` and `distinct`. `Wrappers` holds `Option`, `Result`, `Outcome` and the exceptions of the library, as values.

Exceptions are values. A getter or parser that throws returns `Err` with the exception, and a method that throws returns `Fail`. `parseMessage` can throw: `substring(1)` on an empty remainder, `data[1]` when the metadata has no space. The model keeps those error paths; it does not assume that every line parses.

## Model

| member | source | states |
|---|---|---|
| MessageParsing.DivideAtFirst | src/commonMain/kotlin/com/ktmi/irc/MessageParsing.kt:123-130 | The first range is [0, i), where i is the first index of the character, or the length when it is absent. The second range is absent exactly when the character is absent, and is [i+1, length) otherwise. |
| MessageParsing.PutTagsLastWins | src/commonMain/kotlin/com/ktmi/irc/MessageParsing.kt:114-119 | A key is in the tag map exactly when some well-formed piece names it, and it maps to the value of the last such piece: later duplicates overwrite. |
| MessageParsing.PutTagParts | src/commonMain/kotlin/com/ktmi/irc/MessageParsing.kt:117-119 | One piece is stored only when it splits on '=' into exactly two parts; otherwise the map is unchanged. |
| MessageParsing.ParseBodyFields | src/commonMain/kotlin/com/ktmi/irc/MessageParsing.kt:92-112 | Once the ':' is dropped and the metadata (up to the first ':') has two or more words, the words are the prefix, the command and the optional channel, and the text is taken from what follows the ':'. |
| MessageParsing.RawMessageBuilder.Build | src/commonMain/kotlin/com/ktmi/irc/MessageParsing.kt:60 | The built message carries the builder's raw line and fields unchanged. |
| MessageParsing.RawMessageBuilder.ParseTagLine | src/commonMain/kotlin/com/ktmi/irc/MessageParsing.kt:114-119 | The tag map afterwards is the old map with the pieces after '@', split on ';', stored in order; no other field changes. |
| MessageParsing.RawMessageBuilder.StorePiece | src/commonMain/kotlin/com/ktmi/irc/MessageParsing.kt:117-119 | One forEach step: the map gains the piece's pair when it has exactly two parts. |
| MessageParsing.RawMessageBuilder.ParseMetadata | src/commonMain/kotlin/com/ktmi/irc/MessageParsing.kt:106-112 | The prefix is word 0; the call fails with IndexOutOfBounds exactly when there is no word 1; otherwise the command is word 1 and the channel is word 2 when present. |
| MessageParsing.RawMessageBuilder.ParseBodyInto | src/commonMain/kotlin/com/ktmi/irc/MessageParsing.kt:92-103 | The builder's message, or its error, equals the specification of the body parse, and the tags are untouched. |
| MessageParsing.RawMessageBuilder.ParseText | src/commonMain/kotlin/com/ktmi/irc/MessageParsing.kt:101-102 | The text becomes the trimmed payload exactly when the payload is not blank and the command is not an ignored one; the other fields stay as they were. |
| MessageParsing.ParseMessage | src/commonMain/kotlin/com/ktmi/irc/MessageParsing.kt:76-104 | The step-by-step parse through the builder gives exactly `Parse(message)`, its error included. |
| MessageParsing.Parse | src/commonMain/kotlin/com/ktmi/irc/MessageParsing.kt:76-104 | The definition of parseMessage on the trimmed line; ParseMessage shows the builder computes it, and ParseTrims, ParseShape, ParseText and ParseRender state its properties. |
| MessageParsing.ParseBody | src/commonMain/kotlin/com/ktmi/irc/MessageParsing.kt:92-112 | The definition of the body parse, throwing IndexOutOfBounds where substring(1) and data[1] throw; ParseBodyFields, ParseBodyFails, BodyWords and ParseBodyText state its properties. |
| MessageParsing.ParseTags | src/commonMain/kotlin/com/ktmi/irc/MessageParsing.kt:114-119 | The definition of parseTagLine on an '@' segment; PutTagsLastWins and TagSegment state its properties. |
| MessageParsing.ParseAtDivision | src/commonMain/kotlin/com/ktmi/irc/MessageParsing.kt:80-88 | An '@' line without a space is tags only; with one, the tags come from the first range and the body starts at the second range. |
| MessageParsing.ParseTrims | src/commonMain/kotlin/com/ktmi/irc/MessageParsing.kt:76 | The parser works on the trimmed line: trimming first changes nothing, and the result's raw field is the trimmed line. |
| MessageParsing.ParseBlankFails | src/commonMain/kotlin/com/ktmi/irc/MessageParsing.kt:92 | A blank line throws IndexOutOfBounds at `substring(1)`. |
| MessageParsing.ParseBodyFails | src/commonMain/kotlin/com/ktmi/irc/MessageParsing.kt:92-110 | The body parse throws exactly when the remainder is empty or its metadata has no space, and the error is IndexOutOfBounds. |
| MessageParsing.ParseTagsOnly | src/commonMain/kotlin/com/ktmi/irc/MessageParsing.kt:84-85 | An '@' line with no space has its tags, an empty prefix, and no command, channel or text. |
| MessageParsing.ParseShape | src/commonMain/kotlin/com/ktmi/irc/MessageParsing.kt:80-88 | A parsed message has no command exactly when the line is tags only, and a line not starting with '@' has an empty tag map. |
| MessageParsing.ParseWords | src/commonMain/kotlin/com/ktmi/irc/MessageParsing.kt:106-112 | Prefix, command and channel of a parsed message contain no space and no ':'. |
| MessageParsing.BodyWords | src/commonMain/kotlin/com/ktmi/irc/MessageParsing.kt:93-112 | The same for the body parse on its own. |
| MessageParsing.TextOfShape | src/commonMain/kotlin/com/ktmi/irc/MessageParsing.kt:96-103 | Text, when present, is non-empty, already trimmed and contained in the payload; a "353" command never has text. |
| MessageParsing.ParseBodyText | src/commonMain/kotlin/com/ktmi/irc/MessageParsing.kt:96-103 | The same for the body parse: the text is non-empty, trimmed and contained in the remainder. |
| MessageParsing.ParseIsBody | src/commonMain/kotlin/com/ktmi/irc/MessageParsing.kt:76-94 | A line that is not tags only parses as its body after the optional tag segment, with the tags of that segment. |
| MessageParsing.ParseText | src/commonMain/kotlin/com/ktmi/irc/MessageParsing.kt:99-103 | A parsed message's text is non-empty, trimmed and found in its raw line; a "353" message has none. |
| MessageParsing.TagPairOf | src/commonMain/kotlin/com/ktmi/irc/MessageParsing.kt:117-118 | "k=v" with no '=', ';' or ' ' in k and v reads back as the pair (k, v). |
| MessageParsing.PutTagsPieces | src/commonMain/kotlin/com/ktmi/irc/MessageParsing.kt:114-119 | Storing the rendered pieces of a tag list gives the list's map, with the last value of each key. |
| MessageParsing.MetadataThenText | src/commonMain/kotlin/com/ktmi/irc/MessageParsing.kt:93-99 | Metadata without ':' followed by " :text" divides back into that metadata and that payload. |
| MessageParsing.ParseRenderedBody | src/commonMain/kotlin/com/ktmi/irc/MessageParsing.kt:92-103 | A well-formed rendered body parses back to its prefix, command, channel and trimmed text. |
| MessageParsing.RenderTrimmed | src/commonMain/kotlin/com/ktmi/irc/MessageParsing.kt:76 | A rendered well-formed line is already trimmed. |
| MessageParsing.ParseUntagged | src/commonMain/kotlin/com/ktmi/irc/MessageParsing.kt:80-92 | A trimmed line not starting with '@' parses as a body with no tags. |
| MessageParsing.ParseTagged | src/commonMain/kotlin/com/ktmi/irc/MessageParsing.kt:80-88 | A trimmed line "seg body", where seg starts with '@' and has no space, parses as body with the tags of seg. |
| MessageParsing.TagSegment | src/commonMain/kotlin/com/ktmi/irc/MessageParsing.kt:114-119 | The rendered tag segment has no space and parses back to the map of the tag list. |
| MessageParsing.ParseRender | src/commonMain/kotlin/com/ktmi/irc/MessageParsing.kt:76-119 | Round trip: every well-formed line, rendered with or without tags, parses to the message read back from it: the tags' map, prefix, command, channel and trimmed text. |
| Utility.AsChannelName | src/commonMain/kotlin/com/ktmi/tmi/messages/Utility.kt:5-7 | The result starts with '#' and is the input or '#' followed by the input. |
| Utility.AsChannelNameIdempotent | src/commonMain/kotlin/com/ktmi/tmi/messages/Utility.kt:5-7 | Normalising twice is normalising once, and the name is unchanged exactly when it already starts with '#'. |
| Utility.ChannelAsUsername | src/commonMain/kotlin/com/ktmi/tmi/messages/Utility.kt:9-11 | One leading '#' is dropped; a name without it is unchanged. |
| Utility.ChannelUsernameRoundTrip | src/commonMain/kotlin/com/ktmi/tmi/messages/Utility.kt:5-11 | Without a leading '#', channelAsUsername undoes asChannelName; with exactly one, asChannelName undoes channelAsUsername. |
| Utility.Author | src/commonMain/kotlin/com/ktmi/tmi/messages/Utility.kt:13-18 | The author is a prefix of the prefix with no '!' or '.', and it ends at the first '!' or '.' when there is one. |
| Utility.AssertCommand | src/commonMain/kotlin/com/ktmi/tmi/messages/Utility.kt:20-23 | It passes exactly when the command name equals the required one, and otherwise throws WrongMessageType naming both. |
| Utility.TwoPartItems | src/commonMain/kotlin/com/ktmi/tmi/messages/Utility.kt:27-28 | The items that split into exactly two parts, as pairs in input order: at most one pair per item. |
| Utility.ParseTwitchPairSet | src/commonMain/kotlin/com/ktmi/tmi/messages/Utility.kt:25-30 | The definition of parseTwitchPairSet; PairSetSucceeds, PairSetLookup and EmptyTagValues state its properties. |
| Utility.ParseTwitchEmotes | src/commonMain/kotlin/com/ktmi/tmi/messages/Utility.kt:36-45 | The definition of parseTwitchEmotes; ParseEmoteItems, EmotesInOrder and EmptyTagValues state its properties. |
| Utility.IntValues | src/commonMain/kotlin/com/ktmi/tmi/messages/Utility.kt:29 | `it[1].toInt()` over the items: it succeeds exactly when every value is an Int, gives each pair in order, and otherwise fails with the first value that is not one. |
| Utility.PairSetSucceeds | src/commonMain/kotlin/com/ktmi/tmi/messages/Utility.kt:25-30 | A pair set parses exactly when every item that splits on '/' into two parts has an Int value. |
| Utility.PairSetLookup | src/commonMain/kotlin/com/ktmi/tmi/messages/Utility.kt:25-30 | A key is in the parsed set exactly when some two-part item names it, and it maps to the Int of the last such item. |
| Utility.ParseRange | src/commonMain/kotlin/com/ktmi/tmi/messages/Utility.kt:43-44 | "a-b" reads as (a, b) when both are Ints; a range whose first piece is not an Int throws NumberFormat on it; a range without '-' whose first piece is an Int throws IndexOutOfBounds at `it[1]`. |
| Utility.ParseRanges | src/commonMain/kotlin/com/ktmi/tmi/messages/Utility.kt:42-44 | The ranges of an emote succeed exactly when each does, and are read in order. |
| Utility.ParseEmote | src/commonMain/kotlin/com/ktmi/tmi/messages/Utility.kt:40-45 | One emote succeeds exactly when its id is an Int and its ranges parse, and holds them. |
| Utility.ParseEmoteItems | src/commonMain/kotlin/com/ktmi/tmi/messages/Utility.kt:36-45 | The emotes succeed exactly when each item does, and are in item order. |
| Utility.EmotesInOrder | src/commonMain/kotlin/com/ktmi/tmi/messages/Utility.kt:36-45 | There is one emote per two-part item, in order, with that item's id and one position per comma-separated range. |
| Utility.EmptyTagValues | src/commonMain/kotlin/com/ktmi/tmi/messages/Utility.kt:25-45 | An empty emotes tag gives no emotes, and an empty badges tag gives the empty map. |
| TwitchIrc.ServerUrl | src/commonMain/kotlin/com/ktmi/irc/TwitchIRC.kt:77-80 | A secure client connects to wss://irc-ws.chat.twitch.tv:443, any other client to ws://irc-ws.chat.twitch.tv:80. |
| TwitchIrc.OAuthPass | src/commonMain/kotlin/com/ktmi/irc/TwitchIRC.kt:132-135 | The PASS token always starts with "oauth:". |
| TwitchIrc.OAuthPassIdempotent | src/commonMain/kotlin/com/ktmi/irc/TwitchIRC.kt:132-135 | Normalising twice is normalising once, and the token is unchanged exactly when it already starts with "oauth:". |
| TwitchIrc.IsMessageIgnored | src/commonMain/kotlin/com/ktmi/irc/TwitchIRC.kt:120-127 | A line without a space throws IndexOutOfBounds; otherwise it is ignored exactly when its second word is "353" or "366". |
| TwitchIrc.HandleLine | src/commonMain/kotlin/com/ktmi/irc/TwitchIRC.kt:106-107 | One line emits at most one message. |
| TwitchIrc.HandleOne | src/commonMain/kotlin/com/ktmi/irc/TwitchIRC.kt:106-107 | The loop body (the ignore test, then the parse) yields what the line specification says. |
| TwitchIrc.Emission | src/commonMain/kotlin/com/ktmi/irc/TwitchIRC.kt:104-108 | A frame emits at most one message per line. |
| TwitchIrc.EmissionFrom | src/commonMain/kotlin/com/ktmi/irc/TwitchIRC.kt:105-107 | The loop's step rule: a line that throws ends the frame with what was emitted before it; a handled line appends its messages. |
| TwitchIrc.EmissionAppend | src/commonMain/kotlin/com/ktmi/irc/TwitchIRC.kt:105-107 | The lines of a + b are handled as a's lines, then b's only if none of a's threw. |
| TwitchIrc.EmissionOfLine | src/commonMain/kotlin/com/ktmi/irc/TwitchIRC.kt:120-127 | A NAMES reply emits nothing, a line without a space throws, and any other line emits its parse or throws its error. |
| TwitchIrc.EmissionSucceeds | src/commonMain/kotlin/com/ktmi/irc/TwitchIRC.kt:105-107 | A frame passes exactly when every line has a second word and every line that is not a NAMES reply parses. |
| TwitchIrc.IrcClient.constructor | src/commonMain/kotlin/com/ktmi/irc/TwitchIRC.kt:52-65 | A new client is DISCONNECTED, its scope is not cancelled, and nothing has been emitted or sent. |
| TwitchIrc.IrcClient.SetState | src/commonMain/kotlin/com/ktmi/irc/TwitchIRC.kt:115-118 | The state becomes the new one either way. While the client scope runs, the state is appended to the states log, so the current state is the last one emitted; once the scope is cancelled by a throwing launch, nothing is emitted. |
| TwitchIrc.IrcClient.Connect | src/commonMain/kotlin/com/ktmi/irc/TwitchIRC.kt:74-81 | The socket is closed first, then opened on the server address with the token and the user name. |
| TwitchIrc.IrcClient.Disconnect | src/commonMain/kotlin/com/ktmi/irc/TwitchIRC.kt:83-86 | One close call; the state is not changed. |
| TwitchIrc.IrcClient.SendMessage | src/commonMain/kotlin/com/ktmi/irc/TwitchIRC.kt:44 | The line goes to the socket unchanged. |
| TwitchIrc.IrcClient.OnConnectionOpened | src/commonMain/kotlin/com/ktmi/irc/TwitchIRC.kt:88-91 | The state becomes CONNECTING and is emitted unless the scope is cancelled, then exactly the three handshake lines are sent, in order. |
| TwitchIrc.IrcClient.Authorize | src/commonMain/kotlin/com/ktmi/irc/TwitchIRC.kt:129-139 | CAP REQ, PASS with the normalised token, NICK, in that order, and nothing else changes. |
| TwitchIrc.IrcClient.OnClosed | src/commonMain/kotlin/com/ktmi/irc/TwitchIRC.kt:93-95 | DISCONNECTED whatever the prior state, emitted unless the scope is cancelled, and nothing is sent. |
| TwitchIrc.IrcClient.OnMessageReceived | src/commonMain/kotlin/com/ktmi/irc/TwitchIRC.kt:97-110 | PING sends exactly one PONG and changes nothing else. Any other frame sends nothing and moves to CONNECTED exactly when it starts with the welcome prefix. In a running scope it emits the frame's messages up to the first line that throws, and that throw cancels the scope; in a cancelled scope it emits no message and no state. |
| TwitchIrc.IrcClient.EmitLines | src/commonMain/kotlin/com/ktmi/irc/TwitchIRC.kt:104-108 | In a running scope the messages log grows by exactly the frame's emission, and the scope is cancelled exactly when a line threw. In a cancelled scope the launched loop never runs and nothing is emitted. The state and socket are untouched. |
| TwitchIrc.EmitFrame | src/commonMain/kotlin/com/ktmi/irc/TwitchIRC.kt:105-107 | The loop over the lines emits the frame's messages in order and stops at the first line that throws. |
| TwitchIrc.WelcomeSession | src/commonMain/kotlin/com/ktmi/irc/TwitchIRC.kt:88-102 | Opening and then receiving the welcome reply ends CONNECTED and sends the three handshake lines. In a running scope it logs CONNECTING then CONNECTED and emits the welcome frame; in a cancelled one it emits nothing. |
| TwitchIrc.ThrowSilencesLater | src/commonMain/kotlin/com/ktmi/irc/TwitchIRC.kt:52-57 | A frame with a throwing line cancels the scope of a running client: the messages before the throw stay emitted, and a later frame, even a welcome reply, adds no message and no state. |
| Client.FirstWelcome | src/commonMain/kotlin/com/ktmi/tmi/client/TmiClient.kt:35 | The position found is a "001" message with none before it; when nothing is found, there is no "001" at all. |
| Client.UsernameKeepsFirst | src/commonMain/kotlin/com/ktmi/tmi/client/TmiClient.kt:33-42 | The name is "unknown" before any welcome; once a welcome has arrived, later messages never change it. |
| Client.FirstWelcomeAt | src/commonMain/kotlin/com/ktmi/tmi/client/TmiClient.kt:35 | A welcome at i with none before it is the first welcome. |
| Client.TmiClient.constructor | src/commonMain/kotlin/com/ktmi/tmi/client/TmiClient.kt:20-40 | A new client has a DISCONNECTED IRC client, two idle dispensers, no learned name, and the welcome collector registered on the raw flow. |
| Client.TmiClient.Username | src/commonMain/kotlin/com/ktmi/tmi/client/TmiClient.kt:42 | The learned name, or "unknown" when none was learned. |
| Client.TmiClient.OnRaw | src/commonMain/kotlin/com/ktmi/tmi/client/TmiClient.kt:34-38 | On a welcome, while the collector still runs, the channel becomes the name and the collector removes its flow; any other message changes nothing. |
| Client.TmiClient.CollectRaw | src/commonMain/kotlin/com/ktmi/tmi/client/TmiClient.kt:33-42 | After a run of raw messages the name is the channel of the first welcome, or "unknown"; the collector still runs exactly when no welcome arrived. |
| Client.TmiClient.Connect | src/commonMain/kotlin/com/ktmi/tmi/client/TmiClient.kt:45-51 | The IRC client connects (close, then open), then both dispensers run; no flow is added or closed. |
| Client.TmiClient.Disconnect | src/commonMain/kotlin/com/ktmi/tmi/client/TmiClient.kt:54-58 | Both dispensers stop, and every flow of a running dispenser is closed with a cancellation; then the socket is closed. |
| Client.TmiClient.SendRaw | src/commonMain/kotlin/com/ktmi/tmi/client/TmiClient.kt:65-69 | The line is sent exactly when the IRC state is CONNECTED; otherwise NotConnected is thrown and nothing is sent. |
| Client.TmiClient.Raw | src/commonMain/kotlin/com/ktmi/tmi/client/TmiClient.kt:74 | A new flow of raw messages is registered last and has received nothing. |
| Client.TmiClient.ConnectionStatus | src/commonMain/kotlin/com/ktmi/tmi/client/TmiClient.kt:77-78 | A new flow of states is registered last and has received nothing. |
| Dispenser.Round | src/commonMain/kotlin/com/ktmi/tmi/client/FlowDispenser.kt:46-48 | One value is offered to every callback, once each, in registration order. |
| Dispenser.CloseEach | src/commonMain/kotlin/com/ktmi/tmi/client/FlowDispenser.kt:51 | Every callback is closed with the caught cause, in registration order. |
| Dispenser.ReceivedAppend | src/commonMain/kotlin/com/ktmi/tmi/client/FlowDispenser.kt:45-49 | What a flow received over two stretches of deliveries is what it received in each, in order. |
| Dispenser.Received | src/commonMain/kotlin/com/ktmi/tmi/client/FlowDispenser.kt:45-49 | The values offered to one flow, in order; ReceivedAppend, RoundReceived and NoReplay state its properties. |
| Dispenser.RoundReceived | src/commonMain/kotlin/com/ktmi/tmi/client/FlowDispenser.kt:46-48 | In one round a registered flow receives the value exactly once, and any other flow receives nothing. |
| Dispenser.NoReplay | src/commonMain/kotlin/com/ktmi/tmi/client/FlowDispenser.kt:64-69 | A flow requested after a run of deliveries has received none of them. |
| Dispenser.CloseEachCloses | src/commonMain/kotlin/com/ktmi/tmi/client/FlowDispenser.kt:50-52 | A flow is closed with the cause exactly when it is registered, and every close carries that cause. |
| Dispenser.FlowDispenser.constructor | src/commonMain/kotlin/com/ktmi/tmi/client/FlowDispenser.kt:33-38 | No callbacks and no job. |
| Dispenser.FlowDispenser.Send | src/commonMain/kotlin/com/ktmi/tmi/client/FlowDispenser.kt:34 | The producer's value waits in the source channel. |
| Dispenser.FlowDispenser.CloseSource | src/commonMain/kotlin/com/ktmi/tmi/client/FlowDispenser.kt:34 | The producer closes the source normally or with a cause; a second close changes nothing. |
| Dispenser.FlowDispenser.Initialize | src/commonMain/kotlin/com/ktmi/tmi/client/FlowDispenser.kt:41-43 | A no-op while the job runs; otherwise the job is launched. |
| Dispenser.FlowDispenser.CloseAll | src/commonMain/kotlin/com/ktmi/tmi/client/FlowDispenser.kt:50-52 | The catch block: every registered callback's onClose is called with the cause, in order. |
| Dispenser.FlowDispenser.Offer | src/commonMain/kotlin/com/ktmi/tmi/client/FlowDispenser.kt:46-48 | The forEach: every registered callback is offered the value, in order. |
| Dispenser.FlowDispenser.Resume | src/commonMain/kotlin/com/ktmi/tmi/client/FlowDispenser.kt:43-53 | One step of the job. A waiting value goes to every registered flow and to no other flow. A normal end of the source finishes the job with no onClose. A failure closes every callback with its cause. |
| Dispenser.FlowDispenser.Stop | src/commonMain/kotlin/com/ktmi/tmi/client/FlowDispenser.kt:81-83 | A running job is cancelled, and the cancellation closes every callback; the list is not modified. |
| Dispenser.FlowDispenser.RequestFlow | src/commonMain/kotlin/com/ktmi/tmi/client/FlowDispenser.kt:64-75 | The new callback gets a fresh id, is appended last and has received nothing; when the source is closed and drained, the new flow is closed at once without a cause. |
| Dispenser.FlowDispenser.RemoveCallback | src/commonMain/kotlin/com/ktmi/tmi/client/FlowDispenser.kt:60 | Exactly that callback leaves the list; the others stay, in order. |
| Dispenser.FlowDispenser.Clear | src/commonMain/kotlin/com/ktmi/tmi/client/FlowDispenser.kt:88 | The list is emptied and the job is not touched. |
| Dispenser.FirstValue | src/commonMain/kotlin/com/ktmi/tmi/client/FlowDispenser.kt:41-69 | A flow requested before the first value receives it. |
| Dispenser.SecondValue | src/commonMain/kotlin/com/ktmi/tmi/client/FlowDispenser.kt:45-69 | A flow requested between two values receives only the second, while the earlier flow receives both. |
| Dispenser.Subscription | src/commonMain/kotlin/com/ktmi/tmi/client/FlowDispenser.kt:41-75 | The two subscriptions together: the early flow sees [1, 2] and the late one [2]; there is no replay. |
| Plugins.Basic | src/commonMain/kotlin/com/ktmi/tmi/dsl/plugins/TwitchPlugin.kt:7-30 | The default hooks: every incoming message is kept and unchanged, every line is unchanged, and the outgoing filter accepts everything and keeps no state. |
| Plugins.FilterOutgoing | src/commonMain/kotlin/com/ktmi/tmi/dsl/plugins/TwitchPlugin.kt:17-18 | The default filter accepts, only a throttle moves lastSent, and a throttle decides by its clock rule. |
| Plugins.ThrottleOut | src/commonMain/kotlin/com/ktmi/tmi/dsl/plugins/ThrottlePlugin.kt:11-12 | Named "throttle_out", with the clock rule as outgoing filter, and the default hooks everywhere else: it never drops an incoming message and never rewrites a line. |
| Throttle.Step | src/commonMain/kotlin/com/ktmi/tmi/dsl/plugins/ThrottlePlugin.kt:16-20 | A line is accepted exactly when now - lastSent > interval (strictly), and only an accepted line moves lastSent to now. |
| Throttle.ThrottleOut.constructor | src/commonMain/kotlin/com/ktmi/tmi/dsl/plugins/ThrottlePlugin.kt:11-14 | lastSent starts at 0. |
| Throttle.ThrottleOut.FilterOutgoing | src/commonMain/kotlin/com/ktmi/tmi/dsl/plugins/ThrottlePlugin.kt:16-21 | The verdict and the new lastSent are the clock rule's. |
| Throttle.LastSent | src/commonMain/kotlin/com/ktmi/tmi/dsl/plugins/ThrottlePlugin.kt:14-20 | lastSent after a run of calls at the given clock readings; LastSentBelowNow and LastSentGrows state its properties. |
| Throttle.Accepted | src/commonMain/kotlin/com/ktmi/tmi/dsl/plugins/ThrottlePlugin.kt:19 | Whether one call of such a run let its line through; SpacedApart states its property. |
| Throttle.LastSentBelowNow | src/commonMain/kotlin/com/ktmi/tmi/dsl/plugins/ThrottlePlugin.kt:19-20 | On a clock that never runs backwards, lastSent never exceeds the latest reading. |
| Throttle.LastSentGrows | src/commonMain/kotlin/com/ktmi/tmi/dsl/plugins/ThrottlePlugin.kt:19-20 | lastSent only moves forward. |
| Throttle.SpacedApart | src/commonMain/kotlin/com/ktmi/tmi/dsl/plugins/ThrottlePlugin.kt:16-20 | Any two accepted lines are more than interval apart. |
| Containers.FilterPass | src/commonMain/kotlin/com/ktmi/tmi/dsl/builder/Container.kt:72 | One lastSent per plugin comes back. |
| Containers.FirstRefusal | src/commonMain/kotlin/com/ktmi/tmi/dsl/builder/Container.kt:72 | Every filter before the first refusal accepts, and the filter at it refuses. |
| Containers.FilterPassCalls | src/commonMain/kotlin/com/ktmi/tmi/dsl/builder/Container.kt:72-73 | The line passes exactly when every filter accepts it. Filters up to the first refusal are called and update their state; those after it are not called. |
| Containers.FilterPassAfter | src/commonMain/kotlin/com/ktmi/tmi/dsl/builder/Container.kt:72-73 | A loop that stopped at its n-th call, with the states it produced, agrees with the filter pass. |
| Containers.TwitchFlow | src/commonMain/kotlin/com/ktmi/tmi/dsl/builder/Container.kt:59-69 | The incoming flow is never longer than its source. |
| Containers.TwitchFlowKeeps | src/commonMain/kotlin/com/ktmi/tmi/dsl/builder/Container.kt:59-69 | A message every plugin keeps arrives rewritten by every plugin. If no plugin keeps any message the flow is empty, and the flow of two stretches is the two flows in order. |
| Containers.BasicOutgoing | src/commonMain/kotlin/com/ktmi/tmi/dsl/builder/Container.kt:71-79 | Plugins with default hooks accept every line, keep their state and leave the line unchanged. |
| Containers.BasicMapIncoming | src/commonMain/kotlin/com/ktmi/tmi/dsl/builder/Container.kt:62-69 | Default hooks leave incoming messages unchanged. |
| Containers.BasicPluginsTransparent | src/commonMain/kotlin/com/ktmi/tmi/dsl/builder/Container.kt:59-79 | A container with only default plugins passes both directions through unchanged. |
| Containers.Names | src/commonMain/kotlin/com/ktmi/tmi/dsl/builder/Container.kt:84-85 | The plugin names, in insertion order. |
| Containers.StateRound | src/commonMain/kotlin/com/ktmi/tmi/dsl/builder/Container.kt:48-49 | One state goes to each plugin once, in insertion order. |
| Containers.ResolveProvider | src/commonMain/kotlin/com/ktmi/tmi/dsl/builder/Container.kt:33-45 | The given client if there is one; otherwise the nearest providing ancestor, with none closer; otherwise NoTmiStateHandler, exactly when no ancestor provides. |
| Containers.Container.constructor | src/commonMain/kotlin/com/ktmi/tmi/dsl/builder/Container.kt:22-30 | No plugins, nothing sent, no state calls. |
| Containers.Container.Register | src/commonMain/kotlin/com/ktmi/tmi/dsl/builder/Container.kt:83-89 | A taken name throws PluginAlreadyExists and leaves the map as it was. Otherwise the plugin is added last with a fresh lastSent, and names stay unique. |
| Containers.Container.SendRaw | src/commonMain/kotlin/com/ktmi/tmi/dsl/builder/Container.kt:71-80 | The filters update their state. The line is forwarded once, rewritten by every plugin in order, exactly when every filter accepted it. |
| Containers.Container.RunFilters | src/commonMain/kotlin/com/ktmi/tmi/dsl/builder/Container.kt:72 | The `all` loop: the verdict and every plugin's new state are the filter pass's. |
| Containers.Container.MapOutgoingOf | src/commonMain/kotlin/com/ktmi/tmi/dsl/builder/Container.kt:75-77 | The line threaded through every mapOutgoing in order. |
| Containers.Container.MapIncomingOf | src/commonMain/kotlin/com/ktmi/tmi/dsl/builder/Container.kt:63-68 | The message threaded through every mapIncoming in order. |
| Containers.MapOutgoing | src/commonMain/kotlin/com/ktmi/tmi/dsl/builder/Container.kt:75-77 | The line through every mapOutgoing in order; MapOutgoingOf computes it. |
| Containers.KeepIncoming | src/commonMain/kotlin/com/ktmi/tmi/dsl/builder/Container.kt:60-62 | Every plugin's filterIncoming accepts the message. |
| Containers.MapIncoming | src/commonMain/kotlin/com/ktmi/tmi/dsl/builder/Container.kt:63-68 | The message through every mapIncoming in order; MapIncomingOf computes it. |
| Containers.MapAll | src/commonMain/kotlin/com/ktmi/tmi/dsl/builder/Container.kt:62-69 | The map over the kept messages: one rewritten message per kept one, in order. |
| Containers.Container.OnConnectionStatus | src/commonMain/kotlin/com/ktmi/tmi/dsl/builder/Container.kt:47-50 | Each plugin gets the state once, in insertion order, and nothing else changes. |
| Reconnect.AddChannelAsWritten | src/commonMain/kotlin/com/ktmi/tmi/dsl/plugins/ReconnectPlugin.kt:30 | As written: the channel is appended even when it is listed already. |
| Reconnect.AddChannel | src/commonMain/kotlin/com/ktmi/tmi/dsl/plugins/ReconnectPlugin.kt:30 | Corrected: the channel is listed afterwards, a listed channel leaves the list unchanged, and the list stays free of duplicates. |
| Reconnect.RejoinEffects | src/commonMain/kotlin/com/ktmi/tmi/dsl/plugins/ReconnectPlugin.kt:68-70 | One line is sent per listed channel. |
| Reconnect.RejoinJoinsEach | src/commonMain/kotlin/com/ktmi/tmi/dsl/plugins/ReconnectPlugin.kt:68-70 | The k-th rejoin line is a JOIN of the k-th listed channel, with '#' added. |
| Reconnect.RetryEffects | src/commonMain/kotlin/com/ktmi/tmi/dsl/plugins/ReconnectPlugin.kt:52-63 | n iterations of the retry loop ask for 2n effects. |
| Reconnect.RetryConnects | src/commonMain/kotlin/com/ktmi/tmi/dsl/plugins/ReconnectPlugin.kt:52-63 | n iterations make exactly n connection attempts. |
| Reconnect.CountConnects | src/commonMain/kotlin/com/ktmi/tmi/dsl/plugins/ReconnectPlugin.kt:52-55 | The number of connect requests among the effects; RetryConnects states it. |
| Reconnect.ReconnectPlugin.constructor | src/commonMain/kotlin/com/ktmi/tmi/dsl/plugins/ReconnectPlugin.kt:20-25 | No channel, DISCONNECTED, no job. |
| Reconnect.ReconnectPlugin.OnJoin | src/commonMain/kotlin/com/ktmi/tmi/dsl/plugins/ReconnectPlugin.kt:28-31 | A JOIN by another user changes nothing. The client's own JOIN lists its channel (corrected to add it once), or throws "channel not available" when it has none. |
| Reconnect.ReconnectPlugin.OnLeave | src/commonMain/kotlin/com/ktmi/tmi/dsl/plugins/ReconnectPlugin.kt:32-35 | A PART by another user changes nothing. The client's own PART removes the first occurrence of its channel; a PART without a channel throws. The channel is then no longer listed only because Valid keeps the list duplicate-free through the corrected OnJoin; the as-written append of AddChannelAsWritten breaks that. |
| Reconnect.ReconnectPlugin.OnConnectionStateChange | src/commonMain/kotlin/com/ktmi/tmi/dsl/plugins/ReconnectPlugin.kt:38-49 | The same state again, or CONNECTING, changes nothing. A drop starts the retry job from zero tries. A connection stops the job and joins every listed channel, in list order. |
| Reconnect.ReconnectPlugin.RejoinChannels | src/commonMain/kotlin/com/ktmi/tmi/dsl/plugins/ReconnectPlugin.kt:68-70 | The loop sends one JOIN per listed channel, in order. |
| Reconnect.ReconnectPlugin.RetryStep | src/commonMain/kotlin/com/ktmi/tmi/dsl/plugins/ReconnectPlugin.kt:51-66 | With attempts > 0, the job ends after that many iterations and never makes more connect calls; otherwise each iteration connects, then waits the interval. |
| Reconnect.LeftChannelRejoinedAsWritten | src/commonMain/kotlin/com/ktmi/tmi/dsl/plugins/ReconnectPlugin.kt:28-35 | As written, two JOINs of a channel followed by one PART leave it listed, so the next reconnect joins it again. |
| Reconnect.LeftChannelNotRejoined | src/commonMain/kotlin/com/ktmi/tmi/dsl/plugins/ReconnectPlugin.kt:28-35 | With the corrected list, the same events leave the channel unlisted, whatever was listed before. |
| ChannelEvents.KindOf | src/commonMain/kotlin/com/ktmi/tmi/client/events/Channel.kt:34-49 | A command maps to Undefined exactly when it is absent or not one of the ten dispatched names; WHISPER is Undefined. |
| ChannelEvents.AsTwitchMessage | src/commonMain/kotlin/com/ktmi/tmi/client/events/Channel.kt:34-49 | Dispatch never throws WrongMessageType: the chosen class always accepts the message, and keeps it as its raw message. |
| ChannelEvents.DispatchInjective | src/commonMain/kotlin/com/ktmi/tmi/client/events/Channel.kt:35-45 | Two messages dispatched to the same defined class carry the same command. |
| ChannelEvents.AsTwitchMessageFlow | src/commonMain/kotlin/com/ktmi/tmi/client/events/Channel.kt:34-49 | One typed message per raw message, in order, each well typed. |
| ChannelEvents.InChannel | src/commonMain/kotlin/com/ktmi/tmi/client/events/Channel.kt:18 | The filter test of flow[channel]: the raw channel equals the channel name. |
| ChannelEvents.ForChannel | src/commonMain/kotlin/com/ktmi/tmi/client/events/Channel.kt:16-19 | The definition of flow[channel]; ForChannelKeeps states its properties. |
| ChannelEvents.OfKind | src/commonMain/kotlin/com/ktmi/tmi/client/events/Channel.kt:24-29 | The definition of filterMessage<T>(); OfKindKeeps and OfKindIsByCommand state its properties. |
| ChannelEvents.ForChannelKeeps | src/commonMain/kotlin/com/ktmi/tmi/client/events/Channel.kt:16-19 | flow[channel] keeps exactly the messages whose channel is the normalised name, whether or not '#' was given, and in order. |
| ChannelEvents.OfKindKeeps | src/commonMain/kotlin/com/ktmi/tmi/client/events/Channel.kt:24-29 | filterMessage keeps exactly the messages of that class, in order. |
| ChannelEvents.OfKindIsByCommand | src/commonMain/kotlin/com/ktmi/tmi/client/events/Channel.kt:24-49 | Filtering the typed flow by class is dispatching the raw messages with that command. |
| TwitchMessages.Construct | src/commonMain/kotlin/com/ktmi/tmi/messages/TwitchMessages.kt:13-16 | Construction succeeds exactly when the raw command is the class's command, and otherwise throws WrongMessageType. |
| TwitchMessages.ConstructAccepts | src/commonMain/kotlin/com/ktmi/tmi/messages/TwitchMessages.kt:13-16 | UndefinedMessage accepts every raw message; every other class accepts exactly those carrying its command. |
| TwitchMessages.Tag | src/commonMain/kotlin/com/ktmi/tmi/messages/TwitchMessages.kt:38-58 | A tag getter gives the tag's value exactly when it is present. |
| TwitchMessages.OrCorrupted | src/commonMain/kotlin/com/ktmi/tmi/messages/TwitchMessages.kt:101-104 | `?: throw CorruptedMessageException`: the value when present, otherwise that exception with the reason. |
| TwitchMessages.IntTag | src/commonMain/kotlin/com/ktmi/tmi/messages/TwitchMessages.kt:44-55 | An Int tag getter is null unless the tag is present and a 32-bit Int. |
| TwitchMessages.LongTag | src/commonMain/kotlin/com/ktmi/tmi/messages/TwitchMessages.kt:53 | The timestamp getter is null unless the tag is present and a 64-bit Long. |
| TwitchMessages.Channel | src/commonMain/kotlin/com/ktmi/tmi/messages/TwitchMessages.kt:115-116 | The raw channel, or CorruptedMessage("channel not available") when there is none. |
| TwitchMessages.Username | src/commonMain/kotlin/com/ktmi/tmi/messages/TwitchMessages.kt:36-58 | JOIN, PART, PRIVMSG and WHISPER name the prefix's author. CLEARMSG and USERNOTICE require the login tag and otherwise throw "login not available". |
| TwitchMessages.MessageText | src/commonMain/kotlin/com/ktmi/tmi/messages/TwitchMessages.kt:191-192 | The text, or CorruptedMessage with the class's own reason when absent. |
| TwitchMessages.Badges | src/commonMain/kotlin/com/ktmi/tmi/messages/TwitchMessages.kt:41 | Present exactly when the badges tag is, and then its parsed pair set. |
| TwitchMessages.HasBadge | src/commonMain/kotlin/com/ktmi/tmi/messages/TwitchMessages.kt:30-32 | False without badges, key presence in the parsed badges otherwise, and the parse error when they do not parse. |
| TwitchMessages.IsBroadcaster | src/commonMain/kotlin/com/ktmi/tmi/messages/TwitchMessages.kt:30 | isBroadcaster: the "broadcaster" badge; BadgePredicates states it. |
| TwitchMessages.IsMod | src/commonMain/kotlin/com/ktmi/tmi/messages/TwitchMessages.kt:31 | isMod: the "moderator" badge; BadgePredicates states it. |
| TwitchMessages.IsSubscriber | src/commonMain/kotlin/com/ktmi/tmi/messages/TwitchMessages.kt:32 | isSubscriber: the "subscriber" badge, through HasBadge. |
| TwitchMessages.IsModOrBroadcaster | src/commonMain/kotlin/com/ktmi/tmi/messages/TwitchMessages.kt:33 | isMod || isBroadcaster, read left to right; BadgePredicates states it. |
| TwitchMessages.BadgePredicates | src/commonMain/kotlin/com/ktmi/tmi/messages/TwitchMessages.kt:30-33 | isMod and isBroadcaster test "moderator" and "broadcaster" among the badges, and isModOrBroadcaster is their disjunction. |
| TwitchMessages.FlagTags | src/commonMain/kotlin/com/ktmi/tmi/messages/TwitchMessages.kt:45-47 | mod, emote-only and r9k hold exactly when their tag equals "1". |
| TwitchMessages.FlagTag | src/commonMain/kotlin/com/ktmi/tmi/messages/TwitchMessages.kt:45-47 | A tag compared with "1"; FlagTags states it for each use. |
| TwitchMessages.ModTag | src/commonMain/kotlin/com/ktmi/tmi/messages/TwitchMessages.kt:45 | The mod tag; FlagTags states it. |
| TwitchMessages.EmoteOnly | src/commonMain/kotlin/com/ktmi/tmi/messages/TwitchMessages.kt:46 | The emote-only tag; FlagTags states it. |
| TwitchMessages.R9k | src/commonMain/kotlin/com/ktmi/tmi/messages/TwitchMessages.kt:47 | The r9k tag; FlagTags states it. |
| TwitchMessages.EmoteSets | src/commonMain/kotlin/com/ktmi/tmi/messages/TwitchMessages.kt:101-102 | A missing tag throws "emote sets not available"; a present tag gives exactly toInt over its comma-separated items, so it succeeds exactly when every item is an Int, one Int per item in order. |
| TwitchMessages.ToInts | src/commonMain/kotlin/com/ktmi/tmi/messages/TwitchMessages.kt:43 | `map { it.toInt() }`: succeeds exactly when every item is an Int, in order, and otherwise fails with NumberFormat on the first item that is not one. |
| TwitchMessages.Emotes | src/commonMain/kotlin/com/ktmi/tmi/messages/TwitchMessages.kt:51 | Present exactly when the emotes tag is, and then its parsed emotes. |
| TwitchMessages.RequiredUserId | src/commonMain/kotlin/com/ktmi/tmi/messages/TwitchMessages.kt:189-190 | The Int user id, or "user ID not available" when absent or not an Int. |
| TwitchMessages.RoomId | src/commonMain/kotlin/com/ktmi/tmi/messages/TwitchMessages.kt:161-162 | The Int room id, or "room ID not available". |
| TwitchMessages.Timestamp | src/commonMain/kotlin/com/ktmi/tmi/messages/TwitchMessages.kt:187-188 | The Long timestamp, or "timestamp not available". |
| TwitchMessages.MessageId | src/commonMain/kotlin/com/ktmi/tmi/messages/TwitchMessages.kt:185-186 | The id tag, or "ID not available". |
| TwitchMessages.NoticeId | src/commonMain/kotlin/com/ktmi/tmi/messages/TwitchMessages.kt:243-244 | The msg-id tag, or "messageId not available". |
| TwitchMessages.WhisperMessageId | src/commonMain/kotlin/com/ktmi/tmi/messages/TwitchMessages.kt:292-293 | A whisper's message-id tag, present exactly when the tag is, or "messageId not available". |
| TwitchMessages.ThreadId | src/commonMain/kotlin/com/ktmi/tmi/messages/TwitchMessages.kt:294-295 | A whisper's thread-id read as a Long; Ok exactly when the tag is present and a Long, otherwise "thread ID not available". |
| TwitchMessages.TargetMessageId | src/commonMain/kotlin/com/ktmi/tmi/messages/TwitchMessages.kt:225-226 | The target-msg-id tag, or "target message ID not available". |
| TwitchMessages.SystemMessage | src/commonMain/kotlin/com/ktmi/tmi/messages/TwitchMessages.kt:273-274 | The system-msg tag, or "system message not available". |
| TwitchMessages.PermanentBan | src/commonMain/kotlin/com/ktmi/tmi/messages/TwitchMessages.kt:205-207 | A ban is permanent exactly when ban-duration is absent or not an Int. |
| TwitchMessages.BanDuration | src/commonMain/kotlin/com/ktmi/tmi/messages/TwitchMessages.kt:55 | ban-duration through toIntOrNull; PermanentBan states it. |
| TwitchMessages.Permanent | src/commonMain/kotlin/com/ktmi/tmi/messages/TwitchMessages.kt:207 | `banDuration == null`; PermanentBan states it. |
| UserNotice.ParseSubPlan | src/commonMain/kotlin/com/ktmi/tmi/messages/UserNotice.kt:6-12 | Succeeds exactly on "Prime", "1000", "2000" and "3000", and throws IllegalState("Unknown subscription plan") otherwise. |
| UserNotice.SubPlanRoundTrip | src/commonMain/kotlin/com/ktmi/tmi/messages/UserNotice.kt:4-12 | Each plan parses from its own name, and a parsed name is the name of its plan. |
| UserNotice.AsView | src/commonMain/kotlin/com/ktmi/tmi/messages/UserNotice.kt:17-77 | Every view reuses the same USERNOTICE message, so it is never rejected. |
| UserNotice.RequiredTag | src/commonMain/kotlin/com/ktmi/tmi/messages/UserNotice.kt:32-37 | The tag's value exactly when it is present, otherwise CorruptedMessage with the reason. |
| UserNotice.RequiredIntTag | src/commonMain/kotlin/com/ktmi/tmi/messages/UserNotice.kt:18-19 | An absent tag throws CorruptedMessage; a present one is read by toInt, which throws NumberFormat. |
| UserNotice.OptionalIntTag | src/commonMain/kotlin/com/ktmi/tmi/messages/UserNotice.kt:21 | An absent tag is null; a present one is read by toInt. |
| UserNotice.SubPlanOfTag | src/commonMain/kotlin/com/ktmi/tmi/messages/UserNotice.kt:22 | A missing plan tag reads as "" and throws. subPlan succeeds exactly when the tag holds one of the four names, and then it is that plan. |
| UserNotice.ViewGetters | src/commonMain/kotlin/com/ktmi/tmi/messages/UserNotice.kt:17-25 | Absent required tags throw their own reasons, present numeric tags go through toInt, streak is null when absent, and streakShared holds exactly when its tag is "1". |
| UserNotice.SubPlanOf | src/commonMain/kotlin/com/ktmi/tmi/messages/UserNotice.kt:22 | The sub-plan tag, "" when absent, through SubPlan.parse; SubPlanOfTag states it. |
| UserNotice.CumulativeMonths | src/commonMain/kotlin/com/ktmi/tmi/messages/UserNotice.kt:18-19 | A required Int tag; ViewGetters states it. |
| UserNotice.StreakShared | src/commonMain/kotlin/com/ktmi/tmi/messages/UserNotice.kt:20 | The share-streak tag compared with "1"; ViewGetters states it. |
| UserNotice.Streak | src/commonMain/kotlin/com/ktmi/tmi/messages/UserNotice.kt:21 | An optional Int tag; ViewGetters states it. |
| UserNotice.SubPlanName | src/commonMain/kotlin/com/ktmi/tmi/messages/UserNotice.kt:23-24 | A required tag, through RequiredTag. |
| UserNotice.GiftMonths | src/commonMain/kotlin/com/ktmi/tmi/messages/UserNotice.kt:30-31 | A required Int tag; ViewGetters states it. |
| UserNotice.RecipientUsername | src/commonMain/kotlin/com/ktmi/tmi/messages/UserNotice.kt:32-33 | A required tag, through RequiredTag. |
| UserNotice.RecipientDisplayName | src/commonMain/kotlin/com/ktmi/tmi/messages/UserNotice.kt:34-35 | A required tag, through RequiredTag. |
| UserNotice.RecipientId | src/commonMain/kotlin/com/ktmi/tmi/messages/UserNotice.kt:36-37 | A required tag, through RequiredTag. |
| UserNotice.GiftTotal | src/commonMain/kotlin/com/ktmi/tmi/messages/UserNotice.kt:46-47 | A required Int tag; ViewGetters states it. |
| UserNotice.PromoName | src/commonMain/kotlin/com/ktmi/tmi/messages/UserNotice.kt:48 | An optional tag, as it is. |
| UserNotice.SenderUsername | src/commonMain/kotlin/com/ktmi/tmi/messages/UserNotice.kt:49 | An optional tag, as it is. |
| UserNotice.SenderDisplayName | src/commonMain/kotlin/com/ktmi/tmi/messages/UserNotice.kt:50 | An optional tag, as it is. |
| UserNotice.SourceUsername | src/commonMain/kotlin/com/ktmi/tmi/messages/UserNotice.kt:56-57 | A required tag, through RequiredTag. |
| UserNotice.SourceDisplayName | src/commonMain/kotlin/com/ktmi/tmi/messages/UserNotice.kt:58-59 | A required tag, through RequiredTag. |
| UserNotice.ViewerCount | src/commonMain/kotlin/com/ktmi/tmi/messages/UserNotice.kt:60-61 | A required Int tag; ViewGetters states it. |
| UserNotice.RitualName | src/commonMain/kotlin/com/ktmi/tmi/messages/UserNotice.kt:67-68 | A required tag, through RequiredTag. |
| UserNotice.Threshold | src/commonMain/kotlin/com/ktmi/tmi/messages/UserNotice.kt:74-75 | A required Int tag; ViewGetters states it. |
| Commands.DefaultTimeout | src/commonMain/kotlin/com/ktmi/tmi/client/commands/Channel.kt:46-49 | timeout without a duration sends "/timeout user 600". |
| Commands.FirstWordOf | src/commonMain/kotlin/com/ktmi/tmi/client/commands/Channel.kt:33-34 | A command word followed by a space and an argument reads back as that word and that argument. |
| Commands.JoinLine | src/commonMain/kotlin/com/ktmi/tmi/client/commands/Channel.kt:9-10 | The line join sends: "JOIN " and the normalised channel; MembershipRoundTrip reads it back. |
| Commands.LeaveLine | src/commonMain/kotlin/com/ktmi/tmi/client/commands/Channel.kt:15-16 | The line leave sends: "PART " and the normalised channel; MembershipRoundTrip reads it back. |
| Commands.SendMessageLine | src/commonMain/kotlin/com/ktmi/tmi/client/commands/Channel.kt:21-22 | The line sendMessage sends: "PRIVMSG ", the normalised channel, " :" and the message; SendMessageRoundTrip reads it back. |
| Commands.CommandLine | src/commonMain/kotlin/com/ktmi/tmi/client/commands/Channel.kt:27-154 | Every chat command helper is one sendMessage of its slash text; CommandLineRoundTrip reads it back. |
| Commands.DecodeWordsRoundTrip | src/commonMain/kotlin/com/ktmi/tmi/client/commands/Channel.kt:27-154 | The command word and argument of every chat command decode back to that command. |
| Commands.ChatCommandRoundTrip | src/commonMain/kotlin/com/ktmi/tmi/client/commands/Channel.kt:27-154 | Every slash text decodes back to its command (for a timeout or slow mode, when the number is an Int). |
| Commands.DecodeTimeout | src/commonMain/kotlin/com/ktmi/tmi/client/commands/Channel.kt:46-48 | The text "/timeout", user name, seconds reads back as that timeout when the name has no space and the seconds are an Int. |
| Commands.DecodeSlowMode | src/commonMain/kotlin/com/ktmi/tmi/client/commands/Channel.kt:54-55 | The text "/slow" and its seconds reads back as that slow mode when the seconds are an Int. |
| Commands.MembershipRoundTrip | src/commonMain/kotlin/com/ktmi/tmi/client/commands/Channel.kt:9-16 | A join line reads as a JOIN of the normalised channel, and a leave line as a PART of it. |
| Commands.SendMessageRoundTrip | src/commonMain/kotlin/com/ktmi/tmi/client/commands/Channel.kt:21-22 | "PRIVMSG #channel :message" reads back as the normalised channel and the message, unchanged. |
| Commands.CommandLineRoundTrip | src/commonMain/kotlin/com/ktmi/tmi/client/commands/Channel.kt:21-154 | Each command helper sends one PRIVMSG to the channel whose text decodes back to that command. |
| CommandScope.ClassifyPart | src/commonMain/kotlin/com/ktmi/tmi/dsl/builder/scopes/CommandScope.kt:56-63 | A word is classified by its first and last characters, and a bracketed name is the word without them. A choice holds the non-blank pieces of its body. A lone "\|" throws. |
| CommandScope.ClassifyRoundTrip | src/commonMain/kotlin/com/ktmi/tmi/dsl/builder/scopes/CommandScope.kt:56-63 | A renderable part classifies back from how it is written. |
| CommandScope.ClassifyAll | src/commonMain/kotlin/com/ktmi/tmi/dsl/builder/scopes/CommandScope.kt:53-63 | Every word is classified in order; classification throws exactly when some word is a lone "\|". |
| CommandScope.Validate | src/commonMain/kotlin/com/ktmi/tmi/dsl/builder/scopes/CommandScope.kt:64-74 | Validation passes exactly when names, with each choice's options counted singly, are distinct, a vararg is last, and every choice has a comma. Otherwise it throws PatternParseException with the message of the first check that fails, in the order uniqueness, vararg last, comma in every choice. |
| CommandScope.PatternParts | src/commonMain/kotlin/com/ktmi/tmi/dsl/builder/scopes/CommandScope.kt:53-63 | One part per non-blank word of the pattern, in order. |
| CommandScope.NewScope | src/commonMain/kotlin/com/ktmi/tmi/dsl/builder/scopes/CommandScope.kt:47-74 | A scope is built exactly when the pattern classifies and validates, and its parts are the classified words. A lone "|" word throws IndexOutOfBounds; otherwise the error is the first failing validation check's PatternParseException. |
| CommandScope.Root | src/commonMain/kotlin/com/ktmi/tmi/dsl/builder/scopes/CommandScope.kt:187-190 | `commands(mark)` starts with the empty pattern and no parts. |
| CommandScope.NestedParts | src/commonMain/kotlin/com/ktmi/tmi/dsl/builder/scopes/CommandScope.kt:168-176 | A nested scope's parts are its parent's followed by its own pattern's, and a parent ending in a vararg admits only patterns that also end in one. |
| CommandScope.VarargStaysLast | src/commonMain/kotlin/com/ktmi/tmi/dsl/builder/scopes/CommandScope.kt:70-71 | In a valid pattern, parts after a vararg-terminated prefix end in a vararg again. |
| CommandScope.CountRequired | src/commonMain/kotlin/com/ktmi/tmi/dsl/builder/scopes/CommandScope.kt:140-141 | At most one per part. |
| CommandScope.Min | src/commonMain/kotlin/com/ktmi/tmi/dsl/builder/scopes/CommandScope.kt:77 | At most the number of parts. |
| CommandScope.NextPathIndex | src/commonMain/kotlin/com/ktmi/tmi/dsl/builder/scopes/CommandScope.kt:125-128 | The first path or choice at or after the position, or the part count. |
| CommandScope.IndexOfFit | src/commonMain/kotlin/com/ktmi/tmi/dsl/builder/scopes/CommandScope.kt:133-136 | The first word from the start position that fits the part, or -1. |
| CommandScope.Max | src/commonMain/kotlin/com/ktmi/tmi/dsl/builder/scopes/CommandScope.kt:78 | The definition of max: Int.MAX_VALUE when the pattern ends in a vararg, the part count otherwise; ParseInputWith bounds the word count by it. |
| CommandScope.Nested | src/commonMain/kotlin/com/ktmi/tmi/dsl/builder/scopes/CommandScope.kt:168-176 | The definition of a nested scope over "$pattern $this"; NestedParts and VarargStaysLast state its properties. |
| CommandScope.CanUseOptional | src/commonMain/kotlin/com/ktmi/tmi/dsl/builder/scopes/CommandScope.kt:124-144 | The definition of canUseOptional, with where the path-word search starts as a parameter (word 0 as written, the current word as corrected); SearchOnlyForOptional, OptionalTakesWord and OptionalSearchFromFirstWord state its properties. |
| CommandScope.MatchFrom | src/commonMain/kotlin/com/ktmi/tmi/dsl/builder/scopes/CommandScope.kt:93-150 | The definition of the labelled matching loop; MatchWords shows the loop computes it, and MatchKeys, MatchKeeps, MatchFixed and SuppliedMatch state its properties. |
| CommandScope.ParseInputAsWritten | src/commonMain/kotlin/com/ktmi/tmi/dsl/builder/scopes/CommandScope.kt:82-153 | parseInput as written, searching for the next path word from word 0; OptionalSearchCommand shows the input it rejects. |
| CommandScope.ParseInput | src/commonMain/kotlin/com/ktmi/tmi/dsl/builder/scopes/CommandScope.kt:82-153 | parseInput as corrected, searching from the current word; MatchInput computes it, and FixedPatternMatch and SuppliedInput state its properties. |
| CommandScope.ParseInputWith | src/commonMain/kotlin/com/ktmi/tmi/dsl/builder/scopes/CommandScope.kt:82-91 | A result means the word count was within min..max and every path name and some option of each choice occurred in the input. |
| CommandScope.MatchInput | src/commonMain/kotlin/com/ktmi/tmi/dsl/builder/scopes/CommandScope.kt:82-153 | parseInput's guards followed by the loop give exactly the corrected specification of parseInput. |
| CommandScope.MatchWords | src/commonMain/kotlin/com/ktmi/tmi/dsl/builder/scopes/CommandScope.kt:93-152 | The labelled loop over the parts, with its word index and result map, computes the matching function. |
| CommandScope.MatchKeys | src/commonMain/kotlin/com/ktmi/tmi/dsl/builder/scopes/CommandScope.kt:113-148 | A match binds only parameter names: those it started with and those of parts still ahead; paths and choices are never keys. |
| CommandScope.MatchKeeps | src/commonMain/kotlin/com/ktmi/tmi/dsl/builder/scopes/CommandScope.kt:113-148 | A binding no later parameter names survives the match unchanged. |
| CommandScope.DistinctNamesParams | src/commonMain/kotlin/com/ktmi/tmi/dsl/builder/scopes/CommandScope.kt:65-69 | A pattern that passes the uniqueness check has distinct parameter names. |
| CommandScope.MinFixed | src/commonMain/kotlin/com/ktmi/tmi/dsl/builder/scopes/CommandScope.kt:77 | Without optional parts, min is the number of parts before a trailing vararg. |
| CommandScope.MatchFixed | src/commonMain/kotlin/com/ktmi/tmi/dsl/builder/scopes/CommandScope.kt:95-121 | Without optional parts, the loop succeeds exactly when every path and choice fits its word. Each required part binds its word, and a trailing vararg binds the remaining words joined by single spaces. |
| CommandScope.MatchFixedSucceeds | src/commonMain/kotlin/com/ktmi/tmi/dsl/builder/scopes/CommandScope.kt:102-111 | Without optional parts, the loop returns a match exactly when every path word and choice from the current part on fits the word at its place. |
| CommandScope.MatchFixedRequired | src/commonMain/kotlin/com/ktmi/tmi/dsl/builder/scopes/CommandScope.kt:112-116 | Without optional parts, a match binds every required part from the current one on to the word at its place. |
| CommandScope.MatchFixedVararg | src/commonMain/kotlin/com/ktmi/tmi/dsl/builder/scopes/CommandScope.kt:117-120 | Without optional parts, a match binds a trailing vararg to the words after the fixed parts joined by single spaces, when any remain. |
| CommandScope.MatchFixedEnd | src/commonMain/kotlin/com/ktmi/tmi/dsl/builder/scopes/CommandScope.kt:118-121 | Past the fixed parts, a vararg binds the rest when words remain, and otherwise the loop stops. |
| CommandScope.FixedPatternMatch | src/commonMain/kotlin/com/ktmi/tmi/dsl/builder/scopes/CommandScope.kt:82-153 | For valid patterns without optional parts, parseInput succeeds exactly under its count and presence guards when every path fits. The result binds every required word and the vararg tail, and no other name. |
| CommandScope.SearchOnlyForOptional | src/commonMain/kotlin/com/ktmi/tmi/dsl/builder/scopes/CommandScope.kt:124-146 | Where the search for the next path word starts matters only for optional parts. |
| CommandScope.OptionalTakesWord | src/commonMain/kotlin/com/ktmi/tmi/dsl/builder/scopes/CommandScope.kt:124-143 | When the command supplies every part, each optional part may take its word (corrected search). |
| CommandScope.SuppliedMatch | src/commonMain/kotlin/com/ktmi/tmi/dsl/builder/scopes/CommandScope.kt:95-150 | A command supplying every part matches with the corrected search, binding each parameter to its word and keeping earlier bindings. |
| CommandScope.SuppliedInput | src/commonMain/kotlin/com/ktmi/tmi/dsl/builder/scopes/CommandScope.kt:82-153 | The corrected parseInput binds every parameter of a valid pattern without a vararg to its word, when the command supplies the pattern in full. |
| CommandScope.OptionalSearchFromFirstWord | src/commonMain/kotlin/com/ktmi/tmi/dsl/builder/scopes/CommandScope.kt:130-137 | With parts "{r} [o] p" and words "p x p", all of them supplied, the as-written search fails and the corrected one binds r to p and o to x. |
| CommandScope.OptionalSearchCommand | src/commonMain/kotlin/com/ktmi/tmi/dsl/builder/scopes/CommandScope.kt:82-153 | The same on the whole parseInput: as written "!p x p" gives null; corrected it gives {r: p, o: x}. |
| CommandScope.WordsAppend | src/commonMain/kotlin/com/ktmi/tmi/dsl/builder/scopes/CommandScope.kt:53-55 | The words of "a b" are those of a followed by those of b, so a nested pattern's words extend its parent's. |
| CommandScope.WordsOccur | src/commonMain/kotlin/com/ktmi/tmi/dsl/builder/scopes/CommandScope.kt:83-90 | Every input word occurs in the input, so a supplied path passes the presence check. |
| Strings.TrimIsCore | src/commonMain/kotlin/com/ktmi/irc/MessageParsing.kt:76 | trim keeps one slice, drops only whitespace, and the slice starts and ends with a non-whitespace character (or is empty). |
| Strings.TrimBlank | src/commonMain/kotlin/com/ktmi/irc/MessageParsing.kt:102 | A string trims to empty exactly when it is blank. |
| Strings.TrimIdempotent | src/commonMain/kotlin/com/ktmi/irc/MessageParsing.kt:76 | Trimming twice is trimming once. |
| Strings.Trim | src/commonMain/kotlin/com/ktmi/irc/MessageParsing.kt:76 | String.trim(); TrimIsCore, TrimBlank and TrimIdempotent state its properties. |
| Strings.IndexOf | src/commonMain/kotlin/com/ktmi/irc/MessageParsing.kt:123 | The first index of the character, or -1 exactly when it is absent. |
| Strings.IndexOfAny | src/commonMain/kotlin/com/ktmi/tmi/messages/Utility.kt:14 | The first index of any of the characters, or -1 exactly when none occurs. |
| Strings.Contains | src/commonMain/kotlin/com/ktmi/tmi/dsl/builder/scopes/CommandScope.kt:90 | String.contains: the other string occurs at some index. |
| Strings.SplitPieces | src/commonMain/kotlin/com/ktmi/irc/MessageParsing.kt:116-117 | No piece of a split contains the separator. |
| Strings.JoinSplit | src/commonMain/kotlin/com/ktmi/irc/MessageParsing.kt:107 | Joining the pieces of a split with the separator gives the input back. |
| Strings.SplitJoin | src/commonMain/kotlin/com/ktmi/irc/MessageParsing.kt:116 | Splitting a join of separator-free pieces gives the pieces back. |
| Strings.SplitAppend | src/commonMain/kotlin/com/ktmi/irc/MessageParsing.kt:107 | Splitting a + [c] + b is splitting a, then b. |
| Strings.SplitSingle | src/commonMain/kotlin/com/ktmi/irc/TwitchIRC.kt:122-123 | A split has one piece exactly when the separator is absent, and that piece is the input. |
| Strings.Split | src/commonMain/kotlin/com/ktmi/irc/MessageParsing.kt:107 | String.split on one character: never an empty list; SplitPieces, JoinSplit, SplitJoin and SplitAppend state its properties. |
| Strings.Join | src/commonMain/kotlin/com/ktmi/tmi/dsl/builder/scopes/CommandScope.kt:119-121 | joinToString with a separator; JoinSplit and SplitJoin relate it to split. |
| Strings.NonBlank | src/commonMain/kotlin/com/ktmi/tmi/dsl/builder/scopes/CommandScope.kt:55 | The kept words are all non-blank. |
| Strings.NonBlankAppend | src/commonMain/kotlin/com/ktmi/tmi/dsl/builder/scopes/CommandScope.kt:55 | Filtering blanks distributes over concatenation. |
| Strings.Lines | src/commonMain/kotlin/com/ktmi/irc/TwitchIRC.kt:105 | lines() gives at least one line, no line holds a line break, and a string without a break is its only line. |
| Strings.LinesKeepText | src/commonMain/kotlin/com/ktmi/irc/TwitchIRC.kt:105 | The lines run together are the input with its line breaks removed: lines() loses only the breaks. |
| Strings.LinesJoin | src/commonMain/kotlin/com/ktmi/irc/TwitchIRC.kt:105 | Break-free lines joined by "\n", "\r" or "\r\n" come back as those lines. |
| Strings.FirstBreak | src/commonMain/kotlin/com/ktmi/irc/TwitchIRC.kt:105 | The index of the first "\n" or "\r", or -1 exactly when there is none. |
| Numbers.ParseDecimal | src/commonMain/kotlin/com/ktmi/tmi/messages/Utility.kt:29 | A value exactly for a numeral: one or more digits, optionally after one '+' or '-'. Digits read as their decimal value, '+' keeps it and '-' negates it. |
| Numbers.ToIntOrNull | src/commonMain/kotlin/com/ktmi/tmi/messages/TwitchMessages.kt:44 | A decimal within the 32-bit range, otherwise null. |
| Numbers.ToLongOrNull | src/commonMain/kotlin/com/ktmi/tmi/messages/TwitchMessages.kt:53 | A decimal within the 64-bit range, otherwise null. |
| Numbers.ToInt | src/commonMain/kotlin/com/ktmi/tmi/messages/Utility.kt:29 | toIntOrNull's value, or NumberFormat on the same inputs. |
| Numbers.DigitsOfNat | src/commonMain/kotlin/com/ktmi/tmi/client/commands/Channel.kt:46-55 | The decimal digits of n read back as n. |
| Numbers.IntToString | src/commonMain/kotlin/com/ktmi/tmi/client/commands/Channel.kt:46-55 | An Int written into a command: a '-' before a negative number, then its decimal digits; IntToStringRoundTrip reads it back. |
| Numbers.IntToStringRoundTrip | src/commonMain/kotlin/com/ktmi/tmi/client/commands/Channel.kt:46-55 | A number written in a command reads back as itself, and as an Int when it is in range. |
| Collections.ToMapLastWins | src/commonMain/kotlin/com/ktmi/tmi/messages/Utility.kt:30 | toMap: a key maps to the value of its last pair. |
| Collections.ToMap | src/commonMain/kotlin/com/ktmi/tmi/messages/Utility.kt:30 | toMap, with later pairs overriding earlier ones; ToMapLastWins states it. |
| Collections.RemoveFirst | src/commonMain/kotlin/com/ktmi/tmi/dsl/plugins/ReconnectPlugin.kt:34 | `remove` shortens the list by one when the element occurs, and otherwise leaves it unchanged. |
| Collections.RemoveFirstCount | src/commonMain/kotlin/com/ktmi/tmi/dsl/plugins/ReconnectPlugin.kt:34 | `remove` takes exactly one occurrence of the element out of the list, and nothing else. |
| Collections.RemoveFirstSplits | src/commonMain/kotlin/com/ktmi/tmi/dsl/plugins/ReconnectPlugin.kt:34 | The occurrence removed is the first. |
| Collections.RemoveDistinct | src/commonMain/kotlin/com/ktmi/tmi/client/FlowDispenser.kt:60 | Removing from a duplicate-free list keeps it duplicate-free, and removes exactly that element. |
| Collections.Distinct | src/commonMain/kotlin/com/ktmi/tmi/dsl/plugins/ReconnectPlugin.kt:21 | No element occurs twice: the invariant of the corrected channel list and of the dispenser's callback ids. |
| Collections.FilterMembers | src/commonMain/kotlin/com/ktmi/tmi/client/events/Channel.kt:18 | filter keeps exactly the elements satisfying the predicate. |
| Collections.FilterAppend | src/commonMain/kotlin/com/ktmi/tmi/client/events/Channel.kt:18 | filter preserves order over concatenation. |
| Collections.Filter | src/commonMain/kotlin/com/ktmi/tmi/client/events/Channel.kt:18 | filter keeps only elements satisfying the predicate and never lengthens; FilterMembers and FilterAppend state the rest. |

## Left out

- Coroutines: `launch`, `SharedFlow.emit`, `callbackFlow`/`offer`, `delay`, `Job.cancel` and `@Synchronized` are left out. Each suspension point is an explicit step (`FlowDispenser.Resume`, `ReconnectPlugin.RetryStep`), and the model is sequential. Interleavings, and dropped offers when a flow's buffer is full, are not modelled.
- TwitchIrc.IrcClient.OnMessageReceived: the cancellation of the client scope by a throwing line is the `cancelled` flag, set when the frame's loop ends by a throw. Because the model runs each launch at once, a frame's throw always cancels before the next frame or state is published; in the source those launches race. The uncaught exception handler the throw reaches is not modelled.
- The transports are left out: the Ktor, OkHttp and browser WebSocket clients. A socket is the log of `connectSocket`, `disconnectSocket` and `sendMessage` calls, and the open, message and close events are method calls.
- The clock: `getMillis()` is the `now` parameter of each `filterOutgoing` call.
- The DSL scopes, the listener registrations (`onTwitchMessage`, `onUserJoin`, …, `CommandScope.onReceive`), `MessageContext` and `client/commands/Irc.kt` are left out. They are thin wrappers over `getTwitchFlow` and `sendRaw`.
- Container: `username`, `connect`, `disconnect` and `connectionStatus` only forward to the provider and are not modelled. The provider is named (given client, or ancestor by depth) but not called.
- Reconnect effects: what the plugin asks of its container is recorded as effects: connect, wait, or one JOIN line. The effects are not performed. In the model the Reconnect plugin is its own class and not one of the `Plugin` values a `Container` holds.
- Reconnect.ReconnectPlugin.RetryStep: the `currState != CONNECTED` test inside the loop is not modelled separately. The job runs only while DISCONNECTED, because a connection cancels it. The race between cancellation and an iteration already under way is not modelled.
- Reconnect.ReconnectPlugin.OnJoin: it keeps the channel list free of duplicates, where the code appends (see Findings). The as-written append is `Reconnect.AddChannelAsWritten`.
- Client.TmiClient.Connect: the `launch` around the three calls is left out; they run in order at once.
- Dispenser.FlowDispenser.Send: it stands for the IRC client's emits. The two dispensers of `TmiClient` are built on `irc.messages` and `irc.states`, but the model does not link them to `IrcClient.messages` or `stateLog`: values reach a dispenser only through `Send`.
- Numbers: `toInt`, `toIntOrNull` and `toLongOrNull` are a decimal parser with an optional sign and the 32- or 64-bit range. Kotlin's acceptance of non-ASCII digits is not modelled.
- Strings.IsWhitespace: only the ASCII whitespace Kotlin's `isWhitespace` accepts. The Unicode space separators are not modelled, so `trim` and `isBlank` differ from Kotlin on them.
- The `toLowerCase` of `UserStateRelated.username` and the getters that only project a tag as it is (color, display name, badge info, bits, slow) are not modelled separately. `TwitchMessages.Tag` and `IntTag` model them.
- TwitchIrc.HandleLine: its own contract states only the size of the result. The full per-line behaviour is stated by `TwitchIrc.EmissionOfLine`.
- `TwitchIrcImpl.kt` and the platform `IRC.kt` files are older copies of `IrcClient` and are not part of this model.

## Findings

| source | as written | input that shows it | evidently intended | confidence | as-written member | corrected member |
|---|---|---|---|---|---|---|
| src/commonMain/kotlin/com/ktmi/tmi/dsl/builder/scopes/CommandScope.kt:130-143 | `canUseOptional` searches for the next path word among all the words, from word 0. | Pattern "{r} [o] p", command "!p x p". The required part takes "p". The search finds "p" at word 0, before the current word. The optional part is skipped, "x" is read where "p" is expected, and the result is null. | Search from the current word: {r: p, o: x}. | high; not executed | CommandScope.ParseInputAsWritten, CommandScope.OptionalSearchCommand | CommandScope.ParseInput, CommandScope.MatchInput, CommandScope.SuppliedInput |
| src/commonMain/kotlin/com/ktmi/tmi/dsl/plugins/ReconnectPlugin.kt:28-35 | `activeChannels.add` appends a channel that is already listed. | Join #c, then the connection drops and comes back. The rejoin makes the server echo JOIN #c, so #c is listed twice. After PART #c it is still listed once, and the next reconnect joins #c again, though the client left it. | Keep each channel once, so a PART removes it. | medium; not executed | Reconnect.AddChannelAsWritten, Reconnect.LeftChannelRejoinedAsWritten | Reconnect.AddChannel, Reconnect.LeftChannelNotRejoined, Reconnect.ReconnectPlugin.OnJoin |
