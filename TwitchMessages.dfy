/** The typed messages built on top of a RawMessage: one class per IRC command
    the library understands, each asserting its command when constructed, and
    getters that project tags, with a CorruptedMessage error for the getters
    whose field is required. */
module TwitchMessages {
  import opened Wrappers
  import opened Strings
  import opened Numbers
  import opened MessageParsing
  import opened Utility

  /** The subclasses of the sealed class TwitchMessage. */
  datatype Kind =
    | GlobalUserState | Join | Leave | UserState | RoomState | Text
    | ClearChat | ClearMsg | Notice | UserNotice | Whisper | Undefined

  /** A constructed message: its class and the RawMessage it wraps. */
  datatype TwitchMessage = TwitchMessage(kind: Kind, rawMessage: RawMessage)

  /** The command a class passes to the TwitchMessage constructor;
      UndefinedMessage passes the message's own command. */
  function RequiredCommand(kind: Kind, raw: RawMessage): Option<string> {
    match kind
    case GlobalUserState => Some("GLOBALUSERSTATE")
    case Join => Some("JOIN")
    case Leave => Some("PART")
    case UserState => Some("USERSTATE")
    case RoomState => Some("ROOMSTATE")
    case Text => Some("PRIVMSG")
    case ClearChat => Some("CLEARCHAT")
    case ClearMsg => Some("CLEARMSG")
    case Notice => Some("NOTICE")
    case UserNotice => Some("USERNOTICE")
    case Whisper => Some("WHISPER")
    case Undefined => raw.commandName
  }

  /** A message whose command is the one its class requires: every message that
      construction returns. */
  predicate WellTyped(m: TwitchMessage) {
    m.rawMessage.commandName == RequiredCommand(m.kind, m.rawMessage)
  }

  /** Constructing a message class: the init block runs assertCommand. */
  function Construct(kind: Kind, raw: RawMessage): (r: Result<TwitchMessage>)
    ensures r.Ok? <==> raw.commandName == RequiredCommand(kind, raw)
    ensures r.Ok? ==> r.value == TwitchMessage(kind, raw) && WellTyped(r.value)
    ensures r.Err? ==> r.error == WrongMessageType(RequiredCommand(kind, raw), raw.commandName)
  {
    match AssertCommand(raw, RequiredCommand(kind, raw))
    case Pass => Ok(TwitchMessage(kind, raw))
    case Fail(e) => Err(e)
  }

  /** UndefinedMessage asserts the command it was given, so it accepts any RawMessage;
      every other class accepts exactly the messages carrying its command. */
  lemma ConstructAccepts(kind: Kind, raw: RawMessage)
    ensures kind == Undefined ==> Construct(kind, raw) == Ok(TwitchMessage(Undefined, raw))
    ensures kind != Undefined ==>
              (Construct(kind, raw).Ok? <==> raw.commandName.Some? && raw.commandName == RequiredCommand(kind, raw))
  {
  }

  // === Tag projections ===

  /** rawMessage.tags[key] */
  function Tag(m: TwitchMessage, key: string): (r: Option<string>)
    ensures r.Some? <==> key in m.rawMessage.tags
    ensures r.Some? ==> r.value == m.rawMessage.tags[key]
  {
    if key in m.rawMessage.tags then Some(m.rawMessage.tags[key]) else None
  }

  /** `value ?: throw CorruptedMessageException(rawMessage, reason)` */
  function OrCorrupted<T>(v: Option<T>, reason: string): (r: Result<T>)
    ensures r.Ok? <==> v.Some?
    ensures r.Ok? ==> r.value == v.value
    ensures r.Err? ==> r.error == CorruptedMessage(reason)
  {
    match v
    case Some(x) => Ok(x)
    case None => Err(CorruptedMessage(reason))
  }

  /** `tags[key]?.toIntOrNull()`: absent and non-numeric both read as null. */
  function IntTag(m: TwitchMessage, key: string): (r: Option<int>)
    ensures r.Some? <==> key in m.rawMessage.tags && ToIntOrNull(m.rawMessage.tags[key]).Some?
    ensures r.Some? ==> INT_MIN <= r.value <= INT_MAX
  {
    match Tag(m, key)
    case None => None
    case Some(s) => ToIntOrNull(s)
  }

  /** `tags[key]?.toLongOrNull()` */
  function LongTag(m: TwitchMessage, key: string): (r: Option<int>)
    ensures r.Some? <==> key in m.rawMessage.tags && ToLongOrNull(m.rawMessage.tags[key]).Some?
    ensures r.Some? ==> LONG_MIN <= r.value <= LONG_MAX
  {
    match Tag(m, key)
    case None => None
    case Some(s) => ToLongOrNull(s)
  }

  /** `tags[key] == "1"` */
  predicate FlagTag(m: TwitchMessage, key: string) {
    Tag(m, key) == Some("1")
  }

  // === Getters shared by several classes ===

  /** The classes whose `channel` getter is required. */
  predicate HasChannel(kind: Kind) {
    kind in {Join, Leave, UserState, RoomState, Text, ClearChat, ClearMsg, Notice, UserNotice}
  }

  /** `channel`: the raw channel, or CorruptedMessage("channel not available"). */
  function Channel(m: TwitchMessage): (r: Result<string>)
    requires HasChannel(m.kind)
    ensures r.Ok? <==> m.rawMessage.channel.Some?
    ensures r.Ok? ==> r.value == m.rawMessage.channel.value
    ensures r.Err? ==> r.error == CorruptedMessage("channel not available")
  {
    OrCorrupted(m.rawMessage.channel, "channel not available")
  }

  /** The classes whose `username` is read from the prefix. */
  predicate UsernameFromPrefix(kind: Kind) {
    kind in {Join, Leave, Text, Whisper}
  }

  /** `username` of JOIN, PART, PRIVMSG and WHISPER: the author of the prefix;
      of CLEARMSG and USERNOTICE: the required `login` tag. */
  function Username(m: TwitchMessage): (r: Result<string>)
    requires UsernameFromPrefix(m.kind) || m.kind in {ClearMsg, UserNotice}
    ensures UsernameFromPrefix(m.kind) ==> r == Ok(Author(m.rawMessage))
    ensures !UsernameFromPrefix(m.kind) ==>
              (r.Ok? <==> "login" in m.rawMessage.tags) &&
              (r.Ok? ==> r.value == m.rawMessage.tags["login"]) &&
              (r.Err? ==> r.error == CorruptedMessage("login not available"))
  {
    if UsernameFromPrefix(m.kind) then Ok(Author(m.rawMessage))
    else OrCorrupted(Tag(m, "login"), "login not available")
  }

  /** `message` of PRIVMSG and CLEARMSG ("message text not available") and of
      WHISPER ("message not available"): the required text. */
  function MessageText(m: TwitchMessage): (r: Result<string>)
    requires m.kind in {Text, ClearMsg, Whisper}
    ensures r.Ok? <==> m.rawMessage.text.Some?
    ensures r.Ok? ==> r.value == m.rawMessage.text.value
    ensures r.Err? ==> r.error == CorruptedMessage(if m.kind == Whisper then "message not available"
                                                   else "message text not available")
  {
    OrCorrupted(m.rawMessage.text, if m.kind == Whisper then "message not available" else "message text not available")
  }

  /** `badges`: the parsed `badges` tag, null without one; parsing may throw. */
  function Badges(m: TwitchMessage): (r: Option<Result<map<string, int>>>)
    ensures r.Some? <==> "badges" in m.rawMessage.tags
    ensures r.Some? ==> r.value == ParseTwitchPairSet(m.rawMessage.tags["badges"])
  {
    match Tag(m, "badges")
    case None => None
    case Some(s) => Some(ParseTwitchPairSet(s))
  }

  /** `badges?.containsKey(badge) == true`, or the error the badge parse throws. */
  function HasBadge(m: TwitchMessage, badge: string): (r: Result<bool>)
    ensures Badges(m).None? ==> r == Ok(false)
    ensures Badges(m).Some? && Badges(m).value.Ok? ==> r == Ok(badge in Badges(m).value.value)
    ensures Badges(m).Some? && Badges(m).value.Err? ==> r == Err(Badges(m).value.error)
  {
    match Badges(m)
    case None => Ok(false)
    case Some(Ok(bs)) => Ok(badge in bs)
    case Some(Err(e)) => Err(e)
  }

  function IsBroadcaster(m: TwitchMessage): Result<bool> { HasBadge(m, "broadcaster") }
  function IsMod(m: TwitchMessage): Result<bool> { HasBadge(m, "moderator") }
  function IsSubscriber(m: TwitchMessage): Result<bool> { HasBadge(m, "subscriber") }

  /** `isMod || isBroadcaster`, evaluated left to right: isBroadcaster is only read
      when isMod is false. */
  function IsModOrBroadcaster(m: TwitchMessage): Result<bool> {
    match IsMod(m)
    case Err(e) => Err(e)
    case Ok(mod) => if mod then Ok(true) else IsBroadcaster(m)
  }

  /** The badge predicates test key presence in the parsed badges, and
      isModOrBroadcaster is their disjunction; all of them fail together when the
      badges tag does not parse. */
  lemma BadgePredicates(m: TwitchMessage)
    ensures "badges" !in m.rawMessage.tags ==>
              IsBroadcaster(m) == Ok(false) && IsMod(m) == Ok(false) && IsSubscriber(m) == Ok(false)
              && IsModOrBroadcaster(m) == Ok(false)
    ensures IsMod(m).Ok? <==> IsBroadcaster(m).Ok?
    ensures IsMod(m).Ok? ==> IsModOrBroadcaster(m) == Ok(IsMod(m).value || IsBroadcaster(m).value)
    ensures IsMod(m).Ok? && "badges" in m.rawMessage.tags ==>
              && (IsMod(m).value <==> "moderator" in ParseTwitchPairSet(m.rawMessage.tags["badges"]).value)
              && (IsBroadcaster(m).value <==> "broadcaster" in ParseTwitchPairSet(m.rawMessage.tags["badges"]).value)
  {
  }

  /** `mod`, `emote-only` and `r9k`: true exactly when the tag is "1". */
  predicate ModTag(m: TwitchMessage) { FlagTag(m, "mod") }
  predicate EmoteOnly(m: TwitchMessage) { FlagTag(m, "emote-only") }
  predicate R9k(m: TwitchMessage) { FlagTag(m, "r9k") }

  lemma FlagTags(m: TwitchMessage)
    ensures ModTag(m) <==> "mod" in m.rawMessage.tags && m.rawMessage.tags["mod"] == "1"
    ensures EmoteOnly(m) <==> "emote-only" in m.rawMessage.tags && m.rawMessage.tags["emote-only"] == "1"
    ensures R9k(m) <==> "r9k" in m.rawMessage.tags && m.rawMessage.tags["r9k"] == "1"
  {
  }

  /** `emote-sets`: split on ',' and every piece through toInt; required. */
  function EmoteSets(m: TwitchMessage): (r: Result<seq<int>>)
    ensures "emote-sets" !in m.rawMessage.tags ==> r == Err(CorruptedMessage("emote sets not available"))
    ensures "emote-sets" in m.rawMessage.tags ==> r == ToInts(Split(m.rawMessage.tags["emote-sets"], ','))
    ensures r.Ok? ==> "emote-sets" in m.rawMessage.tags &&
                      |r.value| == |Split(m.rawMessage.tags["emote-sets"], ',')| &&
                      forall k :: 0 <= k < |r.value| ==>
                        Some(r.value[k]) == ToIntOrNull(Split(m.rawMessage.tags["emote-sets"], ',')[k])
  {
    match Tag(m, "emote-sets")
    case None => Err(CorruptedMessage("emote sets not available"))
    case Some(s) => ToInts(Split(s, ','))
  }

  /** `map { it.toInt() }`: the first piece that is not an Int throws. */
  function ToInts(ps: seq<string>): (r: Result<seq<int>>)
    ensures r.Ok? <==> forall k :: 0 <= k < |ps| ==> ToIntOrNull(ps[k]).Some?
    ensures r.Ok? ==> |r.value| == |ps| && forall k :: 0 <= k < |ps| ==> Some(r.value[k]) == ToIntOrNull(ps[k])
    ensures r.Err? ==> exists k :: 0 <= k < |ps| && ToIntOrNull(ps[k]).None? && r.error == NumberFormat(ps[k])
                                   && forall j :: 0 <= j < k ==> ToIntOrNull(ps[j]).Some?
    decreases |ps|
  {
    if |ps| == 0 then Ok([])
    else
      match ToInt(ps[0])
      case Err(e) => Err(e)
      case Ok(v) =>
        match ToInts(ps[1..])
        case Err(e) =>
          var k :| 0 <= k < |ps[1..]| && ToIntOrNull(ps[1..][k]).None? && e == NumberFormat(ps[1..][k])
                   && forall j :: 0 <= j < k ==> ToIntOrNull(ps[1..][j]).Some?;
          assert ps[k + 1] == ps[1..][k];
          assert forall j :: 1 <= j < k + 1 ==> ps[j] == ps[1..][j - 1];
          Err(e)
        case Ok(rest) => Ok([v] + rest)
  }

  /** `emotes`: the parsed `emotes` tag, null without one. */
  function Emotes(m: TwitchMessage): (r: Option<Result<seq<Emote>>>)
    ensures r.Some? <==> "emotes" in m.rawMessage.tags
    ensures r.Some? ==> r.value == ParseTwitchEmotes(m.rawMessage.tags["emotes"])
  {
    match Tag(m, "emotes")
    case None => None
    case Some(s) => Some(ParseTwitchEmotes(s))
  }

  // === Class-specific getters ===

  /** GlobalUserStateMessage.userId and TextMessage.userId: required `user-id` as an Int;
      UserNoticeMessage.userId and the others: optional. */
  function RequiredUserId(m: TwitchMessage): (r: Result<int>)
    ensures r.Ok? <==> IntTag(m, "user-id").Some?
    ensures r.Ok? ==> r.value == IntTag(m, "user-id").value
    ensures r.Err? ==> r.error == CorruptedMessage("user ID not available")
  {
    OrCorrupted(IntTag(m, "user-id"), "user ID not available")
  }

  /** RoomStateMessage.roomId and UserNoticeMessage.roomId: required `room-id` as an Int. */
  function RoomId(m: TwitchMessage): (r: Result<int>)
    ensures r.Ok? <==> IntTag(m, "room-id").Some?
    ensures r.Ok? ==> r.value == IntTag(m, "room-id").value
    ensures r.Err? ==> r.error == CorruptedMessage("room ID not available")
  {
    OrCorrupted(IntTag(m, "room-id"), "room ID not available")
  }

  /** TextMessage.timestamp and UserNoticeMessage.timestamp: required `tmi-sent-ts` as a Long. */
  function Timestamp(m: TwitchMessage): (r: Result<int>)
    ensures r.Ok? <==> LongTag(m, "tmi-sent-ts").Some?
    ensures r.Ok? ==> r.value == LongTag(m, "tmi-sent-ts").value
    ensures r.Err? ==> r.error == CorruptedMessage("timestamp not available")
  {
    OrCorrupted(LongTag(m, "tmi-sent-ts"), "timestamp not available")
  }

  /** TextMessage.messageId and UserNoticeMessage.messageId: the required `id` tag. */
  function MessageId(m: TwitchMessage): (r: Result<string>)
    ensures r.Ok? <==> "id" in m.rawMessage.tags
    ensures r.Ok? ==> r.value == m.rawMessage.tags["id"]
    ensures r.Err? ==> r.error == CorruptedMessage("ID not available")
  {
    OrCorrupted(Tag(m, "id"), "ID not available")
  }

  /** NoticeMessage.noticeId and UserNoticeMessage.noticeId: the required `msg-id` tag. */
  function NoticeId(m: TwitchMessage): (r: Result<string>)
    ensures r.Ok? <==> "msg-id" in m.rawMessage.tags
    ensures r.Ok? ==> r.value == m.rawMessage.tags["msg-id"]
    ensures r.Err? ==> r.error == CorruptedMessage("messageId not available")
  {
    OrCorrupted(Tag(m, "msg-id"), "messageId not available")
  }

  /** WhisperMessage.messageId: the required `message-id` tag. */
  function WhisperMessageId(m: TwitchMessage): (r: Result<string>)
    ensures r.Ok? <==> "message-id" in m.rawMessage.tags
    ensures r.Ok? ==> r.value == m.rawMessage.tags["message-id"]
    ensures r.Err? ==> r.error == CorruptedMessage("messageId not available")
  {
    OrCorrupted(Tag(m, "message-id"), "messageId not available")
  }

  /** WhisperMessage.threadId: the required `thread-id` tag as a Long; absent and
      non-numeric both throw. */
  function ThreadId(m: TwitchMessage): (r: Result<int>)
    ensures r.Ok? <==> "thread-id" in m.rawMessage.tags && ToLongOrNull(m.rawMessage.tags["thread-id"]).Some?
    ensures r.Ok? ==> r.value == ToLongOrNull(m.rawMessage.tags["thread-id"]).value && LONG_MIN <= r.value <= LONG_MAX
    ensures r.Err? ==> r.error == CorruptedMessage("thread ID not available")
  {
    OrCorrupted(LongTag(m, "thread-id"), "thread ID not available")
  }

  /** ClearMessage.targetMessageId: the required `target-msg-id` tag. */
  function TargetMessageId(m: TwitchMessage): (r: Result<string>)
    ensures r.Ok? <==> "target-msg-id" in m.rawMessage.tags
    ensures r.Ok? ==> r.value == m.rawMessage.tags["target-msg-id"]
    ensures r.Err? ==> r.error == CorruptedMessage("target message ID not available")
  {
    OrCorrupted(Tag(m, "target-msg-id"), "target message ID not available")
  }

  /** UserNoticeMessage.systemMessage: the required `system-msg` tag. */
  function SystemMessage(m: TwitchMessage): (r: Result<string>)
    ensures r.Ok? <==> "system-msg" in m.rawMessage.tags
    ensures r.Ok? ==> r.value == m.rawMessage.tags["system-msg"]
    ensures r.Err? ==> r.error == CorruptedMessage("system message not available")
  {
    OrCorrupted(Tag(m, "system-msg"), "system message not available")
  }

  /** ClearChatMessage.banDuration: `ban-duration` through toIntOrNull. */
  function BanDuration(m: TwitchMessage): Option<int>
    requires m.kind == ClearChat
  {
    IntTag(m, "ban-duration")
  }

  /** ClearChatMessage.permanent: `banDuration == null`, so a ban is permanent exactly
      when the duration is absent or not an Int. */
  predicate Permanent(m: TwitchMessage)
    requires m.kind == ClearChat
  {
    BanDuration(m).None?
  }

  lemma PermanentBan(m: TwitchMessage)
    requires m.kind == ClearChat
    ensures Permanent(m) <==> "ban-duration" !in m.rawMessage.tags ||
                              ToIntOrNull(m.rawMessage.tags["ban-duration"]).None?
  {
  }
}
