/** The boundary between parsed lines and typed messages: every RawMessage is
    dispatched once on its command name to a message class, and the streams of
    typed messages can be narrowed to one channel or one class. A flow is a
    sequence of the values it delivers, in order. */
module ChannelEvents {
  import opened Wrappers
  import opened Collections
  import opened MessageParsing
  import opened Utility
  import opened TwitchMessages

  /** The `when` of asTwitchMessageFlow: the class chosen for a command name. */
  function KindOf(command: Option<string>): (r: Kind)
    ensures r == Undefined <==> command.None? || command.value !in DispatchedCommands
    ensures command == Some("WHISPER") ==> r == Undefined
  {
    match command
    case Some("GLOBALUSERSTATE") => GlobalUserState
    case Some("JOIN") => Join
    case Some("PART") => Leave
    case Some("USERSTATE") => UserState
    case Some("ROOMSTATE") => RoomState
    case Some("PRIVMSG") => Text
    case Some("CLEARCHAT") => ClearChat
    case Some("CLEARMSG") => ClearMsg
    case Some("NOTICE") => Notice
    case Some("USERNOTICE") => UserNotice
    case _ => Undefined
  }

  /** The ten command names the dispatch recognises. */
  const DispatchedCommands: set<string> :=
    {"GLOBALUSERSTATE", "JOIN", "PART", "USERSTATE", "ROOMSTATE", "PRIVMSG",
     "CLEARCHAT", "CLEARMSG", "NOTICE", "USERNOTICE"}

  /** One element of asTwitchMessageFlow: construct the chosen class. The class
      chosen for a command is the class that requires that command, so the
      construction never throws WrongMessageTypeException. */
  function AsTwitchMessage(raw: RawMessage): (r: Result<TwitchMessage>)
    ensures r.Ok? && r.value.rawMessage == raw && WellTyped(r.value)
    ensures r.Ok? && r.value.kind == KindOf(raw.commandName)
  {
    Construct(KindOf(raw.commandName), raw)
  }

  /** The dispatch is one-to-one on the ten recognised names: a dispatched message's
      class determines its command. */
  lemma DispatchInjective(a: RawMessage, b: RawMessage)
    requires KindOf(a.commandName) == KindOf(b.commandName) != Undefined
    ensures a.commandName == b.commandName
  {
  }

  /** asTwitchMessageFlow over a finite stream of parsed lines. */
  function AsTwitchMessageFlow(raws: seq<RawMessage>): (r: seq<TwitchMessage>)
    ensures |r| == |raws|
    ensures forall k :: 0 <= k < |raws| ==> r[k] == TwitchMessage(KindOf(raws[k].commandName), raws[k])
    ensures forall k :: 0 <= k < |r| ==> WellTyped(r[k])
  {
    seq(|raws|, k requires 0 <= k < |raws| => TwitchMessage(KindOf(raws[k].commandName), raws[k]))
  }

  /** Whether a message was received in `channelName` (already a channel name). */
  predicate InChannel(channelName: string, m: TwitchMessage) {
    m.rawMessage.channel == Some(channelName)
  }

  /** `flow[channel]`: the messages whose raw channel is the channel name of `channel`. */
  function ForChannel(ms: seq<TwitchMessage>, channel: string): seq<TwitchMessage> {
    var channelName := AsChannelName(channel);
    Filter(ms, (m: TwitchMessage) => InChannel(channelName, m))
  }

  /** flow[channel] keeps exactly the messages of that channel, whether the channel
      is given with or without its '#', and in their original order. */
  lemma ForChannelKeeps(ms: seq<TwitchMessage>, more: seq<TwitchMessage>, channel: string, m: TwitchMessage)
    ensures m in ForChannel(ms, channel) <==> m in ms && m.rawMessage.channel == Some(AsChannelName(channel))
    ensures ForChannel(ms, channel) == ForChannel(ms, AsChannelName(channel))
    ensures ForChannel(ms + more, channel) == ForChannel(ms, channel) + ForChannel(more, channel)
  {
    var channelName := AsChannelName(channel);
    FilterMembers(ms, (m: TwitchMessage) => InChannel(channelName, m), m);
    AsChannelNameIdempotent(channel);
    FilterAppend(ms, more, (m: TwitchMessage) => InChannel(channelName, m));
  }

  /** `filterMessage<T>()`: the messages of one class, in order. */
  function OfKind(ms: seq<TwitchMessage>, kind: Kind): seq<TwitchMessage> {
    Filter(ms, (m: TwitchMessage) => m.kind == kind)
  }

  lemma OfKindKeeps(ms: seq<TwitchMessage>, more: seq<TwitchMessage>, kind: Kind, m: TwitchMessage)
    ensures m in OfKind(ms, kind) <==> m in ms && m.kind == kind
    ensures OfKind(ms + more, kind) == OfKind(ms, kind) + OfKind(more, kind)
  {
    FilterMembers(ms, (m: TwitchMessage) => m.kind == kind, m);
    FilterAppend(ms, more, (m: TwitchMessage) => m.kind == kind);
  }

  /** The typed messages of one class are the parsed lines carrying its command:
      dispatching then filtering by class is filtering by command, then dispatching. */
  lemma {:induction false} OfKindIsByCommand(raws: seq<RawMessage>, kind: Kind)
    requires kind != Undefined
    ensures OfKind(AsTwitchMessageFlow(raws), kind) ==
            AsTwitchMessageFlow(Filter(raws, (r: RawMessage) => KindOf(r.commandName) == kind))
    decreases |raws|
  {
    if |raws| > 0 {
      var ms := AsTwitchMessageFlow(raws);
      var rest := AsTwitchMessageFlow(raws[1..]);
      var p := (r: RawMessage) => KindOf(r.commandName) == kind;
      OfKindIsByCommand(raws[1..], kind);
      FlowSplit(raws);
      OfKindKeeps([ms[0]], rest, kind, ms[0]);
      FilterSingle(ms[0], (m: TwitchMessage) => m.kind == kind);
      if p(raws[0]) {
        assert Filter(raws, p) == [raws[0]] + Filter(raws[1..], p);
        FlowCons(raws[0], Filter(raws[1..], p));
        assert OfKind(ms, kind) == [ms[0]] + OfKind(rest, kind);
      } else {
        assert Filter(raws, p) == Filter(raws[1..], p);
        assert OfKind(ms, kind) == OfKind(rest, kind);
      }
    }
  }

  /** A flow is its first message followed by the flow of the rest. */
  lemma FlowSplit(raws: seq<RawMessage>)
    requires |raws| > 0
    ensures AsTwitchMessageFlow(raws) == [AsTwitchMessageFlow(raws)[0]] + AsTwitchMessageFlow(raws[1..])
  {
    var ms, rest := AsTwitchMessageFlow(raws), AsTwitchMessageFlow(raws[1..]);
    forall k | 1 <= k < |ms| ensures ms[k] == rest[k - 1] {
      assert raws[1..][k - 1] == raws[k];
    }
  }

  /** The flow of a message followed by more is that message's then theirs. */
  lemma FlowCons(r: RawMessage, rs: seq<RawMessage>)
    ensures AsTwitchMessageFlow([r] + rs) == [AsTwitchMessageFlow([r])[0]] + AsTwitchMessageFlow(rs)
  {
  }
}
