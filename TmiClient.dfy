/** TmiClient: the IRC client with one dispenser for its parsed messages and one
    for its connection states. It learns its own user name from the welcome
    reply ("001"), starts and stops the dispensers around the connection, and
    refuses to send while the connection is not established. */
module Client {
  import opened Wrappers
  import opened Collections
  import opened MessageParsing
  import opened TwitchIrc
  import opened Dispenser

  const WelcomeCommand: string := "001"
  const UnknownUsername: string := "unknown"

  /** The position of the first welcome reply among the raw messages, if there is one. */
  function FirstWelcome(ms: seq<RawMessage>): (r: Option<nat>)
    ensures r.Some? ==> r.value < |ms| && ms[r.value].commandName == Some(WelcomeCommand)
    ensures r.Some? ==> forall k :: 0 <= k < r.value ==> ms[k].commandName != Some(WelcomeCommand)
    ensures r.None? ==> forall k :: 0 <= k < |ms| ==> ms[k].commandName != Some(WelcomeCommand)
  {
    if |ms| == 0 then None
    else if ms[0].commandName == Some(WelcomeCommand) then Some(0)
    else match FirstWelcome(ms[1..])
      case None => None
      case Some(i) => Some(i + 1)
  }

  /** `username` once the raw flow has delivered `ms`: the channel field of the first
      welcome reply, "unknown" before any welcome or when that reply has no channel. */
  function UsernameAfter(ms: seq<RawMessage>): string {
    match FirstWelcome(ms)
    case None => UnknownUsername
    case Some(i) => ms[i].channel.GetOr(UnknownUsername)
  }

  /** Only the first welcome counts: whatever arrives after it never changes the name,
      and before any welcome the name is "unknown". */
  lemma {:induction false} UsernameKeepsFirst(ms: seq<RawMessage>, more: seq<RawMessage>)
    ensures FirstWelcome(ms).Some? ==> FirstWelcome(ms + more) == FirstWelcome(ms)
    ensures FirstWelcome(ms).Some? ==> UsernameAfter(ms + more) == UsernameAfter(ms)
    ensures FirstWelcome(ms).None? ==> UsernameAfter(ms) == UnknownUsername
    decreases |ms|
  {
    if |ms| > 0 && ms[0].commandName != Some(WelcomeCommand) {
      assert (ms + more)[1..] == ms[1..] + more;
      UsernameKeepsFirst(ms[1..], more);
    }
  }

  class TmiClient {
    const irc: IrcClient
    const messagesDispenser: FlowDispenser<RawMessage>
    const statesDispenser: FlowDispenser<IrcState>
    var clientUsername: Option<string>
    /** The raw flow collected by the init block, and whether that collector still runs. */
    var watcher: nat
    var watching: bool

    predicate Valid()
      reads this, irc, messagesDispenser, statesDispenser
    {
      irc.Valid() && messagesDispenser.Valid() && statesDispenser.Valid()
    }

    /** The init block launches a collector over a fresh raw flow. */
    constructor (token: string, username: string, secure: bool)
      ensures Valid() && fresh(irc) && fresh(messagesDispenser) && fresh(statesDispenser)
      ensures irc.token == token && irc.username == username && irc.secure == secure
      ensures irc.state == Disconnected && irc.transport == []
      ensures messagesDispenser.flows == [watcher] && statesDispenser.flows == []
      ensures !messagesDispenser.Running() && !statesDispenser.Running()
      ensures clientUsername == None && watching
    {
      irc := new IrcClient(token, username, secure);
      var messages := new FlowDispenser<RawMessage>();
      messagesDispenser := messages;
      statesDispenser := new FlowDispenser<IrcState>();
      clientUsername := None;
      watching := true;
      new;
      watcher := messages.RequestFlow();
    }

    /** `username`: the learned name, or "unknown". */
    function Username(): (name: string)
      reads this
      ensures clientUsername.None? ==> name == UnknownUsername
      ensures clientUsername.Some? ==> name == clientUsername.value
    {
      clientUsername.GetOr(UnknownUsername)
    }

    /** The init block's collector handling one raw message: on the first welcome it
        records the message's channel and cancels itself, which closes its flow and so
        removes its callback. */
    method OnRaw(m: RawMessage)
      requires Valid()
      modifies this, messagesDispenser
      ensures Valid()
      ensures old(watching) && m.commandName == Some(WelcomeCommand) ==>
                && clientUsername == m.channel && !watching
                && messagesDispenser.flows == RemoveFirst(old(messagesDispenser.flows), watcher)
      ensures !(old(watching) && m.commandName == Some(WelcomeCommand)) ==>
                clientUsername == old(clientUsername) && watching == old(watching) &&
                messagesDispenser.flows == old(messagesDispenser.flows)
      ensures watcher == old(watcher)
      ensures messagesDispenser.deliveries == old(messagesDispenser.deliveries)
      ensures messagesDispenser.job == old(messagesDispenser.job)
    {
      if watching && m.commandName == Some(WelcomeCommand) {
        clientUsername := m.channel;
        watching := false;
        messagesDispenser.RemoveCallback(watcher);
      }
    }

    /** `raw.collect { ... }` over the messages its flow received, in order. */
    method CollectRaw(ms: seq<RawMessage>)
      requires Valid() && watching && clientUsername == None
      modifies this, messagesDispenser
      ensures Valid()
      ensures Username() == UsernameAfter(ms)
      ensures watching <==> FirstWelcome(ms).None?
      ensures watching ==> messagesDispenser.flows == old(messagesDispenser.flows)
      ensures messagesDispenser.deliveries == old(messagesDispenser.deliveries)
    {
      var i := 0;
      while i < |ms| && watching
        invariant 0 <= i <= |ms|
        invariant Valid()
        invariant watching ==> clientUsername == None && messagesDispenser.flows == old(messagesDispenser.flows)
        invariant watching ==> forall k :: 0 <= k < i ==> ms[k].commandName != Some(WelcomeCommand)
        invariant !watching ==> 0 < i && FirstWelcome(ms) == Some(i - 1) && clientUsername == ms[i - 1].channel
        invariant messagesDispenser.deliveries == old(messagesDispenser.deliveries)
      {
        if ms[i].commandName == Some(WelcomeCommand) {
          assert FirstWelcome(ms) == Some(i) by {
            FirstWelcomeAt(ms, i);
          }
        }
        OnRaw(ms[i]);
        i := i + 1;
      }
    }

    /** connect: connect the IRC client, then start the messages dispenser, then the
        states dispenser. */
    method Connect()
      requires Valid()
      modifies irc, messagesDispenser, statesDispenser
      ensures Valid()
      ensures irc.transport == old(irc.transport) + [Close, TransportCall.Open(ServerUrl(irc.secure), irc.token, irc.username)]
      ensures irc.state == old(irc.state) && irc.stateLog == old(irc.stateLog)
      ensures messagesDispenser.Running() && statesDispenser.Running()
      ensures messagesDispenser.flows == old(messagesDispenser.flows) && statesDispenser.flows == old(statesDispenser.flows)
      ensures messagesDispenser.closings == old(messagesDispenser.closings)
      ensures statesDispenser.closings == old(statesDispenser.closings)
    {
      irc.Connect();
      messagesDispenser.Initialize();
      statesDispenser.Initialize();
    }

    /** disconnect: stop both dispensers, which closes every flow they serve with a
        cancellation, then disconnect the IRC client. */
    method Disconnect()
      requires Valid()
      modifies irc, messagesDispenser, statesDispenser
      ensures Valid()
      ensures irc.transport == old(irc.transport) + [Close]
      ensures irc.state == old(irc.state) && irc.stateLog == old(irc.stateLog)
      ensures !messagesDispenser.Running() && !statesDispenser.Running()
      ensures old(messagesDispenser.Running()) ==>
                messagesDispenser.closings ==
                old(messagesDispenser.closings) + CloseEach(old(messagesDispenser.flows), Cancellation)
      ensures old(statesDispenser.Running()) ==>
                statesDispenser.closings ==
                old(statesDispenser.closings) + CloseEach(old(statesDispenser.flows), Cancellation)
      ensures messagesDispenser.flows == old(messagesDispenser.flows) && statesDispenser.flows == old(statesDispenser.flows)
    {
      messagesDispenser.Stop();
      statesDispenser.Stop();
      irc.Disconnect();
    }

    /** sendRaw: the line reaches the socket only while CONNECTED; otherwise
        NotConnectedException and nothing is sent. */
    method SendRaw(message: string) returns (outcome: Outcome)
      requires Valid()
      modifies irc
      ensures Valid()
      ensures outcome.Pass? <==> old(irc.state) == Connected
      ensures outcome.Pass? ==> irc.transport == old(irc.transport) + [Send(message)]
      ensures outcome.Fail? ==> outcome.error == NotConnected && irc.transport == old(irc.transport)
      ensures irc.state == old(irc.state) && irc.stateLog == old(irc.stateLog) && irc.messages == old(irc.messages)
    {
      if irc.state == Connected {
        irc.SendMessage(message);
        outcome := Pass;
      } else {
        outcome := Fail(NotConnected);
      }
    }

    /** `raw`: a new flow of the parsed messages. */
    method Raw() returns (id: nat)
      requires Valid()
      modifies messagesDispenser
      ensures Valid()
      ensures messagesDispenser.flows == old(messagesDispenser.flows) + [id]
      ensures Received(messagesDispenser.deliveries, id) == []
    {
      id := messagesDispenser.RequestFlow();
    }

    /** `connectionStatus`: a new flow of the connection states. */
    method ConnectionStatus() returns (id: nat)
      requires Valid()
      modifies statesDispenser
      ensures Valid()
      ensures statesDispenser.flows == old(statesDispenser.flows) + [id]
      ensures Received(statesDispenser.deliveries, id) == []
    {
      id := statesDispenser.RequestFlow();
    }
  }

  /** A welcome at position i with none before it is the first welcome. */
  lemma {:induction false} FirstWelcomeAt(ms: seq<RawMessage>, i: nat)
    requires i < |ms| && ms[i].commandName == Some(WelcomeCommand)
    requires forall k :: 0 <= k < i ==> ms[k].commandName != Some(WelcomeCommand)
    ensures FirstWelcome(ms) == Some(i)
    decreases i
  {
    if i > 0 {
      FirstWelcomeAt(ms[1..], i - 1);
    }
  }
}
