/** The connection layer shared by every transport: connection state, the
    login handshake, PING handling and the splitting of received frames into
    parsed messages. The socket itself is replaced by a log of the calls the
    client makes on it, and the two shared flows by the logs of what was
    emitted on them. */
module TwitchIrc {
  import opened Wrappers
  import opened Strings
  import opened MessageParsing

  datatype IrcState = Connecting | Connected | Disconnected

  /** A call the client makes on its socket: connectSocket, disconnectSocket or sendMessage. */
  datatype TransportCall =
    | Open(url: string, token: string, username: string)
    | Close
    | Send(line: string)

  const CapRequest: string := "CAP REQ :twitch.tv/tags twitch.tv/commands twitch.tv/membership"
  const Pong: string := "PONG :tmi.twitch.tv"
  const WelcomePrefix: string := ":tmi.twitch.tv 001"

  const SecureServerUrl: string := "wss://irc-ws.chat.twitch.tv:443"
  const PlainServerUrl: string := "ws://irc-ws.chat.twitch.tv:80"

  /** The server address: TLS on port 443, plain on port 80. */
  function ServerUrl(secure: bool): (url: string)
    ensures secure ==> url == SecureServerUrl && StartsWith(url, "wss://")
    ensures !secure ==> url == PlainServerUrl && StartsWith(url, "ws://")
  {
    if secure then SecureServerUrl else PlainServerUrl
  }

  /** The PASS token, with "oauth:" in front unless it is already there. */
  function OAuthPass(token: string): (pass: string)
    ensures StartsWith(pass, "oauth:")
  {
    if StartsWith(token, "oauth:") then token else "oauth:" + token
  }

  /** Normalising the token changes it only when the prefix is missing, so it is idempotent. */
  lemma OAuthPassIdempotent(token: string)
    ensures OAuthPass(OAuthPass(token)) == OAuthPass(token)
    ensures OAuthPass(token) == token <==> StartsWith(token, "oauth:")
  {
    if !StartsWith(token, "oauth:") {
      assert |OAuthPass(token)| == |token| + 6;
    }
  }

  /** isMessageIgnored: the NAMES replies 353 and 366; a line with no space has no
      second word and indexing it throws. */
  function IsMessageIgnored(line: string): (r: Result<bool>)
    ensures r.Err? <==> ' ' !in line
    ensures r.Err? ==> r.error == IndexOutOfBounds
    ensures r.Ok? ==> (r.value <==> Split(line, ' ')[1] in {"353", "366"})
  {
    SplitSingle(line, ' ');
    var words := Split(line, ' ');
    if |words| < 2 then Err(IndexOutOfBounds)
    else Ok(words[1] == "353" || words[1] == "366")
  }

  /** One line of a frame: nothing for a NAMES reply, its parse otherwise, or the
      error thrown by isMessageIgnored or by the parser. */
  function HandleLine(line: string): (r: Result<seq<RawMessage>>)
    ensures r.Ok? ==> |r.value| <= 1
  {
    match IsMessageIgnored(line)
    case Err(e) => Err(e)
    case Ok(ignored) =>
      if ignored then Ok([])
      else
        match Parse(line)
        case Err(e) => Err(e)
        case Ok(m) => Ok([m])
  }

  /** The body of the emission loop for one line: isMessageIgnored, then parseMessage
      unless the line is a NAMES reply. */
  method HandleOne(line: string) returns (r: Result<seq<RawMessage>>)
    ensures r == HandleLine(line)
  {
    var ignored := IsMessageIgnored(line);
    if ignored.Err? {
      return Err(ignored.error);
    }
    if ignored.value {
      return Ok([]);
    }
    var parsed := ParseMessage(line);
    r := if parsed.Ok? then Ok([parsed.value]) else Err(parsed.error);
  }

  /** What happens to the lines of one frame: the messages emitted, in order, and
      whether a line threw, which ends the coroutine before the remaining lines. */
  function Emission(lines: seq<string>): (r: (seq<RawMessage>, Outcome))
    ensures |r.0| <= |lines|
    decreases |lines|
  {
    if |lines| == 0 then ([], Pass)
    else
      match HandleLine(lines[0])
      case Err(e) => ([], Fail(e))
      case Ok(ms) =>
        var rest := Emission(lines[1..]);
        (ms + rest.0, rest.1)
  }

  /** One step of the emission loop, with the messages `emitted` so far: at the start
      nothing is emitted, a line that throws ends the frame with what was emitted
      before it, and a handled line adds its messages; past the last line the frame
      has passed. */
  lemma EmissionFrom(lines: seq<string>, i: nat, emitted: seq<RawMessage>)
    requires i <= |lines|
    ensures i == 0 && emitted == [] ==>
              Emission(lines) == (emitted + Emission(lines[i..]).0, Emission(lines[i..]).1)
    ensures i == |lines| && Emission(lines) == (emitted + Emission(lines[i..]).0, Emission(lines[i..]).1) ==>
              Emission(lines) == (emitted, Pass)
    ensures i < |lines| && Emission(lines) == (emitted + Emission(lines[i..]).0, Emission(lines[i..]).1) ==>
              && (HandleLine(lines[i]).Err? ==> Emission(lines) == (emitted, Fail(HandleLine(lines[i]).error)))
              && (HandleLine(lines[i]).Ok? ==>
                    Emission(lines) == (emitted + HandleLine(lines[i]).value + Emission(lines[i + 1..]).0,
                                        Emission(lines[i + 1..]).1))
  {
    assert lines[0..] == lines;
    assert [] + Emission(lines).0 == Emission(lines).0;
    assert emitted + [] == emitted;
    if i < |lines| {
      var rest := lines[i..];
      assert rest[0] == lines[i] && rest[1..] == lines[i + 1..];
      if HandleLine(lines[i]).Ok? {
        var h, tail := HandleLine(lines[i]).value, Emission(lines[i + 1..]);
        assert Emission(rest) == (h + tail.0, tail.1);
        assert emitted + (h + tail.0) == emitted + h + tail.0;
      }
    }
  }

  /** The lines of a received frame. */
  function FrameLines(message: string): seq<string> {
    Lines(Trim(message))
  }

  /** Frames compose: the lines of `a` are handled first, and only when none of them
      throws are the lines of `b` handled after them. */
  lemma {:induction false} EmissionAppend(a: seq<string>, b: seq<string>)
    ensures Emission(a + b) ==
            if Emission(a).1.Pass? then (Emission(a).0 + Emission(b).0, Emission(b).1) else Emission(a)
    decreases |a|
  {
    if |a| == 0 {
      assert a + b == b;
      assert Emission(a).0 + Emission(b).0 == Emission(b).0;
    } else {
      assert (a + b)[0] == a[0];
      assert (a + b)[1..] == a[1..] + b;
      EmissionAppend(a[1..], b);
      match HandleLine(a[0])
      case Err(e) =>
      case Ok(ms) =>
        assert ms + (Emission(a[1..]).0 + Emission(b).0) == (ms + Emission(a[1..]).0) + Emission(b).0;
    }
  }

  /** One line on its own: a NAMES reply is dropped, a line without a space throws,
      any other line is emitted as its parse or throws the parser's error. */
  lemma EmissionOfLine(line: string)
    ensures IsMessageIgnored(line) == Ok(true) ==> Emission([line]) == ([], Pass)
    ensures ' ' !in line ==> Emission([line]) == ([], Fail(IndexOutOfBounds))
    ensures IsMessageIgnored(line) == Ok(false) ==>
              Emission([line]) == if Parse(line).Ok? then ([Parse(line).value], Pass) else ([], Fail(Parse(line).error))
  {
    var single := [line];
    assert single[1..] == [];
    match HandleLine(line)
    case Ok(ms) =>
      assert ms + [] == ms;
    case Err(e) =>
  }

  /** The frame succeeds exactly when every line has a second word and every line
      that is not a NAMES reply parses. */
  lemma {:induction false} EmissionSucceeds(lines: seq<string>)
    ensures Emission(lines).1.Pass? <==>
              forall k :: 0 <= k < |lines| ==>
                IsMessageIgnored(lines[k]).Ok? && (IsMessageIgnored(lines[k]).value || Parse(lines[k]).Ok?)
    decreases |lines|
  {
    if |lines| > 0 {
      EmissionSucceeds(lines[1..]);
      forall k | 1 <= k < |lines| ensures lines[k] == lines[1..][k - 1] { }
    }
  }

  class IrcClient {
    const token: string
    const username: string
    const secure: bool
    var state: IrcState
    /** Every value emitted on the states flow, in order. */
    var stateLog: seq<IrcState>
    /** Every call made on the socket, in order. */
    var transport: seq<TransportCall>
    /** Every message emitted on the messages flow, in order. */
    var messages: seq<RawMessage>
    /** Whether the client's coroutine scope is cancelled. Its job is a plain Job, so
        a launched coroutine that throws cancels the whole scope, and from then on
        every `launch` is cancelled before its body runs. */
    var cancelled: bool

    /** While the scope runs, the current state is the last one emitted, DISCONNECTED
        before any; once it is cancelled the states flow emits nothing more. */
    predicate Valid()
      reads this
    {
      !cancelled ==> state == if |stateLog| == 0 then Disconnected else stateLog[|stateLog| - 1]
    }

    constructor (token: string, username: string, secure: bool)
      ensures Valid()
      ensures this.token == token && this.username == username && this.secure == secure
      ensures state == Disconnected && stateLog == [] && transport == [] && messages == []
      ensures !cancelled
    {
      this.token := token;
      this.username := username;
      this.secure := secure;
      state := Disconnected;
      stateLog := [];
      transport := [];
      messages := [];
      cancelled := false;
    }

    /** setState: remember the state and launch its emission, which never runs in a
        cancelled scope. */
    method SetState(s: IrcState)
      modifies this
      ensures Valid() && state == s && cancelled == old(cancelled)
      ensures stateLog == old(stateLog) + if cancelled then [] else [s]
      ensures transport == old(transport) && messages == old(messages)
    {
      state := s;
      if !cancelled {
        stateLog := stateLog + [s];
      }
    }

    /** connect: close any socket, then open the Twitch server for this client. */
    method Connect()
      requires Valid()
      modifies this
      ensures Valid()
      ensures transport == old(transport) + [Close, Open(ServerUrl(secure), token, username)]
      ensures state == old(state) && stateLog == old(stateLog) && messages == old(messages)
      ensures cancelled == old(cancelled)
    {
      Disconnect();
      var url := ServerUrl(secure);
      transport := transport + [Open(url, token, username)];
    }

    method Disconnect()
      requires Valid()
      modifies this
      ensures Valid()
      ensures transport == old(transport) + [Close]
      ensures state == old(state) && stateLog == old(stateLog) && messages == old(messages)
      ensures cancelled == old(cancelled)
    {
      transport := transport + [Close];
    }

    /** sendMessage: hand one line to the socket unchanged. */
    method SendMessage(line: string)
      modifies this
      ensures transport == old(transport) + [Send(line)]
      ensures state == old(state) && stateLog == old(stateLog) && messages == old(messages)
      ensures cancelled == old(cancelled)
    {
      transport := transport + [Send(line)];
    }

    /** onConnectionOpened: CONNECTING, then the handshake. */
    method OnConnectionOpened()
      modifies this
      ensures Valid() && state == Connecting && cancelled == old(cancelled)
      ensures stateLog == old(stateLog) + if cancelled then [] else [Connecting]
      ensures transport == old(transport) + [Send(CapRequest), Send("PASS " + OAuthPass(token)), Send("NICK " + username)]
      ensures messages == old(messages)
    {
      SetState(Connecting);
      Authorize();
    }

    /** authorize: request the capabilities, then PASS and NICK. */
    method Authorize()
      modifies this
      ensures transport == old(transport) + [Send(CapRequest), Send("PASS " + OAuthPass(token)), Send("NICK " + username)]
      ensures state == old(state) && stateLog == old(stateLog) && messages == old(messages)
      ensures cancelled == old(cancelled)
    {
      SendMessage(CapRequest);
      var pass := token;
      if !StartsWith(pass, "oauth:") {
        pass := "oauth:" + token;
      }
      SendMessage("PASS " + pass);
      SendMessage("NICK " + username);
    }

    /** onClosed: DISCONNECTED, whatever the state was. */
    method OnClosed()
      modifies this
      ensures Valid() && state == Disconnected && cancelled == old(cancelled)
      ensures stateLog == old(stateLog) + if cancelled then [] else [Disconnected]
      ensures transport == old(transport) && messages == old(messages)
    {
      SetState(Disconnected);
    }

    /** onMessageReceived: answer PING with PONG and touch nothing else; otherwise
        switch to CONNECTED on the welcome reply, then launch the emission of the
        parsed lines of the frame, which stops at the first line that throws and so
        cancels the scope. */
    method OnMessageReceived(message: string) returns (outcome: Outcome)
      requires Valid()
      modifies this
      ensures Valid()
      ensures StartsWith(message, "PING") ==>
                transport == old(transport) + [Send(Pong)] && state == old(state) &&
                stateLog == old(stateLog) && messages == old(messages) && cancelled == old(cancelled) &&
                outcome == Pass
      ensures !StartsWith(message, "PING") ==>
                && transport == old(transport)
                && state == (if StartsWith(message, WelcomePrefix) then Connected else old(state))
                && stateLog == old(stateLog) + (if StartsWith(message, WelcomePrefix) && !old(cancelled) then [Connected] else [])
      ensures !StartsWith(message, "PING") && old(cancelled) ==>
                messages == old(messages) && cancelled && outcome == Fail(ScopeCancelled)
      ensures !StartsWith(message, "PING") && !old(cancelled) ==>
                && messages == old(messages) + Emission(FrameLines(message)).0
                && outcome == Emission(FrameLines(message)).1
                && (cancelled <==> outcome.Fail?)
    {
      if StartsWith(message, "PING") {
        SendMessage(Pong);
        return Pass;
      }
      if StartsWith(message, WelcomePrefix) {
        SetState(Connected);
      }
      outcome := EmitLines(FrameLines(message));
    }

    /** The coroutine launched by onMessageReceived: emit every line that is not a
        NAMES reply, stopping at the first line that throws, whose exception cancels
        the scope. In a cancelled scope the coroutine never runs. */
    method EmitLines(lines: seq<string>) returns (outcome: Outcome)
      modifies this
      ensures old(cancelled) ==> messages == old(messages) && cancelled && outcome == Fail(ScopeCancelled)
      ensures !old(cancelled) ==>
                && messages == old(messages) + Emission(lines).0 && outcome == Emission(lines).1
                && (cancelled <==> outcome.Fail?)
      ensures state == old(state) && stateLog == old(stateLog) && transport == old(transport)
    {
      if cancelled {
        return Fail(ScopeCancelled);
      }
      var emitted;
      emitted, outcome := EmitFrame(lines);
      messages := messages + emitted;
      cancelled := outcome.Fail?;
    }
  }

  /** The emission loop over the lines of one frame: the messages emitted, in order,
      and how the loop ended. */
  method EmitFrame(lines: seq<string>) returns (emitted: seq<RawMessage>, outcome: Outcome)
    ensures (emitted, outcome) == Emission(lines)
  {
    var i := 0;
    emitted := [];
    EmissionFrom(lines, 0, emitted);
    while i < |lines|
      invariant 0 <= i <= |lines|
      invariant Emission(lines) == (emitted + Emission(lines[i..]).0, Emission(lines[i..]).1)
    {
      var handled := HandleOne(lines[i]);
      EmissionFrom(lines, i, emitted);
      if handled.Err? {
        return emitted, Fail(handled.error);
      }
      emitted := emitted + handled.value;
      i := i + 1;
    }
    EmissionFrom(lines, i, emitted);
    outcome := Pass;
  }

  /** A session from opening to the welcome reply: CONNECTING, the handshake, then
      CONNECTED; the messages of the welcome frame are emitted. A cancelled scope
      still sends the handshake and moves the state, but publishes nothing. */
  method WelcomeSession(client: IrcClient, welcome: string) returns (outcome: Outcome)
    requires client.Valid() && StartsWith(welcome, WelcomePrefix)
    modifies client
    ensures client.Valid() && client.state == Connected
    ensures client.stateLog == old(client.stateLog) + if old(client.cancelled) then [] else [Connecting, Connected]
    ensures client.transport == old(client.transport) + [Send(CapRequest), Send("PASS " + OAuthPass(client.token)),
                                                         Send("NICK " + client.username)]
    ensures client.messages == old(client.messages) + if old(client.cancelled) then [] else Emission(FrameLines(welcome)).0
  {
    client.OnConnectionOpened();
    assert !StartsWith(welcome, "PING") by {
      assert welcome[0] == ':';
    }
    outcome := client.OnMessageReceived(welcome);
  }

  /** A frame whose line throws cancels the scope: what was emitted before the throw
      stays, and a later frame, welcome reply or not, emits no message and no state. */
  method ThrowSilencesLater(client: IrcClient, frame: string, later: string) returns (outcome: Outcome)
    requires client.Valid() && !client.cancelled
    requires !StartsWith(frame, "PING") && !StartsWith(frame, WelcomePrefix)
    requires Emission(FrameLines(frame)).1.Fail? && !StartsWith(later, "PING")
    modifies client
    ensures client.cancelled && outcome == Fail(ScopeCancelled)
    ensures client.messages == old(client.messages) + Emission(FrameLines(frame)).0
    ensures client.stateLog == old(client.stateLog)
  {
    var first := client.OnMessageReceived(frame);
    outcome := client.OnMessageReceived(later);
  }
}
