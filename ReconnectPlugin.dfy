/** Reconnect: a plugin that remembers the channels the client itself has joined,
    starts a retry job when the connection drops and, once the connection is back,
    joins those channels again. What the plugin asks of its container (connect, the
    wait between two tries, one JOIN line per channel) is recorded in order as
    effects rather than performed. */
module Reconnect {
  import opened Wrappers
  import opened Collections
  import opened MessageParsing
  import opened Utility
  import opened TwitchIrc
  import opened TwitchMessages
  import opened Commands

  const ReconnectName: string := "reconnect"
  /** `attempts = 0`: never give up. */
  const DefaultAttempts: int := 0
  const DefaultInterval: int := 10000

  /** One request the plugin makes of its container: `connect()`, `delay(interval)`
      or `join(channel)` (which sends a raw line). */
  datatype Effect = ConnectCall | Wait(millis: int) | SendLine(line: string)

  // === the channel list ===

  /** `activeChannels.add(channel)` as written: the channel is appended even when it
      is listed already. */
  function AddChannelAsWritten(channels: seq<string>, c: string): (r: seq<string>)
    ensures |r| == |channels| + 1 && r[|channels|] == c
    ensures r[..|channels|] == channels
  {
    channels + [c]
  }

  /** `activeChannels.add(channel)` with the list kept free of duplicates: a channel
      already listed stays where it is. */
  function AddChannel(channels: seq<string>, c: string): (r: seq<string>)
    ensures forall x :: x in r <==> x in channels || x == c
    ensures Distinct(channels) ==> Distinct(r)
    ensures c in channels ==> r == channels
  {
    if c in channels then channels else channels + [c]
  }

  // === joining again ===

  /** `activeChannels.forEach { join(it) }`: one JOIN line per listed channel, in order. */
  function RejoinEffects(channels: seq<string>): (r: seq<Effect>)
    ensures |r| == |channels|
    ensures forall k :: 0 <= k < |r| ==> r[k].SendLine?
  {
    seq(|channels|, k requires 0 <= k < |channels| => SendLine(JoinLine(channels[k])))
  }

  /** Each rejoin line is a JOIN of its channel, normalised to start with '#', and
      the lines follow the list. */
  lemma RejoinJoinsEach(channels: seq<string>)
    ensures forall k :: 0 <= k < |channels| ==>
              DecodeLine(RejoinEffects(channels)[k].line) == Some(JoinRequest(AsChannelName(channels[k])))
  {
    forall k | 0 <= k < |channels|
      ensures DecodeLine(RejoinEffects(channels)[k].line) == Some(JoinRequest(AsChannelName(channels[k])))
    {
      MembershipRoundTrip(channels[k]);
    }
  }

  // === the retry job ===

  /** What `n` iterations of the retry loop ask for while the client is not connected:
      connect, then wait `interval`, each time. */
  function RetryEffects(n: nat, interval: int): (r: seq<Effect>)
    ensures |r| == 2 * n
  {
    if n == 0 then [] else RetryEffects(n - 1, interval) + [ConnectCall, Wait(interval)]
  }

  /** The number of connect requests among the effects. */
  function CountConnects(es: seq<Effect>): nat {
    if |es| == 0 then 0
    else CountConnects(es[..|es| - 1]) + (if es[|es| - 1] == ConnectCall then 1 else 0)
  }

  /** n iterations make exactly n connection attempts. */
  lemma {:induction false} RetryConnects(n: nat, interval: int)
    ensures CountConnects(RetryEffects(n, interval)) == n
  {
    if n > 0 {
      RetryConnects(n - 1, interval);
      var r := RetryEffects(n, interval);
      var prev := RetryEffects(n - 1, interval);
      assert r[..|r| - 1] == prev + [ConnectCall];
      assert (prev + [ConnectCall])[..|prev|] == prev;
    }
  }

  /** One more iteration extends the job's effects by one connect-and-wait round, and
      the connect calls still number the iterations. */
  lemma RetryGrows(effects: seq<Effect>, start: nat, n: nat, interval: int)
    requires start <= |effects| && effects[start..] == RetryEffects(n, interval)
    ensures (effects + [ConnectCall, Wait(interval)])[start..] == RetryEffects(n + 1, interval)
    ensures CountConnects(RetryEffects(n + 1, interval)) == n + 1
  {
    assert (effects + [ConnectCall, Wait(interval)])[start..] == effects[start..] + [ConnectCall, Wait(interval)];
    RetryConnects(n + 1, interval);
  }

  /** The plugin object: its list of joined channels, the last state it saw, and
      whether its retry job (`connectingJob`) is running and how far it got. */
  class ReconnectPlugin {
    const attempts: int
    const interval: int
    var activeChannels: seq<string>
    var currState: IrcState
    /** connectingJob is running. */
    var retrying: bool
    /** Iterations the running job has completed. */
    var tries: nat
    /** Where the running job's effects begin. */
    ghost var jobStart: nat
    var effects: seq<Effect>

    /** The state seen is never CONNECTING (that change is ignored), the job runs only
        while disconnected, and what it asked for so far is `tries` connect-and-wait
        rounds, never more than `attempts` when that is positive. */
    ghost predicate Valid()
      reads this
    {
      && Distinct(activeChannels)
      && currState != Connecting
      && (retrying ==> currState == Disconnected)
      && (retrying && attempts > 0 ==> tries <= attempts)
      && (retrying ==> jobStart <= |effects| && effects[jobStart..] == RetryEffects(tries, interval))
    }

    /** `Reconnect(attempts, interval)`: no channel, DISCONNECTED, no job. */
    constructor (attempts: int, interval: int)
      ensures Valid()
      ensures this.attempts == attempts && this.interval == interval
      ensures activeChannels == [] && currState == Disconnected && !retrying && effects == []
    {
      this.attempts := attempts;
      this.interval := interval;
      activeChannels := [];
      currState := Disconnected;
      retrying := false;
      tries := 0;
      jobStart := 0;
      effects := [];
    }

    /** The JoinMessage handler: a JOIN by the client itself lists its channel; one
        without a channel throws CorruptedMessageException. */
    method OnJoin(m: TwitchMessage, clientName: string) returns (outcome: Outcome)
      requires Valid() && m.kind == Join
      modifies this
      ensures Valid()
      ensures Author(m.rawMessage) != clientName ==> outcome.Pass? && activeChannels == old(activeChannels)
      ensures Author(m.rawMessage) == clientName ==>
                (outcome.Pass? <==> m.rawMessage.channel.Some?) &&
                (outcome.Pass? ==> activeChannels == AddChannel(old(activeChannels), m.rawMessage.channel.value))
      ensures outcome.Fail? ==>
                outcome.error == CorruptedMessage("channel not available") && activeChannels == old(activeChannels)
      ensures currState == old(currState) && retrying == old(retrying) && tries == old(tries)
      ensures effects == old(effects)
    {
      outcome := Pass;
      if Username(m).value == clientName {
        match Channel(m)
        case Err(e) =>
          outcome := Fail(e);
        case Ok(c) =>
          activeChannels := AddChannel(activeChannels, c);
      }
    }

    /** The LeaveMessage handler: a PART by the client itself forgets its channel. */
    method OnLeave(m: TwitchMessage, clientName: string) returns (outcome: Outcome)
      requires Valid() && m.kind == Leave
      modifies this
      ensures Valid()
      ensures Author(m.rawMessage) != clientName ==> outcome.Pass? && activeChannels == old(activeChannels)
      ensures Author(m.rawMessage) == clientName ==>
                (outcome.Pass? <==> m.rawMessage.channel.Some?) &&
                (outcome.Pass? ==> activeChannels == RemoveFirst(old(activeChannels), m.rawMessage.channel.value) &&
                                   m.rawMessage.channel.value !in activeChannels)
      ensures outcome.Fail? ==>
                outcome.error == CorruptedMessage("channel not available") && activeChannels == old(activeChannels)
      ensures currState == old(currState) && retrying == old(retrying) && tries == old(tries)
      ensures effects == old(effects)
    {
      outcome := Pass;
      if Username(m).value == clientName {
        match Channel(m)
        case Err(e) =>
          outcome := Fail(e);
        case Ok(c) =>
          RemoveDistinct(activeChannels, c);
          activeChannels := RemoveFirst(activeChannels, c);
      }
    }

    /** onConnectionStateChange: the same state again and CONNECTING are ignored; a
        drop starts the retry job; a connection cancels it and joins every listed
        channel again. */
    method OnConnectionStateChange(newState: IrcState)
      requires Valid()
      modifies this
      ensures Valid()
      ensures activeChannels == old(activeChannels)
      ensures old(currState) == newState || newState == Connecting ==>
                currState == old(currState) && retrying == old(retrying) && tries == old(tries) &&
                effects == old(effects)
      ensures old(currState) != newState && newState == Disconnected ==>
                currState == Disconnected && retrying && tries == 0 && effects == old(effects)
      ensures old(currState) != newState && newState == Connected ==>
                currState == Connected && !retrying &&
                effects == old(effects) + RejoinEffects(activeChannels)
    {
      if currState == newState || newState == Connecting {
        return;
      }
      currState := newState;
      if newState == Disconnected {
        retrying := true;
        tries := 0;
        jobStart := |effects|;
        assert effects[jobStart..] == [];
      } else {
        retrying := false;
        RejoinChannels();
      }
    }

    /** rejoinChannels: one join per listed channel, in list order. */
    method RejoinChannels()
      modifies this
      ensures effects == old(effects) + RejoinEffects(activeChannels)
      ensures activeChannels == old(activeChannels) && currState == old(currState)
      ensures retrying == old(retrying) && tries == old(tries) && jobStart == old(jobStart)
    {
      var i := 0;
      while i < |activeChannels|
        invariant 0 <= i <= |activeChannels|
        invariant effects == old(effects) + RejoinEffects(activeChannels[..i])
        invariant activeChannels == old(activeChannels) && currState == old(currState)
        invariant retrying == old(retrying) && tries == old(tries) && jobStart == old(jobStart)
      {
        assert RejoinEffects(activeChannels[..i + 1]) ==
               RejoinEffects(activeChannels[..i]) + [SendLine(JoinLine(activeChannels[i]))];
        effects := effects + [SendLine(JoinLine(activeChannels[i]))];
        i := i + 1;
      }
      assert activeChannels[..i] == activeChannels;
    }

    /** One iteration of the retry job. With `attempts > 0` the job ends after that
        many iterations; otherwise it runs until cancelled. While it runs the client
        is not connected, so every iteration connects and then waits. */
    method RetryStep()
      requires Valid() && retrying
      modifies this
      ensures Valid()
      ensures attempts > 0 && old(tries) == attempts ==> !retrying && effects == old(effects)
      ensures !(attempts > 0 && old(tries) == attempts) ==>
                retrying && tries == old(tries) + 1 &&
                effects == old(effects) + [ConnectCall, Wait(interval)]
      ensures retrying && attempts > 0 ==> CountConnects(effects[jobStart..]) <= attempts
      ensures unchanged(this`activeChannels, this`currState, this`jobStart)
    {
      if attempts > 0 && tries == attempts {
        retrying := false;
        return;
      }
      ghost var before, n := effects, tries;
      effects := effects + [ConnectCall, Wait(interval)];
      tries := tries + 1;
      RetryGrows(before, jobStart, n, interval);
    }
  }

  // === the duplicate entry the list as written keeps ===

  /** As written: the client joins #c, the connection drops and comes back, the JOIN
      the server echoes for the rejoin lists #c a second time, and one PART removes
      only one entry, so the next reconnect joins #c again though the client left it. */
  lemma LeftChannelRejoinedAsWritten(c: string)
    ensures RemoveFirst(AddChannelAsWritten(AddChannelAsWritten([], c), c), c) == [c]
    ensures RejoinEffects(RemoveFirst(AddChannelAsWritten(AddChannelAsWritten([], c), c), c)) ==
              [SendLine(JoinLine(c))]
  {
    var twice := AddChannelAsWritten(AddChannelAsWritten([], c), c);
    assert twice == [c, c];
    assert RemoveFirst(twice, c) == twice[1..];
  }

  /** With the list kept free of duplicates, the same events leave #c out of the list,
      whatever was listed before. */
  lemma LeftChannelNotRejoined(channels: seq<string>, c: string)
    requires Distinct(channels)
    ensures c !in RemoveFirst(AddChannel(AddChannel(channels, c), c), c)
  {
    RemoveDistinct(AddChannel(AddChannel(channels, c), c), c);
  }
}
