/** Container: the scope that owns a pipeline of plugins. Plugins are kept in the
    order they were added (the map is insertion-ordered) and have distinct names.
    An outgoing line is offered to every outgoing filter in that order until one
    refuses it; an accepted line is rewritten by every plugin in order and then
    forwarded once. Incoming messages are kept when every plugin keeps them and
    are then rewritten in order. Every connection state is handed to each plugin. */
module Containers {
  import opened Wrappers
  import opened Collections
  import opened TwitchIrc
  import opened TwitchMessages
  import opened Plugins

  // === the outgoing pipeline ===

  /** `plugins.values.all { it.filterOutgoing(message) }`, given each plugin's lastSent:
      the verdict, and every lastSent afterwards. `all` stops at the first refusal, so
      the filters after it are never called. */
  function FilterPass(ps: seq<Plugin>, sent: seq<int>, message: string, now: int): (r: (bool, seq<int>))
    requires |sent| == |ps|
    ensures |r.1| == |ps|
  {
    if |ps| == 0 then (true, [])
    else
      var (ok, s) := FilterOutgoing(ps[0], sent[0], message, now);
      if !ok then (false, [s] + sent[1..])
      else
        var (rest, sent') := FilterPass(ps[1..], sent[1..], message, now);
        (rest, [s] + sent')
  }

  /** The position of the first plugin whose filter refuses the line, |ps| if none does. */
  function FirstRefusal(ps: seq<Plugin>, sent: seq<int>, message: string, now: int): (k: nat)
    requires |sent| == |ps|
    ensures k <= |ps|
    ensures forall j :: 0 <= j < k ==> FilterOutgoing(ps[j], sent[j], message, now).0
    ensures k < |ps| ==> !FilterOutgoing(ps[k], sent[k], message, now).0
  {
    if |ps| == 0 then 0
    else if !FilterOutgoing(ps[0], sent[0], message, now).0 then 0
    else 1 + FirstRefusal(ps[1..], sent[1..], message, now)
  }

  /** A line goes out exactly when every filter accepts it; the filters up to and
      including the first refusal are called (and may move their lastSent), the ones
      after it are not called and keep theirs. */
  lemma FilterPassCalls(ps: seq<Plugin>, sent: seq<int>, message: string, now: int)
    requires |sent| == |ps|
    ensures FilterPass(ps, sent, message, now).0 <==>
              forall j :: 0 <= j < |ps| ==> FilterOutgoing(ps[j], sent[j], message, now).0
    ensures forall j :: 0 <= j < |ps| ==>
              FilterPass(ps, sent, message, now).1[j] ==
              if j <= FirstRefusal(ps, sent, message, now) then FilterOutgoing(ps[j], sent[j], message, now).1
              else sent[j]
  {
    FilterPassVerdict(ps, sent, message, now);
    FilterPassStates(ps, sent, message, now);
  }

  lemma {:induction false} FilterPassVerdict(ps: seq<Plugin>, sent: seq<int>, message: string, now: int)
    requires |sent| == |ps|
    ensures FilterPass(ps, sent, message, now).0 <==>
              forall j :: 0 <= j < |ps| ==> FilterOutgoing(ps[j], sent[j], message, now).0
    decreases |ps|
  {
    if |ps| > 0 {
      FilterPassVerdict(ps[1..], sent[1..], message, now);
      if FilterOutgoing(ps[0], sent[0], message, now).0 && !FilterPass(ps, sent, message, now).0 {
        var j :| 0 <= j < |ps[1..]| && !FilterOutgoing(ps[1..][j], sent[1..][j], message, now).0;
        assert ps[j + 1] == ps[1..][j] && sent[j + 1] == sent[1..][j];
      }
      if FilterPass(ps, sent, message, now).0 {
        forall j | 1 <= j < |ps|
          ensures FilterOutgoing(ps[j], sent[j], message, now).0
        {
          assert ps[1..][j - 1] == ps[j] && sent[1..][j - 1] == sent[j];
        }
      }
    }
  }

  lemma {:induction false} FilterPassStates(ps: seq<Plugin>, sent: seq<int>, message: string, now: int)
    requires |sent| == |ps|
    ensures forall j :: 0 <= j < |ps| ==>
              FilterPass(ps, sent, message, now).1[j] ==
              if j <= FirstRefusal(ps, sent, message, now) then FilterOutgoing(ps[j], sent[j], message, now).1
              else sent[j]
    decreases |ps|
  {
    if |ps| > 0 {
      FilterPassStates(ps[1..], sent[1..], message, now);
      var r := FilterPass(ps, sent, message, now);
      var k := FirstRefusal(ps, sent, message, now);
      if FilterOutgoing(ps[0], sent[0], message, now).0 {
        forall j | 1 <= j < |ps|
          ensures r.1[j] == if j <= k then FilterOutgoing(ps[j], sent[j], message, now).1 else sent[j]
        {
          assert ps[1..][j - 1] == ps[j] && sent[1..][j - 1] == sent[j];
        }
      }
    }
  }

  /** Running the filters one by one until one refuses gives FilterPass: `n` filters
      were called, the last of them refused exactly when `ok` is false, and only
      the called filters moved their lastSent. */
  lemma FilterPassAfter(ps: seq<Plugin>, sent: seq<int>, message: string, now: int,
                        after: seq<int>, n: nat, ok: bool)
    requires |sent| == |ps| == |after| && n <= |ps|
    requires ok ==> n == |ps|
    requires !ok ==> 0 < n && !FilterOutgoing(ps[n - 1], sent[n - 1], message, now).0
    requires n > 0 && ok ==> FilterOutgoing(ps[n - 1], sent[n - 1], message, now).0
    requires forall j :: 0 <= j < n - 1 ==> FilterOutgoing(ps[j], sent[j], message, now).0
    requires forall j :: 0 <= j < n ==> after[j] == FilterOutgoing(ps[j], sent[j], message, now).1
    requires forall j :: n <= j < |ps| ==> after[j] == sent[j]
    ensures FilterPass(ps, sent, message, now) == (ok, after)
  {
    FilterPassCalls(ps, sent, message, now);
    var k := FirstRefusal(ps, sent, message, now);
    var r := FilterPass(ps, sent, message, now);
    if ok {
      assert k == |ps|;
    } else {
      assert k == n - 1;
    }
    assert r.1 == after;
  }

  /** The rewriting loop of sendRaw: every mapOutgoing in order. */
  function MapOutgoing(ps: seq<Plugin>, message: string): string {
    if |ps| == 0 then message else MapOutgoing(ps[1..], ps[0].mapOutgoing(message))
  }

  // === the incoming pipeline ===

  /** `plugins.values.all { it.filterIncoming(message) }` */
  predicate KeepIncoming(ps: seq<Plugin>, m: TwitchMessage) {
    forall j :: 0 <= j < |ps| ==> ps[j].filterIncoming(m)
  }

  /** The rewriting loop of getTwitchFlow: every mapIncoming in order. */
  function MapIncoming(ps: seq<Plugin>, m: TwitchMessage): TwitchMessage {
    if |ps| == 0 then m else MapIncoming(ps[1..], ps[0].mapIncoming(m))
  }

  /** getTwitchFlow over the messages of the parent's flow: the messages every plugin
      keeps, each rewritten by every plugin in order. */
  function TwitchFlow(ps: seq<Plugin>, ms: seq<TwitchMessage>): (r: seq<TwitchMessage>)
    ensures |r| <= |ms|
  {
    MapAll(ps, Filter(ms, (m: TwitchMessage) => KeepIncoming(ps, m)))
  }

  /** `map { ... }` over kept messages: each rewritten by every plugin, in order. */
  function MapAll(ps: seq<Plugin>, kept: seq<TwitchMessage>): (r: seq<TwitchMessage>)
    ensures |r| == |kept|
    ensures forall k :: 0 <= k < |kept| ==> r[k] == MapIncoming(ps, kept[k])
  {
    seq(|kept|, k requires 0 <= k < |kept| => MapIncoming(ps, kept[k]))
  }

  lemma MapAllAppend(ps: seq<Plugin>, a: seq<TwitchMessage>, b: seq<TwitchMessage>)
    ensures MapAll(ps, a + b) == MapAll(ps, a) + MapAll(ps, b)
  {
    var whole, split := MapAll(ps, a + b), MapAll(ps, a) + MapAll(ps, b);
    forall k | 0 <= k < |whole|
      ensures whole[k] == split[k]
    {
      if k < |a| {
        assert (a + b)[k] == a[k];
      } else {
        assert (a + b)[k] == b[k - |a|];
      }
    }
  }

  /** A message reaches the container's flow rewritten exactly when every plugin keeps
      it, and the flow of two stretches is the two flows joined, in order. */
  lemma TwitchFlowKeeps(ps: seq<Plugin>, ms: seq<TwitchMessage>, more: seq<TwitchMessage>, m: TwitchMessage)
    ensures m in ms && KeepIncoming(ps, m) ==> MapIncoming(ps, m) in TwitchFlow(ps, ms)
    ensures (forall x :: x in ms ==> !KeepIncoming(ps, x)) ==> TwitchFlow(ps, ms) == []
    ensures TwitchFlow(ps, ms + more) == TwitchFlow(ps, ms) + TwitchFlow(ps, more)
  {
    TwitchFlowHas(ps, ms, m);
    TwitchFlowNone(ps, ms);
    TwitchFlowAppend(ps, ms, more);
  }

  lemma TwitchFlowHas(ps: seq<Plugin>, ms: seq<TwitchMessage>, m: TwitchMessage)
    ensures m in ms && KeepIncoming(ps, m) ==> MapIncoming(ps, m) in TwitchFlow(ps, ms)
  {
    var keep := (x: TwitchMessage) => KeepIncoming(ps, x);
    FilterMembers(ms, keep, m);
    var kept := Filter(ms, keep);
    if m in kept {
      var k :| 0 <= k < |kept| && kept[k] == m;
      assert TwitchFlow(ps, ms)[k] == MapIncoming(ps, m);
    }
  }

  lemma TwitchFlowNone(ps: seq<Plugin>, ms: seq<TwitchMessage>)
    ensures (forall x :: x in ms ==> !KeepIncoming(ps, x)) ==> TwitchFlow(ps, ms) == []
  {
    var keep := (x: TwitchMessage) => KeepIncoming(ps, x);
    var kept := Filter(ms, keep);
    if |kept| > 0 {
      FilterMembers(ms, keep, kept[0]);
    }
  }

  lemma TwitchFlowAppend(ps: seq<Plugin>, ms: seq<TwitchMessage>, more: seq<TwitchMessage>)
    ensures TwitchFlow(ps, ms + more) == TwitchFlow(ps, ms) + TwitchFlow(ps, more)
  {
    var keep := (x: TwitchMessage) => KeepIncoming(ps, x);
    FilterAppend(ms, more, keep);
    MapAllAppend(ps, Filter(ms, keep), Filter(more, keep));
  }

  /** Every plugin in `ps` overrides nothing but its name. */
  ghost predicate AllBasic(ps: seq<Plugin>) {
    forall j :: 0 <= j < |ps| ==> IsBasic(ps[j])
  }

  lemma {:induction false} BasicOutgoing(ps: seq<Plugin>, sent: seq<int>, message: string, now: int)
    requires AllBasic(ps) && |sent| == |ps|
    ensures FilterPass(ps, sent, message, now) == (true, sent)
    ensures MapOutgoing(ps, message) == message
    decreases |ps|
  {
    if |ps| > 0 {
      assert AllBasic(ps[1..]) by {
        forall j | 0 <= j < |ps[1..]| ensures IsBasic(ps[1..][j]) {
          assert ps[1..][j] == ps[j + 1];
        }
      }
      BasicOutgoing(ps[1..], sent[1..], message, now);
      assert IsBasic(ps[0]);
      assert ps[0].mapOutgoing(message) == message;
      assert sent == [sent[0]] + sent[1..];
    }
  }

  lemma {:induction false} BasicMapIncoming(ps: seq<Plugin>, m: TwitchMessage)
    requires AllBasic(ps)
    ensures MapIncoming(ps, m) == m
    decreases |ps|
  {
    if |ps| > 0 {
      assert IsBasic(ps[0]);
      assert ps[0].mapIncoming(m) == m;
      assert AllBasic(ps[1..]) by {
        forall j | 0 <= j < |ps[1..]| ensures IsBasic(ps[1..][j]) {
          assert ps[1..][j] == ps[j + 1];
        }
      }
      BasicMapIncoming(ps[1..], m);
    }
  }

  /** Plugins that override nothing are invisible: every line goes out unchanged and
      the incoming flow is the parent's. */
  lemma BasicPluginsTransparent(ps: seq<Plugin>, sent: seq<int>, ms: seq<TwitchMessage>, message: string, now: int)
    requires AllBasic(ps) && |sent| == |ps|
    ensures FilterPass(ps, sent, message, now) == (true, sent)
    ensures MapOutgoing(ps, message) == message
    ensures TwitchFlow(ps, ms) == ms
  {
    BasicOutgoing(ps, sent, message, now);
    var keep := (x: TwitchMessage) => KeepIncoming(ps, x);
    assert forall x :: keep(x) by {
      forall x ensures keep(x) {
        forall j | 0 <= j < |ps| ensures ps[j].filterIncoming(x) {
          assert IsBasic(ps[j]);
        }
      }
    }
    FilterAll(ms, keep);
    forall k | 0 <= k < |ms| ensures TwitchFlow(ps, ms)[k] == ms[k] {
      BasicMapIncoming(ps, ms[k]);
    }
  }

  // === plugin names ===

  function Names(ps: seq<Plugin>): (r: seq<string>)
    ensures |r| == |ps| && forall k :: 0 <= k < |ps| ==> r[k] == ps[k].name
  {
    seq(|ps|, k requires 0 <= k < |ps| => ps[k].name)
  }

  predicate UniqueNames(ps: seq<Plugin>) {
    forall i, j :: 0 <= i < j < |ps| ==> ps[i].name != ps[j].name
  }

  /** One onConnectionStateChange call. */
  datatype StateCall = StateCall(plugin: string, state: IrcState)

  /** One state handed to each plugin, in the plugins' order. */
  function StateRound(ps: seq<Plugin>, state: IrcState): (r: seq<StateCall>)
    ensures |r| == |ps|
    ensures forall k :: 0 <= k < |ps| ==> r[k] == StateCall(ps[k].name, state)
  {
    if |ps| == 0 then [] else StateRound(ps[..|ps| - 1], state) + [StateCall(ps[|ps| - 1].name, state)]
  }

  /** Where the container's state provider comes from. */
  datatype Provider = GivenClient | Ancestor(depth: nat)

  /** The provider lookup of the container's init block: the given client if there is
      one, otherwise the nearest ancestor scope that provides state (isProvider[0] is
      the parent), otherwise NoTmiStateHandlerException. */
  method ResolveProvider(hasClient: bool, isProvider: seq<bool>) returns (r: Result<Provider>)
    ensures hasClient ==> r == Ok(GivenClient)
    ensures !hasClient ==> (r.Ok? <==> exists k :: 0 <= k < |isProvider| && isProvider[k])
    ensures !hasClient && r.Ok? ==>
              && r.value.Ancestor? && r.value.depth < |isProvider| && isProvider[r.value.depth]
              && forall k :: 0 <= k < r.value.depth ==> !isProvider[k]
    ensures r.Err? ==> r.error == NoTmiStateHandler
  {
    if hasClient {
      return Ok(GivenClient);
    }
    var current := 0;
    while current < |isProvider| && !isProvider[current]
      invariant 0 <= current <= |isProvider|
      invariant forall k :: 0 <= k < current ==> !isProvider[k]
    {
      current := current + 1;
    }
    if current == |isProvider| {
      return Err(NoTmiStateHandler);
    }
    r := Ok(Ancestor(current));
  }

  class Container {
    const provider: Provider
    /** The plugin map, in insertion order. */
    var plugins: seq<Plugin>
    /** The lastSent each plugin's outgoing filter keeps, in the same order (0 from
        registration; only a throttle ever moves it). */
    var lastSent: seq<int>
    /** Every line forwarded to the parent's sendRaw, in order. */
    var sent: seq<string>
    /** Every onConnectionStateChange call, in order. */
    var stateCalls: seq<StateCall>

    predicate Valid()
      reads this
    {
      UniqueNames(plugins) && |lastSent| == |plugins|
    }

    constructor (provider: Provider)
      ensures Valid() && this.provider == provider
      ensures plugins == [] && lastSent == [] && sent == [] && stateCalls == []
    {
      this.provider := provider;
      plugins := [];
      lastSent := [];
      sent := [];
      stateCalls := [];
    }

    /** `+plugin`: PluginAlreadyExistsException when the name is taken, the map left as
        it was; otherwise the plugin is added last. */
    method Register(p: Plugin) returns (outcome: Outcome)
      requires Valid()
      modifies this
      ensures Valid()
      ensures outcome.Fail? <==> p.name in Names(old(plugins))
      ensures outcome.Fail? ==> outcome.error == PluginAlreadyExists(p.name)
      ensures outcome.Fail? ==> Names(plugins) == Names(old(plugins)) && lastSent == old(lastSent)
      ensures outcome.Pass? ==> Names(plugins) == Names(old(plugins)) + [p.name] && lastSent == old(lastSent) + [0]
      ensures |plugins| > 0 && outcome.Pass? ==> plugins[..|plugins| - 1] == old(plugins) && plugins[|plugins| - 1] == p
      ensures outcome.Fail? ==> plugins == old(plugins)
      ensures sent == old(sent) && stateCalls == old(stateCalls)
    {
      var i := 0;
      while i < |plugins|
        invariant 0 <= i <= |plugins|
        invariant forall k :: 0 <= k < i ==> plugins[k].name != p.name
      {
        if plugins[i].name == p.name {
          assert Names(plugins)[i] == p.name;
          return Fail(PluginAlreadyExists(p.name));
        }
        i := i + 1;
      }
      plugins := plugins + [p];
      lastSent := lastSent + [0];
      assert plugins[..|plugins| - 1] == old(plugins);
      assert Names(plugins) == Names(old(plugins)) + [p.name];
      outcome := Pass;
    }

    /** sendRaw: the filters in order, stopping at the first refusal; then, for an
        accepted line, the rewrites in order and one forward. */
    method SendRaw(message: string, now: int)
      requires Valid()
      modifies this
      ensures Valid()
      ensures plugins == old(plugins)
      ensures lastSent == FilterPass(plugins, old(lastSent), message, now).1
      ensures sent == old(sent) +
                (if FilterPass(plugins, old(lastSent), message, now).0 then [MapOutgoing(plugins, message)] else [])
      ensures stateCalls == old(stateCalls)
    {
      var accepted := RunFilters(message, now);
      if !accepted {
        return;
      }
      var finalMessage := MapOutgoingOf(message);
      sent := sent + [finalMessage];
    }

    /** `plugins.values.all { it.filterOutgoing(message) }` */
    method RunFilters(message: string, now: int) returns (accepted: bool)
      requires Valid()
      modifies this
      ensures plugins == old(plugins) && sent == old(sent) && stateCalls == old(stateCalls)
      ensures Valid()
      ensures (accepted, lastSent) == FilterPass(plugins, old(lastSent), message, now)
    {
      accepted := true;
      var i := 0;
      ghost var original := lastSent;
      while i < |plugins| && accepted
        invariant 0 <= i <= |plugins| == |lastSent| == |original|
        invariant forall j :: i <= j < |plugins| ==> lastSent[j] == original[j]
        invariant forall j :: 0 <= j < i ==> lastSent[j] == FilterOutgoing(plugins[j], original[j], message, now).1
        invariant forall j :: 0 <= j < i - 1 ==> FilterOutgoing(plugins[j], original[j], message, now).0
        invariant !accepted ==> i > 0
        invariant i > 0 ==> (accepted <==> FilterOutgoing(plugins[i - 1], original[i - 1], message, now).0)
        invariant plugins == old(plugins) && sent == old(sent) && stateCalls == old(stateCalls)
      {
        var (ok, s) := FilterOutgoing(plugins[i], lastSent[i], message, now);
        lastSent := lastSent[i := s];
        accepted := ok;
        i := i + 1;
      }
      FilterPassAfter(plugins, original, message, now, lastSent, i, accepted);
    }

    /** The rewriting loop of sendRaw: `finalMessage` through every mapOutgoing in order. */
    method MapOutgoingOf(message: string) returns (r: string)
      ensures r == MapOutgoing(plugins, message)
    {
      r := message;
      var j := 0;
      while j < |plugins|
        invariant 0 <= j <= |plugins|
        invariant MapOutgoing(plugins[j..], r) == MapOutgoing(plugins, message)
      {
        assert plugins[j..][1..] == plugins[j + 1..];
        r := plugins[j].mapOutgoing(r);
        j := j + 1;
      }
    }

    /** The `map` of getTwitchFlow for one kept message: every mapIncoming in order. */
    method MapIncomingOf(m: TwitchMessage) returns (r: TwitchMessage)
      ensures r == MapIncoming(plugins, m)
    {
      r := m;
      var j := 0;
      while j < |plugins|
        invariant 0 <= j <= |plugins|
        invariant MapIncoming(plugins[j..], r) == MapIncoming(plugins, m)
      {
        assert plugins[j..][1..] == plugins[j + 1..];
        r := plugins[j].mapIncoming(r);
        j := j + 1;
      }
    }

    /** The collector of connectionStatus: one onConnectionStateChange per plugin, in order. */
    method OnConnectionStatus(state: IrcState)
      modifies this
      ensures stateCalls == old(stateCalls) + StateRound(plugins, state)
      ensures plugins == old(plugins) && lastSent == old(lastSent) && sent == old(sent)
    {
      var i := 0;
      while i < |plugins|
        invariant 0 <= i <= |plugins|
        invariant stateCalls == old(stateCalls) + StateRound(plugins[..i], state)
        invariant plugins == old(plugins) && lastSent == old(lastSent) && sent == old(sent)
      {
        assert plugins[..i + 1][..i] == plugins[..i];
        stateCalls := stateCalls + [StateCall(plugins[i].name, state)];
        i := i + 1;
      }
      assert plugins[..i] == plugins;
    }
  }
}
