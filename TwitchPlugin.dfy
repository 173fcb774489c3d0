/** TwitchPlugin: a named stage of a container's pipeline. A plugin may drop or
    rewrite incoming typed messages and outgoing raw lines; every hook it does
    not override lets everything through unchanged. An outgoing filter may keep
    state between calls, as ThrottleOut does; that state is passed in and
    handed back by each call. */
module Plugins {
  import opened TwitchMessages
  import Throttle

  /** filterOutgoing: the default (accept every line), a fixed test, or ThrottleOut's
      clock rule. */
  datatype OutgoingFilter =
    | AcceptAll
    | Fixed(accept: string -> bool)
    | Throttled(interval: int)

  /** A plugin's name and hooks. The one piece of state a hook keeps between calls,
      ThrottleOut's lastSent, is held beside the plugin by its container. */
  datatype Plugin = Plugin(
    name: string,
    filterIncoming: TwitchMessage -> bool,
    mapIncoming: TwitchMessage -> TwitchMessage,
    mapOutgoing: string -> string,
    outgoing: OutgoingFilter)

  /** A plugin that overrides no hook. */
  ghost predicate IsBasic(p: Plugin) {
    && p.outgoing.AcceptAll?
    && (forall m :: p.filterIncoming(m) && p.mapIncoming(m) == m)
    && (forall s :: p.mapOutgoing(s) == s)
  }

  /** A plugin that overrides nothing but its name: it keeps every message and line,
      rewrites none, and its outgoing filter keeps no state. */
  function Basic(name: string): (p: Plugin)
    ensures p.name == name && IsBasic(p)
    ensures forall s, now, lastSent :: FilterOutgoing(p, lastSent, s, now) == (true, lastSent)
  {
    Plugin(name, m => true, m => m, s => s, AcceptAll)
  }

  /** One filterOutgoing call on the clock reading `now`, with the plugin's lastSent:
      the verdict, and lastSent afterwards. Only a throttle looks at the clock or
      moves lastSent. */
  function FilterOutgoing(p: Plugin, lastSent: int, message: string, now: int): (r: (bool, int))
    ensures !p.outgoing.Throttled? ==> r.1 == lastSent
    ensures p.outgoing.AcceptAll? ==> r.0
    ensures p.outgoing.Throttled? ==> r == Throttle.Step(p.outgoing.interval, lastSent, now)
  {
    match p.outgoing
    case AcceptAll => (true, lastSent)
    case Fixed(accept) => (accept(message), lastSent)
    case Throttled(interval) => Throttle.Step(interval, lastSent, now)
  }

  /** `ThrottleOut(interval)`: named "throttle_out", with the default hooks everywhere
      but its outgoing filter, so it never drops incoming messages and never rewrites
      a line. */
  function ThrottleOut(interval: int): (p: Plugin)
    ensures p.name == Throttle.ThrottleName
    ensures p.outgoing.Throttled? && p.outgoing.interval == interval
    ensures forall m :: p.filterIncoming(m) && p.mapIncoming(m) == m
    ensures forall s :: p.mapOutgoing(s) == s
  {
    Basic(Throttle.ThrottleName).(outgoing := Throttled(interval))
  }
}
