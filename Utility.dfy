/** Helpers over channel names, message prefixes and the structured tag values
    Twitch sends: badge sets "name/version,..." and emote ranges
    "id:from-to,from-to/id:...". */
module Utility {
  import opened Wrappers
  import opened Strings
  import opened Numbers
  import opened Collections
  import opened MessageParsing

  // === Channel names ===

  /** asChannelName: a channel name always starts with '#'. */
  function AsChannelName(s: string): (r: string)
    ensures StartsWith(r, "#")
    ensures r == s || r == "#" + s
  {
    if StartsWith(s, "#") then s else "#" + s
  }

  /** channelAsUsername: drop one leading '#'. */
  function ChannelAsUsername(s: string): (r: string)
    ensures StartsWith(s, "#") ==> "#" + r == s
    ensures !StartsWith(s, "#") ==> r == s
  {
    if StartsWith(s, "#") then s[1..] else s
  }

  /** '#' is prepended exactly when it is missing, so normalising twice is normalising once. */
  lemma AsChannelNameIdempotent(s: string)
    ensures AsChannelName(AsChannelName(s)) == AsChannelName(s)
    ensures AsChannelName(s) == s <==> StartsWith(s, "#")
  {
    if !StartsWith(s, "#") {
      assert |AsChannelName(s)| == |s| + 1;
    }
  }

  /** A username with no leading '#' survives the trip to a channel name and back;
      a channel name with exactly one leading '#' survives the opposite trip. */
  lemma ChannelUsernameRoundTrip(s: string)
    ensures !StartsWith(s, "#") ==> ChannelAsUsername(AsChannelName(s)) == s
    ensures StartsWith(s, "#") && !StartsWith(s[1..], "#") ==> AsChannelName(ChannelAsUsername(s)) == s
  {
    if !StartsWith(s, "#") {
      assert ("#" + s)[..1] == "#";
      assert ("#" + s)[1..] == s;
    }
  }

  // === Author ===

  /** author: the prefix up to its first '!' or '.', or all of it. */
  function Author(m: RawMessage): (r: string)
    ensures StartsWith(m.prefix, r)
    ensures forall k :: 0 <= k < |r| ==> r[k] != '!' && r[k] != '.'
    ensures |r| < |m.prefix| ==> m.prefix[|r|] == '!' || m.prefix[|r|] == '.'
  {
    var i := IndexOfAny(m.prefix, {'!', '.'});
    if i == -1 then m.prefix else m.prefix[..i]
  }

  // === Command assertion ===

  /** assertCommand: fails with WrongMessageType exactly when the command differs. */
  function AssertCommand(m: RawMessage, command: Option<string>): (r: Outcome)
    ensures r.Pass? <==> m.commandName == command
    ensures r.Fail? ==> r.error == WrongMessageType(command, m.commandName)
  {
    if m.commandName != command then Fail(WrongMessageType(command, m.commandName)) else Pass
  }

  // === Badge pair sets ===

  /** The items of `s` split on `sep` that split on `inner` into exactly two parts,
      as (first, second) pairs in input order. */
  function TwoPartItems(items: seq<string>, inner: char): (r: seq<(string, string)>)
    ensures |r| <= |items|
    decreases |items|
  {
    if |items| == 0 then []
    else
      var parts := Split(items[0], inner);
      var rest := TwoPartItems(items[1..], inner);
      if |parts| == 2 then [(parts[0], parts[1])] + rest else rest
  }

  /** Whether a string is a decimal that fits in a Kotlin Int. */
  predicate IsInt(s: string) {
    ToIntOrNull(s).Some?
  }

  /** The second component of every pair through toInt, in order; the first
      value that is not an Int throws and stops the conversion. */
  function IntValues(ps: seq<(string, string)>): (r: Result<seq<(string, int)>>)
    ensures r.Ok? <==> forall k :: 0 <= k < |ps| ==> IsInt(ps[k].1)
    ensures r.Ok? ==> (|r.value| == |ps| &&
                       forall k :: 0 <= k < |ps| ==> r.value[k] == (ps[k].0, ToIntOrNull(ps[k].1).value))
    ensures r.Err? ==> exists k :: 0 <= k < |ps| && !IsInt(ps[k].1) && r.error == NumberFormat(ps[k].1)
                                   && forall j :: 0 <= j < k ==> IsInt(ps[j].1)
    decreases |ps|
  {
    if |ps| == 0 then Ok([])
    else
      match ToInt(ps[0].1)
      case Err(e) => Err(e)
      case Ok(v) =>
        match IntValues(ps[1..])
        case Err(e) =>
          ghost var k :| 0 <= k < |ps[1..]| && !IsInt(ps[1..][k].1) && e == NumberFormat(ps[1..][k].1)
                         && forall j :: 0 <= j < k ==> IsInt(ps[1..][j].1);
          assert !IsInt(ps[k + 1].1) && forall j :: 0 <= j < k + 1 ==> IsInt(ps[j].1);
          Err(e)
        case Ok(rest) =>
          Ok([(ps[0].0, v)] + rest)
  }

  /** parseTwitchPairSet: "subscriber/12,premium/1" as a map from badge to version. */
  function ParseTwitchPairSet(s: string): Result<map<string, int>> {
    match IntValues(TwoPartItems(Split(s, ','), '/'))
    case Ok(ps) => Ok(ToMap(ps))
    case Err(e) => Err(e)
  }

  /** The badge items of a pair set: those that split on '/' into exactly two parts. */
  function PairSetItems(s: string): seq<(string, string)> {
    TwoPartItems(Split(s, ','), '/')
  }

  /** A pair set parses exactly when every two-part item has an Int value. */
  lemma PairSetSucceeds(s: string)
    ensures ParseTwitchPairSet(s).Ok? <==> forall k :: 0 <= k < |PairSetItems(s)| ==> IsInt(PairSetItems(s)[k].1)
  {
    assert ParseTwitchPairSet(s).Ok? <==> IntValues(PairSetItems(s)).Ok?;
  }

  /** The keys of a parsed pair set are exactly the first parts of its items, each
      mapped to the value of its last item. */
  lemma PairSetLookup(s: string, key: string)
    requires ParseTwitchPairSet(s).Ok?
    ensures key in ParseTwitchPairSet(s).value <==>
              exists k :: 0 <= k < |PairSetItems(s)| && PairSetItems(s)[k].0 == key
    ensures key in ParseTwitchPairSet(s).value ==>
              var i := LastIndexOfKey(PairSetItems(s), key);
              i >= 0 && IsInt(PairSetItems(s)[i].1) &&
              ParseTwitchPairSet(s).value[key] == ToIntOrNull(PairSetItems(s)[i].1).value
  {
    var items := PairSetItems(s);
    var ps := IntValues(items).value;
    ToMapLastWins(ps, key);
    SameKeys(items, ps, key);
    if key in ToMap(ps) {
      var i := LastIndexOfKey(items, key);
      assert ps[i] == (items[i].0, ToIntOrNull(items[i].1).value);
    }
  }

  /** Two pair lists with the same keys position by position have the same last index for every key. */
  lemma {:induction false} SameKeys<V, W>(a: seq<(string, V)>, b: seq<(string, W)>, key: string)
    requires |a| == |b| && forall k :: 0 <= k < |a| ==> a[k].0 == b[k].0
    ensures LastIndexOfKey(a, key) == LastIndexOfKey(b, key)
    ensures (exists k :: 0 <= k < |a| && a[k].0 == key) <==> LastIndexOfKey(b, key) >= 0
    decreases |a|
  {
    if |a| > 0 {
      SameKeys(a[..|a| - 1], b[..|b| - 1], key);
      if LastIndexOfKey(b, key) < 0 {
        forall k | 0 <= k < |a| ensures a[k].0 != key {
          if k < |a| - 1 {
            assert a[..|a| - 1][k] == a[k];
          }
        }
      }
    }
  }

  // === Emotes ===

  datatype Emote = Emote(id: int, positions: seq<(int, int)>)

  /** One "from-to" range: both ends through toInt; a range without '-' indexes past
      the end of its parts. */
  function ParseRange(r: string): (res: Result<(int, int)>)
    ensures res.Ok? <==> var p := Split(r, '-'); |p| >= 2 && IsInt(p[0]) && IsInt(p[1])
    ensures res.Ok? ==> var p := Split(r, '-');
              res.value == (ToIntOrNull(p[0]).value, ToIntOrNull(p[1]).value)
    ensures ToIntOrNull(Split(r, '-')[0]).Some? && '-' !in r ==> res == Err(IndexOutOfBounds)
  {
    var p := Split(r, '-');
    match ToInt(p[0])
    case Err(e) => Err(e)
    case Ok(from) =>
      if |p| < 2 then Err(IndexOutOfBounds)
      else
        match ToInt(p[1])
        case Err(e) => Err(e)
        case Ok(to) => Ok((from, to))
  }

  /** The ranges in order; the first one that fails stops the list. */
  function ParseRanges(rs: seq<string>): (res: Result<seq<(int, int)>>)
    ensures res.Ok? <==> forall k :: 0 <= k < |rs| ==> ParseRange(rs[k]).Ok?
    ensures res.Ok? ==> (|res.value| == |rs| &&
                         forall k :: 0 <= k < |rs| ==> res.value[k] == ParseRange(rs[k]).value)
    decreases |rs|
  {
    if |rs| == 0 then Ok([])
    else
      match ParseRange(rs[0])
      case Err(e) => Err(e)
      case Ok(p) =>
        match ParseRanges(rs[1..])
        case Err(e) => Err(e)
        case Ok(rest) => Ok([p] + rest)
  }

  /** One emote from its "id" and "from-to,..." parts: the id is read first. */
  function ParseEmote(item: (string, string)): (res: Result<Emote>)
    ensures res.Ok? <==> IsInt(item.0) && ParseRanges(Split(item.1, ',')).Ok?
    ensures res.Ok? ==> res.value == Emote(ToIntOrNull(item.0).value, ParseRanges(Split(item.1, ',')).value)
  {
    match ToInt(item.0)
    case Err(e) => Err(e)
    case Ok(id) =>
      match ParseRanges(Split(item.1, ','))
      case Err(e) => Err(e)
      case Ok(ps) => Ok(Emote(id, ps))
  }

  function ParseEmoteItems(items: seq<(string, string)>): (res: Result<seq<Emote>>)
    ensures res.Ok? <==> forall k :: 0 <= k < |items| ==> ParseEmote(items[k]).Ok?
    ensures res.Ok? ==> (|res.value| == |items| &&
                         forall k :: 0 <= k < |items| ==> res.value[k] == ParseEmote(items[k]).value)
    decreases |items|
  {
    if |items| == 0 then Ok([])
    else
      match ParseEmote(items[0])
      case Err(e) => Err(e)
      case Ok(em) =>
        match ParseEmoteItems(items[1..])
        case Err(e) => Err(e)
        case Ok(rest) => Ok([em] + rest)
  }

  /** parseTwitchEmotes: "25:0-4,12-16/1902:6-10" as emotes in input order; items
      that do not split on ':' into exactly two parts are skipped. */
  function ParseTwitchEmotes(s: string): Result<seq<Emote>> {
    ParseEmoteItems(TwoPartItems(Split(s, '/'), ':'))
  }

  /** There is one emote per two-part item, in the same order, with the id and
      ranges read from that item. */
  lemma EmotesInOrder(s: string)
    ensures var items := TwoPartItems(Split(s, '/'), ':');
            ParseTwitchEmotes(s).Ok? ==>
              |ParseTwitchEmotes(s).value| == |items| &&
              forall k :: 0 <= k < |items| ==>
                ParseTwitchEmotes(s).value[k].id == ToIntOrNull(items[k].0).value &&
                |ParseTwitchEmotes(s).value[k].positions| == |Split(items[k].1, ',')|
  {
    var items := TwoPartItems(Split(s, '/'), ':');
    if ParseTwitchEmotes(s).Ok? {
      forall k | 0 <= k < |items|
        ensures ParseTwitchEmotes(s).value[k].id == ToIntOrNull(items[k].0).value
        ensures |ParseTwitchEmotes(s).value[k].positions| == |Split(items[k].1, ',')|
      {
        assert ParseEmote(items[k]).Ok?;
      }
    }
  }

  /** An empty emotes tag holds no emotes, and so does an empty badge set. */
  lemma EmptyTagValues()
    ensures ParseTwitchEmotes("") == Ok([])
    ensures ParseTwitchPairSet("") == Ok(map[])
  {
    assert Split("", '/') == [""];
    assert Split("", ':') == [""];
    assert Split("", ',') == [""];
    assert Split("", '/') == [""];
  }
}
