/** The wire-line parser: one trimmed IRC line becomes a RawMessage record
    (tags, prefix, command, channel, text). The parser assumes well-formed
    server input and indexes without guards, so two malformed shapes throw
    an index error, modelled as Err(IndexOutOfBounds). */
module MessageParsing {
  import opened Wrappers
  import opened Strings
  import opened Collections

  datatype RawMessage = RawMessage(
    raw: string,
    tags: map<string, string>,
    prefix: string,
    commandName: Option<string>,
    channel: Option<string>,
    text: Option<string>)

  /** Commands whose payload is never exposed as text: "353" is the NAMES reply. */
  const IgnoredCommands: seq<string> := ["353"]

  predicate IsIgnoredCommand(command: Option<string>) {
    command.Some? && command.value in IgnoredCommands
  }

  /** A half-open index range [lo, hi), Kotlin's `lo until hi`. */
  datatype Range = Range(lo: nat, hi: nat)

  /** divideAtFirst(c): the range before the first `c` (the whole string if
      there is none) and, only when `c` occurs, the range after it. */
  function DivideAtFirst(s: string, c: char): (r: (Range, Option<Range>))
    ensures r.0.lo == 0 && r.0.hi <= |s| && c !in s[..r.0.hi]
    ensures r.1.None? <==> c !in s
    ensures r.1.None? ==> r.0.hi == |s|
    ensures r.1.Some? ==> r.0.hi < |s| && s[r.0.hi] == c && r.1.value == Range(r.0.hi + 1, |s|)
  {
    var i := IndexOf(s, c);
    var end := if i == -1 then |s| else i;
    (Range(0, end), if end == |s| then None else Some(Range(end + 1, |s|)))
  }

  // === Tags ===

  /** The key and value of one `key=value` piece, when it splits on '=' into exactly two parts. */
  function TagPair(piece: string): Option<(string, string)> {
    var parts := Split(piece, '=');
    if |parts| == 2 then Some((parts[0], parts[1])) else None
  }

  /** One step of parseTagLine's forEach: store a well-formed piece, overwriting. */
  function PutTag(tags: map<string, string>, piece: string): map<string, string> {
    match TagPair(piece)
    case Some((k, v)) => tags[k := v]
    case None => tags
  }

  /** The map after storing `pieces` in order into `tags`. */
  function PutTags(tags: map<string, string>, pieces: seq<string>): map<string, string>
    decreases |pieces|
  {
    if |pieces| == 0 then tags else PutTag(PutTags(tags, pieces[..|pieces| - 1]), pieces[|pieces| - 1])
  }

  lemma PutTagParts(tags: map<string, string>, piece: string)
    ensures var parts := Split(piece, '=');
            PutTag(tags, piece) == if |parts| == 2 then tags[parts[0] := parts[1]] else tags
  {
    var parts := Split(piece, '=');
    assert TagPair(piece) == if |parts| == 2 then Some((parts[0], parts[1])) else None;
  }

  lemma PutTagsSnoc(tags: map<string, string>, pieces: seq<string>, i: nat)
    requires i < |pieces|
    ensures PutTags(tags, pieces[..i + 1]) == PutTag(PutTags(tags, pieces[..i]), pieces[i])
  {
    assert pieces[..i + 1][..i] == pieces[..i];
  }

  /** The tags of a tag segment "@k1=v1;k2=v2". */
  function ParseTags(segment: string): map<string, string>
    requires |segment| >= 1
  {
    PutTags(map[], Split(segment[1..], ';'))
  }

  /** The index of the last piece that defines `k`, or -1. */
  function LastPieceFor(pieces: seq<string>, k: string): (i: int)
    ensures -1 <= i < |pieces|
    ensures i >= 0 ==> TagPair(pieces[i]).Some? && TagPair(pieces[i]).value.0 == k
    ensures forall j :: i < j < |pieces| ==> !(TagPair(pieces[j]).Some? && TagPair(pieces[j]).value.0 == k)
    decreases |pieces|
  {
    if |pieces| == 0 then -1
    else
      var last := TagPair(pieces[|pieces| - 1]);
      if last.Some? && last.value.0 == k then |pieces| - 1
      else LastPieceFor(pieces[..|pieces| - 1], k)
  }

  /** Tag parsing keeps exactly the keys some well-formed piece defines, and a
      later piece for the same key overwrites an earlier one. */
  lemma {:induction false} PutTagsLastWins(pieces: seq<string>, k: string)
    ensures k in PutTags(map[], pieces) <==> LastPieceFor(pieces, k) >= 0
    ensures k in PutTags(map[], pieces) ==>
              PutTags(map[], pieces)[k] == TagPair(pieces[LastPieceFor(pieces, k)]).value.1
    decreases |pieces|
  {
    if |pieces| > 0 {
      PutTagsLastWins(pieces[..|pieces| - 1], k);
    }
  }

  // === The parser as a specification ===

  /** The metadata segment: the text before the first ':' (all of it if there is none). */
  function MetadataOf(rest: string): string {
    var i := IndexOf(rest, ':');
    if i == -1 then rest else rest[..i]
  }

  /** The raw payload after the first ':', absent when there is no ':'. */
  function PayloadOf(rest: string): Option<string> {
    var i := IndexOf(rest, ':');
    if i == -1 then None else Some(rest[i + 1..])
  }

  /** The text field: the trimmed payload when it is non-blank and the command is not ignored. */
  function TextOf(payload: Option<string>, command: Option<string>): Option<string> {
    if payload.Some? && !IsBlank(payload.value) && !IsIgnoredCommand(command)
    then Some(Trim(payload.value)) else None
  }

  /** The result of parsing the metadata and text that follow the tag segment.
      `remaining` still carries its leading ':' (which is dropped unchecked). */
  function ParseBody(raw: string, tags: map<string, string>, remaining: string): Result<RawMessage> {
    if |remaining| == 0 then Err(IndexOutOfBounds)       // substring(1) of ""
    else
      var data := Split(MetadataOf(remaining[1..]), ' ');
      if |data| < 2 then Err(IndexOutOfBounds)           // data[1]
      else
        var command := Some(data[1]);
        Ok(RawMessage(raw, tags, data[0], command, if |data| > 2 then Some(data[2]) else None,
                      TextOf(PayloadOf(remaining[1..]), command)))
  }

  lemma ParseBodyFields(raw: string, tags: map<string, string>, remaining: string)
    requires |remaining| > 0
    ensures var data := Split(MetadataOf(remaining[1..]), ' ');
            |data| >= 2 ==>
              ParseBody(raw, tags, remaining) ==
              Ok(RawMessage(raw, tags, data[0], Some(data[1]), if |data| > 2 then Some(data[2]) else None,
                            TextOf(PayloadOf(remaining[1..]), Some(data[1]))))
  {
  }

  /** parseMessage as a function of the received line. */
  function Parse(message: string): Result<RawMessage> {
    var raw := Trim(message);
    if StartsWith(raw, "@") then
      var i := IndexOf(raw, ' ');
      if i == -1 then Ok(RawMessage(raw, ParseTags(raw), "", None, None, None))
      else ParseBody(raw, ParseTags(raw[..i]), raw[i + 1..])
    else ParseBody(raw, map[], raw)
  }

  // === The parser as the library writes it: a builder filled in step by step ===

  class RawMessageBuilder {
    const raw: string
    var tags: map<string, string>
    var channel: Option<string>
    var prefix: string
    var command: Option<string>
    var text: Option<string>

    constructor (raw: string)
      ensures this.raw == raw && tags == map[] && channel == None && prefix == ""
      ensures command == None && text == None
    {
      this.raw := raw;
      tags := map[];
      channel := None;
      prefix := "";
      command := None;
      text := None;
    }

    function Build(): (m: RawMessage)
      reads this
      ensures m.raw == raw && m.tags == tags && m.prefix == prefix
      ensures m.commandName == command && m.channel == channel && m.text == text
    {
      RawMessage(raw, tags, prefix, command, channel, text)
    }

    /** parseTagLine: drop the '@', split on ';' and store every two-part piece. */
    method ParseTagLine(line: string)
      requires |line| >= 1
      modifies this
      ensures tags == PutTags(old(tags), Split(line[1..], ';'))
      ensures channel == old(channel) && prefix == old(prefix)
      ensures command == old(command) && text == old(text)
    {
      var pieces := Split(line[1..], ';');
      var i := 0;
      while i < |pieces|
        invariant 0 <= i <= |pieces|
        invariant tags == PutTags(old(tags), pieces[..i])
        invariant channel == old(channel) && prefix == old(prefix)
        invariant command == old(command) && text == old(text)
      {
        StorePiece(pieces[i]);
        PutTagsSnoc(old(tags), pieces, i);
        i := i + 1;
      }
      assert pieces[..i] == pieces;
    }

    /** The part of parseMessage after the tag segment: drop the leading ':',
        read the metadata before the next ':' and the text after it. */
    method ParseBodyInto(remaining: string) returns (outcome: Outcome)
      requires text == None
      modifies this
      ensures ParseBody(raw, old(tags), remaining) == if outcome.Pass? then Ok(Build()) else Err(outcome.error)
      ensures tags == old(tags)
    {
      if |remaining| == 0 {
        return Fail(IndexOutOfBounds);
      }
      var rest := remaining[1..];
      var (first, second) := DivideAtFirst(rest, ':');
      var line := rest[first.lo..first.hi];
      assert line == MetadataOf(rest);
      outcome := ParseMetadata(line);
      if outcome.Fail? {
        ParseBodyShort(raw, tags, remaining);
        return;
      }
      if second.Some? {
        var payload := rest[second.value.lo..];
        assert PayloadOf(rest) == Some(payload);
        ParseText(payload);
      }
      ParseBodyFromParts(raw, tags, remaining, Split(line, ' '), PayloadOf(rest));
    }

    /** The chat text: the trimmed payload, unless it is blank or the command is ignored. */
    method ParseText(payload: string)
      requires text == None
      modifies this
      ensures text == TextOf(Some(payload), command)
      ensures tags == old(tags) && channel == old(channel) && prefix == old(prefix) && command == old(command)
    {
      if !IsBlank(payload) && !IsIgnoredCommand(command) {
        text := Some(Trim(payload));
      }
    }

    /** One step of parseTagLine: split a piece on '=' and store it when it has two parts. */
    method StorePiece(piece: string)
      modifies this
      ensures tags == PutTag(old(tags), piece)
      ensures channel == old(channel) && prefix == old(prefix)
      ensures command == old(command) && text == old(text)
    {
      var parts := Split(piece, '=');
      PutTagParts(tags, piece);
      if |parts| == 2 {
        tags := tags[parts[0] := parts[1]];
      }
    }

    /** parseMetadata: prefix, command and optional channel from the words of `line`;
        fails after setting the prefix when there is no second word. */
    method ParseMetadata(line: string) returns (outcome: Outcome)
      modifies this
      ensures var data := Split(line, ' ');
              && prefix == data[0]
              && (outcome.Pass? <==> |data| >= 2)
              && (outcome.Fail? ==> outcome.error == IndexOutOfBounds)
              && (outcome.Pass? ==> command == Some(data[1]))
              && (outcome.Pass? ==> channel == if |data| > 2 then Some(data[2]) else None)
      ensures tags == old(tags) && text == old(text)
      ensures outcome.Fail? ==> command == old(command) && channel == old(channel)
    {
      var data := Split(line, ' ');
      prefix := data[0];
      if |data| < 2 {
        return Fail(IndexOutOfBounds);
      }
      command := Some(data[1]);
      channel := if |data| > 2 then Some(data[2]) else None;
      outcome := Pass;
    }
  }

  /** parseMessage: fills a builder for the trimmed line and builds it. */
  method ParseMessage(message: string) returns (r: Result<RawMessage>)
    ensures r == Parse(message)
  {
    var raw := Trim(message);
    var b := new RawMessageBuilder(raw);
    var remaining := raw;
    if StartsWith(raw, "@") {
      var (first, second) := DivideAtFirst(raw, ' ');
      ParseAtDivision(message);
      b.ParseTagLine(raw[first.lo..first.hi]);
      if second.None? {
        return Ok(b.Build());
      }
      remaining := raw[second.value.lo..];
    }
    var outcome := b.ParseBodyInto(remaining);
    r := if outcome.Pass? then Ok(b.Build()) else Err(outcome.error);
  }

  /** Parse in terms of the division of a tagged line at its first space. */
  lemma ParseAtDivision(message: string)
    requires StartsWith(Trim(message), "@")
    ensures var raw := Trim(message);
            var (first, second) := DivideAtFirst(raw, ' ');
            && first.lo == 0 && 1 <= first.hi
            && (second.None? ==> raw[first.lo..first.hi] == raw &&
                                 Parse(message) == Ok(RawMessage(raw, ParseTags(raw), "", None, None, None)))
            && (second.Some? ==> second.value.lo <= |raw| &&
                                 Parse(message) == ParseBody(raw, ParseTags(raw[first.lo..first.hi]), raw[second.value.lo..]))
  {
    var raw := Trim(message);
    var i := IndexOf(raw, ' ');
    var d := DivideAtFirst(raw, ' ');
    assert raw[0] == '@';
    if i == -1 {
      assert d.0 == Range(0, |raw|) && d.1 == None;
      assert raw[0..|raw|] == raw;
      assert Parse(message) == Ok(RawMessage(raw, ParseTags(raw), "", None, None, None));
    } else {
      assert i != 0;
      assert d.0 == Range(0, i) && d.1 == Some(Range(i + 1, |raw|));
      assert Parse(message) == ParseBody(raw, ParseTags(raw[..i]), raw[i + 1..]);
    }
  }

  // === Properties of the parser ===

  /** Parsing works on the trimmed line: surrounding whitespace makes no difference,
      and a parsed message records the trimmed line as its raw text. */
  lemma ParseTrims(message: string)
    ensures Parse(Trim(message)) == Parse(message)
    ensures Parse(message).Ok? ==> Parse(message).value.raw == Trim(message)
  {
    var t := Trim(message);
    assert Parse(t) == Parse(message) by {
      TrimIdempotent(message);
      assert Trim(t) == t;
    }
    if !(StartsWith(t, "@") && ' ' !in t) {
      ParseIsBody(message);
      BodyKeepsRaw(t, LeadingTags(t), t[BodyStart(t)..]);
    }
  }

  /** The body parser records the line and the tags it is given. */
  lemma BodyKeepsRaw(raw: string, tags: map<string, string>, remaining: string)
    ensures ParseBody(raw, tags, remaining).Ok? ==>
              ParseBody(raw, tags, remaining).value.raw == raw && ParseBody(raw, tags, remaining).value.tags == tags
  {
  }

  /** A blank line (nothing left after trimming) makes the parser index past the end. */
  lemma ParseBlankFails(message: string)
    requires IsBlank(message)
    ensures Parse(message) == Err(IndexOutOfBounds)
  {
    TrimBlank(message);
  }

  /** The body fails exactly when it is empty or its metadata has no second word,
      and the only failure is an index error. */
  lemma ParseBodyFails(raw: string, tags: map<string, string>, remaining: string)
    ensures ParseBody(raw, tags, remaining).Err? <==>
              |remaining| == 0 || ' ' !in MetadataOf(remaining[1..])
    ensures ParseBody(raw, tags, remaining).Err? ==>
              ParseBody(raw, tags, remaining).error == IndexOutOfBounds
  {
    if |remaining| > 0 {
      SplitSingle(MetadataOf(remaining[1..]), ' ');
    }
  }

  /** A line that begins with '@' and has no space is all tags: no prefix, command,
      channel or text. */
  lemma ParseTagsOnly(message: string)
    requires StartsWith(Trim(message), "@") && ' ' !in Trim(message)
    ensures Parse(message).Ok?
    ensures Parse(message).value.tags == ParseTags(Trim(message))
    ensures Parse(message).value.prefix == ""
    ensures Parse(message).value.commandName.None? && Parse(message).value.channel.None?
    ensures Parse(message).value.text.None?
  {
  }

  /** Every other successful parse has a command; a line without '@' has no tags. */
  lemma ParseShape(message: string)
    requires Parse(message).Ok?
    ensures Parse(message).value.commandName.None? <==>
              StartsWith(Trim(message), "@") && ' ' !in Trim(message)
    ensures !StartsWith(Trim(message), "@") ==> Parse(message).value.tags == map[]
  {
  }

  /** Prefix, command and channel are single words of the metadata, free of ':'. */
  lemma ParseWords(message: string)
    requires Parse(message).Ok?
    ensures var m := Parse(message).value;
            && ' ' !in m.prefix && ':' !in m.prefix
            && (m.commandName.Some? ==> ' ' !in m.commandName.value && ':' !in m.commandName.value)
            && (m.channel.Some? ==> ' ' !in m.channel.value && ':' !in m.channel.value)
  {
    var raw := Trim(message);
    if StartsWith(raw, "@") && ' ' !in raw {
      ParseTagsOnly(message);
    } else {
      ParseIsBody(message);
      BodyWords(raw, LeadingTags(raw), raw[BodyStart(raw)..]);
    }
  }

  /** The words ParseBody reads are words of a metadata segment free of ':'. */
  lemma BodyWords(raw: string, tags: map<string, string>, remaining: string)
    requires ParseBody(raw, tags, remaining).Ok?
    ensures var m := ParseBody(raw, tags, remaining).value;
            && ' ' !in m.prefix && ':' !in m.prefix
            && (m.commandName.Some? ==> ' ' !in m.commandName.value && ':' !in m.commandName.value)
            && (m.channel.Some? ==> ' ' !in m.channel.value && ':' !in m.channel.value)
  {
    var meta := MetadataOf(remaining[1..]);
    assert ':' !in meta;
    var data := Split(meta, ' ');
    JoinSplit(meta, ' ');
    WordsAvoid(data, ' ', ':');
    SplitPieces(meta, ' ');
  }

  /** A character absent from the join of `ps` is absent from every piece. */
  lemma {:induction false} WordsAvoid(ps: seq<string>, sep: char, c: char)
    requires c !in Join(ps, [sep])
    ensures forall k :: 0 <= k < |ps| ==> c !in ps[k]
  {
    if |ps| > 1 {
      assert Join(ps, [sep]) == ps[0] + [sep] + Join(ps[1..], [sep]);
      WordsAvoid(ps[1..], sep, c);
      forall k | 1 <= k < |ps| ensures c !in ps[k] {
        assert ps[k] == ps[1..][k - 1];
      }
    }
  }

  /** The text is the trimmed, non-blank payload, and never present for an ignored command. */
  lemma TextOfShape(payload: Option<string>, command: Option<string>)
    ensures var t := TextOf(payload, command);
            && (t.Some? ==> t.value != [] && Trim(t.value) == t.value && Contains(payload.value, t.value))
            && (IsIgnoredCommand(command) ==> t.None?)
  {
    if TextOf(payload, command).Some? {
      var p := payload.value;
      assert Trim(p) != [] by { TrimBlank(p); }
      assert Trim(Trim(p)) == Trim(p) by { TrimIdempotent(p); }
      TrimContained(p);
    }
  }

  /** The trimmed string occurs in the string. */
  lemma TrimContained(p: string)
    ensures Contains(p, Trim(p))
  {
    TrimIsCore(p);
    var i, j :| 0 <= i <= j <= |p| && Trim(p) == p[i..j];
    assert OccursAt(p, Trim(p), i);
  }

  /** What occurs in a suffix occurs in the whole string. */
  lemma ContainsInSuffix(s: string, off: nat, x: string)
    requires off <= |s| && Contains(s[off..], x)
    ensures Contains(s, x)
  {
    var i :| 0 <= i <= |s[off..]| - |x| && OccursAt(s[off..], x, i);
    assert s[off + i..off + i + |x|] == s[off..][i..i + |x|];
    assert OccursAt(s, x, off + i);
  }

  /** The text of a parsed body is a non-empty trimmed part of it. */
  lemma ParseBodyText(raw: string, tags: map<string, string>, remaining: string)
    requires ParseBody(raw, tags, remaining).Ok?
    ensures var m := ParseBody(raw, tags, remaining).value;
            && (m.text.Some? ==> m.text.value != [] && Trim(m.text.value) == m.text.value)
            && (IsIgnoredCommand(m.commandName) ==> m.text.None?)
            && (m.text.Some? ==> Contains(remaining, m.text.value))
  {
    var rest := remaining[1..];
    var data := Split(MetadataOf(rest), ' ');
    var t := TextOf(PayloadOf(rest), Some(data[1]));
    TextOfShape(PayloadOf(rest), Some(data[1]));
    if t.Some? {
      var i := IndexOf(rest, ':');
      assert remaining[i + 2..] == PayloadOf(rest).value;
      ContainsInSuffix(remaining, i + 2, t.value);
    }
  }

  /** Where the body starts in a trimmed line that is not all tags. */
  function BodyStart(raw: string): (n: nat)
    requires !(StartsWith(raw, "@") && ' ' !in raw)
    ensures n <= |raw|
  {
    if StartsWith(raw, "@") then IndexOf(raw, ' ') + 1 else 0
  }

  /** The tags of a trimmed line that is not all tags: those of the segment before
      the first space when it begins with '@', none otherwise. */
  function LeadingTags(raw: string): map<string, string>
    requires !(StartsWith(raw, "@") && ' ' !in raw)
  {
    if StartsWith(raw, "@") then ParseTags(raw[..IndexOf(raw, ' ')]) else map[]
  }

  /** A line that is not all tags parses as its body, after its leading tag segment. */
  lemma ParseIsBody(message: string)
    requires var raw := Trim(message); !(StartsWith(raw, "@") && ' ' !in raw)
    ensures var raw := Trim(message);
            Parse(message) == ParseBody(raw, LeadingTags(raw), raw[BodyStart(raw)..])
  {
  }

  /** The text of a parsed line is a non-empty trimmed part of the line, and an
      ignored command never carries text. */
  lemma ParseText(message: string)
    requires Parse(message).Ok?
    ensures var m := Parse(message).value;
            && (m.text.Some? ==> m.text.value != [] && Trim(m.text.value) == m.text.value)
            && (IsIgnoredCommand(m.commandName) ==> m.text.None?)
            && (m.text.Some? ==> Contains(m.raw, m.text.value))
  {
    var raw := Trim(message);
    if !(StartsWith(raw, "@") && ' ' !in raw) {
      ParseIsBody(message);
      var n := BodyStart(raw);
      ParseBodyText(raw, LeadingTags(raw), raw[n..]);
      var m := Parse(message).value;
      if m.text.Some? {
        ContainsInSuffix(raw, n, m.text.value);
      }
    }
  }

  // === Round trip with the IRC wire format ===

  /** The fields of a server line, before it is written on the wire. */
  datatype Line = Line(
    tags: seq<(string, string)>,
    prefix: string,
    command: string,
    channel: Option<string>,
    text: Option<string>)

  /** A prefix, command or channel: non-empty, no whitespace, no ':'. */
  predicate IsWord(w: string) {
    w != [] && forall i :: 0 <= i < |w| ==> !IsWhitespace(w[i]) && w[i] != ':'
  }

  /** A tag key or value: no ' ', ';' or '='. */
  predicate IsTagPart(p: string) {
    ' ' !in p && ';' !in p && '=' !in p
  }

  predicate WellFormedLine(l: Line) {
    && (forall k :: 0 <= k < |l.tags| ==> IsTagPart(l.tags[k].0) && IsTagPart(l.tags[k].1))
    && IsWord(l.prefix) && IsWord(l.command)
    && (l.channel.Some? ==> IsWord(l.channel.value))
    && (l.text.Some? ==> l.text.value != [] && !IsWhitespace(l.text.value[|l.text.value| - 1]))
  }

  function TagPieces(tags: seq<(string, string)>): (r: seq<string>)
    ensures |r| == |tags|
  {
    seq(|tags|, k requires 0 <= k < |tags| => tags[k].0 + "=" + tags[k].1)
  }

  /** "@k=v;... :prefix command[ channel][ :text]", as the server writes it. */
  function Render(l: Line): string {
    RenderedTags(l) + (":" + RenderedBody(l))
  }

  /** "@k=v;... " before the body, nothing when there are no tags. */
  function RenderedTags(l: Line): string {
    if |l.tags| == 0 then "" else "@" + Join(TagPieces(l.tags), ";") + " "
  }

  lemma TagPairOf(k: string, v: string)
    requires IsTagPart(k) && IsTagPart(v)
    ensures TagPair(k + "=" + v) == Some((k, v))
  {
    SplitAppend(k, v, '=');
    SplitSingle(k, '=');
    SplitSingle(v, '=');
  }

  lemma {:induction false} PutTagsPieces(tags: seq<(string, string)>)
    requires forall k :: 0 <= k < |tags| ==> IsTagPart(tags[k].0) && IsTagPart(tags[k].1)
    ensures PutTags(map[], TagPieces(tags)) == ToMap(tags)
    decreases |tags|
  {
    if |tags| > 0 {
      PutTagsPieces(tags[..|tags| - 1]);
      PutTagsLast(tags);
    }
  }

  /** Storing the piece of the last pair stores that pair. */
  lemma PutTagsLast(tags: seq<(string, string)>)
    requires |tags| > 0 && IsTagPart(tags[|tags| - 1].0) && IsTagPart(tags[|tags| - 1].1)
    requires PutTags(map[], TagPieces(tags[..|tags| - 1])) == ToMap(tags[..|tags| - 1])
    ensures PutTags(map[], TagPieces(tags)) == ToMap(tags)
  {
    var n := |tags| - 1;
    var ps := TagPieces(tags);
    assert ps[..n] == TagPieces(tags[..n]);
    var before := PutTags(map[], ps[..n]);
    assert PutTags(map[], ps) == PutTag(before, ps[n]);
    assert PutTag(before, ps[n]) == before[tags[n].0 := tags[n].1] by {
      TagPairOf(tags[n].0, tags[n].1);
    }
  }

  /** The words of the metadata segment: a trailing "" when the text follows. */
  function MetadataWords(l: Line): seq<string> {
    [l.prefix, l.command] + (if l.channel.Some? then [l.channel.value] else [])
    + (if l.text.Some? then [""] else [])
  }

  /** "prefix command[ channel]" */
  function RenderedMetadata(l: Line): string {
    l.prefix + " " + l.command + (if l.channel.Some? then " " + l.channel.value else "")
  }

  /** The part of a rendered line after its leading ':'. */
  function RenderedBody(l: Line): string {
    RenderedMetadata(l) + (if l.text.Some? then " :" + l.text.value else "")
  }

  lemma JoinTwo(a: string, b: string, sep: string)
    ensures Join([a, b], sep) == a + sep + b
  {
    JoinConsPiece(a, [b], sep);
    assert [a] + [b] == [a, b];
  }

  lemma JoinThree(a: string, b: string, c: string, sep: string)
    ensures Join([a, b, c], sep) == a + sep + b + sep + c
  {
    JoinConsPiece(a, [b, c], sep);
    JoinTwo(b, c, sep);
    assert [a] + [b, c] == [a, b, c];
  }

  lemma JoinFour(a: string, b: string, c: string, d: string, sep: string)
    ensures Join([a, b, c, d], sep) == a + sep + b + sep + c + sep + d
  {
    JoinConsPiece(a, [b, c, d], sep);
    JoinThree(b, c, d, sep);
    assert [a] + [b, c, d] == [a, b, c, d];
  }

  lemma MetadataWordsJoin(l: Line)
    ensures Join(MetadataWords(l), " ") == RenderedMetadata(l) + (if l.text.Some? then " " else "")
  {
    var p, c := l.prefix, l.command;
    if l.channel.Some? {
      var ch := l.channel.value;
      if l.text.Some? {
        assert MetadataWords(l) == [p, c, ch, ""];
        JoinFour(p, c, ch, "", " ");
      } else {
        assert MetadataWords(l) == [p, c, ch];
        JoinThree(p, c, ch, " ");
      }
    } else {
      if l.text.Some? {
        assert MetadataWords(l) == [p, c, ""];
        JoinThree(p, c, "", " ");
      } else {
        assert MetadataWords(l) == [p, c];
        JoinTwo(p, c, " ");
      }
    }
  }

  /** A metadata segment without ':' followed by an optional " :text". */
  lemma MetadataThenText(meta: string, t: Option<string>)
    requires ':' !in meta
    ensures var rest := meta + (if t.Some? then " :" + t.value else "");
            && MetadataOf(rest) == meta + (if t.Some? then " " else "")
            && PayloadOf(rest) == t
  {
    if t.Some? {
      var rest := meta + (" :" + t.value);
      assert rest[|meta| + 1] == ':';
      assert rest[..|meta| + 1] == meta + " ";
      IndexOfFirst(rest, ':', |meta| + 1);
      assert rest[|meta| + 2..] == t.value;
    } else {
      assert meta + "" == meta;
    }
  }

  lemma MetadataColonFree(l: Line)
    requires WellFormedLine(l)
    ensures ':' !in RenderedMetadata(l)
    ensures forall k :: 0 <= k < |MetadataWords(l)| ==> ' ' !in MetadataWords(l)[k]
  {
  }

  /** ParseBody, given the words of the metadata and the payload. */
  lemma ParseBodyFromParts(raw: string, tags: map<string, string>, body: string,
                           words: seq<string>, payload: Option<string>)
    requires |body| > 0 && Split(MetadataOf(body[1..]), ' ') == words && |words| >= 2
    requires PayloadOf(body[1..]) == payload
    ensures ParseBody(raw, tags, body) ==
            Ok(RawMessage(raw, tags, words[0], Some(words[1]), if |words| > 2 then Some(words[2]) else None,
                          TextOf(payload, Some(words[1]))))
  {
    ParseBodyFields(raw, tags, body);
  }

  /** ParseBody fails with an index error when the metadata has fewer than two words. */
  lemma ParseBodyShort(raw: string, tags: map<string, string>, body: string)
    requires |body| > 0 && |Split(MetadataOf(body[1..]), ' ')| < 2
    ensures ParseBody(raw, tags, body) == Err(IndexOutOfBounds)
  {
  }

  /** Rendered fields as the parser reads them back. */
  function ReadBack(raw: string, tags: map<string, string>, l: Line): RawMessage {
    RawMessage(raw, tags, l.prefix, Some(l.command),
               if l.channel.Some? then l.channel else if l.text.Some? then Some("") else None,
               if l.text.Some? && l.command != "353" then Some(Trim(l.text.value)) else None)
  }

  lemma ReadBackWords(raw: string, tags: map<string, string>, l: Line)
    requires WellFormedLine(l)
    ensures var w := MetadataWords(l);
            ReadBack(raw, tags, l) ==
            RawMessage(raw, tags, w[0], Some(w[1]), if |w| > 2 then Some(w[2]) else None,
                       TextOf(l.text, Some(w[1])))
  {
    if l.text.Some? {
      assert !IsBlank(l.text.value);
    }
  }

  lemma ParseRenderedBody(raw: string, tags: map<string, string>, l: Line)
    requires WellFormedLine(l)
    ensures ParseBody(raw, tags, ":" + RenderedBody(l)) == Ok(ReadBack(raw, tags, l))
  {
    var body := ":" + RenderedBody(l);
    var rest := RenderedBody(l);
    assert body[1..] == rest;
    MetadataColonFree(l);
    MetadataThenText(RenderedMetadata(l), l.text);
    MetadataWordsJoin(l);
    SplitJoin(MetadataWords(l), ' ');
    ParseBodyFromParts(raw, tags, body, MetadataWords(l), l.text);
    ReadBackWords(raw, tags, l);
  }

  lemma RenderTrimmed(l: Line)
    requires WellFormedLine(l)
    ensures Trim(Render(l)) == Render(l)
  {
    var s := Render(l);
    var last := if l.text.Some? then l.text.value
                else if l.channel.Some? then l.channel.value else l.command;
    assert s[0] == '@' || s[0] == ':';
    assert s[|s| - |last|..] == last;
    assert s[|s| - 1] == last[|last| - 1];
    TrimUnchanged(s);
  }

  /** A trimmed line without '@' is all body. */
  lemma ParseUntagged(message: string)
    requires Trim(message) == message && !StartsWith(message, "@")
    ensures Parse(message) == ParseBody(message, map[], message)
  {
  }

  /** A trimmed line "@segment body", the segment free of spaces. */
  lemma ParseTagged(message: string, seg: string, body: string)
    requires Trim(message) == message && message == seg + " " + body
    requires |seg| >= 1 && seg[0] == '@' && ' ' !in seg
    ensures Parse(message) == ParseBody(message, ParseTags(seg), body)
  {
    assert message[..1] == "@";
    IndexOfFirst(message, ' ', |seg|);
    assert message[..|seg|] == seg;
    assert message[|seg| + 1..] == body;
  }

  /** The rendered tag segment is free of spaces and parses to the tags' map. */
  lemma TagSegment(tags: seq<(string, string)>)
    requires forall k :: 0 <= k < |tags| ==> IsTagPart(tags[k].0) && IsTagPart(tags[k].1)
    requires |tags| > 0
    ensures var seg := "@" + Join(TagPieces(tags), ";");
            ' ' !in seg && ParseTags(seg) == ToMap(tags)
  {
    var pieces := TagPieces(tags);
    var seg := "@" + Join(pieces, ";");
    forall k | 0 <= k < |tags| ensures ' ' !in pieces[k] && ';' !in pieces[k] {
      assert pieces[k] == tags[k].0 + "=" + tags[k].1;
    }
    JoinAvoids(pieces, ";", ' ');
    assert seg[1..] == Join(pieces, ";");
    SplitJoin(pieces, ';');
    PutTagsPieces(tags);
  }

  lemma ParseRenderUntagged(l: Line)
    requires WellFormedLine(l) && |l.tags| == 0
    ensures Parse(Render(l)) == Ok(ReadBack(Render(l), map[], l))
  {
    var s := Render(l);
    RenderTrimmed(l);
    ParseRenderedBody(s, map[], l);
    assert s == ":" + RenderedBody(l);
    ParseUntagged(s);
  }

  lemma ParseRenderTagged(l: Line)
    requires WellFormedLine(l) && |l.tags| > 0
    ensures Parse(Render(l)) == Ok(ReadBack(Render(l), ToMap(l.tags), l))
  {
    var s := Render(l);
    RenderTrimmed(l);
    ParseRenderedBody(s, ToMap(l.tags), l);
    var seg := "@" + Join(TagPieces(l.tags), ";");
    assert RenderedTags(l) == seg + " ";
    TagSegment(l.tags);
    ParseTagged(s, seg, ":" + RenderedBody(l));
  }

  /** Parsing a rendered well-formed line gives back its fields: the tags as a map
      where a later pair wins, the prefix, command and channel, and the trimmed text
      unless the command is ignored. With text but no channel, the empty word before
      " :" is read as the channel. */
  lemma ParseRender(l: Line)
    requires WellFormedLine(l)
    ensures Parse(Render(l)) == Ok(ReadBack(Render(l), ToMap(l.tags), l))
  {
    if |l.tags| == 0 {
      ParseRenderUntagged(l);
    } else {
      ParseRenderTagged(l);
    }
  }
}
