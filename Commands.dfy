/** The outgoing chat commands: each is one line handed to sendRaw. Joining and
    leaving name the channel; everything else is a PRIVMSG whose text is either
    the message itself or a Twitch slash command. Every line is decoded again
    the way the server reads it, and the decoder recovers what was sent. */
module Commands {
  import opened Wrappers
  import opened Strings
  import opened Numbers
  import opened Utility

  /** The slash commands sent as the text of a PRIVMSG, one per command helper. */
  datatype ChatCommand =
    | Action(message: string)
    | Ban(userName: string)
    | Unban(userName: string)
    | Timeout(userName: string, seconds: int)
    | SlowMode(seconds: int)
    | DisableSlowMode
    | FollowOnly(duration: string)
    | DisableFollowOnly
    | SubOnly
    | DisableSubOnly
    | ClearChat
    | R9KBeta
    | DisableR9KBeta
    | EmoteOnly
    | DisableEmoteOnly
    | SetColor(color: string)
    | Mod(userName: string)
    | Unmod(userName: string)
    | Vip(userName: string)
    | Unvip(userName: string)

  /** The default length of a timeout, in seconds. */
  const DefaultTimeoutSeconds := 600

  /** The slash command word of each chat command. */
  function CommandWord(cmd: ChatCommand): string {
    match cmd
    case Action(_) => "/me"
    case Ban(_) => "/ban"
    case Unban(_) => "/unban"
    case Timeout(_, _) => "/timeout"
    case SlowMode(_) => "/slow"
    case DisableSlowMode => "/slowoff"
    case FollowOnly(_) => "/followers"
    case DisableFollowOnly => "/followersoff"
    case SubOnly => "/subscribers"
    case DisableSubOnly => "/subscribersoff"
    case ClearChat => "/clear"
    case R9KBeta => "/r9kbeta"
    case DisableR9KBeta => "/r9kbetaoff"
    case EmoteOnly => "/emoteonly"
    case DisableEmoteOnly => "/emoteonlyoff"
    case SetColor(_) => "/color"
    case Mod(_) => "/mod"
    case Unmod(_) => "/unmod"
    case Vip(_) => "/vip"
    case Unvip(_) => "/unvip"
  }

  /** What follows the command word and one space, if anything does. */
  function Argument(cmd: ChatCommand): Option<string> {
    match cmd
    case Action(m) => Some(m)
    case Ban(u) => Some(u)
    case Unban(u) => Some(u)
    case Timeout(u, s) => Some(u + " " + IntToString(s))
    case SlowMode(s) => Some(IntToString(s))
    case FollowOnly(d) => Some(d)
    case SetColor(c) => Some(c)
    case Mod(u) => Some(u)
    case Unmod(u) => Some(u)
    case Vip(u) => Some(u)
    case Unvip(u) => Some(u)
    case _ => None
  }

  /** The message text of a chat command: "/ban u", "/timeout u 600", "/slowoff", ... */
  function SlashText(cmd: ChatCommand): string {
    match Argument(cmd)
    case None => CommandWord(cmd)
    case Some(arg) => CommandWord(cmd) + " " + arg
  }

  /** `timeout(channel, userName)` with its default duration. */
  function DefaultTimeout(userName: string): (r: ChatCommand)
    ensures SlashText(r) == "/timeout " + userName + " 600"
  {
    assert IntToString(600) == "600" by {
      assert NatToString(60) == "60" by { assert NatToString(6) == "6"; }
    }
    Timeout(userName, DefaultTimeoutSeconds)
  }

  // === the lines given to sendRaw ===

  function JoinLine(channel: string): string {
    "JOIN " + AsChannelName(channel)
  }

  function LeaveLine(channel: string): string {
    "PART " + AsChannelName(channel)
  }

  function SendMessageLine(channel: string, message: string): string {
    "PRIVMSG " + AsChannelName(channel) + " :" + message
  }

  /** Every chat command helper is one sendMessage of its slash text. */
  function CommandLine(channel: string, cmd: ChatCommand): string {
    SendMessageLine(channel, SlashText(cmd))
  }

  // === reading the lines back ===

  /** A line as the server reads it. */
  datatype Request =
    | JoinRequest(channel: string)
    | PartRequest(channel: string)
    | PrivmsgRequest(channel: string, text: string)

  /** Reads an outgoing line: the command word, then the channel, then for a
      PRIVMSG a " :" and the text, which may hold anything. */
  function DecodeLine(line: string): Option<Request> {
    if StartsWith(line, "JOIN ") then Some(JoinRequest(line[5..]))
    else if StartsWith(line, "PART ") then Some(PartRequest(line[5..]))
    else if StartsWith(line, "PRIVMSG ") then
      var rest := line[8..];
      var i := IndexOf(rest, ' ');
      if 0 <= i && i + 1 < |rest| && rest[i + 1] == ':' then
        Some(PrivmsgRequest(rest[..i], rest[i + 2..]))
      else None
    else None
  }

  /** The first word of a text and, when there is a space, everything after it. */
  function FirstWord(text: string): (string, Option<string>) {
    var i := IndexOf(text, ' ');
    if i < 0 then (text, None) else (text[..i], Some(text[i + 1..]))
  }

  /** Reads a command word and its argument as the chat command they spell, if any. */
  function DecodeWords(word: string, arg: Option<string>): Option<ChatCommand> {
    match arg
    case None =>
      if word == "/slowoff" then Some(DisableSlowMode)
      else if word == "/followersoff" then Some(DisableFollowOnly)
      else if word == "/subscribers" then Some(SubOnly)
      else if word == "/subscribersoff" then Some(DisableSubOnly)
      else if word == "/clear" then Some(ClearChat)
      else if word == "/r9kbeta" then Some(R9KBeta)
      else if word == "/r9kbetaoff" then Some(DisableR9KBeta)
      else if word == "/emoteonly" then Some(EmoteOnly)
      else if word == "/emoteonlyoff" then Some(DisableEmoteOnly)
      else None
    case Some(a) =>
      if word == "/me" then Some(Action(a))
      else if word == "/ban" then Some(Ban(a))
      else if word == "/unban" then Some(Unban(a))
      else if word == "/timeout" then
        (match FirstWord(a)
         case (u, Some(s)) => if ToIntOrNull(s).Some? then Some(Timeout(u, ToIntOrNull(s).value)) else None
         case _ => None)
      else if word == "/slow" then
        if ToIntOrNull(a).Some? then Some(SlowMode(ToIntOrNull(a).value)) else None
      else if word == "/followers" then Some(FollowOnly(a))
      else if word == "/color" then Some(SetColor(a))
      else if word == "/mod" then Some(Mod(a))
      else if word == "/unmod" then Some(Unmod(a))
      else if word == "/vip" then Some(Vip(a))
      else if word == "/unvip" then Some(Unvip(a))
      else None
  }

  /** Reads the text of a PRIVMSG as the chat command it carries, if any. */
  function DecodeChatCommand(text: string): Option<ChatCommand> {
    var (word, arg) := FirstWord(text);
    DecodeWords(word, arg)
  }

  // === round trips ===

  lemma FirstWordOf(word: string, arg: string)
    requires ' ' !in word
    ensures FirstWord(word + " " + arg) == (word, Some(arg))
  {
    var text := word + " " + arg;
    assert text[..|word|] == word;
    IndexOfFirst(text, ' ', |word|);
    assert text[|word| + 1..] == arg;
  }

  lemma FirstWordAlone(word: string)
    requires ' ' !in word
    ensures FirstWord(word) == (word, None)
  {
  }

  lemma NoSpaceInNumber(n: int)
    ensures ' ' !in IntToString(n)
  {
    var d := NatToString(if n < 0 then -n else n);
    assert forall k :: 0 <= k < |d| ==> IsDigit(d[k]);
    if n < 0 {
      assert IntToString(n) == "-" + d;
    }
  }

  /** The arguments a command can carry and still be read back: a timed-out user
      name has no space, and the durations are Kotlin Ints. */
  predicate Readable(cmd: ChatCommand) {
    match cmd
    case Timeout(u, s) => ' ' !in u && INT_MIN <= s <= INT_MAX
    case SlowMode(s) => INT_MIN <= s <= INT_MAX
    case _ => true
  }

  /** The command word and argument of a command spell that command again. */
  lemma DecodeWordsRoundTrip(cmd: ChatCommand)
    requires Readable(cmd)
    ensures DecodeWords(CommandWord(cmd), Argument(cmd)) == Some(cmd)
  {
    if Argument(cmd).None? {
      DecodeBareWord(cmd);
    } else {
      DecodeWordWithArgument(cmd);
    }
  }

  lemma DecodeBareWord(cmd: ChatCommand)
    requires Argument(cmd).None?
    ensures DecodeWords(CommandWord(cmd), None) == Some(cmd)
  {
    match cmd {
      case DisableSlowMode =>
      case DisableFollowOnly =>
      case SubOnly =>
      case DisableSubOnly =>
      case ClearChat =>
      case R9KBeta =>
      case DisableR9KBeta =>
      case EmoteOnly =>
      case DisableEmoteOnly =>
    }
  }

  lemma DecodeWordWithArgument(cmd: ChatCommand)
    requires Argument(cmd).Some? && Readable(cmd)
    ensures DecodeWords(CommandWord(cmd), Argument(cmd)) == Some(cmd)
  {
    match cmd {
      case Action(_) =>
      case Ban(_) =>
      case Unban(_) =>
      case Timeout(u, s) => DecodeTimeout(u, s);
      case SlowMode(s) => DecodeSlowMode(s);
      case FollowOnly(_) =>
      case SetColor(_) =>
      case Mod(_) =>
      case Unmod(_) =>
      case Vip(_) =>
      case Unvip(_) =>
    }
  }

  lemma DecodeTimeout(u: string, s: int)
    requires ' ' !in u && INT_MIN <= s <= INT_MAX
    ensures DecodeWords("/timeout", Some(u + " " + IntToString(s))) == Some(Timeout(u, s))
  {
    NoSpaceInNumber(s);
    FirstWordOf(u, IntToString(s));
    IntToStringRoundTrip(s);
  }

  lemma DecodeSlowMode(s: int)
    requires INT_MIN <= s <= INT_MAX
    ensures DecodeWords("/slow", Some(IntToString(s))) == Some(SlowMode(s))
  {
    IntToStringRoundTrip(s);
  }

  /** Decoding the slash text of a command gives the command back. */
  lemma ChatCommandRoundTrip(cmd: ChatCommand)
    requires Readable(cmd)
    ensures DecodeChatCommand(SlashText(cmd)) == Some(cmd)
  {
    CommandWordSpaceless(cmd);
    DecodeText(CommandWord(cmd), Argument(cmd));
    DecodeWordsRoundTrip(cmd);
  }

  /** A text made of a word without spaces and an optional argument reads back as
      that word and argument. */
  lemma DecodeText(word: string, arg: Option<string>)
    requires ' ' !in word
    ensures DecodeChatCommand(if arg.None? then word else word + " " + arg.value) == DecodeWords(word, arg)
  {
    match arg
    case None => FirstWordAlone(word);
    case Some(a) => FirstWordOf(word, a);
  }

  lemma CommandWordSpaceless(cmd: ChatCommand)
    ensures ' ' !in CommandWord(cmd)
  {
    if Argument(cmd).None? {
      BareWordSpaceless(cmd);
    } else {
      ArgumentWordSpaceless(cmd);
    }
  }

  lemma BareWordSpaceless(cmd: ChatCommand)
    requires Argument(cmd).None?
    ensures ' ' !in CommandWord(cmd)
  {
  }

  lemma ArgumentWordSpaceless(cmd: ChatCommand)
    requires Argument(cmd).Some?
    ensures ' ' !in CommandWord(cmd)
  {
  }

  /** Joining and leaving: the line names exactly the channel, normalised to start with '#'. */
  lemma MembershipRoundTrip(channel: string)
    ensures DecodeLine(JoinLine(channel)) == Some(JoinRequest(AsChannelName(channel)))
    ensures DecodeLine(LeaveLine(channel)) == Some(PartRequest(AsChannelName(channel)))
  {
    assert JoinLine(channel)[5..] == AsChannelName(channel);
    assert LeaveLine(channel)[5..] == AsChannelName(channel);
    assert !StartsWith(LeaveLine(channel), "JOIN ") by {
      assert LeaveLine(channel)[0] == 'P';
    }
  }

  /** A message to a channel without spaces reaches that channel with its text intact,
      whatever the text holds. */
  lemma SendMessageRoundTrip(channel: string, message: string)
    requires ' ' !in channel
    ensures DecodeLine(SendMessageLine(channel, message)) ==
            Some(PrivmsgRequest(AsChannelName(channel), message))
  {
    var name := AsChannelName(channel);
    var rest := name + " :" + message;
    assert SendMessageLine(channel, message) == "PRIVMSG " + rest;
    PrivmsgLine(rest);
    ChannelNameWord(channel);
    assert rest[..|name|] == name;
    IndexOfFirst(rest, ' ', |name|);
    assert rest[|name| + 2..] == message;
  }

  /** A line starting "PRIVMSG " is read as a PRIVMSG of what follows. */
  lemma PrivmsgLine(rest: string)
    ensures !StartsWith("PRIVMSG " + rest, "JOIN ") && !StartsWith("PRIVMSG " + rest, "PART ")
    ensures StartsWith("PRIVMSG " + rest, "PRIVMSG ") && ("PRIVMSG " + rest)[8..] == rest
  {
    var line := "PRIVMSG " + rest;
    assert line[..8] == "PRIVMSG ";
    assert line[1] == 'R';
  }

  /** Normalising a channel without spaces keeps it free of spaces. */
  lemma ChannelNameWord(channel: string)
    requires ' ' !in channel
    ensures ' ' !in AsChannelName(channel)
  {
    var name := AsChannelName(channel);
    if name != channel {
      assert name == "#" + channel;
      assert forall k :: 1 <= k < |name| ==> name[k] == channel[k - 1];
    }
  }

  /** Every moderation helper sends one PRIVMSG to the channel whose text reads back
      as that command. */
  lemma CommandLineRoundTrip(channel: string, cmd: ChatCommand)
    requires ' ' !in channel && Readable(cmd)
    ensures DecodeLine(CommandLine(channel, cmd)) == Some(PrivmsgRequest(AsChannelName(channel), SlashText(cmd)))
    ensures DecodeChatCommand(DecodeLine(CommandLine(channel, cmd)).value.text) == Some(cmd)
  {
    SendMessageRoundTrip(channel, SlashText(cmd));
    ChatCommandRoundTrip(cmd);
  }
}
