/**
 * The bot's fixed command vocabulary, the table from a command name to its
 * `_do_<name>` handler, the replies of the two handlers that answer with a
 * fixed line (haiku, replay), and the shape of what the bot sends.
 */
module Commands {
  import opened Wrappers
  import opened PyStr

  /** The names the bot answers to, in the order the bot lists them. */
  const Vocabulary: seq<string> :=
    ["stats", "haiku", "replay", "conv", "pretentious", "leaderboard", "loserboard", "percentlol", "spammy"]

  /** One constructor per `_do_<name>` handler. */
  datatype Command = Stats | Haiku | Replay | Conv | Pretentious | Leaderboard | Loserboard | PercentLol | Spammy

  function Name(c: Command): string
  {
    match c
    case Stats => "stats"
    case Haiku => "haiku"
    case Replay => "replay"
    case Conv => "conv"
    case Pretentious => "pretentious"
    case Leaderboard => "leaderboard"
    case Loserboard => "loserboard"
    case PercentLol => "percentlol"
    case Spammy => "spammy"
  }

  /**
   * The handler of a command name: the explicit table that replaces looking
   * up `'_do_' + name` on the bot.  Every name of the vocabulary has exactly
   * one handler and no other name has any.
   */
  function Handler(name: string): (h: Option<Command>)
    ensures h.Some? <==> name in Vocabulary
    ensures h.Some? ==> Name(h.value) == name
  {
    if name == "stats" then Some(Stats)
    else if name == "haiku" then Some(Haiku)
    else if name == "replay" then Some(Replay)
    else if name == "conv" then Some(Conv)
    else if name == "pretentious" then Some(Pretentious)
    else if name == "leaderboard" then Some(Leaderboard)
    else if name == "loserboard" then Some(Loserboard)
    else if name == "percentlol" then Some(PercentLol)
    else if name == "spammy" then Some(Spammy)
    else None
  }

  /** The table is a bijection between the vocabulary and the handlers. */
  lemma HandlerOfName(c: Command)
    ensures Name(c) in Vocabulary && Handler(Name(c)) == Some(c)
  {
  }

  /**
   * The metric key a statistics handler returns to the statistics wrapper
   * (`_do_stats`, `_do_pretentious`, `_do_percentlol`, `_do_spammy`); the
   * other handlers return nothing.
   */
  function StatKey(c: Command): (k: Option<string>)
    ensures k.Some? <==> c in {Stats, Pretentious, PercentLol, Spammy}
    ensures k.Some? ==> k.value == Name(c)
  {
    match c
    case Stats => Some("stats")
    case Pretentious => Some("pretentious")
    case PercentLol => Some("percentlol")
    case Spammy => Some("spammy")
    case _ => None
  }

  /** What one call of `privmsg` carries: a line of text, or a leaderboard row (nick, score). */
  datatype Body = Text(text: string) | Row(nick: string, score: int)

  /** One outbound message: the reply target and what was sent to it. */
  datatype Outbound = Outbound(target: string, body: Body)

  function Texts(lines: seq<string>): (bs: seq<Body>)
    ensures |bs| == |lines| && forall i :: 0 <= i < |lines| ==> bs[i] == Text(lines[i])
  {
    if lines == [] then [] else [Text(lines[0])] + Texts(lines[1..])
  }

  function Addressed(target: string, bs: seq<Body>): (out: seq<Outbound>)
    ensures |out| == |bs| && forall i :: 0 <= i < |bs| ==> out[i] == Outbound(target, bs[i])
  {
    if bs == [] then [] else [Outbound(target, bs[0])] + Addressed(target, bs[1..])
  }

  lemma {:induction false} AddressedAppend(target: string, a: seq<Body>, b: seq<Body>)
    ensures Addressed(target, a + b) == Addressed(target, a) + Addressed(target, b)
  {
    if a != [] {
      assert (a + b)[1..] == a[1..] + b;
      AddressedAppend(target, a[1..], b);
    }
  }

  /** `"<{}> {}".format(nick, line)` */
  function Quote(nick: string, line: string): string
  {
    "<" + nick + "> " + line
  }

  const HaikuRefusal := "I'm sorry, Dave. I'm afraid I can't do that."

  /**
   * `_do_haiku`: with any argument token it stays silent, with none it sends
   * the refusal, once.
   */
  function HaikuReply(arguments: string): (lines: seq<string>)
    ensures lines == [] <==> !AllSpace(arguments)
    ensures lines != [] ==> lines == [HaikuRefusal]
  {
    SplitEmptyIff(arguments);
    if |Split(arguments)| > 0 then [] else [HaikuRefusal]
  }

  /**
   * `_do_replay`: the one line sent for `nick`, given what the store returned
   * as a random line of theirs.
   */
  function ReplayReply(nick: string, line: Option<string>): (reply: string)
    ensures line.Some? ==> reply == Quote(nick, line.value)
    ensures line.None? ==> reply == nick + " has no history!"
  {
    match line
    case Some(l) => Quote(nick, l)
    case None => nick + " has no history!"
  }
}
