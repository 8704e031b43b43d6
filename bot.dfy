/**
 * The bot itself: the state its methods change (the log of what it sent and
 * the corpus lines it stored) and the message handling of `_process_msg`,
 * `_process_text`, `_process_cmd` and the `_do_<name>` handlers, each proved
 * to do what the functions of the other modules describe.
 */
module Bot {
  import opened Wrappers
  import opened PyStr
  import opened Commands
  import opened Classifier
  import opened Conversation
  import opened Ranking

  /** One incoming message: the sender's nick, where it was sent, and its text (`e.arguments[0]`). */
  datatype Message = Message(sender: string, target: string, text: string)

  /** A line given to the store's `add_line(nick, channel, text)`. */
  datatype CorpusLine = CorpusLine(speaker: string, channel: string, text: string)

  /**
   * What the bot's collaborators answer while one message is handled (all
   * store lookups are about the message's channel):
   * - `nick`: the subject nick the nick-resolving wrapper passes to a handler;
   * - `randomLine(n)`: `get_random_line(n, channel)`;
   * - `directed(k)`: the k-th answer of `get_random_line_like(_, channel, '%:%')`;
   * - `draws`: the successive values of `random.randint(0, 5)`; only `conv`
   *   reads them, and they must hold a 0 so that its chain ends (any other
   *   message may be given `[0]`);
   * - `metrics`: the scoring functions of the statistics module, by name;
   * - `users`: the active users, each once.
   */
  datatype Oracle = Oracle(
    nick: string,
    randomLine: string -> Option<string>,
    directed: nat -> Option<string>,
    draws: seq<Die>,
    metrics: map<string, string -> int>,
    users: seq<string>)

  /**
   * The bodies a command's handler sends, in order.  The statistics
   * handlers send nothing themselves: they hand their metric key to the
   * formatting wrapper, which is not part of this model.
   */
  function Reply(cmd: Command, arguments: string, o: Oracle): (bs: seq<Body>)
    requires 0 in o.draws
    ensures StatKey(cmd).Some? ==> bs == []
    ensures cmd == Replay ==> |bs| == 1
  {
    match cmd
    case Haiku => Texts(HaikuReply(arguments))
    case Replay => [Text(ReplayReply(o.nick, o.randomLine(o.nick)))]
    case Conv => Texts(Chain(o.nick, o.directed, o.randomLine, 0, o.draws))
    case Leaderboard => BoardCommand(arguments, false, o.metrics, o.users)
    case Loserboard => BoardCommand(arguments, true, o.metrics, o.users)
    case Stats => []
    case Pretentious => []
    case PercentLol => []
    case Spammy => []
  }

  lemma {:induction false} TextsAppend(a: seq<string>, b: seq<string>)
    ensures Texts(a + b) == Texts(a) + Texts(b)
  {
    if a != [] {
      assert (a + b)[1..] == a[1..] + b;
      TextsAppend(a[1..], b);
    }
  }

  /**
   * The retry loop of `_do_conv`: ask the store for a directed line until a
   * line with a colon comes back, the store has none, or the twentieth
   * attempt is used up.
   */
  method FindDirected(directed: nat -> Option<string>, pos: nat, maxTries: nat) returns (lookup: Lookup)
    requires maxTries >= 1
    ensures lookup == Search(directed, pos, maxTries)
  {
    var nickMatch: Option<string> := None;
    var tries := maxTries;
    var line := "";
    var next := pos;
    while nickMatch.None?
      invariant 1 <= tries <= maxTries
      invariant nickMatch.None? ==> Search(directed, pos, maxTries) == Search(directed, next, tries)
      invariant nickMatch.Some? ==> Search(directed, pos, maxTries) == Found(line, nickMatch.value, next)
      decreases tries
    {
      var answer := directed(next);
      if answer.None? {
        return NoHistory;
      }
      line := answer.value;
      nickMatch := MatchNick(line);
      if tries > 1 {
        SearchAfterLine(directed, next, tries);
      }
      next := next + 1;
      tries := tries - 1;
      if tries == 0 {
        return GaveUp;
      }
    }
    return Found(line, nickMatch.value, next);
  }

  /** The items of the `stats` dictionary: every active user with their score, in order. */
  method ScoreAll(nicks: seq<string>, statFunc: string -> int) returns (stats: seq<Entry>)
    ensures stats == Scores(nicks, statFunc)
  {
    stats := [];
    for i := 0 to |nicks|
      invariant |stats| == i
      invariant forall k :: 0 <= k < i ==> stats[k] == Entry(nicks[k], statFunc(nicks[k]))
    {
      stats := stats + [Entry(nicks[i], statFunc(nicks[i]))];
    }
  }

  /**
   * Regrouping of the sent log. Dafny knows this, but stating it as a lemma
   * keeps the proofs of the sending methods small enough for the solver.
   */
  lemma ConcatAssoc<T>(a: seq<T>, b: seq<T>, c: seq<T>)
    ensures (a + b) + c == a + (b + c)
  {
  }

  lemma SentLines(target: string, first: string, rest: seq<string>)
    ensures Addressed(target, Texts([first] + rest))
         == [Outbound(target, Text(first))] + Addressed(target, Texts(rest))
  {
    TextsAppend([first], rest);
    AddressedAppend(target, Texts([first]), Texts(rest));
  }

  class RehaikuBot {
    const cfg: Config
    /** Every `privmsg` the bot made, in order. */
    var sent: seq<Outbound>
    /** Every line the bot gave to `add_line`, in order. */
    var corpus: seq<CorpusLine>

    constructor (cfg: Config)
      ensures this.cfg == cfg && sent == [] && corpus == []
    {
      this.cfg := cfg;
      sent := [];
      corpus := [];
    }

    /** `self.connection.privmsg(target, body)` */
    method Send(target: string, body: Body)
      modifies this
      ensures sent == old(sent) + [Outbound(target, body)]
      ensures corpus == old(corpus)
    {
      sent := sent + [Outbound(target, body)];
    }

    /**
     * `_process_msg`: a recognised command goes to its handler and is never
     * stored; any other line is stored once, verbatim, unless its first
     * character is an ignored prefix, in which case nothing happens.
     */
    method ProcessMsg(respondTarget: string, e: Message, o: Oracle)
      requires 0 in o.draws
      modifies this
      ensures match Route(cfg, e.text)
        case Invoke(name, args) =>
          && sent == old(sent) + Addressed(respondTarget, Reply(Handler(name).value, args, o))
          && corpus == old(corpus)
        case Record =>
          && corpus == old(corpus) + [CorpusLine(e.sender, e.target, e.text)]
          && sent == old(sent)
        case Drop =>
          && corpus == old(corpus)
          && sent == old(sent)
    {
      var fullText := e.text;
      var cmd := GetCmd(cfg.cmdPrefix, Vocabulary, fullText);
      if cmd.Some? {
        var _ := ProcessCmd(respondTarget, cmd.value.name, cmd.value.args, o);
      } else if Head(fullText) !in cfg.ignorePrefixes {
        ProcessText(e);
      }
    }

    /** `_process_text`: store the message's text for its sender and channel. */
    method ProcessText(e: Message)
      modifies this
      ensures corpus == old(corpus) + [CorpusLine(e.sender, e.target, e.text)]
      ensures sent == old(sent)
    {
      var txt := e.text;
      corpus := corpus + [CorpusLine(e.sender, e.target, txt)];
    }

    /**
     * `_process_cmd`: call the handler the table gives for the name.  A
     * statistics handler's metric key is returned.
     */
    method ProcessCmd(respondTarget: string, cmd: string, arguments: string, o: Oracle)
      returns (statKey: Option<string>)
      requires cmd in Vocabulary && 0 in o.draws
      modifies this
      ensures sent == old(sent) + Addressed(respondTarget, Reply(Handler(cmd).value, arguments, o))
      ensures corpus == old(corpus)
      ensures statKey == StatKey(Handler(cmd).value)
    {
      var handler := Handler(cmd).value;
      statKey := StatKey(handler);
      match handler
      case Haiku => DoHaiku(respondTarget, arguments);
      case Replay => DoReplay(respondTarget, o.nick, o.randomLine);
      case Conv => DoConv(respondTarget, o.nick, o.directed, o.randomLine, 0, o.draws);
      case Leaderboard => DoLeaderboard(respondTarget, arguments, o.metrics, o.users);
      case Loserboard => DoLoserboard(respondTarget, arguments, o.metrics, o.users);
      case Stats =>
      case Pretentious =>
      case PercentLol =>
      case Spammy =>
    }

    /** `_do_haiku` */
    method DoHaiku(respondTarget: string, arguments: string)
      modifies this
      ensures sent == old(sent) + Addressed(respondTarget, Texts(HaikuReply(arguments)))
      ensures corpus == old(corpus)
    {
      var args := Split(arguments);
      if |args| > 0 {
        return;
      }
      Send(respondTarget, Text(HaikuRefusal));
    }

    /** `_do_replay` */
    method DoReplay(respondTarget: string, nick: string, randomLine: string -> Option<string>)
      modifies this
      ensures sent == old(sent) + [Outbound(respondTarget, Text(ReplayReply(nick, randomLine(nick))))]
      ensures corpus == old(corpus)
    {
      var line := randomLine(nick);
      if line.Some? {
        Send(respondTarget, Text(Quote(nick, line.value)));
      } else {
        Send(respondTarget, Text(nick + " has no history!"));
      }
    }

    /**
     * `_do_conv`: the retry loop looks for a directed line of `nick`, asking
     * the store at most twenty times; then the line is sent and the die
     * decides between the closing line and the next step.
     */
    method DoConv(respondTarget: string, nick: string, directed: nat -> Option<string>,
                  randomLine: string -> Option<string>, pos: nat, draws: seq<Die>)
      requires 0 in draws
      modifies this
      ensures sent == old(sent) + Addressed(respondTarget, Texts(Chain(nick, directed, randomLine, pos, draws)))
      ensures corpus == old(corpus)
      decreases |draws|
    {
      var lookup := FindDirected(directed, pos, MaxTries);
      if !lookup.Found? {
        assert Texts([]) == [] && Addressed(respondTarget, []) == [];
        return;
      }
      ChainStep(nick, directed, randomLine, pos, draws);
      var line := lookup.line;
      var first := Quote(nick, line);
      Send(respondTarget, Text(first));
      var nextNick := lookup.addressee;
      if draws[0] == 0 {
        var closing := randomLine(nextNick);
        Send(respondTarget, Text(Closing(nextNick, closing)));
        SentLines(respondTarget, first, [Closing(nextNick, closing)]);
        assert Addressed(respondTarget, Texts([Closing(nextNick, closing)]))
            == [Outbound(respondTarget, Text(Closing(nextNick, closing)))];
      } else {
        ghost var rest := Chain(nextNick, directed, randomLine, lookup.after, draws[1..]);
        ghost var head := [Outbound(respondTarget, Text(first))];
        ghost var before := sent;
        assert before == old(sent) + head;
        DoConv(respondTarget, nextNick, directed, randomLine, lookup.after, draws[1..]);
        ghost var tail := Addressed(respondTarget, Texts(rest));
        assert sent == before + tail;
        SentLines(respondTarget, first, rest);
        assert Addressed(respondTarget, Texts(Chain(nick, directed, randomLine, pos, draws))) == head + tail;
        ConcatAssoc(old(sent), head, tail);
      }
    }

    /** `_do_leaderboard` */
    method DoLeaderboard(respondTarget: string, arguments: string, metrics: map<string, string -> int>,
                         users: seq<string>)
      modifies this
      ensures sent == old(sent) + Addressed(respondTarget, BoardCommand(arguments, false, metrics, users))
      ensures corpus == old(corpus)
    {
      var args := Split(arguments);
      if |args| != 1 {
        return;
      }
      var statName := args[0];
      Rank(respondTarget, statName, false, metrics, users);
    }

    /** `_do_loserboard` */
    method DoLoserboard(respondTarget: string, arguments: string, metrics: map<string, string -> int>,
                        users: seq<string>)
      modifies this
      ensures sent == old(sent) + Addressed(respondTarget, BoardCommand(arguments, true, metrics, users))
      ensures corpus == old(corpus)
    {
      var args := Split(arguments);
      if |args| != 1 {
        return;
      }
      var statName := args[0];
      Rank(respondTarget, statName, true, metrics, users);
    }

    /** The counted loop of `_leaderboard`: send the first `num` entries as rows. */
    method SendRows(respondTarget: string, all: seq<Entry>, num: nat)
      requires num <= |all|
      modifies this
      ensures sent == old(sent) + Addressed(respondTarget, Rows(all[..num]))
      ensures corpus == old(corpus)
    {
      for i := 0 to num
        invariant sent == old(sent) + Addressed(respondTarget, Rows(all[..i]))
        invariant corpus == old(corpus)
      {
        ghost var done := Addressed(respondTarget, Rows(all[..i]));
        Send(respondTarget, Row(all[i].nick, all[i].score));
        assert all[..i + 1] == all[..i] + [all[i]];
        RowsAppend(all[..i], [all[i]]);
        AddressedAppend(respondTarget, Rows(all[..i]), Rows([all[i]]));
        ConcatAssoc(old(sent), done, Addressed(respondTarget, Rows([all[i]])));
      }
    }

    /**
     * `_leaderboard`: score every active user, sort, and send the header and
     * at most five rows.
     */
    method Rank(respondTarget: string, statName: string, reverse: bool,
                metrics: map<string, string -> int>, users: seq<string>)
      modifies this
      ensures sent == old(sent) + Addressed(respondTarget, BoardReply(statName, reverse, metrics, users))
      ensures corpus == old(corpus)
    {
      if statName == ExcludedMetric {
        return;
      }
      if statName !in metrics {
        return;
      }
      var statFunc := metrics[statName];
      var stats := ScoreAll(users, statFunc);
      var all := Sort(stats, !reverse);
      var name := "leaderboard";
      if reverse {
        name := "loserboard";
      }
      var header := Outbound(respondTarget, Text(name + " for " + statName + ":"));
      Send(respondTarget, header.body);
      var num := Min(|all|, BoardSize);
      SendRows(respondTarget, all, num);
      assert all[..num] == Board(users, statFunc, !reverse);
      AddressedAppend(respondTarget, [Text(Header(reverse, statName))], Rows(all[..num]));
      ConcatAssoc(old(sent), [header], Addressed(respondTarget, Rows(all[..num])));
    }
  }
}
