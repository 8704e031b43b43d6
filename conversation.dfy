/**
 * The conversation chain of `_do_conv`: pull a directed line of the current
 * nick (one containing a colon), reply with it, then either close with a
 * random line of the addressee or go on with the addressee as the new nick.
 *
 * The store and the die are oracles: `directed(k)` is the k-th answer the
 * store gives to `get_random_line_like(nick, channel, '%:%')` while the chain
 * runs, `randomLine(nick)` what `get_random_line(nick, channel)` returns, and
 * `draws` the successive values of `random.randint(0, 5)`.
 */
module Conversation {
  import opened Wrappers
  import opened PyStr
  import opened Commands

  /** The value of one `random.randint(0, 5)`. */
  newtype Die = d: int | 0 <= d <= 5

  /** How many times one step asks the store before giving up. */
  const MaxTries: nat := 20

  /**
   * `re.match('([^:]*):', line)` and its group 1: the text before the first
   * colon, present exactly when the line has a colon.
   */
  function MatchNick(line: string): (m: Option<string>)
    ensures m.Some? <==> ':' in line
    ensures m.Some? ==> ':' !in m.value && m.value + [':'] <= line
  {
    var i := Find(line, ':');
    if i == -1 then None
    else
      assert line[..i + 1] == line[..i] + [':'];
      Some(line[..i])
  }

  /** How one step's search for a directed line ends. */
  datatype Lookup =
    | Found(line: string, addressee: string, after: nat)  // `after`: index of the next unused answer
    | NoHistory                                           // the store had no directed line at all
    | GaveUp                                              // the attempt counter reached zero

  /**
   * The retry loop of `_do_conv` when `tries` attempts remain and the next
   * answer of the store is `directed(pos)`: a missing line ends the search,
   * the attempt that brings the counter to zero gives up whatever it got,
   * and a line with a colon is taken.
   */
  function Search(directed: nat -> Option<string>, pos: nat, tries: nat): Lookup
    requires tries >= 1
    decreases tries
  {
    match directed(pos)
    case None => NoHistory
    case Some(line) =>
      if tries == 1 then GaveUp
      else match MatchNick(line)
        case Some(next) => Found(line, next, pos + 1)
        case None => Search(directed, pos + 1, tries - 1)
  }

  /** One attempt, with another still left after it, on a line the store returned. */
  lemma SearchAfterLine(directed: nat -> Option<string>, pos: nat, tries: nat)
    requires tries >= 2 && directed(pos).Some?
    ensures var m := MatchNick(directed(pos).value);
      && (m.Some? ==> Search(directed, pos, tries) == Found(directed(pos).value, m.value, pos + 1))
      && (m.None? ==> Search(directed, pos, tries) == Search(directed, pos + 1, tries - 1))
  {
  }

  /** An answer that is a line without a colon. */
  predicate Miss(answer: Option<string>)
  {
    answer.Some? && ':' !in answer.value
  }

  /** The `k` answers from `pos` on are all lines without a colon. */
  ghost predicate Misses(directed: nat -> Option<string>, pos: nat, k: nat)
  {
    forall j :: pos <= j < pos + k ==> Miss(directed(j))
  }

  /** The first directed line is taken if it comes before the last attempt. */
  lemma {:induction false} SearchTakesFirstDirected(directed: nat -> Option<string>, pos: nat, tries: nat, k: nat)
    requires k + 1 < tries
    requires Misses(directed, pos, k)
    requires directed(pos + k).Some? && ':' in directed(pos + k).value
    ensures var line := directed(pos + k).value;
      Search(directed, pos, tries) == Found(line, MatchNick(line).value, pos + k + 1)
    decreases tries
  {
    if k > 0 {
      SearchTakesFirstDirected(directed, pos + 1, tries - 1, k - 1);
    }
  }

  /** A missing line within the attempts ends the search with nothing. */
  lemma {:induction false} SearchStopsOnMissing(directed: nat -> Option<string>, pos: nat, tries: nat, k: nat)
    requires k < tries
    requires Misses(directed, pos, k)
    requires directed(pos + k).None?
    ensures Search(directed, pos, tries) == NoHistory
    decreases tries
  {
    if k > 0 {
      SearchStopsOnMissing(directed, pos + 1, tries - 1, k - 1);
    }
  }

  /**
   * After `tries - 1` lines without a colon the last attempt gives up, even
   * when the line it gets does have a colon.
   */
  lemma {:induction false} SearchGivesUp(directed: nat -> Option<string>, pos: nat, tries: nat)
    requires tries >= 1
    requires Misses(directed, pos, tries - 1)
    requires directed(pos + tries - 1).Some?
    ensures Search(directed, pos, tries) == GaveUp
    decreases tries
  {
    if tries > 1 {
      SearchGivesUp(directed, pos + 1, tries - 1);
    }
  }

  /**
   * Conversely, a found line is the first answer with a colon, it came
   * before the last attempt, and every earlier answer was a line without a
   * colon; so a step asks the store at most `tries - 1` times when it
   * succeeds.
   */
  lemma {:induction false} FoundIsFirstDirected(directed: nat -> Option<string>, pos: nat, tries: nat)
    requires tries >= 1 && Search(directed, pos, tries).Found?
    ensures var f := Search(directed, pos, tries);
      && pos < f.after <= pos + tries - 1
      && Misses(directed, pos, f.after - pos - 1)
      && directed(f.after - 1) == Some(f.line)
      && MatchNick(f.line) == Some(f.addressee)
    decreases tries
  {
    var line := directed(pos).value;
    if MatchNick(line).None? {
      FoundIsFirstDirected(directed, pos + 1, tries - 1);
      var f := Search(directed, pos + 1, tries - 1);
    }
  }

  /** The closing line: `"<{}> {}".format(next_nick, line)`, where a missing line prints as `None`. */
  function Closing(next: string, line: Option<string>): string
  {
    Quote(next, if line.Some? then line.value else "None")
  }

  /** Index of the first 0 among the draws. */
  function FirstZero(draws: seq<Die>): (k: nat)
    requires 0 in draws
    ensures k < |draws| && draws[k] == 0 && 0 !in draws[..k]
  {
    if draws[0] == 0 then 0
    else
      assert draws == [draws[0]] + draws[1..];
      var k := FirstZero(draws[1..]);
      assert draws[..k + 1] == [draws[0]] + draws[1..][..k];
      k + 1
  }

  /**
   * The lines `_do_conv` sends for `nick`, starting at answer `pos`: each
   * successful step sends `<nick> line`; on a draw of 0 the addressee's random
   * line closes the chain, otherwise the chain goes on with the addressee.
   * The model covers the runs in which the die eventually shows 0.
   */
  function Chain(nick: string, directed: nat -> Option<string>, randomLine: string -> Option<string>,
                 pos: nat, draws: seq<Die>): (lines: seq<string>)
    requires 0 in draws
    ensures lines == [] <==> !Search(directed, pos, MaxTries).Found?
    decreases |draws|
  {
    match Search(directed, pos, MaxTries)
    case Found(line, next, after) =>
      [Quote(nick, line)] +
      if draws[0] == 0 then [Closing(next, randomLine(next))]
      else
        assert draws == [draws[0]] + draws[1..];
        Chain(next, directed, randomLine, after, draws[1..])
    case _ => []
  }

  /** One step of the chain: the directed line, then the closing line or the rest of the chain. */
  lemma ChainStep(nick: string, directed: nat -> Option<string>, randomLine: string -> Option<string>,
                  pos: nat, draws: seq<Die>)
    requires 0 in draws && Search(directed, pos, MaxTries).Found?
    ensures var f := Search(directed, pos, MaxTries);
      && (draws[0] != 0 ==> 0 in draws[1..])
      && Chain(nick, directed, randomLine, pos, draws) ==
        [Quote(nick, f.line)] +
        if draws[0] == 0 then [Closing(f.addressee, randomLine(f.addressee))]
        else Chain(f.addressee, directed, randomLine, f.after, draws[1..])
  {
    assert draws == [draws[0]] + draws[1..];
  }

  /** One successful step of a chain: who spoke, the directed line, and its addressee. */
  datatype Step = Step(speaker: string, line: string, addressee: string)

  /** The successful steps of the chain, in order. */
  function Walk(nick: string, directed: nat -> Option<string>, pos: nat, draws: seq<Die>): seq<Step>
    requires 0 in draws
    decreases |draws|
  {
    match Search(directed, pos, MaxTries)
    case Found(line, next, after) =>
      [Step(nick, line, next)] +
      if draws[0] == 0 then []
      else
        assert draws == [draws[0]] + draws[1..];
        Walk(next, directed, after, draws[1..])
    case _ => []
  }

  /** Whether the chain ends on a 0 draw (rather than on a failed search). */
  predicate Closes(nick: string, directed: nat -> Option<string>, pos: nat, draws: seq<Die>)
    requires 0 in draws
    decreases |draws|
  {
    match Search(directed, pos, MaxTries)
    case Found(line, next, after) =>
      draws[0] == 0 ||
      (assert draws == [draws[0]] + draws[1..];
       Closes(next, directed, after, draws[1..]))
    case _ => false
  }

  /** The speaker at each step is the previous step's addressee, starting from `nick`. */
  ghost predicate Linked(nick: string, w: seq<Step>)
  {
    && (w != [] ==> w[0].speaker == nick)
    && (forall i :: 0 < i < |w| ==> w[i].speaker == w[i - 1].addressee)
    && (forall i :: 0 <= i < |w| ==> MatchNick(w[i].line) == Some(w[i].addressee))
  }

  /**
   * The steps of a chain: each speaker answers the previous addressee, each
   * line is directed at its addressee (the text before its first colon), and
   * there is one step per draw up to and including the first 0 exactly when
   * the chain closes, fewer when a search fails.
   */
  lemma {:induction false} WalkShape(nick: string, directed: nat -> Option<string>, pos: nat, draws: seq<Die>)
    requires 0 in draws
    ensures var w := Walk(nick, directed, pos, draws);
      && Linked(nick, w)
      && |w| <= FirstZero(draws) + 1
      && (Closes(nick, directed, pos, draws) <==> |w| == FirstZero(draws) + 1)
    decreases |draws|
  {
    var f := Search(directed, pos, MaxTries);
    if f.Found? {
      FoundIsFirstDirected(directed, pos, MaxTries);
      if draws[0] != 0 {
        var rest := draws[1..];
        WalkStep(nick, directed, pos, draws);
        WalkShape(f.addressee, directed, f.after, rest);
        var w' := Walk(f.addressee, directed, f.after, rest);
        var w := [Step(nick, f.line, f.addressee)] + w';
        forall i | 1 < i < |w| ensures w[i].speaker == w[i - 1].addressee {
          assert w[i] == w'[i - 1] && w[i - 1] == w'[i - 2];
        }
        forall i | 0 < i < |w| ensures MatchNick(w[i].line) == Some(w[i].addressee) {
          assert w[i] == w'[i - 1];
        }
      }
    }
  }

  /** One step of the walk and of its closing test, as `ChainStep` is for the lines. */
  lemma WalkStep(nick: string, directed: nat -> Option<string>, pos: nat, draws: seq<Die>)
    requires 0 in draws && Search(directed, pos, MaxTries).Found? && draws[0] != 0
    ensures var f := Search(directed, pos, MaxTries);
      && 0 in draws[1..] && FirstZero(draws) == FirstZero(draws[1..]) + 1
      && Walk(nick, directed, pos, draws) == [Step(nick, f.line, f.addressee)] + Walk(f.addressee, directed, f.after, draws[1..])
      && (Closes(nick, directed, pos, draws) <==> Closes(f.addressee, directed, f.after, draws[1..]))
  {
    assert draws == [draws[0]] + draws[1..];
  }

  /** The last step of the walk: a failed search ends it with nothing, a 0 draw closes it. */
  lemma WalkEnds(nick: string, directed: nat -> Option<string>, randomLine: string -> Option<string>,
                 pos: nat, draws: seq<Die>)
    requires 0 in draws
    requires !Search(directed, pos, MaxTries).Found? || draws[0] == 0
    ensures var f := Search(directed, pos, MaxTries);
      if f.Found? then
        && Walk(nick, directed, pos, draws) == [Step(nick, f.line, f.addressee)]
        && Chain(nick, directed, randomLine, pos, draws) == [Quote(nick, f.line), Closing(f.addressee, randomLine(f.addressee))]
        && Closes(nick, directed, pos, draws)
      else
        && Walk(nick, directed, pos, draws) == []
        && Chain(nick, directed, randomLine, pos, draws) == []
        && !Closes(nick, directed, pos, draws)
  {
  }

  /**
   * What the chain sends, step by step: one `<speaker> line` per successful
   * step and, when the chain closes, exactly one more line, the closing line
   * of the last addressee (sent even when the addressee has no line, as
   * `None`). So a chain that closes sends one line more than it has steps.
   */
  lemma {:induction false} ChainFollowsWalk(nick: string, directed: nat -> Option<string>,
                                             randomLine: string -> Option<string>, pos: nat, draws: seq<Die>)
    requires 0 in draws
    ensures var w := Walk(nick, directed, pos, draws);
      var lines := Chain(nick, directed, randomLine, pos, draws);
      && |lines| == |w| + (if Closes(nick, directed, pos, draws) then 1 else 0)
      && (forall i :: 0 <= i < |w| ==> lines[i] == Quote(w[i].speaker, w[i].line))
      && (Closes(nick, directed, pos, draws) ==>
            w != [] && lines[|w|] == Closing(w[|w| - 1].addressee, randomLine(w[|w| - 1].addressee)))
    decreases |draws|
  {
    var f := Search(directed, pos, MaxTries);
    if f.Found? && draws[0] != 0 {
      var rest := draws[1..];
      WalkStep(nick, directed, pos, draws);
      ChainStep(nick, directed, randomLine, pos, draws);
      ChainFollowsWalk(f.addressee, directed, randomLine, f.after, rest);
      var w' := Walk(f.addressee, directed, f.after, rest);
      var lines' := Chain(f.addressee, directed, randomLine, f.after, rest);
      var w := [Step(nick, f.line, f.addressee)] + w';
      var lines := [Quote(nick, f.line)] + lines';
      forall i | 0 < i < |w| ensures lines[i] == Quote(w[i].speaker, w[i].line) {
        assert lines[i] == lines'[i - 1] && w[i] == w'[i - 1];
      }
      if Closes(f.addressee, directed, f.after, rest) {
        assert w'[|w'| - 1] == w[|w| - 1];
        assert lines[|w|] == lines'[|w'|];
      }
    } else {
      WalkEnds(nick, directed, randomLine, pos, draws);
    }
  }

  /**
   * A nick whose store answers "no directed line" at once gets no reply, and
   * so does one whose first nineteen answers are all lines without a colon.
   */
  lemma NoDirectedHistorySendsNothing(nick: string, directed: nat -> Option<string>,
                                      randomLine: string -> Option<string>, pos: nat, draws: seq<Die>)
    requires 0 in draws
    requires directed(pos).None? || (Misses(directed, pos, MaxTries - 1) && directed(pos + MaxTries - 1).Some?)
    ensures Chain(nick, directed, randomLine, pos, draws) == []
  {
    if directed(pos).None? {
      SearchStopsOnMissing(directed, pos, MaxTries, 0);
    } else {
      SearchGivesUp(directed, pos, MaxTries);
    }
  }
}
