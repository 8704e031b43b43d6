/**
 * The leaderboard of `_leaderboard`: score every active user with the chosen
 * metric, sort by score (highest first for the leaderboard, lowest first for
 * the loserboard) and show at most five of them under a header.
 *
 * Metrics are the functions of the statistics module, given as a map from
 * name to scoring function; scores are abstract integers.
 */
module Ranking {
  import opened PyStr
  import opened Commands

  /** One item of the `stats` dictionary: a nick and its score. */
  datatype Entry = Entry(nick: string, score: int)

  /** The number of rows a board shows at most. */
  const BoardSize: nat := 5

  /** The metric the boards refuse to rank. */
  const ExcludedMetric := "pretentious"

  /** `a` may come before `b`: a score no lower (descending) or no higher (ascending). */
  predicate Precedes(a: Entry, b: Entry, descending: bool)
  {
    if descending then a.score >= b.score else a.score <= b.score
  }

  ghost predicate Ordered(s: seq<Entry>, descending: bool)
  {
    forall i, j :: 0 <= i < j < |s| ==> Precedes(s[i], s[j], descending)
  }

  ghost predicate DistinctNicks(s: seq<Entry>)
  {
    forall i, j :: 0 <= i < j < |s| ==> s[i].nick != s[j].nick
  }

  ghost predicate NoDuplicates(users: seq<string>)
  {
    forall i, j :: 0 <= i < j < |users| ==> users[i] != users[j]
  }

  /** Insert `e` before the first entry it may precede (so ahead of equal scores). */
  function Insert(e: Entry, s: seq<Entry>, descending: bool): (r: seq<Entry>)
    ensures multiset(r) == multiset(s) + multiset{e}
  {
    if s == [] then [e]
    else if Precedes(e, s[0], descending) then [e] + s
    else
      assert s == [s[0]] + s[1..];
      [s[0]] + Insert(e, s[1..], descending)
  }

  /** An entry of the result of `Insert` is the inserted one or one already there. */
  lemma {:induction false} InsertMember(e: Entry, s: seq<Entry>, descending: bool, x: Entry)
    requires x in Insert(e, s, descending)
    ensures x == e || x in s
  {
    assert x in multiset(Insert(e, s, descending));
  }

  /** Putting in front an entry that may precede each entry keeps a sequence ordered. */
  lemma ConsOrdered(a: Entry, t: seq<Entry>, descending: bool)
    requires Ordered(t, descending)
    requires forall x :: x in t ==> Precedes(a, x, descending)
    ensures Ordered([a] + t, descending)
  {
    var r := [a] + t;
    forall i, j | 0 <= i < j < |r| ensures Precedes(r[i], r[j], descending) {
      assert r[j] == t[j - 1];
      if i > 0 {
        assert r[i] == t[i - 1];
      }
    }
  }

  /** Inserting into an ordered sequence keeps it ordered. */
  lemma {:induction false} InsertOrdered(e: Entry, s: seq<Entry>, descending: bool)
    requires Ordered(s, descending)
    ensures Ordered(Insert(e, s, descending), descending)
  {
    if s != [] && !Precedes(e, s[0], descending) {
      var t := Insert(e, s[1..], descending);
      assert Ordered(s[1..], descending) by {
        forall i, j | 0 <= i < j < |s| - 1 ensures Precedes(s[1..][i], s[1..][j], descending) {
          assert s[1..][i] == s[i + 1] && s[1..][j] == s[j + 1];
        }
      }
      InsertOrdered(e, s[1..], descending);
      forall x | x in t ensures Precedes(s[0], x, descending) {
        InsertMember(e, s[1..], descending, x);
        if x != e {
          var k :| 0 <= k < |s[1..]| && s[1..][k] == x;
          assert s[k + 1] == x;
        }
      }
      ConsOrdered(s[0], t, descending);
    }
  }

  /**
   * `sorted(items, key=score, reverse=descending)`: an insertion sort that,
   * like Python's, keeps equal scores in their original order.
   */
  function Sort(s: seq<Entry>, descending: bool): (r: seq<Entry>)
    ensures multiset(r) == multiset(s) && |r| == |s|
    ensures Ordered(r, descending)
  {
    if s == [] then []
    else
      assert s == [s[0]] + s[1..];
      var t := Sort(s[1..], descending);
      InsertOrdered(s[0], t, descending);
      Insert(s[0], t, descending)
  }

  /** The items of the `stats` dictionary, in the order the users were scored. */
  function Scores(users: seq<string>, metric: string -> int): (items: seq<Entry>)
    ensures |items| == |users|
    ensures forall i :: 0 <= i < |users| ==> items[i] == Entry(users[i], metric(users[i]))
  {
    if users == [] then [] else [Entry(users[0], metric(users[0]))] + Scores(users[1..], metric)
  }

  function Min(a: nat, b: nat): nat
  {
    if a <= b then a else b
  }

  /** The rows of the board: the first `min(n, 5)` of the sorted items. */
  function Board(users: seq<string>, metric: string -> int, descending: bool): seq<Entry>
  {
    var all := Sort(Scores(users, metric), descending);
    all[..Min(|all|, BoardSize)]
  }

  lemma {:induction false} TwiceInMultiset(s: seq<Entry>, i: nat, j: nat)
    requires i < j < |s| && s[i] == s[j]
    ensures multiset(s)[s[i]] >= 2
  {
    assert s == s[..j] + [s[j]] + s[j + 1..];
    assert s[i] in s[..j];
  }

  lemma {:induction false} ScoresOnce(users: seq<string>, metric: string -> int, e: Entry)
    requires NoDuplicates(users)
    ensures multiset(Scores(users, metric))[e] <= 1
  {
    if users != [] {
      var rest := Scores(users[1..], metric);
      assert Scores(users, metric) == [Entry(users[0], metric(users[0]))] + rest;
      assert NoDuplicates(users[1..]) by {
        forall i, j | 0 <= i < j < |users| - 1 ensures users[1..][i] != users[1..][j] {
          assert users[1..][i] == users[i + 1] && users[1..][j] == users[j + 1];
        }
      }
      ScoresOnce(users[1..], metric, e);
      if e == Entry(users[0], metric(users[0])) {
        forall k | 0 <= k < |rest| ensures rest[k] != e {
          assert rest[k].nick == users[k + 1] != users[0];
        }
        assert e !in rest;
      }
    }
  }

  /** Every row of the board is an active user scored with the metric. */
  lemma {:induction false} BoardRowsAreScoredUsers(users: seq<string>, metric: string -> int, descending: bool)
    ensures var b := Board(users, metric, descending);
      forall i :: 0 <= i < |b| ==> b[i].nick in users && b[i].score == metric(b[i].nick)
  {
    var items := Scores(users, metric);
    var all := Sort(items, descending);
    var b := Board(users, metric, descending);
    forall i | 0 <= i < |b| ensures b[i].nick in users && b[i].score == metric(b[i].nick) {
      assert b[i] == all[i];
      assert all[i] in multiset(items);
      var k :| 0 <= k < |items| && items[k] == all[i];
    }
  }

  /** With distinct active users, no user has two rows. */
  lemma {:induction false} BoardNicksDistinct(users: seq<string>, metric: string -> int, descending: bool)
    requires NoDuplicates(users)
    ensures DistinctNicks(Board(users, metric, descending))
  {
    var all := Sort(Scores(users, metric), descending);
    var b := Board(users, metric, descending);
    BoardRowsAreScoredUsers(users, metric, descending);
    forall i, j | 0 <= i < j < |b| ensures b[i].nick != b[j].nick {
      if b[i].nick == b[j].nick {
        assert b[i] == all[i] && b[j] == all[j];
        TwiceInMultiset(all, i, j);
        ScoresOnce(users, metric, all[i]);
      }
    }
  }

  /** In an ordered sequence, an entry outside its first `n` comes after each of them. */
  lemma {:induction false} OrderedBeyondPrefix(all: seq<Entry>, descending: bool, n: nat, i: nat, e: Entry)
    requires Ordered(all, descending) && i < n <= |all|
    requires e in all && e !in all[..n]
    ensures Precedes(all[i], e, descending)
  {
    assert forall k :: 0 <= k < n ==> all[k] == all[..n][k] != e;
    var q :| 0 <= q < |all| && all[q] == e;
    assert n <= q;
  }

  /** No active user left off the board ranks ahead of a user on it. */
  lemma {:induction false} BoardIsTop(users: seq<string>, metric: string -> int, descending: bool, u: string, i: nat)
    requires u in users
    requires var b := Board(users, metric, descending);
      i < |b| && forall k :: 0 <= k < |b| ==> b[k].nick != u
    ensures Precedes(Board(users, metric, descending)[i], Entry(u, metric(u)), descending)
  {
    var items := Scores(users, metric);
    var all := Sort(items, descending);
    var b := Board(users, metric, descending);
    var e := Entry(u, metric(u));
    var m :| 0 <= m < |users| && users[m] == u;
    assert items[m] == e;
    assert e in multiset(all);
    assert e !in b by {
      forall k | 0 <= k < |b| ensures b[k] != e {
        assert b[k].nick != u;
      }
    }
    OrderedBeyondPrefix(all, descending, |b|, i, e);
  }

  /**
   * The board is what `_leaderboard` promises: `min(n, 5)` rows, ordered by
   * score in the board's direction, each an active user with that user's
   * score, no user twice, and no user left off the board ranks ahead of a
   * user on it.
   */
  lemma BoardIsTopRanked(users: seq<string>, metric: string -> int, descending: bool)
    requires NoDuplicates(users)
    ensures var b := Board(users, metric, descending);
      && |b| == Min(|users|, BoardSize)
      && Ordered(b, descending)
      && (forall i :: 0 <= i < |b| ==> b[i].nick in users && b[i].score == metric(b[i].nick))
      && DistinctNicks(b)
      && (forall u, i :: u in users && 0 <= i < |b| && (forall k :: 0 <= k < |b| ==> b[k].nick != u)
            ==> Precedes(b[i], Entry(u, metric(u)), descending))
  {
    var b := Board(users, metric, descending);
    var all := Sort(Scores(users, metric), descending);
    assert forall i, j :: 0 <= i < j < |b| ==> b[i] == all[i] && b[j] == all[j];
    BoardRowsAreScoredUsers(users, metric, descending);
    BoardNicksDistinct(users, metric, descending);
    forall u, i | u in users && 0 <= i < |b| && (forall k :: 0 <= k < |b| ==> b[k].nick != u)
      ensures Precedes(b[i], Entry(u, metric(u)), descending)
    {
      BoardIsTop(users, metric, descending, u, i);
    }
  }

  /** The header line: `"leaderboard for X:"` or `"loserboard for X:"`. */
  function Header(reverse: bool, statName: string): string
  {
    (if reverse then "loserboard" else "leaderboard") + " for " + statName + ":"
  }

  function Rows(entries: seq<Entry>): (bs: seq<Body>)
    ensures |bs| == |entries|
    ensures forall i :: 0 <= i < |entries| ==> bs[i] == Row(entries[i].nick, entries[i].score)
  {
    if entries == [] then [] else [Row(entries[0].nick, entries[0].score)] + Rows(entries[1..])
  }

  lemma {:induction false} RowsAppend(a: seq<Entry>, b: seq<Entry>)
    ensures Rows(a + b) == Rows(a) + Rows(b)
  {
    if a != [] {
      assert (a + b)[1..] == a[1..] + b;
      RowsAppend(a[1..], b);
    }
  }

  /**
   * `_leaderboard(stat_name, reverse)`: nothing for the pretentiousness
   * metric or an unknown one; otherwise the header and the board, highest
   * scores first unless `reverse`.
   */
  function BoardReply(statName: string, reverse: bool, metrics: map<string, string -> int>,
                      users: seq<string>): (bs: seq<Body>)
    ensures bs == [] <==> statName == ExcludedMetric || statName !in metrics
  {
    if statName == ExcludedMetric || statName !in metrics then []
    else [Text(Header(reverse, statName))] + Rows(Board(users, metrics[statName], !reverse))
  }

  /**
   * `_do_leaderboard` (`reverse` false) and `_do_loserboard` (`reverse`
   * true): the arguments must be exactly one token, the metric name.
   */
  function BoardCommand(arguments: string, reverse: bool, metrics: map<string, string -> int>,
                        users: seq<string>): (bs: seq<Body>)
    ensures bs == [] <==> var ws := Split(arguments);
      |ws| != 1 || ws[0] == ExcludedMetric || ws[0] !in metrics
  {
    var ws := Split(arguments);
    if |ws| != 1 then [] else BoardReply(ws[0], reverse, metrics, users)
  }

  /**
   * A board that is sent has the header first and then `min(n, 5)` rows:
   * non-increasing scores for the leaderboard, non-decreasing for the
   * loserboard, each an active user with their score under that metric.
   */
  lemma BoardReplyShape(statName: string, reverse: bool, metrics: map<string, string -> int>, users: seq<string>)
    requires NoDuplicates(users)
    requires statName != ExcludedMetric && statName in metrics
    ensures var bs := BoardReply(statName, reverse, metrics, users);
      && |bs| == 1 + Min(|users|, BoardSize)
      && bs[0] == Text(Header(reverse, statName))
      && (forall i, j :: 1 <= i < j < |bs| ==>
            if reverse then bs[i].score <= bs[j].score else bs[i].score >= bs[j].score)
      && (forall i :: 1 <= i < |bs| ==>
            bs[i].Row? && bs[i].nick in users && bs[i].score == metrics[statName](bs[i].nick))
  {
    var b := Board(users, metrics[statName], !reverse);
    BoardIsTopRanked(users, metrics[statName], !reverse);
    HeaderThenRows(Text(Header(reverse, statName)), b, reverse, users, metrics[statName]);
  }

  /** A header followed by the rows of an ordered board of scored users. */
  lemma HeaderThenRows(h: Body, b: seq<Entry>, reverse: bool, users: seq<string>, metric: string -> int)
    requires Ordered(b, !reverse)
    requires forall i :: 0 <= i < |b| ==> b[i].nick in users && b[i].score == metric(b[i].nick)
    ensures var bs := [h] + Rows(b);
      && (forall i, j :: 1 <= i < j < |bs| ==>
            if reverse then bs[i].score <= bs[j].score else bs[i].score >= bs[j].score)
      && (forall i :: 1 <= i < |bs| ==>
            bs[i].Row? && bs[i].nick in users && bs[i].score == metric(bs[i].nick))
  {
    var bs := [h] + Rows(b);
    forall i, j | 1 <= i < j < |bs|
      ensures if reverse then bs[i].score <= bs[j].score else bs[i].score >= bs[j].score
    {
      assert bs[i] == Row(b[i - 1].nick, b[i - 1].score) && bs[j] == Row(b[j - 1].nick, b[j - 1].score);
      assert Precedes(b[i - 1], b[j - 1], !reverse);
    }
    forall i | 1 <= i < |bs|
      ensures bs[i].Row? && bs[i].nick in users && bs[i].score == metric(bs[i].nick)
    {
      assert bs[i] == Row(b[i - 1].nick, b[i - 1].score);
    }
  }
}
