# rehaiku-bot decision core, modelled in Dafny

The rehaiku bot sits in an IRC channel, records what people say, and answers
commands by replaying recorded lines, chaining them into a made-up
conversation, or ranking users by a statistic. This project models the
decision logic of the `RehaikuBot` class (`rehaiku_bot.py`) and proves
properties of it:

- **Message classification** (`_get_cmd`, `_process_msg`, `_process_text`).
  A line is a command, a corpus line to store, or dropped. The command name
  and arguments are split at the first space.
- **Dispatch** (`_process_cmd`). An explicit table maps each of the nine
  command names to its `_do_<name>` handler. The model includes the
  handlers that answer with a fixed line (`_do_haiku`, `_do_replay`).
- **Conversation chaining** (`_do_conv`). A loop of at most 20 store queries
  looks for a directed line (one containing a colon). The line is sent, and
  a die roll either closes the chain or recurses on the addressee.
- **Leaderboard** (`_do_leaderboard`, `_do_loserboard`, `_leaderboard`).
  It checks the arguments and the metric, scores every active user, sorts
  them, and sends a header and at most five rows.

Files, one module each:

- `wrappers.dfy`: `Option`.
- `pystr.dfy`: the Python `str` operations the code uses (`isspace`,
  `strip`, `split`, `find`, `s[:1]`).
- `commands.dfy`: the vocabulary, the handler table, the haiku and replay
  replies, and the outbound message type.
- `classifier.dfy`: `_get_cmd` and the routing of `_process_msg`.
- `conversation.dfy`: the specification of `_do_conv`.
- `ranking.dfy`: the specification of `_leaderboard`.
- `bot.dfy`: the `RehaikuBot` class. Its fields are the log of sent
  messages and the stored corpus lines. Its methods use loops and recursion
  where the source does, and each is proved against the functions above.

The bot's collaborators are inputs:

- Configuration is a `Config` value: the command prefix (one character) and
  the set of ignored prefixes (strings compared with `text[:1]`).
- Store reads, the die and the metric module are an `Oracle` value.
  `randomLine(nick)` is what `get_random_line(nick, channel)` returns.
  `directed(k)` is the k-th answer of `get_random_line_like` during the
  chain. `draws` are the successive `random.randint(0, 5)` values. `metrics`
  maps a metric name to its scoring function. `users` are the active users.
- The subject nick that the nick-resolving decorator passes to `_do_replay`
  and `_do_conv` is the input `nick`.

Behaviour of the code that is easy to misread, and that the model keeps:

- The closing line of a conversation is sent even when the addressee has no
  recorded line. It then reads `<nick> None` (Python formats the value
  `None`). It is not dropped.
- The space that splits a command is searched for in the original text. The
  name is not separated by splitting the prefix-stripped text. The result
  is the same unless the prefix character is itself a space; then no line
  is ever a command (`Classifier.SpacePrefixNeverCommands`).
- The name of a command without a space is not stripped. So `!haiku` followed
  by a tab is not the `haiku` command.
- The 20th store query ends the search even when it returns a directed line.
  So a step succeeds only with a directed line among the first 19 answers.

## Model

| member | source | states |
|---|---|---|
| `PyStr.Find` | rehaiku_bot.py:62 | `find(' ')` gives the index of the first occurrence, or -1 exactly when the character is absent |
| `PyStr.FindFirst` | rehaiku_bot.py:62 | an occurrence with none before it is the index `find` returns |
| `PyStr.Strip` | rehaiku_bot.py:67-68 | the result of `strip()` is no longer than its input and neither starts nor ends with whitespace |
| `PyStr.StripIsSlice` | rehaiku_bot.py:67-68 | `strip()` removes only whitespace: its result is the slice of the text between a whitespace prefix and a whitespace suffix |
| `PyStr.LeadingSpaces` | rehaiku_bot.py:67-68 | the number of leading whitespace characters: all of them are whitespace and the next character is not |
| `PyStr.TrailingStart` | rehaiku_bot.py:67-68 | where the trailing whitespace starts: everything from there is whitespace and the character before it is not |
| `PyStr.StripSpaceSuffix` | rehaiku_bot.py:67 | a trailing space does not change the stripped text, which is why the off-by-one slice still gives the right name |
| `PyStr.StripNoSpace` | rehaiku_bot.py:67 | text without whitespace is its own stripped form |
| `PyStr.TokenLen` | rehaiku_bot.py:90 | the length of the run of non-whitespace characters that starts a string |
| `PyStr.IsSpace` | rehaiku_bot.py:67-68 | the characters `str.isspace` accepts, which `strip()` and `split()` treat as whitespace |
| `PyStr.Head` | rehaiku_bot.py:61 | `s[:1]` is the first character as a string, or empty for empty text (also used for the ignore test at line 50) |
| `PyStr.Split` | rehaiku_bot.py:90 | `split()` gives tokens that are non-empty and contain no whitespace |
| `PyStr.Gaps` | rehaiku_bot.py:90 | the whitespace around and between the tokens of `split()`, one more gap than tokens |
| `PyStr.SplitGaps` | rehaiku_bot.py:90 | every text is its gaps interleaved with its tokens; the gaps are whitespace, and a gap between two tokens is never empty |
| `PyStr.SplitOfInterleave` | rehaiku_bot.py:90 | conversely, whitespace gaps and whitespace-free tokens, with a non-empty gap between tokens, split back into exactly those tokens; so the tokens are the maximal non-whitespace runs |
| `PyStr.SplitSingle` | rehaiku_bot.py:152-153 | `split()` gives exactly the one token `w` exactly when the text is `w`, non-empty and whitespace-free, with only whitespace around it |
| `PyStr.SplitKeepsVisible` | rehaiku_bot.py:152 | the tokens of `split()`, joined, are exactly the non-whitespace characters of the text |
| `PyStr.SplitEmptyIff` | rehaiku_bot.py:90-92 | `split()` has no tokens exactly when the text is all whitespace |
| `Commands.Vocabulary` | rehaiku_bot.py:21 | the nine command names of `self.cmds`, in the source's order |
| `Commands.Name` | rehaiku_bot.py:79 | the command name whose `'_do_' + cmd` method is the handler |
| `Commands.Handler` | rehaiku_bot.py:77-79 | the handler table has an entry exactly for the names of the vocabulary, and each entry's name is the name looked up |
| `Commands.HandlerOfName` | rehaiku_bot.py:21 | every handler's name is in the vocabulary and maps back to that handler |
| `Commands.StatKey` | rehaiku_bot.py:82-86 | exactly the four statistics handlers return a metric key, and each returns its own command name: `stats` here, and `pretentious`, `percentlol` and `spammy` at lines 197-215 |
| `Commands.HaikuRefusal` | rehaiku_bot.py:96 | the refusal line `_do_haiku` sends |
| `Commands.HaikuReply` | rehaiku_bot.py:89-96 | haiku sends nothing when the arguments hold a non-whitespace character, and otherwise exactly the refusal line once |
| `Commands.Quote` | rehaiku_bot.py:105 | the `"<{}> {}".format(nick, line)` line, also used at lines 131 and 140 |
| `Commands.ReplayReply` | rehaiku_bot.py:99-107 | replay's one line is `<nick> line` when the store has a line, else `nick has no history!` |
| `Classifier.GetCmd` | rehaiku_bot.py:60-74 | a command is returned only when the text's first character is the prefix and the parsed name is in the vocabulary |
| `Classifier.NoPrefixNoCommand` | rehaiku_bot.py:60-74 | text that does not start with the prefix (including empty text) never yields a command |
| `Classifier.SplitAtFirstSpace` | rehaiku_bot.py:62-70 | with the first space after `before`, the name is `before` stripped and the arguments are the text after that space, stripped; a command results exactly when that name is known |
| `Classifier.SplitWithoutSpace` | rehaiku_bot.py:62-70 | with no space, the name is everything after the prefix (unstripped) and the arguments are empty |
| `Classifier.BareCommand` | rehaiku_bot.py:60-72 | `<prefix><name>` yields `(name, "")` for every known name |
| `Classifier.WordThenArguments` | rehaiku_bot.py:62-70 | `<prefix><word> <rest>` with a whitespace-free word is the command `word` with `rest` stripped, exactly when the word is known |
| `Classifier.CommandWithArguments` | rehaiku_bot.py:60-72 | `<prefix><name> <rest>` yields `(name, strip(rest))` for every known name |
| `Classifier.VocabularyHasNoSpace` | rehaiku_bot.py:21 | no vocabulary name is empty or contains whitespace |
| `Classifier.SpacePrefixNeverCommands` | rehaiku_bot.py:61-70 | with a space as prefix no line is a command, since the name is always empty |
| `Classifier.Route` | rehaiku_bot.py:45-51 | a line is invoked exactly when it parses as a command, with the parsed name and arguments; otherwise it is recorded exactly when `text[:1]` is not an ignored prefix, and dropped exactly when it is |
| `Classifier.UnknownCommandIsText` | rehaiku_bot.py:47-51 | a prefixed line naming no known command is recorded unless the prefix character itself is ignored |
| `Conversation.MaxTries` | rehaiku_bot.py:114 | the 20 queries a conversation step allows itself |
| `Conversation.MatchNick` | rehaiku_bot.py:120 | the match succeeds exactly when the line has a colon, and its group is the colon-free text before the first colon |
| `Conversation.Search` | rehaiku_bot.py:113-129 | the retry loop as a function of the store's answers and the attempts left; its properties are the lemmas below, and `Bot.FindDirected` is the loop itself |
| `Conversation.SearchTakesFirstDirected` | rehaiku_bot.py:113-129 | after k colon-free lines, a directed line that comes before the last attempt is the one taken, with its addressee, after k+1 queries |
| `Conversation.SearchAfterLine` | rehaiku_bot.py:116-129 | one attempt on a returned line, with an attempt still left after it: a colon takes the line and its addressee, else the search moves to the next answer with one attempt fewer |
| `Conversation.SearchStopsOnMissing` | rehaiku_bot.py:116-119 | a missing answer within the attempts ends the step with nothing |
| `Conversation.SearchGivesUp` | rehaiku_bot.py:122-129 | after 19 colon-free lines the 20th query gives up, even when its line has a colon |
| `Conversation.FoundIsFirstDirected` | rehaiku_bot.py:113-129 | a found line is the first answer with a colon and came within the first 19 queries, after colon-free lines only |
| `Conversation.Closing` | rehaiku_bot.py:138-141 | the closing line `<next_nick> line`, with a missing line formatted as `None` |
| `Conversation.FirstZero` | rehaiku_bot.py:135 | the position of the first 0 among the die draws |
| `Conversation.Chain` | rehaiku_bot.py:109-143 | a chain sends something exactly when its first search finds a directed line |
| `Conversation.ChainStep` | rehaiku_bot.py:131-143 | a successful step sends `<nick> line`, then either the closing line of the addressee (draw 0, `None` shown as text) or the chain of the addressee |
| `Conversation.Walk` | rehaiku_bot.py:131-143 | the successful steps of a conversation (speaker, directed line, addressee), in order, up to the 0 draw or the failed search |
| `Conversation.Closes` | rehaiku_bot.py:134-141 | whether the conversation ends on a 0 draw with a closing line, rather than on a failed search |
| `Conversation.WalkShape` | rehaiku_bot.py:131-143 | each step's speaker is the previous addressee and each addressee is the text before its line's first colon; there are at most as many steps as draws up to the first 0, and exactly that many when the chain closes |
| `Conversation.ChainFollowsWalk` | rehaiku_bot.py:131-143 | the chain sends one `<speaker> line` per step and, when it closes, exactly one more line, the last addressee's closing line; so a closing chain sends steps + 1 lines |
| `Conversation.NoDirectedHistorySendsNothing` | rehaiku_bot.py:115-129 | a nick with no directed history, or with 19 colon-free answers in a row, gets no reply at all |
| `Ranking.BoardSize` | rehaiku_bot.py:192 | at most 5 rows are shown |
| `Ranking.ExcludedMetric` | rehaiku_bot.py:174 | `pretentious` is never ranked |
| `Ranking.Insert` | rehaiku_bot.py:187 | inserting adds exactly that entry (as a multiset) |
| `Ranking.InsertOrdered` | rehaiku_bot.py:187 | inserting into an ordered sequence keeps it ordered |
| `Ranking.Sort` | rehaiku_bot.py:187 | `sorted` by score returns a permutation of the items ordered in the requested direction |
| `Ranking.Scores` | rehaiku_bot.py:182-185 | the dictionary's items are the active users, in order, each with its score |
| `Ranking.BoardRowsAreScoredUsers` | rehaiku_bot.py:182-194 | every row is an active user with that user's score |
| `Ranking.BoardNicksDistinct` | rehaiku_bot.py:183-187 | with distinct active users, no user has two rows |
| `Ranking.BoardIsTop` | rehaiku_bot.py:187-194 | an active user left off the board ranks no better than any user on it |
| `Ranking.BoardIsTopRanked` | rehaiku_bot.py:182-194 | the board has min(n, 5) rows in score order, with distinct active users and their scores, and holds the top of the ranking |
| `Ranking.Board` | rehaiku_bot.py:187-193 | the first `min(len(all), 5)` of the sorted items; its properties are `Ranking.BoardIsTopRanked` and the lemmas it combines |
| `Ranking.Header` | rehaiku_bot.py:188-191 | `leaderboard for X:`, or `loserboard for X:` when reversed |
| `Ranking.Rows` | rehaiku_bot.py:193-194 | one row per entry, the entry's nick with its score |
| `Ranking.BoardReply` | rehaiku_bot.py:173-194 | nothing is sent exactly when the metric is `pretentious` or unknown |
| `Ranking.BoardCommand` | rehaiku_bot.py:149-170 | nothing is sent exactly when the arguments are not one token, or the token is `pretentious` or an unknown metric; `PyStr.SplitSingle` says when the arguments are one token |
| `Ranking.BoardReplyShape` | rehaiku_bot.py:182-194 | on success the header `leaderboard for X:` or `loserboard for X:` comes first, then min(n, 5) rows of active users with their scores, non-increasing for the leaderboard and non-decreasing for the loserboard |
| `Commands.Texts` | rehaiku_bot.py:96 | each line becomes one text message, in order |
| `Commands.Addressed` | rehaiku_bot.py:96 | each body becomes one message to the reply target, in order |
| `Bot.Reply` | rehaiku_bot.py:77-79 | statistics handlers send nothing themselves, and replay always sends exactly one line |
| `Bot.FindDirected` | rehaiku_bot.py:113-129 | the retry loop, with its `tries` counter starting at the bound (20 at the one call site), ends as the search specification says |
| `Bot.ScoreAll` | rehaiku_bot.py:183-185 | the scoring loop builds exactly the dictionary's items |
| `Bot.RehaikuBot.constructor` | rehaiku_bot.py:18-22 | a new bot has sent nothing and stored nothing |
| `Bot.RehaikuBot.Send` | rehaiku_bot.py:96 | one `privmsg` appends one message to the log and leaves the corpus alone |
| `Bot.RehaikuBot.ProcessMsg` | rehaiku_bot.py:45-51 | a command's replies are sent and nothing is stored; a corpus line is stored once with the original text and nothing is sent; a dropped line changes nothing |
| `Bot.RehaikuBot.ProcessText` | rehaiku_bot.py:54-57 | exactly one line (sender, channel, original text) is appended to the corpus |
| `Bot.RehaikuBot.ProcessCmd` | rehaiku_bot.py:77-79 | the table's handler runs, its replies are sent, and a statistics handler's key is returned |
| `Bot.RehaikuBot.DoHaiku` | rehaiku_bot.py:89-96 | sends the haiku reply |
| `Bot.RehaikuBot.DoReplay` | rehaiku_bot.py:99-107 | sends exactly the one replay line |
| `Bot.RehaikuBot.DoConv` | rehaiku_bot.py:109-143 | the recursive handler sends exactly the chain's lines, in order |
| `Bot.RehaikuBot.DoLeaderboard` | rehaiku_bot.py:149-158 | sends the leaderboard reply for the arguments |
| `Bot.RehaikuBot.DoLoserboard` | rehaiku_bot.py:161-170 | sends the loserboard reply for the arguments |
| `Bot.RehaikuBot.SendRows` | rehaiku_bot.py:192-194 | the counted loop sends the first `num` entries as rows, in order |
| `Bot.RehaikuBot.Rank` | rehaiku_bot.py:173-194 | sends exactly the board reply: nothing on rejection, else the header and the sorted top rows |

## Left out

- IRC plumbing is not modelled: connecting, `on_welcome`, `on_join`, `on_pubmsg`, `on_privmsg` (which ignores private messages) and the `super().__init__` call. Sending is an appended log.
- Logging is not modelled, and neither is the unreachable `logger.error` branch of `_do_conv`.
- The text store is not modelled: its storage, its randomness and the SQL `LIKE '%:%'` pattern. Its answers are oracle inputs. The `directed` answers form one stream and are not keyed by nick or channel. A store answer does not depend on what `add_line` stored earlier.
- `decorators.py` is not part of this model. The subject nick is an input, and the argument-count check of the nick decorator is not modelled.
- Bot.Reply: the statistics commands (`stats`, `pretentious`, `percentlol`, `spammy`) send nothing in the model. In the source their decorator computes the metric, formats it and sends it, and that wrapper is not part of this model.
- Bot.RehaikuBot.ProcessCmd: as for `Bot.Reply`, statistics commands only return their metric key.
- Bot.RehaikuBot.ProcessMsg: as for `Bot.Reply`, replies to statistics commands are not in the log.
- The `calculations` metric formulas are not modelled. Scores are plain integers, so `round(..., 2)` and all float formatting are absent. A row is sent as the pair (nick, score), not as the text of `"{:20}: {:6}"`.
- `user_utils.active_users` is given as a sequence. The board lemmas assume it has no duplicates, as a set of users would; with duplicates the source's dictionary would merge them.
- `random.randint(0, 5)` is given as a sequence of draws that contains a 0. A run that ends on a failed search before any 0 is drawn is covered by a sequence with a 0 after the draws that are used. Runs in which every search succeeds and the die never shows 0 are not covered.
- The recursive call at line 143 goes through the `@nick_command` wrapper (line 109) with `next_nick` as an extra argument. The model assumes the wrapper passes `next_nick` through unchanged as the subject nick.
- The expected chain length of five (the comment next to the die roll) is a probabilistic claim and is not stated.
- `Ranking.Sort` keeps equal scores in their original order, as Python's `sorted` does, but no lemma states this stability.
