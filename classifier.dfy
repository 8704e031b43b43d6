/**
 * Message classification: `_get_cmd` and the routing decision of
 * `_process_msg`.  A line is a command invocation, a corpus line to store, or
 * dropped.
 */
module Classifier {
  import opened Wrappers
  import opened PyStr
  import opened Commands

  /** The two settings the bot reads from its configuration module. */
  datatype Config = Config(cmdPrefix: char, ignorePrefixes: set<string>)

  /** A recognised command: its name and its stripped argument string. */
  datatype Parsed = Parsed(name: string, args: string)

  /**
   * `_get_cmd` as written: the first space is searched for in the ORIGINAL
   * text, and that index is then used to slice the text WITHOUT its prefix.
   */
  function GetCmd(prefix: char, cmds: seq<string>, text: string): (r: Option<Parsed>)
    ensures r.Some? ==> |text| > 0 && text[0] == prefix && r.value.name in cmds
  {
    if Head(text) == [prefix] then
      var boundary := Find(text, ' ');
      var rest := text[1..];
      var name := if boundary != -1 then Strip(rest[..boundary]) else rest;
      var arguments := if boundary != -1 then Strip(rest[boundary..]) else "";
      if name in cmds then Some(Parsed(name, arguments)) else None
    else None
  }

  /**
   * Despite the index being off by one for the stripped text, the result is
   * "name = text between the prefix and the first space, stripped;
   * arguments = text after that space, stripped", as long as the prefix is
   * not itself a space.
   */
  lemma SplitAtFirstSpace(prefix: char, cmds: seq<string>, before: string, after: string)
    requires prefix != ' ' && ' ' !in before
    ensures var name := Strip(before);
      GetCmd(prefix, cmds, [prefix] + before + [' '] + after)
        == if name in cmds then Some(Parsed(name, Strip(after))) else None
  {
    var text := [prefix] + before + [' '] + after;
    var b := |before| + 1;
    assert Head(text) == [prefix];
    assert text[..b] == [prefix] + before;
    FindFirst(text, ' ', b);
    var rest := text[1..];
    assert rest[..b] == before + [' '];
    StripSpaceSuffix(before, ' ');
    assert rest[b..] == after;
  }

  /** With no space at all, the whole text after the prefix is the name and the arguments are empty. */
  lemma SplitWithoutSpace(prefix: char, cmds: seq<string>, text: string)
    requires |text| > 0 && text[0] == prefix
    requires ' ' !in text
    ensures GetCmd(prefix, cmds, text) == if text[1..] in cmds then Some(Parsed(text[1..], "")) else None
  {
    assert text[..1] == [prefix];
  }

  /** A text that does not start with the prefix is never a command. */
  lemma NoPrefixNoCommand(prefix: char, cmds: seq<string>, text: string)
    requires text == [] || text[0] != prefix
    ensures GetCmd(prefix, cmds, text) == None
  {
  }

  /** `<prefix><name>` is the command `name` with no arguments. */
  lemma BareCommand(prefix: char, name: string)
    requires prefix != ' ' && name in Vocabulary
    ensures GetCmd(prefix, Vocabulary, [prefix] + name) == Some(Parsed(name, ""))
  {
    var text := [prefix] + name;
    assert ' ' !in name;
    assert text[1..] == name;
    SplitWithoutSpace(prefix, Vocabulary, text);
  }

  /** `<prefix><name> <rest>` is the command `name` with `rest` stripped as its arguments. */
  lemma CommandWithArguments(prefix: char, name: string, rest: string)
    requires prefix != ' ' && name in Vocabulary
    ensures GetCmd(prefix, Vocabulary, [prefix] + name + [' '] + rest) == Some(Parsed(name, Strip(rest)))
  {
    VocabularyHasNoSpace(name);
    WordThenArguments(prefix, Vocabulary, name, rest);
  }

  lemma WordThenArguments(prefix: char, cmds: seq<string>, name: string, rest: string)
    requires prefix != ' ' && NoSpace(name)
    ensures GetCmd(prefix, cmds, [prefix] + name + [' '] + rest)
         == if name in cmds then Some(Parsed(name, Strip(rest))) else None
  {
    assert IsSpace(' ');
    StripNoSpace(name);
    SplitAtFirstSpace(prefix, cmds, name, rest);
  }

  lemma VocabularyHasNoSpace(name: string)
    requires name in Vocabulary
    ensures NoSpace(name) && name != []
  {
    assert forall i :: 0 <= i < |name| ==> 'a' <= name[i] <= 'z';
  }

  /** With a space as the prefix the name is always empty, so no line is a command. */
  lemma SpacePrefixNeverCommands(text: string)
    ensures GetCmd(' ', Vocabulary, text) == None
  {
    if Head(text) == [' '] {
      FindFirst(text, ' ', 0);
      assert text[1..][..0] == [];
      assert Strip([]) == [];
      assert [] !in Vocabulary;
    }
  }

  /** What `_process_msg` does with a line. */
  datatype Action = Invoke(name: string, args: string) | Record | Drop

  /**
   * The routing of `_process_msg`: a recognised command is invoked; any other
   * line is recorded verbatim unless its first character (`text[:1]`) is one
   * of the ignored prefixes, in which case it is dropped.
   */
  function Route(cfg: Config, text: string): (a: Action)
    ensures a.Invoke? <==> GetCmd(cfg.cmdPrefix, Vocabulary, text).Some?
    ensures a.Invoke? ==> a.name in Vocabulary && |text| > 0 && text[0] == cfg.cmdPrefix
    ensures a.Invoke? ==> GetCmd(cfg.cmdPrefix, Vocabulary, text) == Some(Parsed(a.name, a.args))
    ensures a.Record? <==> GetCmd(cfg.cmdPrefix, Vocabulary, text).None? && Head(text) !in cfg.ignorePrefixes
    ensures a.Drop? <==> GetCmd(cfg.cmdPrefix, Vocabulary, text).None? && Head(text) in cfg.ignorePrefixes
  {
    match GetCmd(cfg.cmdPrefix, Vocabulary, text)
    case Some(p) => Invoke(p.name, p.args)
    case None => if Head(text) !in cfg.ignorePrefixes then Record else Drop
  }

  /**
   * A line that carries the prefix but names no known command is not a
   * command: it is recorded, prefix included, unless the prefix character
   * is itself ignored.
   */
  lemma UnknownCommandIsText(cfg: Config, text: string)
    requires |text| > 0 && text[0] == cfg.cmdPrefix
    requires GetCmd(cfg.cmdPrefix, Vocabulary, text).None?
    ensures Route(cfg, text) == if [cfg.cmdPrefix] in cfg.ignorePrefixes then Drop else Record
  {
    assert Head(text) == [cfg.cmdPrefix];
  }
}
