/**
 * The general chat handlers (app/telegram/routes/base.py): the text of
 * `/commands`, built from the bot's command list, and the Abort button, which
 * leaves any form and answers according to the aborted action.
 */
module BaseRoutes {
  import opened Text
  import opened Crud
  import opened Fsm

  /** A subcommand: its description and its command. */
  datatype SubCommand = SubCommand(description: string, command: string)

  /**
   * An entry of the command list. An absent `command` or `subcommands` key is
   * the empty value, which the handler's `.get` treats the same way.
   */
  datatype CommandEntry = CommandEntry(description: string, command: string, subcommands: seq<SubCommand>)

  /** The bot's command list (app/telegram/commands.py). */
  const COMMANDS_BOT: seq<CommandEntry> := [
    CommandEntry("Anime actions", "/anime", []),
    CommandEntry("Admin:", "", [SubCommand("Reload secrets", "/secrets_reload")])
  ]

  const COMMANDS_HEADER: string := "Available commands:"

  /** The two lines of a subcommand. */
  function SubText(s: SubCommand): string {
    ("\n  ● " + s.description) + ("\n  ○ " + s.command)
  }

  /** The lines of a group's subcommands, in order. */
  function SubsText(subs: seq<SubCommand>): string {
    if subs == [] then "" else SubsText(subs[..|subs| - 1]) + SubText(subs[|subs| - 1])
  }

  /** What one entry adds: a command, a group of subcommands, or nothing. */
  function EntryText(e: CommandEntry): string {
    if e.command != "" then ("\n● " + e.description) + ("\n○ " + e.command)
    else if e.subcommands != [] then ("\n- " + e.description) + SubsText(e.subcommands)
    else ""
  }

  function EntriesText(entries: seq<CommandEntry>): string {
    if entries == [] then "" else EntriesText(entries[..|entries| - 1]) + EntryText(entries[|entries| - 1])
  }

  /** The lines of a group's subcommands, appended to `text` one by one. */
  method AppendSubs(text: string, subs: seq<SubCommand>) returns (r: string)
    ensures r == text + SubsText(subs)
  {
    r := text;
    var j := 0;
    while j < |subs|
      invariant 0 <= j <= |subs|
      invariant r == text + SubsText(subs[..j])
    {
      assert subs[..j + 1][..j] == subs[..j];
      ghost var mid := r;
      r := r + ("\n  ● " + subs[j].description);
      r := r + ("\n  ○ " + subs[j].command);
      AppendAssoc(mid, "\n  ● " + subs[j].description, "\n  ○ " + subs[j].command);
      AppendAssoc(text, SubsText(subs[..j]), SubText(subs[j]));
      j := j + 1;
    }
    assert subs[..j] == subs;
  }

  /** One entry of the command list, appended to `text`. */
  method AppendEntry(text: string, entry: CommandEntry) returns (r: string)
    ensures r == text + EntryText(entry)
  {
    r := text;
    if entry.command != "" {
      r := r + ("\n● " + entry.description);
      r := r + ("\n○ " + entry.command);
      AppendAssoc(text, "\n● " + entry.description, "\n○ " + entry.command);
    } else if entry.subcommands != [] {
      r := r + ("\n- " + entry.description);
      r := AppendSubs(r, entry.subcommands);
      AppendAssoc(text, "\n- " + entry.description, SubsText(entry.subcommands));
    }
  }

  /** `commands_handler`: the text it answers, built entry by entry. */
  method CommandsHandler(entries: seq<CommandEntry>) returns (text: string)
    ensures text == COMMANDS_HEADER + EntriesText(entries)
  {
    text := COMMANDS_HEADER;
    var i := 0;
    while i < |entries|
      invariant 0 <= i <= |entries|
      invariant text == COMMANDS_HEADER + EntriesText(entries[..i])
    {
      assert entries[..i + 1][..i] == entries[..i];
      text := AppendEntry(text, entries[i]);
      AppendAssoc(COMMANDS_HEADER, EntriesText(entries[..i]), EntryText(entries[i]));
      i := i + 1;
    }
    assert entries[..i] == entries;
  }

  /** What the Abort handler does to the message: edit its text, or only remove the keyboard. */
  datatype AbortReply = EditText(text: string) | RemoveKeyboard

  function TitleLines(items: seq<Listed>): string {
    if items == [] then "" else TitleLines(items[..|items| - 1]) + "\n● " + items[|items| - 1].name
  }

  /** The title list the "anime" abort shows. */
  function TitleList(items: seq<Listed>): string {
    "Anime:" + if items != [] then TitleLines(items) else " no titles"
  }

  const ABORTED: string := " operation was aborted"

  /** `f"{action_text} operation was aborted".lstrip().capitalize()`. */
  function AbortedText(action: string): string {
    var actionText := if action == "anime_a" then "Add anime" else "";
    Capitalize(LStrip(actionText + ABORTED))
  }

  function AbortReplyOf(action: string, items: seq<Listed>): AbortReply {
    if action == "anime" then EditText(TitleList(items))
    else if action == "anime_i" then RemoveKeyboard
    else EditText(AbortedText(action))
  }

  /** `abort_handler`: the form is cleared first, then the reply for the action; titles are listed only for "anime". */
  method AbortHandler(fsm: FsmContext, store: AnimeStore, action: string) returns (reply: AbortReply)
    modifies fsm
    ensures fsm.state == NoForm && fsm.data == map[]
    ensures reply == AbortReplyOf(action, Items(store.rows))
  {
    fsm.Clear();
    if action == "anime" {
      var allAnime := store.GetAllAnime();
      var text := "Anime:";
      if allAnime != [] {
        var i := 0;
        while i < |allAnime|
          invariant 0 <= i <= |allAnime|
          invariant text == "Anime:" + TitleLines(allAnime[..i])
        {
          assert allAnime[..i + 1][..i] == allAnime[..i];
          text := text + "\n● " + allAnime[i].name;
          i := i + 1;
        }
        assert allAnime[..i] == allAnime;
      } else {
        text := text + " no titles";
      }
      return EditText(text);
    }
    if action == "anime_i" {
      return RemoveKeyboard;
    }
    reply := EditText(AbortedText(action));
  }

  // ---------------------------------------------------------------------------
  // Properties

  /** Every command text starts with the header. */
  lemma CommandsTextStarts(entries: seq<CommandEntry>)
    ensures StartsWith(COMMANDS_HEADER + EntriesText(entries), COMMANDS_HEADER)
  {
    assert (COMMANDS_HEADER + EntriesText(entries))[..|COMMANDS_HEADER|] == COMMANDS_HEADER;
  }

  /** Appending one subcommand appends its lines. */
  lemma SubsSnoc(s: seq<SubCommand>, c: SubCommand)
    ensures SubsText(s + [c]) == SubsText(s) + SubText(c)
  {
    assert (s + [c])[..|s|] == s;
  }

  /** Appending one entry appends its text. */
  lemma EntriesSnoc(s: seq<CommandEntry>, e: CommandEntry)
    ensures EntriesText(s + [e]) == EntriesText(s) + EntryText(e)
  {
    assert (s + [e])[..|s|] == s;
  }

  /** One more entry at the end of `b` keeps the concatenation property. */
  lemma EntriesConcatStep(a: seq<CommandEntry>, init: seq<CommandEntry>, last: CommandEntry)
    requires EntriesText(a + init) == EntriesText(a) + EntriesText(init)
    ensures EntriesText(a + (init + [last])) == EntriesText(a) + EntriesText(init + [last])
  {
    var x := a + init;
    assert a + (init + [last]) == x + [last];
    EntriesSnoc(x, last);
    EntriesSnoc(init, last);
    AppendAssoc(EntriesText(a), EntriesText(init), EntryText(last));
  }

  /** The text of a list is the texts of its parts in order. */
  lemma {:induction false} EntriesConcat(a: seq<CommandEntry>, b: seq<CommandEntry>)
    ensures EntriesText(a + b) == EntriesText(a) + EntriesText(b)
    decreases |b|
  {
    if b == [] {
      assert a + b == a;
    } else {
      var init, last := b[..|b| - 1], b[|b| - 1];
      assert b == init + [last];
      EntriesConcat(a, init);
      EntriesConcatStep(a, init, last);
    }
  }

  /** An entry with neither a command nor subcommands adds nothing, wherever it stands. */
  lemma SkippedEntry(before: seq<CommandEntry>, e: CommandEntry, after: seq<CommandEntry>)
    requires e.command == "" && e.subcommands == []
    ensures EntriesText(before + [e] + after) == EntriesText(before) + EntriesText(after)
  {
    var x := before + [e];
    EntriesSnoc(before, e);
    assert EntriesText(x) == EntriesText(before);
    EntriesConcat(x, after);
  }

  /** An entry with a command is shown as that command even when it also has subcommands. */
  lemma CommandWinsOverGroup(e: CommandEntry)
    requires e.command != ""
    ensures EntryText(e) == "\n● " + e.description + "\n○ " + e.command
  {
    AppendAssoc("\n● " + e.description, "\n○ ", e.command);
  }

  /** The text `/commands` shows for the bot's own command list, line by line. */
  lemma BotCommandsText()
    ensures COMMANDS_HEADER + EntriesText(COMMANDS_BOT)
      == "Available commands:"
         + ("\n● " + "Anime actions") + ("\n○ " + "/anime")
         + ("\n- " + "Admin:")
         + ("\n  ● " + "Reload secrets") + ("\n  ○ " + "/secrets_reload")
  {
    var c0 := CommandEntry("Anime actions", "/anime", []);
    var sub := SubCommand("Reload secrets", "/secrets_reload");
    var c1 := CommandEntry("Admin:", "", [sub]);
    assert COMMANDS_BOT == [c0] + [c1];
    assert [] + [c0] == [c0];
    assert [] + [sub] == [sub];
    EntriesSnoc([], c0);
    EntriesSnoc([c0], c1);
    SubsSnoc([], sub);
    var h, a1, a2, g, s1, s2 := COMMANDS_HEADER, "\n● " + "Anime actions", "\n○ " + "/anime",
      "\n- " + "Admin:", "\n  ● " + "Reload secrets", "\n  ○ " + "/secrets_reload";
    assert EntriesText(COMMANDS_BOT) == (a1 + a2) + (g + (s1 + s2));
    AppendAssoc(h, a1 + a2, g + (s1 + s2));
    AppendAssoc(h, a1, a2);
    AppendAssoc(h + a1 + a2, g, s1 + s2);
    AppendAssoc(h + a1 + a2 + g, s1, s2);
  }

  /** The literal facts about the aborted-operation suffix. */
  lemma AbortedFacts()
    ensures ABORTED == " " + (['o'] + "peration was aborted")
    ensures NoCapitals(ABORTED) && NoCapitals("peration was aborted")
  {
  }

  lemma OperationWord()
    ensures Upper('o') == 'O'
    ensures ['O'] + "peration was aborted" == "Operation was aborted"
  {
  }

  /** The aborted Add form names itself. */
  lemma AddAbortText()
    ensures AbortedText("anime_a") == "Add anime" + ABORTED
  {
    AbortedFacts();
    assert "Add anime" == ['A'] + "dd anime";
    assert NoCapitals("dd anime");
    NoCapitalsConcat("dd anime", ABORTED);
    AppendAssoc(['A'], "dd anime", ABORTED);
    LStripKeeps(['A'] + ("dd anime" + ABORTED));
    CapitalizeFirstOnly('A', "dd anime" + ABORTED);
  }

  /** For every action but "anime_a" the aborted text reads "Operation was aborted". */
  lemma OtherAbortText(action: string)
    requires action != "anime_a"
    ensures AbortedText(action) == "Operation was aborted"
  {
    AbortedFacts();
    assert "" + ABORTED == ABORTED;
    LStripOneSpace(['o'] + "peration was aborted");
    CapitalizeFirstOnly('o', "peration was aborted");
    OperationWord();
  }

  /** The "anime" abort lists every title on its own bulleted line, or says there are none. */
  lemma {:induction false} TitleListShape(items: seq<Listed>, extra: Listed)
    ensures TitleList([]) == "Anime: no titles"
    ensures TitleList(items + [extra]) == "Anime:" + TitleLines(items) + "\n● " + extra.name
  {
    assert (items + [extra])[..|items|] == items;
  }
}
