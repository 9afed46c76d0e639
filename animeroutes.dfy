/**
 * The title manager of the chat (app/telegram/routes/anime.py): the `/anime`
 * menu, the two-step add form, the info view, the Update, Rename and Delete
 * actions, and the rename form. Each handler is a method over the chat's form
 * state (`FsmContext`) and the table (`AnimeStore`) that returns what it sends,
 * in order. What the chat and the network decide is a parameter: the text of
 * the incoming message (`None` when it has none), the catalog's answer, the id
 * of a message the bot sends, and whether a send inside
 * `suppress(TelegramBadRequest)` went through (a rejected one skips the rest of
 * its `with` block). A raised exception is returned as its name, or as the key
 * whose lookup failed. The handlers with several exits are specified by a
 * function giving their whole effect, and the lemmas state what that effect
 * promises.
 */
module AnimeRoutes {
  import opened Wrappers
  import opened Text
  import opened Civil
  import opened Models
  import opened Formatting
  import opened Callbacks
  import opened Keyboards
  import opened Crud
  import opened Fsm
  import opened Report
  import MyAnimeList

  /** The keys of the form data. */
  const OUTGOING: string := "outgoing_form_message_id"
  const ANIME_ID: string := "anime_id"

  const MENU_TEXT: string := "Anime:"
  const ADD_PROMPT: string := "Add anime\nEnter MAL anime id:"
  const WRONG_ID: string := "Wrong MAL anime id given"
  const EXISTS: string := "Anime exists"
  const NAME_PROMPT: string := "Enter anime name:"
  const NO_DATA: string := "No anime data was given from MAL, aborted"
  const ADDED: string := "Anime was added"
  const UPDATE_ERROR: string := "\nUpdate error"
  const RENAME_PROMPT: string := "Rename anime to:"
  const RENAMED: string := "Anime was renamed"
  const DELETED: string := "Anime was deleted"

  /** What a handler sends, in order. */
  datatype ChatAction =
    | Answer(text: string, keyboard: seq<Button>)        // a new message in the chat
    | EditText(spans: seq<Span>, keyboard: seq<Button>)  // new text for the message the button sits on
    | RemoveKeyboard                                     // the keyboard of that message is dropped
    | RemoveKeyboardOf(messageId: int)                   // the keyboard of an earlier form message is dropped

  /** The effect of a form step that reads the table but does not change it. */
  datatype FormStep = FormStep(actions: seq<ChatAction>, form: FormState, data: map<string, int>)

  /** The effect of a handler on the chat, the form state and the table. */
  datatype Step = Step(actions: seq<ChatAction>, raised: Option<string>, form: FormState, data: map<string, int>,
                       rows: seq<AnimeInfo>, nextId: int)

  /** The effect of a handler that leaves the form state alone. */
  datatype StoreStep = StoreStep(actions: seq<ChatAction>, raised: Option<string>, rows: seq<AnimeInfo>, nextId: int)

  function AbortButtons(action: string, name: string): seq<Button> {
    [Button(name, Abort(action))]
  }

  // ---------------------------------------------------------------------------
  // /anime and the add form

  /** `anime_handler`: the titles, then "Add" and "End". */
  method AnimeHandler(store: AnimeStore) returns (actions: seq<ChatAction>)
    ensures actions == [Answer(MENU_TEXT, AnimeButtons(Items(store.rows)) + [Button("Add", AnimeAdd), Button("End", Abort("anime"))])]
  {
    var allAnime := store.GetAllAnime();
    var mainKeyboard := AnimeMenu(allAnime);
    actions := [Answer(MENU_TEXT, mainKeyboard.buttons)];
  }

  /**
   * `anime_add_handler`: the menu message asks for the id. The form starts
   * only when that edit went through, remembering the message to clean up.
   */
  method AnimeAddHandler(fsm: FsmContext, messageId: int, edited: bool) returns (actions: seq<ChatAction>)
    modifies fsm
    ensures actions == [EditText([PlainSpan(ADD_PROMPT)], AbortButtons("anime_a", "Abort"))]
    ensures edited ==> fsm.state == AddAnimeId && fsm.data == map[OUTGOING := messageId]
    ensures !edited ==> fsm.state == old(fsm.state) && fsm.data == old(fsm.data)
  {
    var abortKeyboard := KeyboardAbort("anime_a");
    actions := [EditText([PlainSpan(ADD_PROMPT)], abortKeyboard.buttons)];
    if edited {
      fsm.SetData(map[OUTGOING := messageId]);
      fsm.SetState(AddAnimeId);
    }
  }

  /** `int(message.text.rstrip())`; `None` for the ValueError, and for the AttributeError of a message without text. */
  function ParsedId(text: Option<string>): Option<int> {
    if text.None? then None else ParseInt(RStrip(text.value))
  }

  /**
   * `anime_info.get("error_code") != None`: the answer is an error code that
   * is set (MyAnimeList.ShapeQueries: only that shape has the key).
   */
  predicate Refused(r: MyAnimeList.CatalogResult) {
    r.ErrorCode? && r.code != VNone
  }

  /**
   * `anime_add_id_form`, given the saved form data, the message text, the
   * catalog's answer for the parsed id, the table, and the id of the message
   * asking for the name.
   */
  function AddIdStep(data: map<string, int>, text: Option<string>, fetched: MyAnimeList.CatalogResult,
                     rows: seq<AnimeInfo>, sentId: int): FormStep
  {
    if OUTGOING !in data then FormStep([], NoForm, map[])
    else
      var removal := [RemoveKeyboardOf(data[OUTGOING])];
      var id := ParsedId(text);
      if id.None? || Refused(fetched) then FormStep(removal + [Answer(WRONG_ID, [])], NoForm, map[])
      else if Latest(rows, id.value).Some? then FormStep(removal + [Answer(EXISTS, [])], NoForm, map[])
      else FormStep(removal + [Answer(NAME_PROMPT, AbortButtons("anime_a", "Abort"))], AddAnimeName,
                    map[OUTGOING := sentId, ANIME_ID := id.value])
  }

  method AnimeAddIdForm(fsm: FsmContext, store: AnimeStore, text: Option<string>, fetched: MyAnimeList.CatalogResult,
                        sentId: int) returns (actions: seq<ChatAction>)
    modifies fsm
    ensures var s := AddIdStep(old(fsm.data), text, fetched, store.rows, sentId);
      actions == s.actions && fsm.state == s.form && fsm.data == s.data
  {
    var stateData := fsm.data;
    if OUTGOING !in stateData {
      fsm.Clear();
      return [];
    }
    actions := [RemoveKeyboardOf(stateData[OUTGOING])];
    var animeId := ParsedId(text);
    if animeId.None? || Refused(fetched) {
      fsm.Clear();
      actions := actions + [Answer(WRONG_ID, [])];
      return;
    }
    var lastInfo := store.GetLastInfo(animeId.value);
    if lastInfo.Some? {
      fsm.Clear();
      actions := actions + [Answer(EXISTS, [])];
      return;
    }
    var abortKeyboard := KeyboardAbort("anime_a");
    actions := actions + [Answer(NAME_PROMPT, abortKeyboard.buttons)];
    fsm.SetData(map[OUTGOING := sentId, ANIME_ID := animeId.value]);
    fsm.SetState(AddAnimeName);
  }

  /**
   * `anime_add_name_form`, given the form state, the message text, the
   * catalog's answer for the saved id, and the table. A missing key raises
   * before the form is left; once it is left, a catalog answer without "mean"
   * (anything but a record) is answered, and a record is stored under the
   * typed name with trailing whitespace dropped.
   */
  function AddNameStep(form: FormState, data: map<string, int>, text: Option<string>, fetched: MyAnimeList.CatalogResult,
                       rows: seq<AnimeInfo>, nextId: int): Step
  {
    if OUTGOING !in data then Step([], Some(OUTGOING), form, data, rows, nextId)
    else
      var removal := [RemoveKeyboardOf(data[OUTGOING])];
      if ANIME_ID !in data then Step(removal, Some(ANIME_ID), form, data, rows, nextId)
      else if text.None? then Step(removal, Some("AttributeError"), form, data, rows, nextId)
      else if !fetched.Record? then Step(removal + [Answer(NO_DATA, [])], None, NoForm, map[], rows, nextId)
      else
        var made := MakeRow(nextId, data[ANIME_ID], RStrip(text.value), fetched.rank, fetched.mean, fetched.usersAll,
                            fetched.usersScored, fetched.status, VTime(fetched.updated));
        if made.None? then Step(removal, Some("IntegrityError"), NoForm, map[], rows, nextId)
        else Step(removal + [Answer(ADDED, [])], None, NoForm, map[], rows + [made.value], nextId + 1)
  }

  method AnimeAddNameForm(fsm: FsmContext, store: AnimeStore, text: Option<string>, fetched: MyAnimeList.CatalogResult)
    returns (actions: seq<ChatAction>, raised: Option<string>)
    requires store.Valid()
    modifies fsm, store
    ensures store.Valid()
    ensures var s := AddNameStep(old(fsm.state), old(fsm.data), text, fetched, old(store.rows), old(store.nextId));
      && actions == s.actions && raised == s.raised && fsm.state == s.form && fsm.data == s.data
      && store.rows == s.rows && store.nextId == s.nextId
  {
    var stateData := fsm.data;
    if OUTGOING !in stateData {
      return [], Some(OUTGOING);
    }
    actions := [RemoveKeyboardOf(stateData[OUTGOING])];
    if ANIME_ID !in stateData {
      return actions, Some(ANIME_ID);
    }
    var animeId := stateData[ANIME_ID];
    if text.None? {
      return actions, Some("AttributeError");
    }
    var animeName := RStrip(text.value);
    fsm.Clear();
    MyAnimeList.ShapeQueries(fetched);
    if MyAnimeList.Lookup(MyAnimeList.Items(fetched), "mean").None? {
      actions := actions + [Answer(NO_DATA, [])];
      return actions, None;
    }
    var res := store.AddAnimeInfo(animeId, animeName, fetched.rank, fetched.mean, fetched.usersAll,
                                  fetched.usersScored, fetched.status, VTime(fetched.updated));
    if res.Err? {
      return actions, Some(res.error);
    }
    actions := actions + [Answer(ADDED, [])];
    raised := None;
  }

  // ---------------------------------------------------------------------------
  // The info view

  /** The fields the info view shows, in order: those of a fetched record. */
  const INFO_KEYS: seq<string> := MyAnimeList.RECORD_KEYS

  /** A value as the info view shows it: text as it is, a time as `%Y-%m-%d %H:%M:%S`, `None` as "-", a number grouped. */
  function InfoText(v: Value): string {
    match v
    case VStr(s) => s
    case VTime(us) => DateTimeText(us, "-", " ", ":")
    case VNone => "-"
    case VInt(i) => GroupedInt(i)
  }

  /** The bold label of one field and its value text. */
  function InfoLine(key: string, v: Value): seq<Span> {
    [Span(Bold, Label(key) + ":   "), PlainSpan(" " + InfoText(v) + "\n")]
  }

  /** The lines of the fields, in order. */
  function InfoLines(fields: seq<(string, Value)>): (r: seq<Span>)
    ensures |r| == 2 * |fields|
    ensures forall i :: 0 <= i < |fields| ==>
      && r[2 * i] == Span(Bold, Label(fields[i].0) + ":   ")
      && r[2 * i + 1] == PlainSpan(" " + InfoText(fields[i].1) + "\n")
  {
    if fields == [] then []
    else
      var n := |fields| - 1;
      InfoLines(fields[..n]) + InfoLine(fields[n].0, fields[n].1)
  }

  /** The info fields of a row, in order, each with the value `get_model_dict(row)[key]`. */
  function InfoFields(row: AnimeInfo): seq<(string, Value)> {
    [(INFO_KEYS[0], RankValue(row.rank)), (INFO_KEYS[1], VInt(row.mean)), (INFO_KEYS[2], VInt(row.usersAll)),
     (INFO_KEYS[3], VInt(row.usersScored)), (INFO_KEYS[4], VStr(row.status)), (INFO_KEYS[5], VTime(row.updated))]
  }

  /** Each info field holds what the row's dict holds under its key. */
  lemma InfoFieldsOfRow(row: AnimeInfo)
    ensures |InfoFields(row)| == |INFO_KEYS|
    ensures forall k :: 0 <= k < |INFO_KEYS| ==>
      InfoFields(row)[k].0 == INFO_KEYS[k] && Column(row, INFO_KEYS[k]) == Some(InfoFields(row)[k].1)
  {
  }

  /** One more field adds its line at the end. */
  lemma InfoLinesSnoc(fields: seq<(string, Value)>, k: nat)
    requires k < |fields|
    ensures InfoLines(fields[..k + 1]) == InfoLines(fields[..k]) + InfoLine(fields[k].0, fields[k].1)
  {
    assert fields[..k + 1][..k] == fields[..k];
  }

  lemma TakeAll(fields: seq<(string, Value)>)
    ensures fields[..|fields|] == fields
  {
  }

  /** The text of the info view of a snapshot: the bold name, then one line per field. */
  function InfoSpans(row: AnimeInfo): seq<Span> {
    [Header(row.animeName)] + InfoLines(InfoFields(row))
  }

  /** The Update, Rename and Delete buttons of a title. */
  function ActionButtons(id: int): seq<Button> {
    seq(|ACTIONS|, i requires 0 <= i < |ACTIONS| => Button(ACTIONS[i], AnimeAction(id, ACTIONS[i])))
  }

  /** The keyboard of the info view: the action buttons, then "End". */
  method InfoKeyboard(id: int) returns (k: KeyboardBuilder)
    ensures fresh(k) && k.buttons == ActionButtons(id) + AbortButtons("anime_i", "End")
  {
    var abortKeyboard := KeyboardAbort("anime_i", "End");
    k := KeyboardAnimeActions(id);
    k.Attach(abortKeyboard);
    assert k.buttons[..|ACTIONS|] == ActionButtons(id);
  }

  /** The text of the title view, built line by line as `anime_info_handler` does. */
  method InfoMessage(row: AnimeInfo) returns (messageInfo: seq<Span>)
    ensures messageInfo == InfoSpans(row)
  {
    InfoFieldsOfRow(row);
    ghost var fields := InfoFields(row);
    messageInfo := [Header(row.animeName)];
    var k := 0;
    while k < |INFO_KEYS|
      invariant 0 <= k <= |INFO_KEYS|
      invariant messageInfo == [Header(row.animeName)] + InfoLines(fields[..k])
    {
      var key := INFO_KEYS[k];
      var value := Column(row, key).value;
      var infoStr := InfoText(value);
      var line := [Span(Bold, Label(key) + ":   "), PlainSpan(" " + infoStr + "\n")];
      assert line == InfoLine(fields[k].0, fields[k].1);
      InfoLinesSnoc(fields, k);
      SpansAssoc([Header(row.animeName)], InfoLines(fields[..k]), line);
      messageInfo := messageInfo + line;
      k := k + 1;
    }
    TakeAll(fields);
  }

  /**
   * `anime_info_handler`: the latest snapshot of the chosen title with its
   * action buttons and "End". Without a snapshot the row dict is empty and
   * reading its name raises.
   */
  method AnimeInfoHandler(store: AnimeStore, id: int) returns (actions: seq<ChatAction>, raised: Option<string>)
    ensures var last := Latest(store.rows, id);
      && (last.None? ==> actions == [] && raised == Some("anime_name"))
      && (last.Some? ==> actions == [EditText(InfoSpans(last.value), ActionButtons(id) + AbortButtons("anime_i", "End"))]
                         && raised == None)
  {
    var last := store.GetLastInfo(id);
    if last.None? {
      return [], Some("anime_name");
    }
    var messageInfo := InfoMessage(last.value);
    var actionsKeyboard := InfoKeyboard(id);
    actions := [EditText(messageInfo, actionsKeyboard.buttons)];
    raised := None;
  }

  // ---------------------------------------------------------------------------
  // Update

  /**
   * `anime_update_handler`, given the table, the chosen title, the catalog's
   * answer, the text of the message the button sits on, and whether the
   * error edit went through. An empty answer edits "Update error" in and
   * returns, unless that edit was rejected: then the code goes on and raises.
   * Otherwise the report is rendered against the latest snapshot, the new
   * snapshot is stored under the title's stored name, and only then the
   * report replaces the message.
   */
  function UpdateStep(rows: seq<AnimeInfo>, nextId: int, id: int, fetched: MyAnimeList.CatalogResult,
                      oldText: string, errorEdited: bool): StoreStep
  {
    var errorEdit := [EditText([PlainSpan(oldText + UPDATE_ERROR)], [])];
    if fetched.Empty? && errorEdited then StoreStep(errorEdit, None, rows, nextId)
    else
      var pre := if fetched.Empty? then errorEdit else [];
      var last := Latest(rows, id);
      if last.None? then StoreStep(pre, Some("anime_name"), rows, nextId)
      else
        var name := last.value.animeName;
        var report := Message(HandlerText, name, MyAnimeList.Items(fetched), last);
        if report.Err? then StoreStep(pre, Some(report.error), rows, nextId)
        else if !fetched.Record? then StoreStep(pre, Some("rank"), rows, nextId)
        else
          var made := MakeRow(nextId, id, name, fetched.rank, fetched.mean, fetched.usersAll, fetched.usersScored,
                              fetched.status, VTime(fetched.updated));
          if made.None? then StoreStep(pre, Some("IntegrityError"), rows, nextId)
          else StoreStep(pre + [EditText(report.value, [])], None, rows + [made.value], nextId + 1)
  }

  method AnimeUpdateHandler(store: AnimeStore, id: int, fetched: MyAnimeList.CatalogResult, oldText: string,
                            errorEdited: bool) returns (actions: seq<ChatAction>, raised: Option<string>)
    requires store.Valid()
    modifies store
    ensures store.Valid()
    ensures var s := UpdateStep(old(store.rows), old(store.nextId), id, fetched, oldText, errorEdited);
      actions == s.actions && raised == s.raised && store.rows == s.rows && store.nextId == s.nextId
  {
    actions := [];
    if fetched.Empty? {
      actions := [EditText([PlainSpan(oldText + UPDATE_ERROR)], [])];
      if errorEdited {
        return actions, None;
      }
    }
    var lastInfo := store.GetLastInfo(id);
    if lastInfo.None? {
      return actions, Some("anime_name");
    }
    var name := lastInfo.value.animeName;
    var report := BuildReport(HandlerText, name, MyAnimeList.Items(fetched), lastInfo);
    if report.Err? {
      return actions, Some(report.error);
    }
    if !fetched.Record? {
      return actions, Some("rank");
    }
    var res := store.AddAnimeInfo(id, name, fetched.rank, fetched.mean, fetched.usersAll, fetched.usersScored,
                                  fetched.status, VTime(fetched.updated));
    if res.Err? {
      return actions, Some(res.error);
    }
    actions := actions + [EditText(report.value, [])];
    raised := None;
  }

  // ---------------------------------------------------------------------------
  // Rename and Delete

  /**
   * `anime_rename_handler`: drop the keyboard, ask for the new name, and start
   * the rename form; a rejected send (`removed` false, or `sent` None) skips
   * what follows it in the block.
   */
  method AnimeRenameHandler(fsm: FsmContext, id: int, removed: bool, sent: Option<int>) returns (actions: seq<ChatAction>)
    modifies fsm
    ensures actions == [RemoveKeyboard] + if removed then [Answer(RENAME_PROMPT, AbortButtons("anime_r", "Abort"))] else []
    ensures removed && sent.Some? ==> fsm.state == RenameAnimeName && fsm.data == map[OUTGOING := sent.value, ANIME_ID := id]
    ensures !(removed && sent.Some?) ==> fsm.state == old(fsm.state) && fsm.data == old(fsm.data)
  {
    actions := [RemoveKeyboard];
    if !removed {
      return;
    }
    var abortKeyboard := KeyboardAbort("anime_r");
    actions := actions + [Answer(RENAME_PROMPT, abortKeyboard.buttons)];
    if sent.None? {
      return;
    }
    fsm.SetData(map[OUTGOING := sent.value, ANIME_ID := id]);
    fsm.SetState(RenameAnimeName);
  }

  /**
   * `anime_rename_form`: without the saved message id the form is left
   * silently; otherwise every row of the saved title takes the typed name with
   * trailing whitespace dropped. A missing title id or text raises before the
   * form is left.
   */
  function RenameFormStep(form: FormState, data: map<string, int>, text: Option<string>,
                          rows: seq<AnimeInfo>, nextId: int): Step
  {
    if OUTGOING !in data then Step([], None, NoForm, map[], rows, nextId)
    else
      var removal := [RemoveKeyboardOf(data[OUTGOING])];
      if ANIME_ID !in data then Step(removal, Some(ANIME_ID), form, data, rows, nextId)
      else if text.None? then Step(removal, Some("AttributeError"), form, data, rows, nextId)
      else Step(removal + [Answer(RENAMED, [])], None, NoForm, map[], RenameIn(rows, data[ANIME_ID], RStrip(text.value)), nextId)
  }

  method AnimeRenameForm(fsm: FsmContext, store: AnimeStore, text: Option<string>)
    returns (actions: seq<ChatAction>, raised: Option<string>)
    requires store.Valid()
    modifies fsm, store
    ensures store.Valid()
    ensures var s := RenameFormStep(old(fsm.state), old(fsm.data), text, old(store.rows), old(store.nextId));
      && actions == s.actions && raised == s.raised && fsm.state == s.form && fsm.data == s.data
      && store.rows == s.rows && store.nextId == s.nextId
  {
    var stateData := fsm.data;
    if OUTGOING !in stateData {
      fsm.Clear();
      return [], None;
    }
    actions := [RemoveKeyboardOf(stateData[OUTGOING])];
    if ANIME_ID !in stateData {
      return actions, Some(ANIME_ID);
    }
    if text.None? {
      return actions, Some("AttributeError");
    }
    store.RenameAnime(stateData[ANIME_ID], RStrip(text.value));
    fsm.Clear();
    actions := actions + [Answer(RENAMED, [])];
    raised := None;
  }

  /** `anime_delete_handler`: the title is deleted only when dropping the keyboard went through. */
  method AnimeDeleteHandler(store: AnimeStore, id: int, removed: bool) returns (actions: seq<ChatAction>)
    requires store.Valid()
    modifies store
    ensures store.Valid() && store.nextId == old(store.nextId)
    ensures actions == [RemoveKeyboard] + if removed then [Answer(DELETED, [])] else []
    ensures store.rows == if removed then DeleteFrom(old(store.rows), id) else old(store.rows)
  {
    actions := [RemoveKeyboard];
    if removed {
      store.DeleteAnime(id);
      actions := actions + [Answer(DELETED, [])];
    }
  }

  // ---------------------------------------------------------------------------
  // Properties of the add form

  /**
   * The id step moves on to the name exactly when the saved message id is
   * there, the text reads as an integer, the catalog reports no error and the
   * title has no snapshot yet; it then saves the new prompt's id and the
   * parsed id. Every other exit leaves the form with no data. The form
   * message loses its keyboard whenever its id was saved.
   */
  lemma AddIdOutcomes(data: map<string, int>, text: Option<string>, fetched: MyAnimeList.CatalogResult,
                      rows: seq<AnimeInfo>, sentId: int)
    ensures var s := AddIdStep(data, text, fetched, rows, sentId);
      && (s.form == AddAnimeName <==>
            && OUTGOING in data && ParsedId(text).Some? && !Refused(fetched)
            && forall i :: 0 <= i < |rows| ==> rows[i].animeId != ParsedId(text).value)
      && (s.form == AddAnimeName ==> s.data == map[OUTGOING := sentId, ANIME_ID := ParsedId(text).value])
      && (s.form != AddAnimeName ==> s.form == NoForm && s.data == map[])
      && (OUTGOING in data <==> s.actions != [])
      && (OUTGOING in data ==> s.actions[0] == RemoveKeyboardOf(data[OUTGOING]) && |s.actions| == 2)
  {
  }

  /** An id typed with trailing whitespace is read as that id. */
  lemma TypedIdIsRead(id: int, sp: string)
    requires AllSpaces(sp)
    ensures ParsedId(Some(IntStr(id) + sp)) == Some(id)
  {
    var s := IntStr(id);
    assert s != [] && IsDigit(s[|s| - 1]);
    RStripSpacesAfter(s, sp);
    ParseIntOfIntStr(id);
  }

  /**
   * Once it has the saved keys and a text, the name step always leaves the
   * form, and it stores exactly one row, and answers "Anime was added",
   * exactly when the catalog sent a record the table accepts: the row of the
   * saved id under the typed name without trailing whitespace, stamped with
   * the fetch time.
   */
  lemma AddNameOutcomes(form: FormState, data: map<string, int>, text: string, fetched: MyAnimeList.CatalogResult,
                        rows: seq<AnimeInfo>, nextId: int)
    requires OUTGOING in data && ANIME_ID in data
    ensures var s := AddNameStep(form, data, Some(text), fetched, rows, nextId);
      && s.form == NoForm && s.data == map[]
      && (Answer(ADDED, []) in s.actions <==>
            fetched.Record? && Storable(fetched.rank, fetched.mean, fetched.usersAll, fetched.usersScored,
                                        fetched.status, VTime(fetched.updated)))
      && (Answer(ADDED, []) in s.actions ==>
            && s.raised == None && |s.rows| == |rows| + 1 && s.rows[..|rows|] == rows && s.nextId == nextId + 1
            && var row := s.rows[|rows|];
               row.id == nextId && row.animeId == data[ANIME_ID] && row.animeName == RStrip(text)
               && row.updated == fetched.updated)
      && (Answer(ADDED, []) !in s.actions ==> s.rows == rows && s.nextId == nextId)
  {
    var s := AddNameStep(form, data, Some(text), fetched, rows, nextId);
    var removal := [RemoveKeyboardOf(data[OUTGOING])];
    assert Answer(ADDED, []) !in removal;
    if !fetched.Record? {
      assert s.actions == removal + [Answer(NO_DATA, [])];
      assert NO_DATA != ADDED by {
        assert |NO_DATA| != |ADDED|;
      }
    } else if s.rows != rows {
      assert (rows + [s.rows[|rows|]])[..|rows|] == rows;
    }
  }

  /** A missing key of the form data raises before anything is stored or the form is left. */
  lemma AddNameKeyErrors(form: FormState, data: map<string, int>, text: Option<string>, fetched: MyAnimeList.CatalogResult,
                         rows: seq<AnimeInfo>, nextId: int)
    requires OUTGOING !in data || ANIME_ID !in data || text.None?
    ensures var s := AddNameStep(form, data, text, fetched, rows, nextId);
      && s.raised.Some? && s.form == form && s.data == data && s.rows == rows && s.nextId == nextId
      && s.raised == Some(if OUTGOING !in data then OUTGOING else if ANIME_ID !in data then ANIME_ID else "AttributeError")
  {
  }

  /**
   * The two steps together: when the id step moves on and the name step then
   * gets a record the table accepts, the title's latest snapshot is the row
   * just added, carrying the parsed id and the typed name (the id step made
   * sure the title had no snapshot before).
   */
  lemma AddFormAddsTitle(data: map<string, int>, idText: Option<string>, idFetched: MyAnimeList.CatalogResult,
                         rows: seq<AnimeInfo>, sentId: int, name: string, fetched: MyAnimeList.CatalogResult, nextId: int)
    requires AddIdStep(data, idText, idFetched, rows, sentId).form == AddAnimeName
    requires fetched.Record? && Storable(fetched.rank, fetched.mean, fetched.usersAll, fetched.usersScored,
                                         fetched.status, VTime(fetched.updated))
    ensures var first := AddIdStep(data, idText, idFetched, rows, sentId);
      var second := AddNameStep(first.form, first.data, Some(name), fetched, rows, nextId);
      var id := ParsedId(idText).value;
      && second.raised == None
      && Latest(second.rows, id).Some?
      && Latest(second.rows, id).value == second.rows[|rows|]
      && Latest(second.rows, id).value.animeName == RStrip(name)
      && Items(second.rows) == Items(rows) + [Listed(id, RStrip(name))]
  {
    var first := AddIdStep(data, idText, idFetched, rows, sentId);
    AddIdOutcomes(data, idText, idFetched, rows, sentId);
    var id := ParsedId(idText).value;
    assert first.data[OUTGOING] == sentId && first.data[ANIME_ID] == id;
    var row := MakeRow(nextId, id, RStrip(name), fetched.rank, fetched.mean, fetched.usersAll, fetched.usersScored,
                       fetched.status, VTime(fetched.updated)).value;
    var second := AddNameStep(first.form, first.data, Some(name), fetched, rows, nextId);
    assert second.rows == rows + [row];
    InsertThenLatest(rows, row);
    NewTitleListed(rows, row);
  }

  /** A snapshot of a title not in the table is listed after all others. */
  lemma NewTitleListed(rows: seq<AnimeInfo>, row: AnimeInfo)
    requires forall i :: 0 <= i < |rows| ==> rows[i].animeId != row.animeId
    ensures Items(rows + [row]) == Items(rows) + [Listed(row.animeId, row.animeName)]
  {
    var n := |rows|;
    assert (rows + [row])[..n] == rows;
    var p := Pairs(rows + [row]);
    assert p == Pairs(rows) + [PairOf(row)];
    assert p[..n] == Pairs(rows);
    assert PairOf(row) !in Pairs(rows);
  }

  // ---------------------------------------------------------------------------
  // Properties of the info view

  /** The view opens with the bold name of the title. */
  lemma InfoViewHeader(row: AnimeInfo)
    ensures |InfoSpans(row)| == 1 + 2 * |INFO_KEYS|
    ensures InfoSpans(row)[0] == Span(Bold, row.animeName + ": \n")
  {
  }

  /** After the name come, for each field in order, its bold label (and then its value). */
  lemma InfoLabelAt(row: AnimeInfo, k: nat)
    requires k < |INFO_KEYS|
    ensures |InfoSpans(row)| == 1 + 2 * |INFO_KEYS|
    ensures InfoSpans(row)[2 * k + 1] == Span(Bold, Label(InfoFields(row)[k].0) + ":   ")
  {
    var lines := InfoLines(InfoFields(row));
    assert InfoSpans(row)[2 * k + 1] == lines[2 * k];
  }

  /** The value line of the `k`-th field. */
  lemma InfoValueAt(row: AnimeInfo, k: nat)
    requires k < |INFO_KEYS|
    ensures |InfoSpans(row)| == 1 + 2 * |INFO_KEYS|
    ensures InfoSpans(row)[2 * k + 2] == PlainSpan(" " + InfoText(InfoFields(row)[k].1) + "\n")
  {
    var lines := InfoLines(InfoFields(row));
    assert InfoSpans(row)[2 * k + 2] == lines[2 * k + 1];
  }

  /** A missing rank shows a dash, a rank its grouped number. */
  lemma InfoRankLine(row: AnimeInfo)
    ensures |InfoSpans(row)| == 13
    ensures row.rank.None? ==> InfoSpans(row)[2] == PlainSpan(" -\n")
    ensures row.rank.Some? ==> InfoSpans(row)[2] == PlainSpan(" " + GroupedInt(row.rank.value) + "\n")
  {
    InfoValueAt(row, 0);
    if row.rank.None? {
      LiteralLine("-");
    }
  }

  lemma LiteralLine(t: string)
    requires t == "-"
    ensures " " + t + "\n" == " -\n"
  {
  }

  /** The mean and the two user counts show as grouped numbers. */
  lemma InfoNumberLines(row: AnimeInfo)
    ensures |InfoSpans(row)| == 13
    ensures InfoSpans(row)[4] == PlainSpan(" " + GroupedInt(row.mean) + "\n")
    ensures InfoSpans(row)[6] == PlainSpan(" " + GroupedInt(row.usersAll) + "\n")
    ensures InfoSpans(row)[8] == PlainSpan(" " + GroupedInt(row.usersScored) + "\n")
  {
    InfoValueAt(row, 1);
    InfoValueAt(row, 2);
    InfoValueAt(row, 3);
  }

  /** The status line shows the status as it is. */
  lemma InfoStatusLine(row: AnimeInfo)
    ensures |InfoSpans(row)| == 13
    ensures InfoSpans(row)[10] == PlainSpan(" " + row.status + "\n")
  {
    InfoValueAt(row, 4);
  }

  /** The last line shows when the snapshot was taken, as a date and a time. */
  lemma InfoTimeLine(row: AnimeInfo)
    ensures |InfoSpans(row)| == 13
    ensures InfoSpans(row)[12] == PlainSpan(" " + DateTimeText(row.updated, "-", " ", ":") + "\n")
  {
    InfoValueAt(row, 5);
    var v := InfoFields(row)[5].1;
    assert v == VTime(row.updated);
    assert InfoText(v) == DateTimeText(row.updated, "-", " ", ":");
  }

  /** A number shown in the view reads back as the number once its group separators are taken out, sign apart. */
  lemma InfoNumberReadsBack(i: int)
    ensures var t := InfoText(VInt(i));
      && (i < 0 ==> t == "-" + Grouped(-i))
      && (i >= 0 ==> t == Grouped(i))
      && var digits := RemoveSpaces(Grouped(if i < 0 then -i else i));
         AllDigits(digits) && ParseDecimal(digits) == (if i < 0 then -i else i)
  {
    GroupedValue(if i < 0 then -i else i);
  }

  // ---------------------------------------------------------------------------
  // Properties of Update

  /** An empty answer whose error edit went through changes nothing and sends just that edit. */
  lemma UpdateErrorStops(rows: seq<AnimeInfo>, nextId: int, id: int, oldText: string)
    ensures UpdateStep(rows, nextId, id, MyAnimeList.Empty, oldText, true)
      == StoreStep([EditText([PlainSpan(oldText + "\nUpdate error")], [])], None, rows, nextId)
  {
  }

  /** An empty answer whose error edit was rejected falls through and raises, storing nothing. */
  lemma UpdateEmptyFallsThrough(rows: seq<AnimeInfo>, nextId: int, id: int, oldText: string)
    ensures var s := UpdateStep(rows, nextId, id, MyAnimeList.Empty, oldText, false);
      && s.rows == rows && s.nextId == nextId
      && s.raised == Some(if Latest(rows, id).None? then "anime_name" else "rank")
  {
  }

  /** A fetched record renders against any previous snapshot: its keys are the info fields, all of them columns. */
  lemma RecordRenders(variant: Variant, name: string, fetched: MyAnimeList.CatalogResult, row: AnimeInfo)
    requires fetched.Record?
    ensures Message(variant, name, MyAnimeList.Items(fetched), Some(row)).Ok?
  {
    var items := MyAnimeList.Items(fetched);
    assert forall i :: 0 <= i < |items| ==> items[i].0 == INFO_KEYS[i];
    InfoFieldsOfRow(row);
    ColumnKeysRender(variant, items, row);
  }

  /**
   * Update stores a snapshot exactly when the catalog sent a record the table
   * accepts and the title has a snapshot to compare with; on every other path
   * nothing is stored and nothing but the error edit is sent.
   */
  lemma UpdateStoresWhen(rows: seq<AnimeInfo>, nextId: int, id: int, fetched: MyAnimeList.CatalogResult,
                         oldText: string, errorEdited: bool)
    ensures var s := UpdateStep(rows, nextId, id, fetched, oldText, errorEdited);
      && (s.rows != rows <==>
            && fetched.Record? && Latest(rows, id).Some?
            && Storable(fetched.rank, fetched.mean, fetched.usersAll, fetched.usersScored, fetched.status, VTime(fetched.updated)))
      && (s.rows == rows ==> s.nextId == nextId && forall a :: a in s.actions ==> a == EditText([PlainSpan(oldText + UPDATE_ERROR)], []))
  {
    var last := Latest(rows, id);
    if fetched.Record? && last.Some? {
      RecordRenders(HandlerText, last.value.animeName, fetched, last.value);
    }
  }

  /**
   * A stored snapshot is one new row of the title under its stored name,
   * stamped with the fetch time, and the one message sent is the report
   * against the previous snapshot, after the insert.
   */
  lemma UpdateStoredRow(rows: seq<AnimeInfo>, nextId: int, id: int, fetched: MyAnimeList.CatalogResult,
                        oldText: string, errorEdited: bool)
    requires UpdateStep(rows, nextId, id, fetched, oldText, errorEdited).rows != rows
    ensures var s := UpdateStep(rows, nextId, id, fetched, oldText, errorEdited);
      var last := Latest(rows, id);
      && last.Some? && s.raised == None
      && |s.rows| == |rows| + 1 && s.rows[..|rows|] == rows && s.nextId == nextId + 1
      && s.rows[|rows|].id == nextId && s.rows[|rows|].animeId == id
      && s.rows[|rows|].animeName == last.value.animeName && s.rows[|rows|].updated == fetched.updated
      && s.actions == [EditText(Message(HandlerText, last.value.animeName, MyAnimeList.Items(fetched), last).value, [])]
  {
    UpdateStoresWhen(rows, nextId, id, fetched, oldText, errorEdited);
    var last := Latest(rows, id);
    var made := MakeRow(nextId, id, last.value.animeName, fetched.rank, fetched.mean, fetched.usersAll,
                        fetched.usersScored, fetched.status, VTime(fetched.updated));
    UpdateStepStores(rows, nextId, id, fetched, oldText, errorEdited);
    assert (rows + [made.value])[..|rows|] == rows;
  }

  /** The path of Update that stores: the report is sent and the row made from the record is appended. */
  lemma UpdateStepStores(rows: seq<AnimeInfo>, nextId: int, id: int, fetched: MyAnimeList.CatalogResult,
                         oldText: string, errorEdited: bool)
    requires fetched.Record? && Latest(rows, id).Some?
    requires Storable(fetched.rank, fetched.mean, fetched.usersAll, fetched.usersScored, fetched.status, VTime(fetched.updated))
    ensures Message(HandlerText, Latest(rows, id).value.animeName, MyAnimeList.Items(fetched), Latest(rows, id)).Ok?
    ensures var last := Latest(rows, id);
      var name := last.value.animeName;
      UpdateStep(rows, nextId, id, fetched, oldText, errorEdited)
      == StoreStep([EditText(Message(HandlerText, name, MyAnimeList.Items(fetched), last).value, [])], None,
                   rows + [MakeRow(nextId, id, name, fetched.rank, fetched.mean, fetched.usersAll, fetched.usersScored,
                                   fetched.status, VTime(fetched.updated)).value], nextId + 1)
  {
    RecordRenders(HandlerText, Latest(rows, id).value.animeName, fetched, Latest(rows, id).value);
  }

  /** An error code from the catalog raises at its key and stores nothing. */
  lemma UpdateErrorCodeRaises(rows: seq<AnimeInfo>, nextId: int, id: int, code: Value, oldText: string, errorEdited: bool)
    requires Latest(rows, id).Some?
    ensures UpdateStep(rows, nextId, id, MyAnimeList.ErrorCode(code), oldText, errorEdited)
      == StoreStep([], Some("error_code"), rows, nextId)
  {
    ErrorCodeRaises(HandlerText, Latest(rows, id).value.animeName, code, Latest(rows, id));
  }

  /** With a clock that does not run backwards, the stored snapshot becomes the title's latest. */
  lemma UpdatedIsLatest(rows: seq<AnimeInfo>, nextId: int, id: int, fetched: MyAnimeList.CatalogResult,
                        oldText: string, errorEdited: bool)
    requires fetched.Record?
    requires forall i :: 0 <= i < |rows| && rows[i].animeId == id ==> rows[i].updated <= fetched.updated
    ensures var s := UpdateStep(rows, nextId, id, fetched, oldText, errorEdited);
      s.rows != rows ==> Latest(s.rows, id) == Some(s.rows[|rows|])
  {
    var s := UpdateStep(rows, nextId, id, fetched, oldText, errorEdited);
    if s.rows != rows {
      InsertThenLatest(rows, s.rows[|rows|]);
    }
  }

  // ---------------------------------------------------------------------------
  // Properties of the rename form

  /**
   * With the saved keys and a text, the rename form leaves the form, renames
   * every row of the saved title and no other row, and the listing then
   * shows the title once under the new name.
   */
  lemma RenameFormEffect(form: FormState, data: map<string, int>, text: string, rows: seq<AnimeInfo>, nextId: int)
    requires OUTGOING in data && ANIME_ID in data
    requires NamesConsistent(rows)
    ensures var s := RenameFormStep(form, data, Some(text), rows, nextId);
      var id := data[ANIME_ID];
      && s.raised == None && s.form == NoForm && s.data == map[] && |s.rows| == |rows|
      && (forall i :: 0 <= i < |rows| ==> s.rows[i].animeName == if rows[i].animeId == id then RStrip(text) else rows[i].animeName)
      && (forall x :: x in Items(s.rows) && x.id == id ==> x.name == RStrip(text))
      && NamesConsistent(s.rows)
      && s.actions == [RemoveKeyboardOf(data[OUTGOING]), Answer(RENAMED, [])]
  {
    RenameListing(rows, data[ANIME_ID], RStrip(text));
  }

  /** Without the saved message id the rename form is left and nothing is renamed; a missing title id or text raises. */
  lemma RenameFormMissingKeys(form: FormState, data: map<string, int>, text: Option<string>, rows: seq<AnimeInfo>, nextId: int)
    ensures var s := RenameFormStep(form, data, text, rows, nextId);
      && (OUTGOING !in data ==> s == Step([], None, NoForm, map[], rows, nextId))
      && (OUTGOING in data && (ANIME_ID !in data || text.None?) ==>
            s.raised.Some? && s.form == form && s.data == data && s.rows == rows)
  {
  }
}
