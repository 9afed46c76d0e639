/**
 * The `/secrets_reload` command (app/telegram/routes/admin.py): load the
 * secrets again, answer the load error or the sections that fail their check,
 * and otherwise apply everything but "db" and answer "Reloaded". Each answer
 * sits in `suppress(TelegramBadRequest)` together with the `return` after it,
 * so an answer the chat rejects lets the handler go on to the next step.
 */
module Admin {
  import opened Json
  import opened Config
  import opened Text

  /**
   * How `load_secrets_async()` went: the store's content was read, the request
   * raised (with the exception's text), the status was not 200, or the body
   * held no `"content"`.
   */
  datatype Load =
    | Loaded(content: map<string, Json>)
    | RequestFailed(reason: string)
    | BadStatus(status: int)
    | BadBody

  /** The error text `load_secrets_async()` returns; "" when it loaded. */
  function LoadError(load: Load): (error: string)
    ensures error == "" <==> load.Loaded?
    ensures !load.Loaded? ==> |error| >= 5 && error[..5] == "Error"
  {
    match load
    case Loaded(_) => ""
    case RequestFailed(reason) => "Error getting data from secrets - " + reason
    case BadStatus(status) => "Error getting data from secrets response - " + IntStr(status)
    case BadBody => "Error getting secrets from response"
  }

  /** Whether each of the two guarded answers reached the chat. */
  datatype Delivery = Delivery(errorAnswered: bool, missingAnswered: bool)

  /** The state a reload leaves and the answers it tried to send, in order. */
  datatype Reload = Reload(secrets: map<string, Json>, attrs: map<Attr, Json>, answers: seq<string>)

  /** The items of a list of names, each quoted, joined by ", ". */
  function QuotedItems(names: seq<string>): string {
    if names == [] then ""
    else if |names| == 1 then "'" + names[0] + "'"
    else "'" + names[0] + "', " + QuotedItems(names[1..])
  }

  /** `str(names)` for a list of strings with no quote or backslash in them. */
  function ListRepr(names: seq<string>): (r: string)
    ensures |r| >= 2 && r[0] == '[' && r[|r| - 1] == ']'
  {
    "[" + QuotedItems(names) + "]"
  }

  function NoSecretsText(missing: seq<string>): string {
    "No secrets found:\n" + ListRepr(missing)
  }

  /** The steps from `check_secrets` on, after the answers `sent` so far. */
  function CheckedAndApplied(env: string, secrets: map<string, Json>, attrs: map<Attr, Json>, missingAnswered: bool, sent: seq<string>): Reload {
    var missing := Missing(env, secrets, Checked(false));
    var missingAnswer := if missing != [] then [NoSecretsText(missing)] else [];
    if missing != [] && missingAnswered then Reload(secrets, attrs, sent + missingAnswer)
    else
      var (ok, attrs') := Performed(attrs, ApplyPlan(env, secrets, false));
      // a statement that raises ends the handler before "Reloaded"
      Reload(secrets, attrs', sent + missingAnswer + if ok then ["Reloaded"] else [])
  }

  /** The handler's steps on the manager's state before the command. */
  function Reloaded(env: string, secrets: map<string, Json>, attrs: map<Attr, Json>, load: Load, delivery: Delivery): Reload {
    var secrets' := if load.Loaded? then load.content else secrets;
    var loadAnswer := if !load.Loaded? then [LoadError(load)] else [];
    if !load.Loaded? && delivery.errorAnswered then Reload(secrets', attrs, loadAnswer)
    else CheckedAndApplied(env, secrets', attrs, delivery.missingAnswered, loadAnswer)
  }

  /** From `check_secrets` on: the answers sent, given those sent before. */
  method CheckAndApply(cfg: ConfigManager, missingAnswered: bool, sent: seq<string>) returns (answers: seq<string>)
    modifies cfg
    ensures var r := CheckedAndApplied(cfg.env, old(cfg.secrets), old(cfg.attrs), missingAnswered, sent);
      cfg.secrets == r.secrets && cfg.attrs == r.attrs && answers == r.answers
    ensures cfg.creds == old(cfg.creds)
  {
    answers := sent;
    var noSecrets := cfg.CheckSecrets(false);
    if noSecrets != [] {
      answers := answers + [NoSecretsText(noSecrets)];
      if missingAnswered {
        return;
      }
    }
    var ok := cfg.ApplySecrets(false);
    if ok {
      answers := answers + ["Reloaded"];
    }
  }

  /** `secrets_reload_handler`: the answers it sends; the manager ends in the state `Reloaded` gives. */
  method SecretsReload(cfg: ConfigManager, load: Load, delivery: Delivery) returns (answers: seq<string>)
    modifies cfg
    ensures var r := Reloaded(cfg.env, old(cfg.secrets), old(cfg.attrs), load, delivery);
      cfg.secrets == r.secrets && cfg.attrs == r.attrs && answers == r.answers
    ensures cfg.creds == old(cfg.creds)
  {
    answers := [];
    var error := LoadError(load);
    if load.Loaded? {
      cfg.secrets := load.content;
    }
    if error != "" {
      answers := answers + [error];
      if delivery.errorAnswered {
        return;
      }
    }
    answers := CheckAndApply(cfg, delivery.missingAnswered, answers);
  }

  // ---------------------------------------------------------------------------
  // Properties

  /** Whether the handler gets as far as `apply_secrets`. */
  predicate ReachesApply(env: string, secrets: map<string, Json>, load: Load, delivery: Delivery) {
    var secrets' := if load.Loaded? then load.content else secrets;
    && (!load.Loaded? ==> !delivery.errorAnswered)
    && (Missing(env, secrets', Checked(false)) != [] ==> !delivery.missingAnswered)
  }

  /** A load error that was answered ends the command: nothing is checked or applied. */
  lemma LoadErrorStops(env: string, secrets: map<string, Json>, attrs: map<Attr, Json>, load: Load, delivery: Delivery)
    requires !load.Loaded? && delivery.errorAnswered
    ensures Reloaded(env, secrets, attrs, load, delivery) == Reload(secrets, attrs, [LoadError(load)])
  {
  }

  /** Sections failing their check, once answered, end the command with no attribute assigned. */
  lemma MissingStops(env: string, secrets: map<string, Json>, attrs: map<Attr, Json>, content: map<string, Json>, delivery: Delivery)
    requires Missing(env, content, Checked(false)) != [] && delivery.missingAnswered
    ensures Reloaded(env, secrets, attrs, Loaded(content), delivery)
      == Reload(content, attrs, [NoSecretsText(Missing(env, content, Checked(false)))])
  {
  }

  /** A successful load whose sections all pass applies them and answers just "Reloaded". */
  lemma CleanReloadApplies(env: string, secrets: map<string, Json>, attrs: map<Attr, Json>, content: map<string, Json>, delivery: Delivery)
    requires Missing(env, content, Checked(false)) == []
    ensures var r := Reloaded(env, secrets, attrs, Loaded(content), delivery);
      && r.answers == ["Reloaded"]
      && r.secrets == content
      && r.attrs == Performed(attrs, ApplyPlan(env, content, false)).1
  {
    CheckedThenApplied(env, content, false, attrs);
  }

  /**
   * "Reloaded" is answered exactly when the handler reached `apply_secrets`
   * and it ran to its end; attributes change only when it was reached.
   */
  lemma ReloadedMeansApplied(env: string, secrets: map<string, Json>, attrs: map<Attr, Json>, load: Load, delivery: Delivery)
    ensures var r := Reloaded(env, secrets, attrs, load, delivery);
      && ("Reloaded" in r.answers <==>
            ReachesApply(env, secrets, load, delivery) && Performed(attrs, ApplyPlan(env, r.secrets, false)).0)
      && (!ReachesApply(env, secrets, load, delivery) ==> r.attrs == attrs)
  {
    var r := Reloaded(env, secrets, attrs, load, delivery);
    var secrets' := if load.Loaded? then load.content else secrets;
    var missing := Missing(env, secrets', Checked(false));
    var loadAnswer := if !load.Loaded? then [LoadError(load)] else [];
    var missingAnswer := if missing != [] then [NoSecretsText(missing)] else [];
    assert "Reloaded" !in loadAnswer by {
      if !load.Loaded? {
        assert LoadError(load)[..5] == "Error";
      }
    }
    assert "Reloaded" !in missingAnswer by {
      if missing != [] {
        assert NoSecretsText(missing)[..3] == "No ";
      }
    }
    assert "Reloaded" !in loadAnswer + missingAnswer;
  }

  /** A reload never assigns the database connection string, whatever the load and the chat do. */
  lemma ReloadKeepsDb(env: string, secrets: map<string, Json>, attrs: map<Attr, Json>, load: Load, delivery: Delivery)
    ensures var r := Reloaded(env, secrets, attrs, load, delivery);
      && (DbConnectionString in r.attrs <==> DbConnectionString in attrs)
      && (DbConnectionString in attrs ==> r.attrs[DbConnectionString] == attrs[DbConnectionString])
  {
    ReloadKeepsConnection(env, if load.Loaded? then load.content else secrets, attrs);
  }

  /** The list text of the missing names shows each of them quoted, in order. */
  lemma {:induction false} QuotedItemsShape(names: seq<string>)
    ensures names == [] <==> QuotedItems(names) == ""
    ensures names != [] ==> QuotedItems(names)[0] == '\''
  {
    if |names| > 1 {
      QuotedItemsShape(names[1..]);
    }
  }
}
