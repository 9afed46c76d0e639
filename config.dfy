/**
 * The configuration manager (app/common/config.py). The values it reads,
 * the yaml credentials and the secrets store's content, are decoded JSON;
 * the instance attributes its methods assign are a map from attribute name
 * to value, so that an attribute never assigned is one missing from the map.
 * Loading the files and calling the secrets store are left out: their results
 * are the fields `creds` and `secrets`.
 */
module Config {
  import opened Wrappers
  import opened Civil
  import opened Json

  /** The sections of the secrets store, each read from the key `"{env}/{name}"`. */
  datatype Section = Db | Owner | Domain | Mal | Telegram | JobsAnime | Notifications

  function Name(s: Section): string {
    match s
    case Db => "db"
    case Owner => "owner"
    case Domain => "domain"
    case Mal => "mal"
    case Telegram => "telegram"
    case JobsAnime => "jobs/anime"
    case Notifications => "notifications"
  }

  /** The sections `check_secrets` validates, in the order it validates them. */
  const SECTIONS: seq<Section> := [Db, Owner, Domain, Mal, Telegram, JobsAnime, Notifications]

  /** The attributes `get_creds` and `apply_secrets` assign. */
  datatype Attr =
    | SecretsDomain | SecretsHeader | SecretsToken
    | DbConnectionString | OwnerLogin | OwnerId | DomainName | MalApi | MalHeader | MalClientId
    | TelegramToken | TelegramSecret | TelegramAllowed
    | AnimeUpdateType | AnimeUpdateDelayValue | AnimeUpdateDelayUnit | AnimeUpdateAt
    | NotificationsSecret | NotificationsAllowed

  /** The three delay units a "delay" job accepts. */
  predicate KnownUnit(unit: Json) {
    unit == JStr("minutes") || unit == JStr("hours") || unit == JStr("days")
  }

  /** `data["allowed"]` exists and is a list. */
  predicate AllowedList(data: Json) {
    Has(data, "allowed") && At(data, "allowed").JList?
  }

  /** The job section is one of its two valid shapes. */
  predicate JobValid(data: Json) {
    && Has(data, "type")
    && if At(data, "type") == JStr("delay") then
         Has(data, "delay_value") && Has(data, "delay_unit") && KnownUnit(At(data, "delay_unit"))
       else if At(data, "type") == JStr("update_at") then
         && Has(data, "update_at")
         && var text := StrOf(At(data, "update_at"));
            text.Some? && ParseIsoTime(text.value + ":00").Some?
       else false
  }

  /** The try-block of one section runs to its end without raising. */
  predicate SectionValid(section: Section, data: Json) {
    match section
    case Db => Has(data, "connection string")
    case Owner => Has(data, "login") && Has(data, "id")
    case Domain => Has(data, "domain")
    case Mal => Has(data, "api_url") && Has(data, "header") && Has(data, "client_id")
    case Telegram => Has(data, "token") && Has(data, "secret") && AllowedList(data)
    case JobsAnime => JobValid(data)
    case Notifications => Has(data, "secret") && AllowedList(data)
  }

  /** `secrets_data.get(f"{ENV}/{name}")`. */
  function SectionData(env: string, secrets: map<string, Json>, section: Section): Json {
    Get(secrets, env + "/" + Name(section))
  }

  /** The sections checked: all of them at startup, all but "db" on a reload. */
  function Checked(getDb: bool): (r: seq<Section>)
    ensures getDb ==> r == SECTIONS
    ensures !getDb ==> r == SECTIONS[1..]
  {
    if getDb then SECTIONS else SECTIONS[1..]
  }

  /** The names `"{env}/{name}"` of the invalid sections among `sections`, in their order. */
  function Missing(env: string, secrets: map<string, Json>, sections: seq<Section>): seq<string> {
    if sections == [] then []
    else
      var last := sections[|sections| - 1];
      Missing(env, secrets, sections[..|sections| - 1])
      + if SectionValid(last, SectionData(env, secrets, last)) then [] else [env + "/" + Name(last)]
  }

  /** How an assignment reads its value: `data[key]`, `data[key] or ""`, or `data.get(key)`. */
  datatype Read = Index(key: string) | IndexOrEmpty(key: string) | GetKey(key: string)

  /** One assignment statement: the attribute, the value it reads from, and how. */
  datatype Assignment = Assignment(attr: Attr, data: Json, read: Read)

  /** The value an assignment reads, or `None` when reading it raises. */
  function ReadValue(data: Json, read: Read): Option<Json> {
    match read
    case Index(key) => if Has(data, key) then Some(At(data, key)) else None
    case IndexOrEmpty(key) =>
      if Has(data, key) then Some(if Truthy(At(data, key)) then At(data, key) else JStr("")) else None
    case GetKey(key) => if data.JObj? then Some(Get(data.fields, key)) else None   // .get on a non-dict raises
  }

  /**
   * The statements run in order: whether all of them ran, and the attributes
   * then; the first one that raises leaves the earlier assignments in place.
   */
  function Performed(attrs: map<Attr, Json>, plan: seq<Assignment>): (r: (bool, map<Attr, Json>))
    decreases |plan|
  {
    if plan == [] then (true, attrs)
    else
      match ReadValue(plan[0].data, plan[0].read)
      case None => (false, attrs)
      case Some(v) => Performed(attrs[plan[0].attr := v], plan[1..])
  }

  /** The assignments of `get_creds`. */
  function CredsPlan(creds: Json): seq<Assignment> {
    [Assignment(SecretsDomain, creds, IndexOrEmpty("secrets_domain")),
     Assignment(SecretsHeader, creds, IndexOrEmpty("secrets_header")),
     Assignment(SecretsToken, creds, IndexOrEmpty("secrets_token"))]
  }

  /** The assignments of one section's block of `apply_secrets`, reading from the section's data. */
  function SectionPlan(section: Section, data: Json): seq<Assignment> {
    match section
    case Db => [Assignment(DbConnectionString, data, Index("connection string"))]
    case Owner => [Assignment(OwnerLogin, data, Index("login")), Assignment(OwnerId, data, Index("id"))]
    case Domain => [Assignment(DomainName, data, Index("domain"))]
    case Mal =>
      [Assignment(MalApi, data, Index("api_url")), Assignment(MalHeader, data, Index("header")),
       Assignment(MalClientId, data, Index("client_id"))]
    case Telegram =>
      [Assignment(TelegramToken, data, Index("token")), Assignment(TelegramSecret, data, Index("secret")),
       Assignment(TelegramAllowed, data, Index("allowed"))]
    case JobsAnime =>
      [Assignment(AnimeUpdateType, data, Index("type")), Assignment(AnimeUpdateDelayValue, data, GetKey("delay_value")),
       Assignment(AnimeUpdateDelayUnit, data, GetKey("delay_unit")), Assignment(AnimeUpdateAt, data, GetKey("update_at"))]
    case Notifications =>
      [Assignment(NotificationsSecret, data, Index("secret")), Assignment(NotificationsAllowed, data, Index("allowed"))]
  }

  /** The section whose block assigns an attribute of `apply_secrets`. */
  function SectionOf(a: Attr): Section
    requires !(a.SecretsDomain? || a.SecretsHeader? || a.SecretsToken?)
  {
    match a
    case DbConnectionString => Db
    case OwnerLogin => Owner
    case OwnerId => Owner
    case DomainName => Domain
    case MalApi => Mal
    case MalHeader => Mal
    case MalClientId => Mal
    case TelegramToken => Telegram
    case TelegramSecret => Telegram
    case TelegramAllowed => Telegram
    case AnimeUpdateType => JobsAnime
    case AnimeUpdateDelayValue => JobsAnime
    case AnimeUpdateDelayUnit => JobsAnime
    case AnimeUpdateAt => JobsAnime
    case NotificationsSecret => Notifications
    case NotificationsAllowed => Notifications
  }

  /** The blocks of the given sections, in order. */
  function Plans(env: string, secrets: map<string, Json>, sections: seq<Section>): seq<Assignment> {
    if sections == [] then []
    else
      var last := sections[|sections| - 1];
      Plans(env, secrets, sections[..|sections| - 1]) + SectionPlan(last, SectionData(env, secrets, last))
  }

  /** The assignments of `apply_secrets`: the blocks of the same sections `check_secrets` checks. */
  function ApplyPlan(env: string, secrets: map<string, Json>, getDb: bool): seq<Assignment> {
    Plans(env, secrets, Checked(getDb))
  }

  const CREDS_ERROR: string := "Error getting secrets creds from config-file"

  /** Python's name of a value's type, as an AttributeError message shows it. */
  function TypeName(j: Json): string {
    match j
    case JNull => "NoneType"
    case JBool(_) => "bool"
    case JInt(_) => "int"
    case JStr(_) => "str"
    case JList(_) => "list"
    case JObj(_) => "dict"
  }

  class ConfigManager {
    const env: string
    /** `creds_data`: the decoded yaml file. */
    var creds: Json
    /** `secrets_data`: the content the secrets store returned. */
    var secrets: map<string, Json>
    /** The attributes assigned so far. */
    var attrs: map<Attr, Json>

    constructor(env: string, creds: Json, secrets: map<string, Json>)
      ensures this.env == env && this.creds == creds && this.secrets == secrets && attrs == map[]
    {
      this.env := env;
      this.creds := creds;
      this.secrets := secrets;
      attrs := map[];
    }

    /** Runs assignment statements in order until one raises. */
    method Perform(plan: seq<Assignment>) returns (ok: bool)
      modifies this
      ensures (ok, attrs) == Performed(old(attrs), plan)
      ensures creds == old(creds) && secrets == old(secrets)
    {
      var i := 0;
      while i < |plan|
        invariant 0 <= i <= |plan|
        invariant Performed(old(attrs), plan) == Performed(attrs, plan[i..])
        invariant creds == old(creds) && secrets == old(secrets)
      {
        assert plan[i..][1..] == plan[i + 1..];
        var v := ReadValue(plan[i].data, plan[i].read);
        if v.None? {
          return false;
        }
        attrs := attrs[plan[i].attr := v.value];
        i := i + 1;
      }
      ok := true;
    }

    /** `get_creds()`: the three credentials, a falsy one as ""; the error text when one is missing. */
    method GetCreds() returns (error: string)
      modifies this
      ensures var (ok, a) := Performed(old(attrs), CredsPlan(old(creds)));
        attrs == a && error == (if ok then "" else CREDS_ERROR)
      ensures creds == old(creds) && secrets == old(secrets)
    {
      var ok := Perform(CredsPlan(creds));
      error := if ok then "" else CREDS_ERROR;
    }

    /**
     * `update_creds(updated)`: merges into the credentials, then raises at the
     * read of the attribute `data`, which is never assigned; the file is not
     * written and no attribute changes. The result is the raised message.
     */
    method UpdateCreds(updated: map<string, Json>) returns (raised: string)
      modifies this
      ensures old(creds).JObj? ==> creds == JObj(old(creds).fields + updated)
      ensures !old(creds).JObj? ==> creds == old(creds)
      ensures raised == if old(creds).JObj? then "'ConfigManager' object has no attribute 'data'"
                        else "'" + TypeName(old(creds)) + "' object has no attribute 'update'"
      ensures attrs == old(attrs) && secrets == old(secrets)
    {
      if !creds.JObj? {
        return "'" + TypeName(creds) + "' object has no attribute 'update'";
      }
      creds := JObj(creds.fields + updated);
      raised := "'ConfigManager' object has no attribute 'data'";
    }

    /** `check_secrets(get_db)`: the names of the sections whose check raised, in the checking order. */
    method CheckSecrets(getDb: bool) returns (noSecrets: seq<string>)
      ensures noSecrets == Missing(env, secrets, Checked(getDb))
    {
      var names := Checked(getDb);
      noSecrets := [];
      var i := 0;
      while i < |names|
        invariant 0 <= i <= |names|
        invariant noSecrets == Missing(env, secrets, names[..i])
      {
        assert names[..i + 1][..i] == names[..i];
        var section := names[i];
        if !SectionValid(section, SectionData(env, secrets, section)) {
          noSecrets := noSecrets + [env + "/" + Name(section)];
        }
        i := i + 1;
      }
      assert names[..i] == names;
    }

    /** `apply_secrets(get_db)`: whether it ran to the end without raising. */
    method ApplySecrets(getDb: bool) returns (ok: bool)
      modifies this
      ensures (ok, attrs) == Performed(old(attrs), ApplyPlan(env, secrets, getDb))
      ensures creds == old(creds) && secrets == old(secrets)
    {
      ok := Perform(ApplyPlan(env, secrets, getDb));
    }
  }

  // ---------------------------------------------------------------------------
  // Properties

  /** A name is reported exactly when its section is among `sections` and invalid. */
  lemma {:induction false} MissingMembers(env: string, secrets: map<string, Json>, sections: seq<Section>, x: string)
    ensures x in Missing(env, secrets, sections) <==>
      exists i :: 0 <= i < |sections| && x == env + "/" + Name(sections[i])
                  && !SectionValid(sections[i], SectionData(env, secrets, sections[i]))
  {
    if sections != [] {
      var front := sections[..|sections| - 1];
      MissingMembers(env, secrets, front, x);
      if i :| 0 <= i < |sections| && x == env + "/" + Name(sections[i])
              && !SectionValid(sections[i], SectionData(env, secrets, sections[i])) {
        if i < |front| {
          assert front[i] == sections[i];
        }
      }
    }
  }

  /** Checking a run of sections reports what checking its two parts reports, in that order. */
  lemma {:induction false} MissingConcat(env: string, secrets: map<string, Json>, a: seq<Section>, b: seq<Section>)
    ensures Missing(env, secrets, a + b) == Missing(env, secrets, a) + Missing(env, secrets, b)
    decreases |b|
  {
    if b == [] {
      assert a + b == a;
    } else {
      var front := b[..|b| - 1];
      assert (a + b)[..|a + b| - 1] == a + front;
      assert (a + b)[|a + b| - 1] == b[|b| - 1];
      MissingConcat(env, secrets, a, front);
      var tail := Missing(env, secrets, b) [|Missing(env, secrets, front)|..];
      assert Missing(env, secrets, b) == Missing(env, secrets, front) + tail;
      assert Missing(env, secrets, a + b) == Missing(env, secrets, a + front) + tail;
    }
  }

  /** Two different sections give different reported names. */
  lemma DistinctNames(env: string, a: Section, b: Section)
    requires a != b
    ensures env + "/" + Name(a) != env + "/" + Name(b)
  {
  }

  predicate NoRepeats<T(==)>(s: seq<T>) {
    forall i, j :: 0 <= i < j < |s| ==> s[i] != s[j]
  }

  /** Distinct sections report distinct names. */
  lemma {:induction false} MissingNoRepeats(env: string, secrets: map<string, Json>, sections: seq<Section>)
    requires NoRepeats(sections)
    ensures NoRepeats(Missing(env, secrets, sections))
  {
    if sections != [] {
      var front := sections[..|sections| - 1];
      var last := sections[|sections| - 1];
      MissingNoRepeats(env, secrets, front);
      var f := Missing(env, secrets, front);
      if !SectionValid(last, SectionData(env, secrets, last)) {
        forall j | 0 <= j < |f| ensures f[j] != env + "/" + Name(last) {
          MissingMembers(env, secrets, front, f[j]);
          var i :| 0 <= i < |front| && f[j] == env + "/" + Name(front[i])
                   && !SectionValid(front[i], SectionData(env, secrets, front[i]));
          assert front[i] == sections[i];
          DistinctNames(env, front[i], last);
        }
      }
    }
  }

  /** Each section is reported at most once. */
  lemma CheckedNoRepeats(env: string, secrets: map<string, Json>, getDb: bool)
    ensures NoRepeats(Missing(env, secrets, Checked(getDb)))
  {
    assert NoRepeats(SECTIONS);
    assert NoRepeats(Checked(getDb));
    MissingNoRepeats(env, secrets, Checked(getDb));
  }

  /** "db" is reported only at startup, when its section is invalid. */
  lemma DbOnlyAtStartup(env: string, secrets: map<string, Json>, getDb: bool)
    ensures (env + "/db" in Missing(env, secrets, Checked(getDb))) <==>
      getDb && !SectionValid(Db, SectionData(env, secrets, Db))
  {
    var names := Checked(getDb);
    MissingMembers(env, secrets, names, env + "/db");
    if env + "/db" in Missing(env, secrets, names) {
      var i :| 0 <= i < |names| && env + "/db" == env + "/" + Name(names[i])
               && !SectionValid(names[i], SectionData(env, secrets, names[i]));
      assert names[i] == Db;
    }
    if getDb && !SectionValid(Db, SectionData(env, secrets, Db)) {
      assert names[0] == Db;
    }
  }

  /** At startup "db" is checked first: the report is its entry, then what a reload reports. */
  lemma StartupChecksDbFirst(env: string, secrets: map<string, Json>)
    ensures Missing(env, secrets, Checked(true)) == Missing(env, secrets, [Db]) + Missing(env, secrets, Checked(false))
  {
    assert SECTIONS == [Db] + SECTIONS[1..];
    MissingConcat(env, secrets, [Db], SECTIONS[1..]);
  }

  /** The report is empty exactly when every checked section is valid. */
  lemma EmptyReportMeansValid(env: string, secrets: map<string, Json>, getDb: bool)
    ensures Missing(env, secrets, Checked(getDb)) == [] <==>
      forall s :: s in Checked(getDb) ==> SectionValid(s, SectionData(env, secrets, s))
  {
    var names := Checked(getDb);
    var m := Missing(env, secrets, names);
    if m == [] {
      forall s | s in names ensures SectionValid(s, SectionData(env, secrets, s)) {
        MissingMembers(env, secrets, names, env + "/" + Name(s));
      }
    } else {
      MissingMembers(env, secrets, names, m[0]);
    }
  }

  /** Every statement of a plan reads its value without raising. */
  predicate AllReadable(plan: seq<Assignment>) {
    forall st :: st in plan ==> ReadValue(st.data, st.read).Some?
  }

  /**
   * A run of statements completes exactly when none of them raises, and then
   * every attribute of the plan is assigned.
   */
  lemma {:induction false} PerformedRuns(attrs: map<Attr, Json>, plan: seq<Assignment>)
    ensures Performed(attrs, plan).0 <==> AllReadable(plan)
    ensures AllReadable(plan) ==> forall st :: st in plan ==> st.attr in Performed(attrs, plan).1
    decreases |plan|
  {
    if plan != [] {
      var v := ReadValue(plan[0].data, plan[0].read);
      var rest := plan[1..];
      assert forall st :: st in plan <==> st == plan[0] || st in rest;
      if v.Some? {
        var next := attrs[plan[0].attr := v.value];
        PerformedRuns(next, rest);
        PerformedGrows(next, rest);
      }
    }
  }

  /** An attribute once assigned stays assigned. */
  lemma {:induction false} PerformedGrows(attrs: map<Attr, Json>, plan: seq<Assignment>)
    ensures attrs.Keys <= Performed(attrs, plan).1.Keys
    decreases |plan|
  {
    if plan != [] {
      var v := ReadValue(plan[0].data, plan[0].read);
      if v.Some? {
        PerformedGrows(attrs[plan[0].attr := v.value], plan[1..]);
      }
    }
  }

  /** An attribute no statement of the plan assigns keeps its value. */
  lemma {:induction false} PerformedKeeps(attrs: map<Attr, Json>, plan: seq<Assignment>, a: Attr)
    requires forall st :: st in plan ==> st.attr != a
    ensures var after := Performed(attrs, plan).1; (a in after <==> a in attrs) && (a in attrs ==> after[a] == attrs[a])
    decreases |plan|
  {
    if plan != [] {
      var v := ReadValue(plan[0].data, plan[0].read);
      if v.Some? {
        assert forall st :: st in plan[1..] ==> st in plan;
        PerformedKeeps(attrs[plan[0].attr := v.value], plan[1..], a);
      }
    }
  }

  /** In a run that completes, the one statement assigning an attribute decides its value. */
  lemma {:induction false} PerformedSole(attrs: map<Attr, Json>, plan: seq<Assignment>, st: Assignment)
    requires st in plan && AllReadable(plan)
    requires forall other :: other in plan && other.attr == st.attr ==> other == st
    ensures var after := Performed(attrs, plan).1;
      st.attr in after && after[st.attr] == ReadValue(st.data, st.read).value
    decreases |plan|
  {
    var rest := plan[1..];
    assert forall x :: x in plan <==> x == plan[0] || x in rest;
    var next := attrs[plan[0].attr := ReadValue(plan[0].data, plan[0].read).value];
    if st in rest {
      PerformedSole(next, rest, st);
    } else {
      PerformedKeeps(next, rest, st.attr);
    }
  }

  /** The statements of a run of blocks are those of its sections' blocks. */
  lemma {:induction false} PlansMembers(env: string, secrets: map<string, Json>, sections: seq<Section>, st: Assignment)
    ensures st in Plans(env, secrets, sections) <==>
      exists s :: s in sections && st in SectionPlan(s, SectionData(env, secrets, s))
  {
    if sections != [] {
      var front := sections[..|sections| - 1];
      PlansMembers(env, secrets, front, st);
      assert forall s :: s in sections <==> s in front || s == sections[|sections| - 1];
    }
  }

  /** A block assigns the attributes of its own section, from its own section's data. */
  lemma SectionPlanAttrs(section: Section, data: Json, st: Assignment)
    requires st in SectionPlan(section, data)
    ensures !(st.attr.SecretsDomain? || st.attr.SecretsHeader? || st.attr.SecretsToken?)
    ensures SectionOf(st.attr) == section && st.data == data
  {
  }

  /** The block of a valid section reads every value without raising. */
  lemma ValidSectionReadable(section: Section, data: Json)
    requires SectionValid(section, data)
    ensures AllReadable(SectionPlan(section, data))
  {
  }

  /** Every statement of `apply_secrets` reads a section that passed its check. */
  lemma ValidSectionsReadable(env: string, secrets: map<string, Json>, getDb: bool)
    requires forall s :: s in Checked(getDb) ==> SectionValid(s, SectionData(env, secrets, s))
    ensures AllReadable(ApplyPlan(env, secrets, getDb))
  {
    forall st | st in ApplyPlan(env, secrets, getDb) ensures ReadValue(st.data, st.read).Some? {
      PlansMembers(env, secrets, Checked(getDb), st);
      var s :| s in Checked(getDb) && st in SectionPlan(s, SectionData(env, secrets, s));
      ValidSectionReadable(s, SectionData(env, secrets, s));
    }
  }

  /** When the check reports nothing, `apply_secrets` runs to its end and assigns every attribute it names. */
  lemma CheckedThenApplied(env: string, secrets: map<string, Json>, getDb: bool, attrs: map<Attr, Json>)
    requires Missing(env, secrets, Checked(getDb)) == []
    ensures var plan := ApplyPlan(env, secrets, getDb);
      && Performed(attrs, plan).0
      && forall st :: st in plan ==> st.attr in Performed(attrs, plan).1
  {
    EmptyReportMeansValid(env, secrets, getDb);
    ValidSectionsReadable(env, secrets, getDb);
    PerformedRuns(attrs, ApplyPlan(env, secrets, getDb));
  }

  /** A reload, which runs without "db", leaves the connection string as it was. */
  lemma ReloadKeepsConnection(env: string, secrets: map<string, Json>, attrs: map<Attr, Json>)
    ensures var after := Performed(attrs, ApplyPlan(env, secrets, false)).1;
      (DbConnectionString in after <==> DbConnectionString in attrs)
      && (DbConnectionString in attrs ==> after[DbConnectionString] == attrs[DbConnectionString])
  {
    forall st | st in ApplyPlan(env, secrets, false) ensures st.attr != DbConnectionString {
      PlansMembers(env, secrets, Checked(false), st);
      var s :| s in Checked(false) && st in SectionPlan(s, SectionData(env, secrets, s));
      SectionPlanAttrs(s, SectionData(env, secrets, s), st);
    }
    PerformedKeeps(attrs, ApplyPlan(env, secrets, false), DbConnectionString);
  }

  /** Within one block no two statements assign the same attribute. */
  lemma SectionPlanOnce(section: Section, data: Json, x: Assignment, y: Assignment)
    requires x in SectionPlan(section, data) && y in SectionPlan(section, data) && x.attr == y.attr
    ensures x == y
  {
  }

  /** No attribute is assigned by two statements of `apply_secrets`. */
  lemma ApplyAssignsOnce(env: string, secrets: map<string, Json>, getDb: bool, x: Assignment, y: Assignment)
    requires x in ApplyPlan(env, secrets, getDb) && y in ApplyPlan(env, secrets, getDb) && x.attr == y.attr
    ensures x == y
  {
    PlansMembers(env, secrets, Checked(getDb), x);
    PlansMembers(env, secrets, Checked(getDb), y);
    var sx :| sx in Checked(getDb) && x in SectionPlan(sx, SectionData(env, secrets, sx));
    var sy :| sy in Checked(getDb) && y in SectionPlan(sy, SectionData(env, secrets, sy));
    SectionPlanAttrs(sx, SectionData(env, secrets, sx), x);
    SectionPlanAttrs(sy, SectionData(env, secrets, sy), y);
    SectionPlanOnce(sx, SectionData(env, secrets, sx), x, y);
  }

  /** When `apply_secrets` runs to its end, each attribute holds the value its one statement read. */
  lemma ApplyValue(env: string, secrets: map<string, Json>, getDb: bool, attrs: map<Attr, Json>, st: Assignment)
    requires st in ApplyPlan(env, secrets, getDb) && AllReadable(ApplyPlan(env, secrets, getDb))
    ensures var after := Performed(attrs, ApplyPlan(env, secrets, getDb)).1;
      st.attr in after && after[st.attr] == ReadValue(st.data, st.read).value
  {
    var plan := ApplyPlan(env, secrets, getDb);
    forall other | other in plan && other.attr == st.attr ensures other == st {
      ApplyAssignsOnce(env, secrets, getDb, other, st);
    }
    PerformedSole(attrs, plan, st);
  }

  /** Each checked section's block is part of `apply_secrets`. */
  lemma SectionApplied(env: string, secrets: map<string, Json>, getDb: bool, section: Section, st: Assignment)
    requires section in Checked(getDb) && st in SectionPlan(section, SectionData(env, secrets, section))
    ensures st in ApplyPlan(env, secrets, getDb)
  {
    PlansMembers(env, secrets, Checked(getDb), st);
  }

  /** After a check that passed, a delay value absent from the job section is `None`. */
  lemma AbsentJobFieldsAreNone(env: string, secrets: map<string, Json>, getDb: bool, attrs: map<Attr, Json>)
    requires Missing(env, secrets, Checked(getDb)) == []
    requires !Has(SectionData(env, secrets, JobsAnime), "delay_value")
    ensures var after := Performed(attrs, ApplyPlan(env, secrets, getDb)).1;
      AnimeUpdateDelayValue in after && after[AnimeUpdateDelayValue] == JNull
  {
    EmptyReportMeansValid(env, secrets, getDb);
    ValidSectionsReadable(env, secrets, getDb);
    var job := SectionData(env, secrets, JobsAnime);
    var st := Assignment(AnimeUpdateDelayValue, job, GetKey("delay_value"));
    assert JobsAnime in Checked(getDb);
    assert st == SectionPlan(JobsAnime, job)[1];
    SectionApplied(env, secrets, getDb, JobsAnime, st);
    ApplyValue(env, secrets, getDb, attrs, st);
  }

  /** Credentials are read as given, a falsy one as ""; a missing one is the error. */
  lemma CredsOutcome(creds: Json, attrs: map<Attr, Json>)
    ensures var (ok, after) := Performed(attrs, CredsPlan(creds));
      && (ok <==> Has(creds, "secrets_domain") && Has(creds, "secrets_header") && Has(creds, "secrets_token"))
      && (ok ==> SecretsToken in after
                 && after[SecretsToken] == (if Truthy(At(creds, "secrets_token")) then At(creds, "secrets_token") else JStr("")))
  {
    var plan := CredsPlan(creds);
    PerformedRuns(attrs, plan);
    if AllReadable(plan) {
      PerformedSole(attrs, plan, plan[2]);
    }
  }
}
