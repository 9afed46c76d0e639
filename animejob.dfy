/**
 * The anime job (app/jobs/anime.py): `get_interval` turns the job settings
 * into the number of seconds to sleep, and `loop_task` is one cycle over the
 * tracked titles: fetch each, report the changes since its last snapshot to
 * the owner, and store the new snapshot.
 */
module AnimeJob {
  import opened Wrappers
  import opened Text
  import opened Civil
  import opened Json
  import opened Models
  import opened Formatting
  import opened Crud
  import opened Report
  import JobBase
  import MyAnimeList

  // ---------------------------------------------------------------------------
  // get_interval

  /** The seconds in one delay unit; any unit other than the three named ones counts single seconds. */
  function UnitCoefficient(unit: Json): (c: nat)
    ensures unit == JStr("minutes") ==> c == 60
    ensures unit == JStr("hours") ==> c == 3600
    ensures unit == JStr("days") ==> c == 86400
    ensures unit !in {JStr("minutes"), JStr("hours"), JStr("days")} ==> c == 1
  {
    if unit == JStr("minutes") then 60
    else if unit == JStr("hours") then 60 * 60
    else if unit == JStr("days") then 60 * 60 * 24
    else 1
  }

  /** The microseconds from `now` to the next moment the clock reads `planned` seconds past midnight. */
  function WaitMicros(planned: nat, now: nat): (w: nat)
    ensures w < US_PER_DAY
  {
    (planned * US_PER_SECOND - now % US_PER_DAY) % US_PER_DAY
  }

  /**
   * `get_interval()` for the settings `ANIME_UPDATE_TYPE`, `..._DELAY_VALUE`,
   * `..._DELAY_UNIT` and `ANIME_UPDATE_AT`, with the clock reading `now`.
   * An exception gives -1; a type other than the two known ones falls through
   * and gives `None`.
   */
  function GetInterval(updateType: Json, delayValue: Json, delayUnit: Json, updateAt: Json, now: nat): (r: JobBase.Interval)
  {
    if updateType == JStr("delay") then
      var coeff := UnitCoefficient(delayUnit);
      match delayValue
      case JInt(v) => JobBase.Seconds(v * coeff)
      case JBool(b) => JobBase.Seconds(if b then coeff else 0)
      case JStr(_) => JobBase.NotNumber("str")      // str * int repeats the text
      case JList(_) => JobBase.NotNumber("list")    // list * int repeats the list
      case _ => JobBase.Seconds(-1)                 // None * int, dict * int: TypeError
    else if updateType == JStr("update_at") then
      match StrOf(updateAt)
      case None => JobBase.Seconds(-1)
      case Some(text) =>
        match ParseIsoTime(text + ":00")
        case None => JobBase.Seconds(-1)
        case Some((h, m)) => JobBase.Seconds(WaitMicros(h * 3600 + m * 60, now) / US_PER_SECOND)
    else JobBase.NoneValue
  }

  /** A delay is the value times the unit's seconds, with single seconds for an unknown unit. */
  lemma DelayInterval(v: int, unit: Json, updateAt: Json, now: nat)
    ensures GetInterval(JStr("delay"), JInt(v), unit, updateAt, now) == JobBase.Seconds(v * UnitCoefficient(unit))
    ensures unit == JStr("minutes") ==> GetInterval(JStr("delay"), JInt(v), unit, updateAt, now) == JobBase.Seconds(v * 60)
    ensures unit == JStr("hours") ==> GetInterval(JStr("delay"), JInt(v), unit, updateAt, now) == JobBase.Seconds(v * 3600)
    ensures unit == JStr("days") ==> GetInterval(JStr("delay"), JInt(v), unit, updateAt, now) == JobBase.Seconds(v * 86400)
  {
  }

  /** A type other than "delay" and "update_at" gives `None`, not -1. */
  lemma UnknownTypeGivesNone(updateType: Json, delayValue: Json, delayUnit: Json, updateAt: Json, now: nat)
    requires updateType != JStr("delay") && updateType != JStr("update_at")
    ensures GetInterval(updateType, delayValue, delayUnit, updateAt, now) == JobBase.NoneValue
  {
  }

  /** A daily time is at most a day away: the result is -1 or lies in 0..86399. */
  lemma UpdateAtBounds(delayValue: Json, delayUnit: Json, updateAt: Json, now: nat)
    ensures var r := GetInterval(JStr("update_at"), delayValue, delayUnit, updateAt, now);
      r.Seconds? && (r.n == -1 || 0 <= r.n < SECONDS_PER_DAY)
  {
  }

  /**
   * The wait is the whole number of seconds until the planned time: later
   * today when it has not passed yet, and tomorrow otherwise.
   */
  lemma WaitIsNextOccurrence(planned: nat, now: nat)
    requires planned < SECONDS_PER_DAY
    ensures var tod := now % US_PER_DAY; var p := planned * US_PER_SECOND;
      WaitMicros(planned, now) == if tod <= p then p - tod else p + US_PER_DAY - tod
  {
    var tod := now % US_PER_DAY;
    var p := planned * US_PER_SECOND;
    assert p < US_PER_DAY;
    if tod <= p {
      assert (p - tod) % US_PER_DAY == p - tod;
    } else {
      assert (p - tod) % US_PER_DAY == p - tod + US_PER_DAY;
    }
  }

  /** 2024-01-01 00:00:00 UTC. */
  const NEW_YEAR_2024: nat := 19723 * US_PER_DAY

  /** The setting "09:00" with the seconds the job adds parses as nine o'clock. */
  lemma NineOClock()
    ensures ParseIsoTime("09:00" + ":00") == Some((9, 0))
  {
    var t := "09:00" + ":00";
    assert t == "09:00:00";
  }

  /** A setting of "09:00" waits until the clock next reads nine o'clock. */
  lemma NineOClockWait(delayValue: Json, delayUnit: Json, now: nat)
    ensures GetInterval(JStr("update_at"), delayValue, delayUnit, JStr("09:00"), now)
      == JobBase.Seconds(WaitMicros(9 * 3600, now) / US_PER_SECOND)
  {
    NineOClock();
  }

  /** The time of day of a moment `t` microseconds after the start of day `d`. */
  lemma TimeOfDay(d: nat, t: nat)
    requires t < US_PER_DAY
    ensures (d * US_PER_DAY + t) % US_PER_DAY == t
  {
  }

  /** At 09:00 on 1 January 2024 an update set for "09:00" is due now. */
  lemma UpdateAtOnTime(delayValue: Json, delayUnit: Json)
    ensures GetInterval(JStr("update_at"), delayValue, delayUnit, JStr("09:00"), NEW_YEAR_2024 + 9 * 3600 * US_PER_SECOND) == JobBase.Seconds(0)
  {
    NineOClockWait(delayValue, delayUnit, NEW_YEAR_2024 + 9 * 3600 * US_PER_SECOND);
    TimeOfDay(19723, 32400000000);
  }

  /** An hour before, it waits an hour. */
  lemma UpdateAtHourBefore(delayValue: Json, delayUnit: Json)
    ensures GetInterval(JStr("update_at"), delayValue, delayUnit, JStr("09:00"), NEW_YEAR_2024 + 8 * 3600 * US_PER_SECOND) == JobBase.Seconds(3600)
  {
    NineOClockWait(delayValue, delayUnit, NEW_YEAR_2024 + 8 * 3600 * US_PER_SECOND);
    TimeOfDay(19723, 28800000000);
  }

  /** An hour after, it waits until 09:00 the next day. */
  lemma UpdateAtHourAfter(delayValue: Json, delayUnit: Json)
    ensures GetInterval(JStr("update_at"), delayValue, delayUnit, JStr("09:00"), NEW_YEAR_2024 + 10 * 3600 * US_PER_SECOND) == JobBase.Seconds(82800)
  {
    NineOClockWait(delayValue, delayUnit, NEW_YEAR_2024 + 10 * 3600 * US_PER_SECOND);
    TimeOfDay(19723, 36000000000);
  }

  /** A setting no time parses from, or a delay value that cannot be multiplied, gives -1. */
  lemma WrongParamsGiveMinusOne(delayUnit: Json, now: nat)
    ensures GetInterval(JStr("update_at"), JNull, delayUnit, JNull, now) == JobBase.Seconds(-1)
    ensures GetInterval(JStr("update_at"), JNull, delayUnit, JStr("9"), now) == JobBase.Seconds(-1)
    ensures GetInterval(JStr("delay"), JNull, delayUnit, JNull, now) == JobBase.Seconds(-1)
  {
    assert "None" + ":00" == "None:00";
    assert "9" + ":00" == "9:00";
  }

  // ---------------------------------------------------------------------------
  // loop_task

  /** What the catalog answers for one item, and whether the "Didn't get" notice would be delivered. */
  datatype FetchInput = FetchInput(result: MyAnimeList.CatalogResult, noticeDelivered: bool)

  /** The messages sent and rows stored during a cycle, in order. */
  datatype Event = Notice(text: string) | Inserted(row: AnimeInfo) | Sent(spans: seq<Span>)

  /** How a cycle ends: after every item, by the `return` after a notice, or by an exception. */
  datatype Outcome = Completed | Returned | Raised(reason: string)

  datatype Cycle = Cycle(outcome: Outcome, events: seq<Event>, rows: seq<AnimeInfo>, nextId: int)

  function NoticeText(name: string): string { "Didn't get " + name + " anime info" }

  /** How a report is rendered for an item from its fetched result and the table as it stands. */
  type Render = (Listed, MyAnimeList.CatalogResult, seq<AnimeInfo>) -> Result<seq<Span>>

  /** The job's report (the `JobText` wording) against the item's latest snapshot. */
  function JobReport(item: Listed, info: MyAnimeList.CatalogResult, rows: seq<AnimeInfo>): Result<seq<Span>> {
    Message(JobText, item.name, MyAnimeList.Items(info), Latest(rows, item.id))
  }

  /**
   * One item of the cycle. An empty result sends the notice and returns when
   * it is delivered; when the send fails the code falls through, renders an
   * empty report and raises at `anime_info["rank"]`. Otherwise the report is
   * rendered against the latest snapshot, the row is inserted with the cycle's
   * start time, and the report is sent.
   */
  function ItemStep(rows: seq<AnimeInfo>, nextId: int, item: Listed, input: FetchInput, now: nat, render: Render): Cycle {
    var info := input.result;
    var pre := if info.Empty? then [Notice(NoticeText(item.name))] else [];
    if info.Empty? && input.noticeDelivered then Cycle(Returned, pre, rows, nextId)
    else
      var report := render(item, info, rows);
      if report.Err? then Cycle(Raised(report.error), pre, rows, nextId)
      else if !info.Record? then Cycle(Raised("rank"), pre, rows, nextId)
      else
        var made := MakeRow(nextId, item.id, item.name, info.rank, info.mean, info.usersAll, info.usersScored,
                            info.status, VTime(now));
        if made.None? then Cycle(Raised("IntegrityError"), pre, rows, nextId)
        else Cycle(Completed, pre + [Inserted(made.value), Sent(report.value)], rows + [made.value], nextId + 1)
  }

  function Then(events: seq<Event>, c: Cycle): Cycle {
    Cycle(c.outcome, events + c.events, c.rows, c.nextId)
  }

  /** The cycle from item `k` on: items in listing order, stopping at the first item that does not complete. */
  function CycleFrom(rows: seq<AnimeInfo>, nextId: int, items: seq<Listed>, k: nat, now: nat,
                     fetches: nat -> FetchInput, render: Render): Cycle
    requires k <= |items|
    decreases |items| - k
  {
    if k == |items| then Cycle(Completed, [], rows, nextId)
    else
      var step := ItemStep(rows, nextId, items[k], fetches(k), now, render);
      if !step.outcome.Completed? then step
      else Then(step.events, CycleFrom(step.rows, step.nextId, items, k + 1, now, fetches, render))
  }

  lemma ThenThen(a: seq<Event>, b: seq<Event>, c: Cycle)
    ensures Then(a, Then(b, c)) == Then(a + b, c)
  {
    assert a + (b + c.events) == (a + b) + c.events;
  }

  /** The body of `loop_task`'s loop for one title: what it sends, stores and how it leaves the item. */
  method ProcessItem(store: AnimeStore, item: Listed, input: FetchInput, now: nat)
    returns (outcome: Outcome, events: seq<Event>)
    requires store.Valid()
    modifies store
    ensures store.Valid()
    ensures var s := ItemStep(old(store.rows), old(store.nextId), item, input, now, JobReport);
      outcome == s.outcome && events == s.events && store.rows == s.rows && store.nextId == s.nextId
  {
    var info := input.result;
    events := [];
    if info.Empty? {
      events := [Notice(NoticeText(item.name))];
      if input.noticeDelivered {
        return Returned, events;
      }
    }
    var last := store.GetLastInfo(item.id);
    var report := BuildReport(JobText, item.name, MyAnimeList.Items(info), last);
    if report.Err? {
      return Raised(report.error), events;
    }
    if !info.Record? {
      return Raised("rank"), events;
    }
    var res := store.AddAnimeInfo(item.id, item.name, info.rank, info.mean, info.usersAll, info.usersScored,
                                  info.status, VTime(now));
    if res.Err? {
      return Raised(res.error), events;
    }
    events := events + [Inserted(res.value), Sent(report.value)];
    outcome := Completed;
  }

  /**
   * `loop_task()`: list the titles once, then process them in order. `now` is
   * the cycle's start time and `fetches(k)` what the k-th fetch yields.
   */
  method LoopTask(store: AnimeStore, now: nat, fetches: nat -> FetchInput) returns (outcome: Outcome, events: seq<Event>)
    requires store.Valid()
    modifies store
    ensures store.Valid()
    ensures var c := CycleFrom(old(store.rows), old(store.nextId), Items(old(store.rows)), 0, now, fetches, JobReport);
      outcome == c.outcome && events == c.events && store.rows == c.rows && store.nextId == c.nextId
  {
    var allAnime := store.GetAllAnime();
    ghost var whole := CycleFrom(store.rows, store.nextId, allAnime, 0, now, fetches, JobReport);
    events := [];
    var k := 0;
    while k < |allAnime|
      invariant 0 <= k <= |allAnime| && store.Valid()
      invariant whole == Then(events, CycleFrom(store.rows, store.nextId, allAnime, k, now, fetches, JobReport))
    {
      ghost var before := CycleFrom(store.rows, store.nextId, allAnime, k, now, fetches, JobReport);
      var stepOutcome, stepEvents := ProcessItem(store, allAnime[k], fetches(k), now);
      ghost var start := events;
      events := events + stepEvents;
      if !stepOutcome.Completed? {
        assert before == Cycle(stepOutcome, stepEvents, store.rows, store.nextId);
        return stepOutcome, events;
      }
      ghost var after := CycleFrom(store.rows, store.nextId, allAnime, k + 1, now, fetches, JobReport);
      assert before == Then(stepEvents, after);
      ThenThen(start, stepEvents, after);
      k := k + 1;
    }
    outcome := Completed;
    assert events + [] == events;
  }

  // ---------------------------------------------------------------------------
  // Properties of a cycle

  /** The rows a run of events inserted, in order. */
  function Inserts(events: seq<Event>): (r: seq<AnimeInfo>)
    ensures |r| <= |events|
  {
    if events == [] then []
    else (if events[0].Inserted? then [events[0].row] else []) + Inserts(events[1..])
  }

  /** The number of reports a run of events sent. */
  function SentCount(events: seq<Event>): (n: nat)
    ensures n <= |events|
  {
    if events == [] then 0 else (if events[0].Sent? then 1 else 0) + SentCount(events[1..])
  }

  lemma {:induction false} InsertsConcat(a: seq<Event>, b: seq<Event>)
    ensures Inserts(a + b) == Inserts(a) + Inserts(b)
    decreases |a|
  {
    if a == [] {
      assert a + b == b;
    } else {
      assert (a + b)[0] == a[0];
      assert (a + b)[1..] == a[1..] + b;
      InsertsConcat(a[1..], b);
    }
  }

  lemma {:induction false} SentCountConcat(a: seq<Event>, b: seq<Event>)
    ensures SentCount(a + b) == SentCount(a) + SentCount(b)
    decreases |a|
  {
    if a == [] {
      assert a + b == b;
    } else {
      assert (a + b)[0] == a[0];
      assert (a + b)[1..] == a[1..] + b;
      SentCountConcat(a[1..], b);
    }
  }

  /** A completed item inserts one row, the item's snapshot at `now`; any other outcome inserts nothing. */
  lemma ItemStepEvents(rows: seq<AnimeInfo>, nextId: int, item: Listed, input: FetchInput, now: nat, render: Render)
    ensures var s := ItemStep(rows, nextId, item, input, now, render);
      && (s.outcome.Completed? ==>
            && input.result.Record? && |Inserts(s.events)| == 1
            && var row := Inserts(s.events)[0];
               PairOf(row) == item && row.updated == now && s.rows == rows + [row] && s.nextId == nextId + 1)
      && (!s.outcome.Completed? ==> Inserts(s.events) == [] && s.rows == rows && s.nextId == nextId)
  {
    var s := ItemStep(rows, nextId, item, input, now, render);
    if s.outcome.Completed? {
      var row := s.rows[|rows|];
      assert s.events == [Inserted(row), Sent(s.events[1].spans)];
      assert s.events[1..] == [Sent(s.events[1].spans)];
    }
  }

  /** A completed item sends one report; any other outcome sends none. */
  lemma ItemStepReports(rows: seq<AnimeInfo>, nextId: int, item: Listed, input: FetchInput, now: nat, render: Render)
    ensures var s := ItemStep(rows, nextId, item, input, now, render);
      SentCount(s.events) == if s.outcome.Completed? then 1 else 0
  {
    var s := ItemStep(rows, nextId, item, input, now, render);
    if s.outcome.Completed? {
      assert s.events[1..] == [Sent(s.events[1].spans)];
      assert s.events[1..][1..] == [];
    }
  }

  /** Row `i` of `ins` is the snapshot of item `k + i`, taken at `now`. */
  predicate SnapshotsOf(ins: seq<AnimeInfo>, items: seq<Listed>, k: nat, now: nat) {
    && |ins| <= |items| - k
    && forall i :: 0 <= i < |ins| ==> PairOf(ins[i]) == items[k + i] && ins[i].updated == now
  }

  lemma SnapshotsCons(row: AnimeInfo, later: seq<AnimeInfo>, items: seq<Listed>, k: nat, now: nat)
    requires k < |items| && PairOf(row) == items[k] && row.updated == now
    requires SnapshotsOf(later, items, k + 1, now)
    ensures SnapshotsOf([row] + later, items, k, now)
  {
    var ins := [row] + later;
    forall i | 0 <= i < |ins| ensures PairOf(ins[i]) == items[k + i] && ins[i].updated == now {
      if i > 0 {
        assert ins[i] == later[i - 1];
      }
    }
  }

  /**
   * The inserts of a cycle are one per completed item, in listing order; each
   * carries the item's listed id and name and the cycle's start time; and
   * one report goes out per insert.
   */
  lemma {:induction false} CycleSnapshots(rows: seq<AnimeInfo>, nextId: int, items: seq<Listed>, k: nat, now: nat,
                                          fetches: nat -> FetchInput, render: Render)
    requires k <= |items|
    ensures var c := CycleFrom(rows, nextId, items, k, now, fetches, render);
      && SnapshotsOf(Inserts(c.events), items, k, now)
      && (c.outcome.Completed? ==> |Inserts(c.events)| == |items| - k)
      && SentCount(c.events) == |Inserts(c.events)|
    decreases |items| - k
  {
    if k < |items| {
      var step := ItemStep(rows, nextId, items[k], fetches(k), now, render);
      ItemStepEvents(rows, nextId, items[k], fetches(k), now, render);
      ItemStepReports(rows, nextId, items[k], fetches(k), now, render);
      if step.outcome.Completed? {
        var rest := CycleFrom(step.rows, step.nextId, items, k + 1, now, fetches, render);
        CycleSnapshots(step.rows, step.nextId, items, k + 1, now, fetches, render);
        InsertsConcat(step.events, rest.events);
        SentCountConcat(step.events, rest.events);
        var row := Inserts(step.events)[0];
        assert Inserts(step.events) == [row];
        SnapshotsCons(row, Inserts(rest.events), items, k, now);
      }
    }
  }

  /** The table ends as the old rows followed by the cycle's inserts. */
  lemma {:induction false} CycleRows(rows: seq<AnimeInfo>, nextId: int, items: seq<Listed>, k: nat, now: nat,
                                     fetches: nat -> FetchInput, render: Render)
    requires k <= |items|
    ensures var c := CycleFrom(rows, nextId, items, k, now, fetches, render);
      c.rows == rows + Inserts(c.events)
    decreases |items| - k
  {
    if k < |items| {
      var step := ItemStep(rows, nextId, items[k], fetches(k), now, render);
      ItemStepRows(rows, nextId, items[k], fetches(k), now, render);
      if step.outcome.Completed? {
        var rest := CycleFrom(step.rows, step.nextId, items, k + 1, now, fetches, render);
        CycleRows(step.rows, step.nextId, items, k + 1, now, fetches, render);
        ThenRows(rows, step.rows, step.events, rest);
      }
    } else {
      assert rows + [] == rows;
    }
  }

  /** One item appends to the table exactly the rows it inserts. */
  lemma ItemStepRows(rows: seq<AnimeInfo>, nextId: int, item: Listed, input: FetchInput, now: nat, render: Render)
    ensures var s := ItemStep(rows, nextId, item, input, now, render);
      s.rows == rows + Inserts(s.events)
  {
    ItemStepEvents(rows, nextId, item, input, now, render);
    var s := ItemStep(rows, nextId, item, input, now, render);
    if s.outcome.Completed? {
      assert Inserts(s.events) == [Inserts(s.events)[0]];
    } else {
      assert rows + [] == rows;
    }
  }

  /** Appending what one item inserted and then what the rest of the cycle inserted. */
  lemma ThenRows(rows: seq<AnimeInfo>, stepRows: seq<AnimeInfo>, stepEvents: seq<Event>, rest: Cycle)
    requires stepRows == rows + Inserts(stepEvents)
    requires rest.rows == stepRows + Inserts(rest.events)
    ensures Then(stepEvents, rest).rows == rows + Inserts(Then(stepEvents, rest).events)
  {
    InsertsConcat(stepEvents, rest.events);
    assert rows + (Inserts(stepEvents) + Inserts(rest.events)) == (rows + Inserts(stepEvents)) + Inserts(rest.events);
  }

  /** The id counter moves on by one per insert of the cycle. */
  lemma {:induction false} CycleNextId(rows: seq<AnimeInfo>, nextId: int, items: seq<Listed>, k: nat, now: nat,
                                       fetches: nat -> FetchInput, render: Render)
    requires k <= |items|
    ensures var c := CycleFrom(rows, nextId, items, k, now, fetches, render);
      c.nextId == nextId + |Inserts(c.events)|
    decreases |items| - k
  {
    if k < |items| {
      var step := ItemStep(rows, nextId, items[k], fetches(k), now, render);
      ItemStepEvents(rows, nextId, items[k], fetches(k), now, render);
      if step.outcome.Completed? {
        var rest := CycleFrom(step.rows, step.nextId, items, k + 1, now, fetches, render);
        CycleNextId(step.rows, step.nextId, items, k + 1, now, fetches, render);
        InsertsConcat(step.events, rest.events);
      }
    }
  }

  /** A completed cycle had a full record for every item; an error code or an empty result ends it early. */
  lemma {:induction false} CompletedCycleHadRecords(rows: seq<AnimeInfo>, nextId: int, items: seq<Listed>, k: nat,
                                                    now: nat, fetches: nat -> FetchInput, render: Render)
    requires k <= |items|
    requires CycleFrom(rows, nextId, items, k, now, fetches, render).outcome.Completed?
    ensures forall j :: k <= j < |items| ==> fetches(j).result.Record?
    decreases |items| - k
  {
    if k < |items| {
      ItemStepEvents(rows, nextId, items[k], fetches(k), now, render);
      var step := ItemStep(rows, nextId, items[k], fetches(k), now, render);
      CompletedCycleHadRecords(step.rows, step.nextId, items, k + 1, now, fetches, render);
    }
  }

  /** Items from the first non-record result on get no insert and no report. */
  lemma {:induction false} NothingAfterFailedFetch(rows: seq<AnimeInfo>, nextId: int, items: seq<Listed>, k: nat,
                                                   now: nat, fetches: nat -> FetchInput, render: Render, j: nat)
    requires k <= j < |items| && !fetches(j).result.Record?
    ensures var c := CycleFrom(rows, nextId, items, k, now, fetches, render);
      |Inserts(c.events)| <= j - k && SentCount(c.events) <= j - k && !c.outcome.Completed?
    decreases |items| - k
  {
    var step := ItemStep(rows, nextId, items[k], fetches(k), now, render);
    ItemStepEvents(rows, nextId, items[k], fetches(k), now, render);
    ItemStepReports(rows, nextId, items[k], fetches(k), now, render);
    if step.outcome.Completed? {
      var rest := CycleFrom(step.rows, step.nextId, items, k + 1, now, fetches, render);
      NothingAfterFailedFetch(step.rows, step.nextId, items, k + 1, now, fetches, render, j);
      InsertsConcat(step.events, rest.events);
      SentCountConcat(step.events, rest.events);
    }
  }

  /** In every cycle a report is sent only right after its snapshot was inserted. */
  predicate InsertBeforeReport(events: seq<Event>) {
    forall p :: 0 <= p < |events| && events[p].Sent? ==> p > 0 && events[p - 1].Inserted?
  }

  lemma {:induction false} CycleInsertsBeforeReports(rows: seq<AnimeInfo>, nextId: int, items: seq<Listed>, k: nat,
                                                     now: nat, fetches: nat -> FetchInput, render: Render)
    requires k <= |items|
    ensures InsertBeforeReport(CycleFrom(rows, nextId, items, k, now, fetches, render).events)
    decreases |items| - k
  {
    if k < |items| {
      var step := ItemStep(rows, nextId, items[k], fetches(k), now, render);
      if step.outcome.Completed? {
        var rest := CycleFrom(step.rows, step.nextId, items, k + 1, now, fetches, render);
        CycleInsertsBeforeReports(step.rows, step.nextId, items, k + 1, now, fetches, render);
        var all := step.events + rest.events;
        forall p | 0 <= p < |all| && all[p].Sent? ensures p > 0 && all[p - 1].Inserted? {
          if p >= |step.events| {
            assert all[p] == rest.events[p - |step.events|];
            if p - |step.events| == 0 {
              assert false;
            }
            assert all[p - 1] == rest.events[p - 1 - |step.events|];
          }
        }
      }
    }
  }
}
