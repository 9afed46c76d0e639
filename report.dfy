/**
 * The snapshot report shared by the background job (app/jobs/anime.py:63-91)
 * and the interactive Update handler (app/telegram/routes/anime.py:206-234):
 * for every field of a fresh catalog record it tries `new - old`, classifies
 * the outcome, and renders one line. The two copies differ only in how a
 * changed field that cannot be subtracted is shown, which `Variant` selects.
 */
module Report {
  import opened Wrappers
  import opened Text
  import opened Civil
  import opened Models
  import opened Formatting

  /** The job prints the literal text `last_info[key] -> new`; the handler prints `old -> new`. */
  datatype Variant = JobText | HandlerText

  /** The outcome of `anime_info[key] - last_info[key]`. */
  datatype Diff =
    | Numeric(delta: int)   // two numbers
    | Duration(us: int)     // two datetimes: a timedelta
    | NoDiff                // the subtraction raised (KeyError or TypeError)

  /** The previous snapshot's value for `key`, or `None` when `last_info[key]` raises KeyError. */
  function LastValue(last: Option<AnimeInfo>, key: string): Option<Value> {
    if last.None? then None else Column(last.value, key)
  }

  function Subtract(cur: Value, last: Option<Value>): (d: Diff)
    ensures d.Numeric? <==> cur.VInt? && last.Some? && last.value.VInt?
    ensures d.Duration? <==> cur.VTime? && last.Some? && last.value.VTime?
    ensures d.Numeric? ==> d.delta == cur.i - last.value.i
    ensures d.Duration? ==> d.us == cur.us - last.value.us
  {
    match (cur, last)
    case (VInt(c), Some(VInt(l))) => Numeric(c - l)
    case (VTime(c), Some(VTime(l))) => Duration(c - l)
    case _ => NoDiff
  }

  /** `str(v)`, which an f-string applies. */
  function PyStr(v: Value): string {
    match v
    case VNone => "None"
    case VInt(i) => IntStr(i)
    case VStr(s) => s
    case VTime(us) => IsoText(us)
  }

  /** `timedelta.days` and `timedelta.seconds` of a span of `us` microseconds. */
  function SpanDays(us: int): int { us / US_PER_DAY }

  function SpanSeconds(us: int): (s: nat)
    ensures s < SECONDS_PER_DAY
  {
    (us % US_PER_DAY) / US_PER_SECOND
  }

  /** `f"+{days} d, {seconds // 3600} h, {(seconds // 60) % 60} m"`. */
  function DurationText(us: int): string {
    var secs := SpanSeconds(us);
    "+" + IntStr(SpanDays(us)) + " d, " + Decimal(secs / 3600) + " h, " + Decimal((secs / 60) % 60) + " m"
  }

  /** The text of a changed field that cannot be subtracted. */
  function TransitionText(variant: Variant, last: Value, cur: Value): string {
    match variant
    case JobText => "last_info[key] -> " + PyStr(cur)
    case HandlerText => PyStr(last) + " -> " + PyStr(cur)
  }

  /** The `(info_str, diff_str)` of one field; the error is the key whose lookup in the previous snapshot raised. */
  function FieldInfo(variant: Variant, key: string, cur: Value, last: Option<Value>): (r: Result<(string, string)>)
    ensures r.Err? <==> last.None?
    ensures r.Err? ==> r.error == key
    ensures r.Ok? && r.value.1 != "" ==> Subtract(cur, last).Numeric?
    ensures r.Ok? && Subtract(cur, last).NoDiff? ==>
      r.value.0 == (if last.value == cur then PyStr(cur) else TransitionText(variant, last.value, cur))
  {
    match Subtract(cur, last)
    case Duration(us) => Ok((DurationText(us), ""))
    case Numeric(d) => Ok((GroupedInt(cur.i), Signed(d)))
    case NoDiff =>
      if last.None? then Err(key)
      else if last.value == cur then Ok((PyStr(last.value), ""))
      else Ok((TransitionText(variant, last.value, cur), ""))
  }

  /** `key.replace('_', ' ').capitalize()`. */
  function Label(key: string): string { Capitalize(ReplaceChar(key, '_', ' ')) }

  /** The spans one field adds to the message. */
  function LineSpans(key: string, info: string, delta: string): (s: seq<Span>)
    ensures |s| == (if delta == "" then 3 else 4)
    ensures s[0] == Span(Bold, Label(key) + ":   ") && s[1] == PlainSpan(" " + info) && s[|s| - 1] == PlainSpan("\n")
    ensures delta != "" ==> s[2] == Span(Italic, " (" + delta + ")")
  {
    [Span(Bold, Label(key) + ":   "), PlainSpan(" " + info)]
    + (if delta == "" then [] else [Span(Italic, " (" + delta + ")")])
    + [PlainSpan("\n")]
  }

  /** The spans of one field, or the key whose lookup raised. */
  function FieldLine(variant: Variant, key: string, cur: Value, last: Option<AnimeInfo>): (r: Result<seq<Span>>)
    ensures r.Err? <==> LastValue(last, key).None?
  {
    var field := FieldInfo(variant, key, cur, LastValue(last, key));
    if field.Err? then Err(field.error) else Ok(LineSpans(key, field.value.0, field.value.1))
  }

  /** The lines of the fields in record order; the first field whose rendering raises stops it. */
  function Lines(variant: Variant, record: seq<(string, Value)>, last: Option<AnimeInfo>): (r: Result<seq<Span>>)
    decreases |record|
  {
    if record == [] then Ok([])
    else
      var front := Lines(variant, record[..|record| - 1], last);
      var line := FieldLine(variant, record[|record| - 1].0, record[|record| - 1].1, last);
      if front.Err? then front
      else if line.Err? then line
      else Ok(front.value + line.value)
  }

  function Header(name: string): Span { Span(Bold, name + ": \n") }

  /** The whole message: the bold name header, then the lines. */
  function Message(variant: Variant, name: string, record: seq<(string, Value)>, last: Option<AnimeInfo>): Result<seq<Span>> {
    match Lines(variant, record, last)
    case Err(e) => Err(e)
    case Ok(lines) => Ok([Header(name)] + lines)
  }

  /**
   * The per-field loop of both call sites: `message_info` starts as the header
   * and each field extends it with its line; a lookup that raises ends it.
   */
  method BuildReport(variant: Variant, name: string, record: seq<(string, Value)>, last: Option<AnimeInfo>)
    returns (r: Result<seq<Span>>)
    ensures r == Message(variant, name, record, last)
  {
    var messageInfo := [Header(name)];
    var k := 0;
    while k < |record|
      invariant 0 <= k <= |record|
      invariant Lines(variant, record[..k], last).Ok?
      invariant messageInfo == [Header(name)] + Lines(variant, record[..k], last).value
    {
      var line := FieldLine(variant, record[k].0, record[k].1, last);
      LinesExtend(variant, record, last, k);
      if line.Err? {
        return Err(line.error);
      }
      SpansAssoc([Header(name)], Lines(variant, record[..k], last).value, line.value);
      messageInfo := messageInfo + line.value;
      k := k + 1;
    }
    assert record[..k] == record;
    r := Ok(messageInfo);
  }

  lemma SpansAssoc(a: seq<Span>, b: seq<Span>, c: seq<Span>)
    ensures (a + b) + c == a + (b + c)
  {
  }

  /** One loop step: a field line that raises is the error of the whole record, and one that renders extends the lines. */
  lemma LinesExtend(variant: Variant, record: seq<(string, Value)>, last: Option<AnimeInfo>, k: nat)
    requires k < |record| && Lines(variant, record[..k], last).Ok?
    ensures var line := FieldLine(variant, record[k].0, record[k].1, last);
      && (line.Err? ==> Lines(variant, record, last) == line)
      && (line.Ok? ==> Lines(variant, record[..k + 1], last) == Ok(Lines(variant, record[..k], last).value + line.value))
  {
    LinesSnoc(variant, record, last, k);
    var line := FieldLine(variant, record[k].0, record[k].1, last);
    if line.Err? {
      PrefixErrorPropagates(variant, record, last, k + 1);
    }
  }

  /** The lines of one more field extend the lines of the prefix. */
  lemma LinesSnoc(variant: Variant, record: seq<(string, Value)>, last: Option<AnimeInfo>, k: nat)
    requires k < |record|
    ensures var front := Lines(variant, record[..k], last);
      var line := FieldLine(variant, record[k].0, record[k].1, last);
      Lines(variant, record[..k + 1], last) ==
        if front.Err? then front else if line.Err? then line else Ok(front.value + line.value)
  {
    assert record[..k + 1][..k] == record[..k];
  }

  /** An error in the lines of a prefix is the error of the whole record. */
  lemma {:induction false} PrefixErrorPropagates(variant: Variant, record: seq<(string, Value)>, last: Option<AnimeInfo>, n: nat)
    requires n <= |record| && Lines(variant, record[..n], last).Err?
    ensures Lines(variant, record, last) == Lines(variant, record[..n], last)
    decreases |record| - n
  {
    if n < |record| {
      assert record[..n + 1][..n] == record[..n];
      PrefixErrorPropagates(variant, record, last, n + 1);
    } else {
      assert record[..n] == record;
    }
  }

  // ---------------------------------------------------------------------------
  // Properties of one line

  /** A number shows the grouped current value and its signed difference to the previous one. */
  lemma NumericLine(variant: Variant, key: string, c: int, l: int)
    ensures var r := FieldInfo(variant, key, VInt(c), Some(VInt(l)));
      r.Ok? && r.value.0 == GroupedInt(c) && r.value.1 == Signed(c - l)
  {
    assert Subtract(VInt(c), Some(VInt(l))) == Numeric(c - l);
  }

  /**
   * The italic delta of a number is never empty and starts with `+` exactly
   * when the value did not decrease.
   */
  lemma NumericDelta(variant: Variant, key: string, c: int, l: int)
    ensures var r := FieldInfo(variant, key, VInt(c), Some(VInt(l)));
      r.Ok? && r.value.1 != "" && (r.value.1[0] == '+' <==> c >= l)
  {
    NumericLine(variant, key, c, l);
    SignedSign(c - l);
  }

  /** An unchanged number shows `(+0)`. */
  lemma UnchangedNumberDelta(variant: Variant, key: string, c: int)
    ensures FieldInfo(variant, key, VInt(c), Some(VInt(c))) == Ok((GroupedInt(c), "+0"))
  {
    NumericLine(variant, key, c, c);
    SignedZero();
  }

  /**
   * A time span shows its days, hours and minutes as text and gets no italic
   * part; the span is the current time less the previous one.
   */
  lemma DurationLine(variant: Variant, key: string, cur: Value, last: Option<Value>)
    requires cur.VTime? && last.Some? && last.value.VTime?
    ensures Subtract(cur, last) == Duration(cur.us - last.value.us)
    ensures FieldInfo(variant, key, cur, last) == Ok((DurationText(Subtract(cur, last).us), ""))
  {
  }

  /**
   * The parts a time span is shown with: the days are floored, the remaining
   * whole seconds lie within one day, and the hours (0..23) and minutes (0..59)
   * account for those seconds to within the dropped seconds.
   */
  lemma DurationParts(us: int)
    ensures SpanDays(us) * US_PER_DAY <= us < SpanDays(us) * US_PER_DAY + US_PER_DAY
    ensures var rest := us - SpanDays(us) * US_PER_DAY;
      SpanSeconds(us) * US_PER_SECOND <= rest < SpanSeconds(us) * US_PER_SECOND + US_PER_SECOND
    ensures var secs := SpanSeconds(us); var h := secs / 3600; var m := (secs / 60) % 60;
      h < 24 && m < 60 && h * 3600 + m * 60 <= secs < h * 3600 + m * 60 + 60
  {
    var secs := SpanSeconds(us);
    var h := secs / 3600;
    var m := (secs / 60) % 60;
    assert secs / 60 == h * 60 + m;
  }

  /** A field that cannot be subtracted and did not change shows its value and no italic part. */
  lemma UnchangedLine(variant: Variant, key: string, v: Value)
    requires !v.VInt? && !v.VTime?
    ensures FieldInfo(variant, key, v, Some(v)) == Ok((PyStr(v), ""))
    ensures |LineSpans(key, PyStr(v), "")| == 3
  {
  }

  /** The two hand-written copies render a transition differently, and everything else alike. */
  lemma VariantsDiffer(key: string, cur: Value, last: Value)
    requires Subtract(cur, Some(last)).NoDiff? && last != cur
    ensures FieldInfo(JobText, key, cur, Some(last)) == Ok(("last_info[key] -> " + PyStr(cur), ""))
    ensures FieldInfo(HandlerText, key, cur, Some(last)) == Ok((PyStr(last) + " -> " + PyStr(cur), ""))
  {
  }

  predicate IsTransition(cur: Value, last: Option<Value>) {
    Subtract(cur, last).NoDiff? && last.Some? && last.value != cur
  }

  // ---------------------------------------------------------------------------
  // Properties of the whole report

  /** The styles of a message, span by span. */
  function Styles(spans: seq<Span>): (r: seq<Style>)
    ensures |r| == |spans|
    ensures forall i :: 0 <= i < |spans| ==> r[i] == spans[i].style
  {
    if spans == [] then [] else Styles(spans[..|spans| - 1]) + [spans[|spans| - 1].style]
  }

  /** The bold labels a message carries, in order. */
  function BoldTexts(spans: seq<Span>): seq<string> {
    if spans == [] then []
    else BoldTexts(spans[..|spans| - 1]) + (if spans[|spans| - 1].style == Bold then [spans[|spans| - 1].text] else [])
  }

  lemma {:induction false} BoldTextsConcat(a: seq<Span>, b: seq<Span>)
    ensures BoldTexts(a + b) == BoldTexts(a) + BoldTexts(b)
    decreases |b|
  {
    if b == [] {
      assert a + b == a;
    } else {
      assert (a + b)[..|a + b| - 1] == a + b[..|b| - 1];
      BoldTextsConcat(a, b[..|b| - 1]);
    }
  }

  function LabelTexts(record: seq<(string, Value)>): (r: seq<string>)
    ensures |r| == |record|
    ensures forall i :: 0 <= i < |record| ==> r[i] == Label(record[i].0) + ":   "
  {
    if record == [] then [] else LabelTexts(record[..|record| - 1]) + [Label(record[|record| - 1].0) + ":   "]
  }

  /** The spans of one field carry one bold text, its label. */
  lemma LineBold(key: string, info: string, delta: string)
    ensures BoldTexts(LineSpans(key, info, delta)) == [Label(key) + ":   "]
  {
    var line := LineSpans(key, info, delta);
    assert BoldTexts([line[0]]) == [line[0].text];
    assert [line[0], line[1]][..1] == [line[0]];
    assert BoldTexts([line[0], line[1]]) == [line[0].text];
    if delta == "" {
      assert line == [line[0], line[1], line[2]];
      assert [line[0], line[1], line[2]][..2] == [line[0], line[1]];
    } else {
      assert line == [line[0], line[1], line[2], line[3]];
      assert [line[0], line[1], line[2]][..2] == [line[0], line[1]];
      assert BoldTexts([line[0], line[1], line[2]]) == [line[0].text];
      assert [line[0], line[1], line[2], line[3]][..3] == [line[0], line[1], line[2]];
    }
  }

  /** A rendered report labels the fields in the order of the record: one bold label per field. */
  lemma {:induction false} LinesFollowKeyOrder(variant: Variant, record: seq<(string, Value)>, last: Option<AnimeInfo>)
    requires Lines(variant, record, last).Ok?
    ensures BoldTexts(Lines(variant, record, last).value) == LabelTexts(record)
    decreases |record|
  {
    if record != [] {
      var (key, cur) := record[|record| - 1];
      var front := record[..|record| - 1];
      LinesFollowKeyOrder(variant, front, last);
      var (info, delta) := FieldInfo(variant, key, cur, LastValue(last, key)).value;
      var line := LineSpans(key, info, delta);
      assert Lines(variant, record, last).value == Lines(variant, front, last).value + line;
      BoldTextsConcat(Lines(variant, front, last).value, line);
      LineBold(key, info, delta);
    }
  }

  /** The report starts with the bold name header, followed by the labels in record order. */
  lemma ReportShape(variant: Variant, name: string, record: seq<(string, Value)>, last: Option<AnimeInfo>)
    requires Message(variant, name, record, last).Ok?
    ensures Message(variant, name, record, last).value[0] == Span(Bold, name + ": \n")
    ensures BoldTexts(Message(variant, name, record, last).value) == [name + ": \n"] + LabelTexts(record)
  {
    var lines := Lines(variant, record, last).value;
    LinesFollowKeyOrder(variant, record, last);
    BoldTextsConcat([Header(name)], lines);
    assert BoldTexts([Header(name)]) == [name + ": \n"] by {
      assert [Header(name)][..0] == [];
    }
  }

  /** The two copies compute the same delta, and the same text unless the field is a transition. */
  lemma FieldInfoAgree(key: string, cur: Value, lv: Option<Value>)
    ensures FieldInfo(JobText, key, cur, lv).Err? ==> FieldInfo(JobText, key, cur, lv) == FieldInfo(HandlerText, key, cur, lv)
    ensures FieldInfo(JobText, key, cur, lv).Ok? ==>
      FieldInfo(HandlerText, key, cur, lv).Ok? && FieldInfo(JobText, key, cur, lv).value.1 == FieldInfo(HandlerText, key, cur, lv).value.1
    ensures !IsTransition(cur, lv) ==> FieldInfo(JobText, key, cur, lv) == FieldInfo(HandlerText, key, cur, lv)
  {
  }

  /** The styles of a line depend on whether it has a delta, not on the texts. */
  lemma LineStyles(key: string, info: string, info': string, delta: string)
    ensures Styles(LineSpans(key, info, delta)) == Styles(LineSpans(key, info', delta))
  {
    var a := LineSpans(key, info, delta);
    var b := LineSpans(key, info', delta);
    assert forall i :: 0 <= i < |a| ==> a[i].style == b[i].style;
  }

  /** One field: both copies fail alike, give spans of the same styles, and agree unless it is a transition. */
  lemma FieldLinesAgree(key: string, cur: Value, last: Option<AnimeInfo>)
    ensures FieldLine(JobText, key, cur, last).Err? ==> FieldLine(JobText, key, cur, last) == FieldLine(HandlerText, key, cur, last)
    ensures FieldLine(JobText, key, cur, last).Ok? ==>
      Styles(FieldLine(JobText, key, cur, last).value) == Styles(FieldLine(HandlerText, key, cur, last).value)
    ensures !IsTransition(cur, LastValue(last, key)) ==> FieldLine(JobText, key, cur, last) == FieldLine(HandlerText, key, cur, last)
  {
    var lv := LastValue(last, key);
    FieldInfoAgree(key, cur, lv);
    var fj := FieldInfo(JobText, key, cur, lv);
    var fh := FieldInfo(HandlerText, key, cur, lv);
    if fj.Ok? {
      LineStyles(key, fj.value.0, fh.value.0, fj.value.1);
    }
  }

  lemma StylesConcat(a: seq<Span>, b: seq<Span>)
    ensures Styles(a + b) == Styles(a) + Styles(b)
  {
  }

  /**
   * Both copies fail on the same records with the same key and, where they
   * succeed, produce spans of the same styles.
   */
  lemma {:induction false} VariantsAgree(record: seq<(string, Value)>, last: Option<AnimeInfo>)
    ensures Lines(JobText, record, last).Err? ==> Lines(JobText, record, last) == Lines(HandlerText, record, last)
    ensures Lines(JobText, record, last).Ok? ==>
      && Lines(HandlerText, record, last).Ok?
      && Styles(Lines(JobText, record, last).value) == Styles(Lines(HandlerText, record, last).value)
    decreases |record|
  {
    if record != [] {
      var n := |record| - 1;
      var front := record[..n];
      VariantsAgree(front, last);
      FieldLinesAgree(record[n].0, record[n].1, last);
      var lj := Lines(JobText, front, last);
      var fj := FieldLine(JobText, record[n].0, record[n].1, last);
      if lj.Ok? && fj.Ok? {
        StylesConcat(lj.value, fj.value);
        StylesConcat(Lines(HandlerText, front, last).value, FieldLine(HandlerText, record[n].0, record[n].1, last).value);
      }
    }
  }

  /** When no field is a transition the two copies produce the same message. */
  lemma {:induction false} VariantsEqualWithoutTransitions(record: seq<(string, Value)>, last: Option<AnimeInfo>)
    requires forall i :: 0 <= i < |record| ==> !IsTransition(record[i].1, LastValue(last, record[i].0))
    ensures Lines(JobText, record, last) == Lines(HandlerText, record, last)
    decreases |record|
  {
    if record != [] {
      var n := |record| - 1;
      var front := record[..n];
      assert forall i :: 0 <= i < |front| ==> front[i] == record[i];
      VariantsEqualWithoutTransitions(front, last);
      FieldLinesAgree(record[n].0, record[n].1, last);
    }
  }

  /** Without a previous snapshot the first field's lookup raises. */
  lemma NoPreviousSnapshot(variant: Variant, name: string, record: seq<(string, Value)>)
    requires record != []
    ensures Message(variant, name, record, None) == Err(record[0].0)
  {
    assert record[..1][..0] == [];
    PrefixErrorPropagates(variant, record, None, 1);
  }

  /** An `{"error_code": …}` record always raises at its one key: a row has no such column. */
  lemma ErrorCodeRaises(variant: Variant, name: string, code: Value, last: Option<AnimeInfo>)
    ensures Message(variant, name, [("error_code", code)], last) == Err("error_code")
  {
    assert [("error_code", code)][..0] == [];
    assert "error_code"[0] != "anime_name"[0];
    assert "error_code" !in COLUMNS;
    assert LastValue(last, "error_code").None?;
    assert FieldLine(variant, "error_code", code, last) == Err("error_code");
    assert Lines(variant, [("error_code", code)], last) == Err("error_code");
  }

  /** Against a previous snapshot, a record whose keys are all columns of the row renders without raising. */
  lemma {:induction false} ColumnKeysRender(variant: Variant, record: seq<(string, Value)>, row: AnimeInfo)
    requires forall i :: 0 <= i < |record| ==> record[i].0 in COLUMNS
    ensures Lines(variant, record, Some(row)).Ok?
    decreases |record|
  {
    if record != [] {
      var front := record[..|record| - 1];
      assert forall i :: 0 <= i < |front| ==> front[i] == record[i];
      ColumnKeysRender(variant, front, row);
    }
  }
}
