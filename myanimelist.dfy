/**
 * The catalog client (app/externals/myanimelist.py): one GET of
 * `/anime/{id}` asking for the fields mean, num_list_users, num_scoring_users,
 * rank and status. The HTTP exchange is an input; the function maps its
 * outcome to the dict the callers work with.
 */
module MyAnimeList {
  import opened Wrappers
  import opened Models

  /** The decoded response body: not JSON at all, JSON that is not an object, or an object. */
  datatype Body = Invalid | NotObject | Object(fields: map<string, Value>)

  /** What the HTTP client produced: an exception before any response, or a response. */
  datatype HttpOutcome = TransportError | Response(status: int, body: Body)

  /**
   * The returned dict: `{"error_code": code}`, `{}`, or the six renamed
   * fields with the fetch time stamped as `updated`.
   */
  datatype CatalogResult =
    | ErrorCode(code: Value)
    | Empty
    | Record(rank: Value, mean: Value, usersAll: Value, usersScored: Value, status: Value, updated: nat)

  /** The fields requested with the query and read back from the body. */
  const REQUESTED: seq<string> := ["mean", "num_list_users", "num_scoring_users", "rank", "status"]

  /** The body's object holds every requested field. */
  predicate Complete(body: Body) {
    body.Object? && forall k :: k in REQUESTED ==> k in body.fields
  }

  /** `get_anime_info(id)` once the exchange has produced `outcome` and the clock reads `now`. */
  function GetAnimeInfo(outcome: HttpOutcome, now: nat): (r: CatalogResult)
    ensures outcome.TransportError? ==> r == ErrorCode(VStr(""))
    ensures outcome.Response? && outcome.status != 200 ==> r == ErrorCode(VInt(outcome.status))
    ensures r.Record? <==> outcome.Response? && outcome.status == 200 && Complete(outcome.body)
    ensures r.Empty? <==> outcome.Response? && outcome.status == 200 && !Complete(outcome.body)
    ensures r.Record? ==>
      var f := outcome.body.fields;
      && r.rank == f["rank"] && r.mean == f["mean"] && r.usersAll == f["num_list_users"]
      && r.usersScored == f["num_scoring_users"] && r.status == f["status"] && r.updated == now
  {
    match outcome
    case TransportError => ErrorCode(VStr(""))
    case Response(status, body) =>
      if status != 200 then ErrorCode(VInt(status))
      else if Complete(body) then
        var f := body.fields;
        Record(f["rank"], f["mean"], f["num_list_users"], f["num_scoring_users"], f["status"], now)
      else Empty
  }

  /** The returned dict as its items, in insertion order. */
  function Items(r: CatalogResult): (items: seq<(string, Value)>)
    ensures r.Empty? <==> items == []
  {
    match r
    case ErrorCode(code) => [("error_code", code)]
    case Empty => []
    case Record(rank, mean, usersAll, usersScored, status, updated) =>
      [("rank", rank), ("mean", mean), ("users_all", usersAll), ("users_scored", usersScored),
       ("status", status), ("updated", VTime(updated))]
  }

  function Keys(items: seq<(string, Value)>): (ks: seq<string>)
    ensures |ks| == |items|
    ensures forall i :: 0 <= i < |items| ==> ks[i] == items[i].0
  {
    if items == [] then [] else Keys(items[..|items| - 1]) + [items[|items| - 1].0]
  }

  /** `result[key]`, with `None` for the KeyError. */
  function Lookup(items: seq<(string, Value)>, key: string): (v: Option<Value>)
    ensures v.None? <==> key !in Keys(items)
  {
    if items == [] then None
    else if items[|items| - 1].0 == key then Some(items[|items| - 1].1)
    else Lookup(items[..|items| - 1], key)
  }

  /** The keys of a fetched record, in the order the dict literal lists them. */
  const RECORD_KEYS: seq<string> := ["rank", "mean", "users_all", "users_scored", "status", "updated"]

  /**
   * The dict is exactly one of the three shapes: an error code alone, nothing,
   * or the six metric keys in their order; an error never comes with metrics.
   */
  lemma {:induction false} ResultShapes(outcome: HttpOutcome, now: nat)
    ensures var ks := Keys(Items(GetAnimeInfo(outcome, now)));
      || ks == ["error_code"] || ks == [] || ks == RECORD_KEYS
    ensures var ks := Keys(Items(GetAnimeInfo(outcome, now)));
      "error_code" in ks ==> forall k :: k in RECORD_KEYS ==> k !in ks
  {
    var items := Items(GetAnimeInfo(outcome, now));
    var ks := Keys(items);
    assert |ks| == |items|;
    match GetAnimeInfo(outcome, now)
    case ErrorCode(_) => assert ks == ["error_code"];
    case Empty =>
    case Record(_, _, _, _, _, _) => assert ks == RECORD_KEYS;
  }

  /** The callers' `"mean" in anime_info` and `anime_info.get("error_code")` tell the shapes apart. */
  lemma ShapeQueries(r: CatalogResult)
    ensures Lookup(Items(r), "mean").Some? <==> r.Record?
    ensures Lookup(Items(r), "error_code").Some? <==> r.ErrorCode?
    ensures r.ErrorCode? ==> Lookup(Items(r), "error_code") == Some(r.code)
  {
    var items := Items(r);
    assert Keys(items) == seq(|items|, i requires 0 <= i < |items| => items[i].0);
    match r
    case ErrorCode(code) =>
      assert Keys(items) == ["error_code"];
    case Empty =>
    case Record(_, _, _, _, _, _) =>
      assert Keys(items) == RECORD_KEYS;
  }
}
