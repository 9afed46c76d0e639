/**
 * The `anime_info` table (app/db/models.py): one row per captured snapshot of
 * a tracked title. `id` is the surrogate primary key; many rows share one
 * `anime_id`. `rank` is the only nullable column. `updated` is a
 * timezone-aware timestamp, here microseconds since the epoch in UTC.
 * `mean` is a float column in the database; the model keeps it as an integer.
 */
module Models {
  import opened Wrappers

  /**
   * A Python value as the diff code meets it: `None`, an `int`, a `str`, or a
   * timezone-aware `datetime` (microseconds since the epoch, UTC).
   */
  datatype Value = VNone | VInt(i: int) | VStr(s: string) | VTime(us: nat)

  datatype AnimeInfo = AnimeInfo(
    id: int,
    animeId: int,
    animeName: string,
    rank: Option<int>,
    mean: int,
    usersAll: int,
    usersScored: int,
    status: string,
    updated: nat)

  /** The column names, which are the keys of the row as a dict. */
  const COLUMNS: seq<string> :=
    ["id", "anime_id", "anime_name", "rank", "mean", "users_all", "users_scored", "status", "updated"]

  function RankValue(rank: Option<int>): Value {
    match rank
    case None => VNone
    case Some(r) => VInt(r)
  }

  /** `row_dict[key]` on the row turned into a dict of its columns; `None` is the KeyError. */
  function Column(row: AnimeInfo, key: string): (r: Option<Value>)
    ensures r.Some? <==> key in COLUMNS
  {
    if key == "id" then Some(VInt(row.id))
    else if key == "anime_id" then Some(VInt(row.animeId))
    else if key == "anime_name" then Some(VStr(row.animeName))
    else if key == "rank" then Some(RankValue(row.rank))
    else if key == "mean" then Some(VInt(row.mean))
    else if key == "users_all" then Some(VInt(row.usersAll))
    else if key == "users_scored" then Some(VInt(row.usersScored))
    else if key == "status" then Some(VStr(row.status))
    else if key == "updated" then Some(VTime(row.updated))
    else None
  }

  /** The values a nullable integer column accepts. */
  predicate NullableInt(v: Value) { v.VNone? || v.VInt? }

  /** What the database accepts for the metric columns: only `rank` may be NULL. */
  predicate Storable(rank: Value, mean: Value, usersAll: Value, usersScored: Value, status: Value, updated: Value) {
    NullableInt(rank) && mean.VInt? && usersAll.VInt? && usersScored.VInt? && status.VStr? && updated.VTime?
  }

  /**
   * The row an INSERT with these values creates, or `None` when the database
   * refuses it (a NULL in a non-null column, or a value of another type).
   */
  function MakeRow(id: int, animeId: int, name: string, rank: Value, mean: Value, usersAll: Value,
                   usersScored: Value, status: Value, updated: Value): (r: Option<AnimeInfo>)
    ensures r.Some? <==> Storable(rank, mean, usersAll, usersScored, status, updated)
  {
    if Storable(rank, mean, usersAll, usersScored, status, updated) then
      Some(AnimeInfo(id, animeId, name, if rank.VInt? then Some(rank.i) else None,
                     mean.i, usersAll.i, usersScored.i, status.s, updated.us))
    else None
  }

  /** Read back as a dict, a stored row holds exactly the values it was inserted with. */
  lemma MakeRowColumns(id: int, animeId: int, name: string, rank: Value, mean: Value, usersAll: Value,
                       usersScored: Value, status: Value, updated: Value)
    requires MakeRow(id, animeId, name, rank, mean, usersAll, usersScored, status, updated).Some?
    ensures var row := MakeRow(id, animeId, name, rank, mean, usersAll, usersScored, status, updated).value;
      && Column(row, "id") == Some(VInt(id)) && Column(row, "anime_id") == Some(VInt(animeId))
      && Column(row, "anime_name") == Some(VStr(name))
      && Column(row, "rank") == Some(rank) && Column(row, "mean") == Some(mean)
      && Column(row, "users_all") == Some(usersAll) && Column(row, "users_scored") == Some(usersScored)
      && Column(row, "status") == Some(status) && Column(row, "updated") == Some(updated)
  {
  }

  /** `rank` is the only metric that may be NULL: a NULL anywhere else makes the insert fail. */
  lemma OnlyRankIsNullable(mean: Value, usersAll: Value, usersScored: Value, status: Value, updated: Value,
                           id: int, animeId: int, name: string)
    ensures (MakeRow(id, animeId, name, VNone, mean, usersAll, usersScored, status, updated).Some?
             <==> MakeRow(id, animeId, name, VInt(0), mean, usersAll, usersScored, status, updated).Some?)
    ensures MakeRow(id, animeId, name, VNone, VNone, usersAll, usersScored, status, updated).None?
    ensures MakeRow(id, animeId, name, VNone, mean, VNone, usersScored, status, updated).None?
    ensures MakeRow(id, animeId, name, VNone, mean, usersAll, VNone, status, updated).None?
    ensures MakeRow(id, animeId, name, VNone, mean, usersAll, usersScored, VNone, updated).None?
    ensures MakeRow(id, animeId, name, VNone, mean, usersAll, usersScored, status, VNone).None?
  {
  }
}
