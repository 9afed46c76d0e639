/**
 * The data access layer over `anime_info` (app/crud/anime.py). The table is a
 * sequence of rows in insertion order; the serial primary key is the store's
 * counter `nextId`. Queries are functions of the rows, and each statement that
 * changes the table is a method of `AnimeStore`.
 */
module Crud {
  import opened Wrappers
  import opened Models

  /** One entry of the listing: `{"id": anime_id, "name": anime_name}`. */
  datatype Listed = Listed(id: int, name: string)

  function PairOf(row: AnimeInfo): Listed { Listed(row.animeId, row.animeName) }

  /** The `(anime_id, anime_name)` pair of every row, in row order. */
  function Pairs(rows: seq<AnimeInfo>): (r: seq<Listed>)
    ensures |r| == |rows|
    ensures forall i :: 0 <= i < |rows| ==> r[i] == PairOf(rows[i])
  {
    if rows == [] then [] else Pairs(rows[..|rows| - 1]) + [PairOf(rows[|rows| - 1])]
  }

  predicate NoDuplicates<T(==)>(s: seq<T>) {
    forall i, j :: 0 <= i < j < |s| ==> s[i] != s[j]
  }

  /** `SELECT DISTINCT`: each value once, at its first occurrence. */
  function Distinct(s: seq<Listed>): (r: seq<Listed>)
    ensures forall x :: x in r <==> x in s
    ensures NoDuplicates(r)
  {
    if s == [] then []
    else
      var d := Distinct(s[..|s| - 1]);
      if s[|s| - 1] in d then d else d + [s[|s| - 1]]
  }

  /** What `get_all_anime` returns: every distinct `(anime_id, anime_name)` pair of the table. */
  function Items(rows: seq<AnimeInfo>): (r: seq<Listed>)
  {
    Distinct(Pairs(rows))
  }

  /**
   * The row `get_last_info(id)` returns: a row of that title with the greatest
   * `updated`, or `None` when the title has no rows.
   */
  function Latest(rows: seq<AnimeInfo>, id: int): (r: Option<AnimeInfo>)
    ensures r.None? <==> forall i :: 0 <= i < |rows| ==> rows[i].animeId != id
    ensures r.Some? ==> r.value in rows && r.value.animeId == id
    ensures r.Some? ==> forall i :: 0 <= i < |rows| && rows[i].animeId == id ==> rows[i].updated <= r.value.updated
  {
    if rows == [] then None
    else
      var prev := Latest(rows[..|rows| - 1], id);
      var last := rows[|rows| - 1];
      if last.animeId == id && (prev.None? || prev.value.updated <= last.updated) then Some(last)
      else prev
  }

  /** The rows a `DELETE ... WHERE anime_id = id` leaves, in their order. */
  function DeleteFrom(rows: seq<AnimeInfo>, id: int): (r: seq<AnimeInfo>)
    ensures forall row :: row in r <==> row in rows && row.animeId != id
  {
    if rows == [] then []
    else
      var rest := DeleteFrom(rows[..|rows| - 1], id);
      var last := rows[|rows| - 1];
      if last.animeId == id then rest else rest + [last]
  }

  function Renamed(row: AnimeInfo, id: int, name: string): AnimeInfo {
    if row.animeId == id then row.(animeName := name) else row
  }

  /** The rows after `UPDATE ... SET anime_name = name WHERE anime_id = id`. */
  function RenameIn(rows: seq<AnimeInfo>, id: int, name: string): (r: seq<AnimeInfo>)
    ensures |r| == |rows|
    ensures forall i :: 0 <= i < |rows| ==> r[i] == Renamed(rows[i], id, name)
  {
    if rows == [] then [] else RenameIn(rows[..|rows| - 1], id, name) + [Renamed(rows[|rows| - 1], id, name)]
  }

  /** Every title carries one name across all of its rows. */
  predicate NamesConsistent(rows: seq<AnimeInfo>) {
    forall i, j :: 0 <= i < |rows| && 0 <= j < |rows| && rows[i].animeId == rows[j].animeId ==>
      rows[i].animeName == rows[j].animeName
  }

  class AnimeStore {
    var rows: seq<AnimeInfo>
    var nextId: int

    /** Primary keys are issued in increasing order and all lie below the counter. */
    predicate Valid()
      reads this
    {
      && (forall i :: 0 <= i < |rows| ==> rows[i].id < nextId)
      && IncreasingIds(rows)
    }

    constructor()
      ensures Valid() && rows == [] && nextId == 1
    {
      rows := [];
      nextId := 1;
    }

    method GetAllAnime() returns (r: seq<Listed>)
      ensures r == Items(rows)
      ensures forall x :: x in r <==> exists i :: 0 <= i < |rows| && x == PairOf(rows[i])
      ensures NoDuplicates(r)
    {
      r := Distinct(Pairs(rows));
    }

    /** One INSERT; the database refuses a NULL or a mistyped value in a non-null column. */
    method AddAnimeInfo(id: int, name: string, rank: Value, mean: Value, usersAll: Value, usersScored: Value,
                        status: Value, updated: Value) returns (res: Result<AnimeInfo>)
      requires Valid()
      modifies this
      ensures Valid()
      ensures var made := MakeRow(old(nextId), id, name, rank, mean, usersAll, usersScored, status, updated);
        if made.Some?
        then res == Ok(made.value) && rows == old(rows) + [made.value] && nextId == old(nextId) + 1
        else res == Err("IntegrityError") && rows == old(rows) && nextId == old(nextId)
    {
      var made := MakeRow(nextId, id, name, rank, mean, usersAll, usersScored, status, updated);
      if made.Some? {
        rows := rows + [made.value];
        nextId := nextId + 1;
        res := Ok(made.value);
      } else {
        res := Err("IntegrityError");
      }
    }

    method DeleteAnime(id: int)
      requires Valid()
      modifies this
      ensures Valid()
      ensures rows == DeleteFrom(old(rows), id) && nextId == old(nextId)
    {
      DeleteKeepsOrder(rows, id);
      var r := DeleteFrom(rows, id);
      forall k | 0 <= k < |r| ensures r[k].id < nextId {
        assert r[k] in rows;
      }
      rows := r;
    }

    method RenameAnime(id: int, newName: string)
      requires Valid()
      modifies this
      ensures Valid()
      ensures rows == RenameIn(old(rows), id, newName) && nextId == old(nextId)
    {
      rows := RenameIn(rows, id, newName);
    }

    method GetLastInfo(id: int) returns (r: Option<AnimeInfo>)
      ensures r == Latest(rows, id)
      ensures r.None? <==> forall i :: 0 <= i < |rows| ==> rows[i].animeId != id
    {
      r := Latest(rows, id);
    }
  }

  predicate IncreasingIds(rows: seq<AnimeInfo>) {
    forall i, j :: 0 <= i < j < |rows| ==> rows[i].id < rows[j].id
  }

  /** Deleting keeps the surviving rows in their order, so increasing keys stay increasing. */
  lemma {:induction false} DeleteKeepsOrder(rows: seq<AnimeInfo>, id: int)
    requires IncreasingIds(rows)
    ensures IncreasingIds(DeleteFrom(rows, id))
    decreases |rows|
  {
    if rows != [] {
      var front := rows[..|rows| - 1];
      DeleteKeepsOrder(front, id);
      var rest := DeleteFrom(front, id);
      var last := rows[|rows| - 1];
      forall k | 0 <= k < |rest| ensures rest[k].id < last.id {
        assert rest[k] in front;
        var a :| 0 <= a < |front| && front[a] == rest[k];
        assert rows[a] == front[a];
      }
      if last.animeId != id {
        var r := rest + [last];
        forall i, j | 0 <= i < j < |r| ensures r[i].id < r[j].id {
          if j < |rest| {
            assert r[i] == rest[i] && r[j] == rest[j];
          } else {
            assert r[i] == rest[i] && r[j] == last;
          }
        }
      }
    }
  }

  /** A snapshot inserted with the newest timestamp of its title is what `get_last_info` then returns. */
  lemma InsertThenLatest(rows: seq<AnimeInfo>, row: AnimeInfo)
    requires forall i :: 0 <= i < |rows| && rows[i].animeId == row.animeId ==> rows[i].updated <= row.updated
    ensures Latest(rows + [row], row.animeId) == Some(row)
  {
    assert (rows + [row])[..|rows|] == rows;
  }

  /** Inserting a snapshot of one title does not change the latest snapshot of another. */
  lemma InsertOtherLatest(rows: seq<AnimeInfo>, row: AnimeInfo, id: int)
    requires row.animeId != id
    ensures Latest(rows + [row], id) == Latest(rows, id)
  {
    assert (rows + [row])[..|rows|] == rows;
  }

  /** After a delete the title has no snapshot and is not listed. */
  lemma DeleteRemovesTitle(rows: seq<AnimeInfo>, id: int)
    ensures Latest(DeleteFrom(rows, id), id).None?
    ensures forall x :: x in Items(DeleteFrom(rows, id)) ==> x.id != id
  {
    var r := DeleteFrom(rows, id);
    assert forall i :: 0 <= i < |r| ==> r[i] in r;
    var p := Pairs(r);
    forall x | x in Items(r) ensures x.id != id {
      var k :| 0 <= k < |p| && p[k] == x;
      assert r[k] in r;
    }
  }

  /** A delete leaves every other title's latest snapshot as it was. */
  lemma {:induction false} DeleteKeepsOthers(rows: seq<AnimeInfo>, id: int, other: int)
    requires other != id
    ensures Latest(DeleteFrom(rows, id), other) == Latest(rows, other)
    decreases |rows|
  {
    if rows != [] {
      var front := rows[..|rows| - 1];
      DeleteKeepsOthers(front, id, other);
      var last := rows[|rows| - 1];
      var rest := DeleteFrom(front, id);
      if last.animeId != id {
        assert (rest + [last])[..|rest|] == rest;
      }
    }
  }

  /** After a rename every listing entry of the title carries the new name, and the title stays listed. */
  lemma RenameListing(rows: seq<AnimeInfo>, id: int, name: string)
    ensures forall x :: x in Items(RenameIn(rows, id, name)) && x.id == id ==> x.name == name
    ensures (exists i :: 0 <= i < |rows| && rows[i].animeId == id) ==> Listed(id, name) in Items(RenameIn(rows, id, name))
    ensures NamesConsistent(rows) ==> NamesConsistent(RenameIn(rows, id, name))
  {
    var r := RenameIn(rows, id, name);
    var p := Pairs(r);
    forall x | x in Items(r) && x.id == id ensures x.name == name {
      assert x in p;
      var k :| 0 <= k < |p| && p[k] == x;
    }
    if i :| 0 <= i < |rows| && rows[i].animeId == id {
      assert p[i] == Listed(id, name);
    }
  }

  /** While names are consistent the listing holds each title once. */
  lemma ListingDistinctById(rows: seq<AnimeInfo>)
    requires NamesConsistent(rows)
    ensures forall i, j :: 0 <= i < j < |Items(rows)| ==> Items(rows)[i].id != Items(rows)[j].id
  {
    var items := Items(rows);
    var p := Pairs(rows);
    forall i, j | 0 <= i < j < |items| ensures items[i].id != items[j].id {
      assert items[i] in p && items[j] in p;
      var a :| 0 <= a < |p| && p[a] == items[i];
      var b :| 0 <= b < |p| && p[b] == items[j];
    }
  }

  /** An insert with the title's stored name keeps names consistent. */
  lemma InsertKeepsNames(rows: seq<AnimeInfo>, row: AnimeInfo)
    requires NamesConsistent(rows)
    requires forall i :: 0 <= i < |rows| && rows[i].animeId == row.animeId ==> rows[i].animeName == row.animeName
    ensures NamesConsistent(rows + [row])
  {
  }

  /** A delete keeps names consistent. */
  lemma DeleteKeepsNames(rows: seq<AnimeInfo>, id: int)
    requires NamesConsistent(rows)
    ensures NamesConsistent(DeleteFrom(rows, id))
  {
    var r := DeleteFrom(rows, id);
    forall i, j | 0 <= i < |r| && 0 <= j < |r| && r[i].animeId == r[j].animeId
      ensures r[i].animeName == r[j].animeName
    {
      assert r[i] in rows && r[j] in rows;
      var a :| 0 <= a < |rows| && rows[a] == r[i];
      var b :| 0 <= b < |rows| && rows[b] == r[j];
    }
  }
}
