/** `loadGameIds` and `loadAllGames`: the catalog is read from an index of ids,
    every record is fetched on its own, and only the fetches that succeeded
    contribute a record. The reads themselves are parameters: the outcome of
    reading the index, and `fetch(id)`, the outcome of reading `data/games/<id>.json`. */
module Loader {
  import opened Wrappers
  import opened Records

  /** `data/games/index.json`; `games` is `None` when the field is not an array. */
  datatype Index = Index(games: Option<seq<string>>)

  /** `loadGameIds`: the index's `games` array, or no ids at all when it is not an array. */
  function GameIds(idx: Index): (ids: seq<string>)
    ensures idx.games.None? ==> ids == []
    ensures idx.games.Some? ==> ids == idx.games.value
  {
    if idx.games.Some? then idx.games.value else []
  }

  /** `results.filter(r => r.status === "fulfilled").map(r => r.value)`. */
  function Fulfilled(results: seq<Result<Game>>): (r: seq<Game>)
    ensures |r| <= |results|
    ensures forall g :: g in r <==> Ok(g) in results
  {
    if results == [] then []
    else if results[0].Ok? then [results[0].value] + Fulfilled(results[1..])
    else Fulfilled(results[1..])
  }

  /** Keeping the fulfilled results of a concatenation keeps those of each part, in order. */
  lemma {:induction false} FulfilledAppend(a: seq<Result<Game>>, b: seq<Result<Game>>)
    ensures Fulfilled(a + b) == Fulfilled(a) + Fulfilled(b)
  {
    if a != [] {
      assert (a + b)[1..] == a[1..] + b;
      FulfilledAppend(a[1..], b);
    } else {
      assert a + b == b;
    }
  }

  /** When nothing failed, nothing is dropped: the catalog is every value, position by position. */
  lemma {:induction false} FulfilledAllOk(results: seq<Result<Game>>)
    requires forall k :: 0 <= k < |results| ==> results[k].Ok?
    ensures |Fulfilled(results)| == |results|
    ensures forall k :: 0 <= k < |results| ==> Fulfilled(results)[k] == results[k].value
  {
    if results != [] {
      FulfilledAllOk(results[1..]);
    }
  }

  /** `Promise.allSettled(ids.map(loadGame))`: one settled outcome per id, in the order of the ids. */
  function Settle(ids: seq<string>, fetch: string -> Result<Game>): seq<Result<Game>>
  {
    seq(|ids|, k requires 0 <= k < |ids| => fetch(ids[k]))
  }

  /** The records loaded for a list of ids. */
  function Catalog(ids: seq<string>, fetch: string -> Result<Game>): (c: seq<Game>)
    ensures |c| <= |ids|
    ensures forall g :: g in c <==> exists k :: 0 <= k < |ids| && fetch(ids[k]) == Ok(g)
  {
    var rs := Settle(ids, fetch);
    assert |rs| == |ids| && forall k :: 0 <= k < |ids| ==> rs[k] == fetch(ids[k]);
    assert forall g :: Ok(g) in rs <==> exists k :: 0 <= k < |rs| && rs[k] == Ok(g);
    Fulfilled(rs)
  }

  /** `loadAllGames`: it fails only when the index cannot be read; a record that cannot
      be read is left out and never fails the load. */
  function LoadAllGames(index: Result<Index>, fetch: string -> Result<Game>): (r: Result<seq<Game>>)
    ensures r.Ok? <==> index.Ok?
    ensures r.Ok? ==> forall g :: g in r.value <==> exists k :: 0 <= k < |GameIds(index.value)| && fetch(GameIds(index.value)[k]) == Ok(g)
    ensures r.Ok? ==> |r.value| <= |GameIds(index.value)|
    ensures r.Ok? ==> r.value == Catalog(GameIds(index.value), fetch)
  {
    match index
    case Failed => Failed
    case Ok(idx) =>
      Ok(Catalog(GameIds(idx), fetch))
  }

  /** Reading one more id appends its record when, and only when, that read succeeded:
      the catalog lists the fulfilled records in the order of their ids. */
  lemma CatalogSnoc(ids: seq<string>, id: string, fetch: string -> Result<Game>)
    ensures Catalog(ids + [id], fetch) ==
      Catalog(ids, fetch) + (if fetch(id).Ok? then [fetch(id).value] else [])
  {
    assert Settle(ids + [id], fetch) == Settle(ids, fetch) + [fetch(id)];
    FulfilledAppend(Settle(ids, fetch), [fetch(id)]);
  }

  /** When every record can be read, the catalog is the records of all ids, in index order. */
  lemma CatalogAllRead(ids: seq<string>, fetch: string -> Result<Game>)
    requires forall k :: 0 <= k < |ids| ==> fetch(ids[k]).Ok?
    ensures |Catalog(ids, fetch)| == |ids|
    ensures forall k :: 0 <= k < |ids| ==> Catalog(ids, fetch)[k] == fetch(ids[k]).value
  {
    FulfilledAllOk(Settle(ids, fetch));
  }

  /** If the read of `x` fails and that of `y` succeeds, the catalog holds `y`'s record only. */
  lemma FailedReadIsDropped(x: string, y: string, gy: Game, fetch: string -> Result<Game>)
    requires fetch(x) == Failed && fetch(y) == Ok(gy)
    ensures LoadAllGames(Ok(Index(Some([x, y]))), fetch) == Ok([gy])
  {
    assert Settle([], fetch) == [];
    CatalogSnoc([], x, fetch);
    assert [] + [x] == [x];
    CatalogSnoc([x], y, fetch);
    assert [x] + [y] == [x, y];
    assert Catalog([x, y], fetch) == [gy];
  }
}
