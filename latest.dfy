/** The "latest game" box of the home page (`renderHome`): keep the records with
    an id, sort them newest first with `Array.prototype.sort` (stable), and show
    the head, or hide the box. `Date.parse` is the parameter `parse`. */
module Latest {
  import opened Wrappers
  import opened Seqs
  import opened Sorting
  import opened Records
  import opened Cards
  import Text

  /** The sort key: the parsed `publishedAt` when it is present, 0 otherwise. */
  function Key(g: Game, parse: string -> int): (k: int)
    ensures !g.publishedAt.Str? ==> k == 0
    ensures g.publishedAt.Str? && Text.IsBlank(g.publishedAt.s) ==> k == 0
    ensures g.publishedAt.Str? && !Text.IsBlank(g.publishedAt.s) ==> k == parse(g.publishedAt.s)
  {
    PresenceRule(g.publishedAt);
    if NonEmpty(g.publishedAt) then parse(g.publishedAt.s) else 0
  }

  function KeyOf(parse: string -> int): Game -> int
  {
    g => Key(g, parse)
  }

  /** `games.sort((a, b) => key(b) - key(a))` on the fresh array `filter` returned. */
  function SortNewestFirst(s: seq<Game>, parse: string -> int): seq<Game>
  {
    SortDesc(s, KeyOf(parse))
  }

  /** The records that reach the sort: `games.filter(g => g && g.id)`. */
  function Candidates(games: seq<Game>): seq<Game>
  {
    Filter(games, HasId)
  }

  /** `games[0]` after the sort, or nothing when no record has an id. */
  function PickLatest(games: seq<Game>, parse: string -> int): (r: Option<Game>)
    ensures r.None? <==> Candidates(games) == []
    ensures r.Some? ==> r.value in games && HasId(r.value)
  {
    var sorted := SortNewestFirst(Candidates(games), parse);
    SortPermutes(Candidates(games), KeyOf(parse));
    FilterMembers(games, HasId);
    assert |sorted| == |multiset(sorted)| == |Candidates(games)|;
    if |sorted| == 0 then None
    else
      assert sorted[0] in multiset(Candidates(games));
      Some(sorted[0])
  }

  /** The steps of `renderHome` as written: `games.filter(g => g && g.id)` into a fresh
      array, `games.sort(...)` in place, then `games[0]`, which is `undefined` for an
      empty array. */
  method LatestInPlace(games: seq<Game>, parse: string -> int) returns (g: Option<Game>)
    ensures g == PickLatest(games, parse)
  {
    var cands := Candidates(games);
    var a := new Game[|cands|](k requires 0 <= k < |cands| => cands[k]);
    assert a[..] == cands;
    SortInPlace(a, KeyOf(parse));
    if a.Length == 0 {
      g := None;
    } else {
      g := Some(a[0]);
    }
  }

  /** The box is hidden exactly when no record has an id. */
  lemma PickLatestNone(games: seq<Game>, parse: string -> int)
    ensures PickLatest(games, parse).None? <==> forall g :: g in games ==> !HasId(g)
  {
    var cands := Candidates(games);
    FilterMembers(games, HasId);
    SortPermutes(cands, KeyOf(parse));
    assert |SortNewestFirst(cands, parse)| == |cands|;
    if cands != [] {
      assert cands[0] in cands;
    }
  }

  /** The picked record is one of the records with an id. */
  lemma PickLatestIsCandidate(games: seq<Game>, parse: string -> int)
    ensures PickLatest(games, parse).Some? ==>
      PickLatest(games, parse).value in games && HasId(PickLatest(games, parse).value)
  {
    var cands := Candidates(games);
    var sorted := SortNewestFirst(cands, parse);
    FilterMembers(games, HasId);
    SortPermutes(cands, KeyOf(parse));
    if |sorted| > 0 {
      assert sorted[0] in multiset(sorted);
      assert sorted[0] in cands;
    }
  }

  /** No record with an id is newer than the picked one. */
  lemma PickLatestIsNewest(games: seq<Game>, parse: string -> int)
    ensures PickLatest(games, parse).Some? ==>
      forall h :: h in games && HasId(h) ==> Key(h, parse) <= Key(PickLatest(games, parse).value, parse)
  {
    var cands := Candidates(games);
    var sorted := SortNewestFirst(cands, parse);
    FilterMembers(games, HasId);
    SortPermutes(cands, KeyOf(parse));
    SortOrdered(cands, KeyOf(parse));
    forall h | h in games && HasId(h) && |sorted| > 0 ensures Key(h, parse) <= Key(sorted[0], parse) {
      assert h in multiset(sorted);
      var j :| 0 <= j < |sorted| && sorted[j] == h;
      if j > 0 {
        assert KeyOf(parse)(sorted[0]) >= KeyOf(parse)(sorted[j]);
      }
    }
  }

  /** Among the records with an id that share the newest key, the picked one comes first in
      source order: ties keep the order of `data/games/index.json`. */
  lemma PickLatestIsFirstOfItsKey(games: seq<Game>, parse: string -> int)
    ensures PickLatest(games, parse).Some? ==>
      var g := PickLatest(games, parse).value;
      var ties := Filter(games, And(HasId, HasKey(KeyOf(parse), Key(g, parse))));
      |ties| > 0 && ties[0] == g
  {
    var cands := Candidates(games);
    var sorted := SortNewestFirst(cands, parse);
    if |sorted| > 0 {
      var g := sorted[0];
      var c := Key(g, parse);
      assert sorted == [g] + sorted[1..];
      SortStable(cands, KeyOf(parse), c);
      FilterCompose(games, HasId, HasKey(KeyOf(parse), c));
    }
  }

  /** The home page's latest box: hidden when the games cannot be loaded or none has an id;
      otherwise the latest card of the picked record. */
  function LatestBox(catalog: Result<seq<Game>>, parse: string -> int): (box: Option<CardView>)
    ensures catalog.Failed? ==> box.None?
    ensures catalog.Ok? ==> (box.None? <==> forall g :: g in catalog.value ==> !HasId(g))
    ensures catalog.Ok? && box.Some? ==>
      PickLatest(catalog.value, parse).Some? && box.value == LatestCard(PickLatest(catalog.value, parse).value)
  {
    match catalog
    case Failed => None
    case Ok(games) =>
      PickLatestNone(games, parse);
      match PickLatest(games, parse)
      case None => None
      case Some(g) => Some(LatestCard(g))
  }

  /** A record with an id that is strictly newer than every other record with an id is picked. */
  lemma StrictlyNewestIsPicked(games: seq<Game>, parse: string -> int, b: Game)
    requires b in games && HasId(b)
    requires forall h :: h in games && HasId(h) && h != b ==> Key(h, parse) < Key(b, parse)
    ensures PickLatest(games, parse) == Some(b)
  {
    PickLatestNone(games, parse);
    PickLatestIsCandidate(games, parse);
    PickLatestIsNewest(games, parse);
  }
}
