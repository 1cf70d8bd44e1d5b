/** The game cards of the list page and of the home page's "latest game" box,
    as view models: what text and which optional parts a card shows. */
module Cards {
  import opened Wrappers
  import opened Seqs
  import opened Records

  /** A card: cover image, heading, optional catch line, badges in display order,
      optional feature line, and the id its "詳細を見る" link targets. */
  datatype CardView = CardView(
    cover: string,
    heading: string,
    catchLine: Option<string>,
    badges: seq<string>,
    featureLine: Option<string>,
    target: Value)

  /** The badges a card keeps of `[badgeIf(...), ...]` after `.filter(Boolean)`. */
  function Present(badges: seq<Option<string>>): (r: seq<string>)
    ensures |r| <= |badges|
    ensures forall b :: b in r <==> Some(b) in badges
  {
    if badges == [] then []
    else if badges[0].Some? then [badges[0].value] + Present(badges[1..])
    else Present(badges[1..])
  }

  /** `.filter(Boolean)` keeps the badges in their order: the badges of a concatenation
      are those of each part, one after the other. */
  lemma {:induction false} PresentAppend(a: seq<Option<string>>, b: seq<Option<string>>)
    ensures Present(a + b) == Present(a) + Present(b)
  {
    if a != [] {
      assert (a + b)[1..] == a[1..] + b;
      PresentAppend(a[1..], b);
    } else {
      assert a + b == b;
    }
  }

  /** A single badge is kept exactly when it exists. */
  lemma PresentOne(o: Option<string>)
    ensures Present([o]) == (if o.Some? then [o.value] else [])
  {
    assert [o][1..] == [];
  }

  /** `(Array.isArray(g.tags) ? g.tags : []).slice(0, 3)`. */
  function CardTags(g: Game): (r: seq<string>)
    ensures |r| <= 3 && r <= TagsOf(g)
    ensures |TagsOf(g)| >= 3 ==> |r| == 3
    ensures |TagsOf(g)| < 3 ==> r == TagsOf(g)
  {
    Take(TagsOf(g), 3)
  }

  function Card(g: Game, badges: seq<string>): CardView
  {
    CardView(
      FirstImage(g),
      OrElse(g.title, "Untitled"),
      if NonEmpty(g.catchCopy) then Some(g.catchCopy.s) else None,
      badges,
      if NonEmpty(g.feature1) then Some("特徴：" + g.feature1.s) else None,
      g.id)
  }

  /** A card of the list page: players and time badges when present, then at most the first three tags. */
  function ListCard(g: Game): (c: CardView)
    ensures c.cover == ImagesOf(g)[0]
    ensures c.badges == Present([BadgeIf("人数", g.players), BadgeIf("時間", g.time)]) + CardTags(g)
    ensures |c.badges| <= 5
    ensures c.catchLine.Some? <==> NonEmpty(g.catchCopy)
    ensures c.catchLine.Some? ==> c.catchLine.value == g.catchCopy.s
  {
    Card(g, Present([BadgeIf("人数", g.players), BadgeIf("時間", g.time)]) + CardTags(g))
  }

  /** The home page card of the latest game: players, time and age badges when present, no tags. */
  function LatestCard(g: Game): (c: CardView)
    ensures c.cover == ImagesOf(g)[0]
    ensures |c.badges| <= 3
    ensures c.badges == Present([BadgeIf("人数", g.players), BadgeIf("時間", g.time), BadgeIf("年齢", g.age)])
    ensures forall b :: b in c.badges <==> Some(b) in [BadgeIf("人数", g.players), BadgeIf("時間", g.time), BadgeIf("年齢", g.age)]
    ensures c.catchLine.Some? <==> NonEmpty(g.catchCopy)
    ensures c.catchLine.Some? ==> c.catchLine.value == g.catchCopy.s
  {
    Card(g, Present([BadgeIf("人数", g.players), BadgeIf("時間", g.time), BadgeIf("年齢", g.age)]))
  }
}
