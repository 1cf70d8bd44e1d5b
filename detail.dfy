/** The detail page (`renderGame`): the three outcomes for the `id` query parameter,
    the basic-information rows and description hidden when empty, and the link
    buttons (`setLinkBtn`) shown with a trimmed address only when one is present. */
module Detail {
  import opened Wrappers
  import opened Text
  import opened Records

  const NOT_FOUND: string := "Game not found"
  const LOAD_ERROR_TITLE: string := "読み込みエラー"
  const TITLE_PREFIX: string := "Mottainai Games - "

  /** An element the page hides (`display: none`) or shows with the given text. */
  datatype Part = Hidden | Shown(text: string)

  /** A basic-information row or the description: shown with the value itself when present. */
  function RowOf(v: Value): (p: Part)
    ensures p.Hidden? <==> !NonEmpty(v)
    ensures p.Shown? ==> v.Str? && p.text == v.s
  {
    if NonEmpty(v) then Shown(v.s) else Hidden
  }

  /** `setLinkBtn(id, url)`: hidden unless `url` is present, and then linked to `url.trim()`. */
  function LinkButton(url: Value): (p: Part)
    ensures p.Hidden? <==> !NonEmpty(url)
    ensures p.Shown? ==> url.Str? && p.text == Trim(url.s)
  {
    if NonEmpty(url) then Shown(Trim(url.s)) else Hidden
  }

  /** A shown link points to a non-empty address with no surrounding white space,
      cut out of the record's value between blank margins. */
  lemma LinkIsTrimmed(url: Value)
    requires LinkButton(url).Shown?
    ensures var h := LinkButton(url).text; h != "" && !IsSpace(h[0]) && !IsSpace(h[|h| - 1])
    ensures var h, i := LinkButton(url).text, Lead(url.s);
      i + |h| <= |url.s| && h == url.s[i..i + |h|] && IsBlank(url.s[..i]) && IsBlank(url.s[i + |h|..])
  {
    TrimEnds(url.s);
    TrimIsInfix(url.s);
  }

  /** `g.links?.x`: a missing `links` object reads every address as `undefined`. */
  function LinksOf(g: Game): Links
  {
    if g.links.Some? then g.links.value else Links(Missing, Missing, Missing)
  }

  /** Everything `renderGame` fills in for a loaded record. */
  datatype DetailView = DetailView(
    pageTitle: string,
    title: string,
    catchLine: string,
    players: Part,
    time: Part,
    age: Part,
    description: Part,
    rules: Part,
    shop: Part,
    video: Part,
    images: seq<string>)

  function ViewOf(g: Game): (v: DetailView)
    ensures v.description.Hidden? <==> !NonEmpty(g.description)
    ensures v.title == OrElse(g.title, "") && v.pageTitle == TITLE_PREFIX + OrElse(g.title, "Game")
    ensures v.players.Shown? ==> g.players.Str? && v.players.text == g.players.s
    ensures v.time.Shown? ==> g.time.Str? && v.time.text == g.time.s
    ensures v.age.Shown? ==> g.age.Str? && v.age.text == g.age.s
    ensures v.description.Shown? ==> g.description.Str? && v.description.text == g.description.s
    ensures v.rules.Shown? ==> LinksOf(g).rulesPdf.Str? && v.rules.text == Trim(LinksOf(g).rulesPdf.s)
    ensures v.shop.Shown? ==> LinksOf(g).shopUrl.Str? && v.shop.text == Trim(LinksOf(g).shopUrl.s)
    ensures v.video.Shown? ==> LinksOf(g).videoUrl.Str? && v.video.text == Trim(LinksOf(g).videoUrl.s)
    ensures v.catchLine == OrElse(g.catchCopy, "")
    ensures v.images == ImagesOf(g) && |v.images| > 0 && v.images[0] == FirstImage(g)
  {
    var links := LinksOf(g);
    DetailView(
      TITLE_PREFIX + OrElse(g.title, "Game"),
      OrElse(g.title, ""),
      OrElse(g.catchCopy, ""),
      RowOf(g.players), RowOf(g.time), RowOf(g.age), RowOf(g.description),
      LinkButton(links.rulesPdf), LinkButton(links.shopUrl), LinkButton(links.videoUrl),
      ImagesOf(g))
  }

  /** What the page shows for a record: a row, the description or a button is hidden exactly
      when its value is not a string with a non-space character; a record without a truthy
      title is "Game" in the window title and has an empty heading; the gallery starts on
      the card's cover image. */
  lemma ViewSpec(g: Game)
    ensures ViewOf(g).players.Hidden? <==> !NonEmpty(g.players)
    ensures ViewOf(g).time.Hidden? <==> !NonEmpty(g.time)
    ensures ViewOf(g).age.Hidden? <==> !NonEmpty(g.age)
    ensures ViewOf(g).description.Hidden? <==> !NonEmpty(g.description)
    ensures ViewOf(g).rules.Hidden? <==> g.links.None? || !NonEmpty(g.links.value.rulesPdf)
    ensures ViewOf(g).shop.Hidden? <==> g.links.None? || !NonEmpty(g.links.value.shopUrl)
    ensures ViewOf(g).video.Hidden? <==> g.links.None? || !NonEmpty(g.links.value.videoUrl)
    ensures !Truthy(g.title) ==> ViewOf(g).pageTitle == TITLE_PREFIX + "Game" && ViewOf(g).title == ""
    ensures Truthy(g.title) ==> ViewOf(g).pageTitle == TITLE_PREFIX + ViewOf(g).title
    ensures ViewOf(g).time.Shown? ==> ViewOf(g).time.text == g.time.s
    ensures ViewOf(g).age.Shown? ==> ViewOf(g).age.text == g.age.s
    ensures ViewOf(g).description.Shown? ==> ViewOf(g).description.text == g.description.s
    ensures ViewOf(g).rules.Shown? ==>
      g.links.Some? && g.links.value.rulesPdf.Str? && ViewOf(g).rules.text == Trim(g.links.value.rulesPdf.s)
    ensures ViewOf(g).shop.Shown? ==>
      g.links.Some? && g.links.value.shopUrl.Str? && ViewOf(g).shop.text == Trim(g.links.value.shopUrl.s)
    ensures ViewOf(g).video.Shown? ==>
      g.links.Some? && g.links.value.videoUrl.Str? && ViewOf(g).video.text == Trim(g.links.value.videoUrl.s)
    ensures ViewOf(g).catchLine == OrElse(g.catchCopy, "")
    ensures ViewOf(g).images == ImagesOf(g)
    ensures |ViewOf(g).images| > 0 && ViewOf(g).images[0] == FirstImage(g)
  {
    if g.links.None? {
      assert !NonEmpty(Missing);
    }
  }

  /** The three outcomes of the detail page. */
  datatype DetailPage = NotFound | LoadError | Detail(view: DetailView)

  /** `renderGame` for the `id` query parameter (`None` when absent) and the outcome of
      reading `data/games/<id>.json`. */
  function RenderGame(idParam: Option<string>, fetch: string -> Result<Game>): (p: DetailPage)
    ensures p.NotFound? <==> idParam.None? || idParam.value == ""
    ensures p.LoadError? <==> idParam.Some? && idParam.value != "" && fetch(idParam.value).Failed?
    ensures p.Detail? ==> idParam.Some? && fetch(idParam.value).Ok? && p.view == ViewOf(fetch(idParam.value).value)
  {
    match idParam
    case None => NotFound
    case Some(id) =>
      if id == "" then NotFound
      else
        match fetch(id)
        case Failed => LoadError
        case Ok(g) => Detail(ViewOf(g))
  }

  /** The text of the `gameTitle` heading. */
  function Heading(p: DetailPage): (h: string)
    ensures p.NotFound? ==> h == NOT_FOUND
    ensures p.LoadError? ==> h == LOAD_ERROR_TITLE
    ensures p.Detail? ==> h == p.view.title
  {
    match p
    case NotFound => NOT_FOUND
    case LoadError => LOAD_ERROR_TITLE
    case Detail(v) => v.title
  }
}
