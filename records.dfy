/** Game records as the site reads them from `data/games/<id>.json`, the
    presence rule `nonEmpty`, and the small per-record helpers `firstImage`
    and `badgeIf`. */
module Records {
  import opened Wrappers
  import opened Text

  /** One JSON field as JavaScript sees it: absent (`undefined`), a string, or
      any other value (number, boolean, null, array, object) described by its
      truthiness and by what a template literal renders it as. */
  datatype Value = Missing | Str(s: string) | Other(truthy: bool, rendered: string)

  /** JavaScript truthiness: the empty string and `undefined` are falsy. */
  predicate Truthy(v: Value)
    ensures v == Missing || v == Str("") ==> !Truthy(v)
    ensures NonEmpty(v) ==> Truthy(v)
  {
    match v
    case Missing => false
    case Str(s) => s != ""
    case Other(t, _) => t
  }

  /** What `${v}` produces. */
  function Rendered(v: Value): string
  {
    match v
    case Missing => "undefined"
    case Str(s) => s
    case Other(_, text) => text
  }

  /** `v || fallback`, rendered as text. */
  function OrElse(v: Value, fallback: string): (r: string)
    ensures NonEmpty(v) ==> r == v.s
    ensures v.Missing? || v == Str("") ==> r == fallback
    ensures r == fallback || r == Rendered(v)
    ensures v.Str? && v.s != "" ==> r == v.s
    ensures v.Other? && v.truthy ==> r == v.rendered
    ensures !Truthy(v) ==> r == fallback
  {
    if Truthy(v) then Rendered(v) else fallback
  }

  /** `nonEmpty(v)`: a string with something other than white space in it. */
  predicate NonEmpty(v: Value)
    ensures NonEmpty(v) ==> v.Str? && v.s != ""
    ensures v.Str? && v.s != "" && !IsSpace(v.s[0]) ==> NonEmpty(v)
  {
    v.Str? && (TrimBlank(v.s); Trim(v.s) != "")
  }

  /** The presence rule stated without `trim`: a value counts as present exactly
      when it is a string holding at least one non-white-space character. */
  lemma PresenceRule(v: Value)
    ensures NonEmpty(v) <==> v.Str? && exists k :: 0 <= k < |v.s| && !IsSpace(v.s[k])
  {
    if v.Str? {
      TrimBlank(v.s);
    }
  }

  /** `typeof v === "string" ? v : ""`, the coercion used by the text search. */
  function AsText(v: Value): string
  {
    if v.Str? then v.s else ""
  }

  datatype Links = Links(rulesPdf: Value, shopUrl: Value, videoUrl: Value)

  /** A game record. `tags` and `images` are `None` when the JSON field is not an array;
      `links` is `None` when the record has no `links` object. */
  datatype Game = Game(
    id: Value,
    title: Value,
    catchCopy: Value,
    feature1: Value,
    description: Value,
    players: Value,
    time: Value,
    age: Value,
    tags: Option<seq<string>>,
    images: Option<seq<string>>,
    publishedAt: Value,
    links: Option<Links>)

  /** `g && g.id`: only records with a truthy id are ever listed or picked. */
  predicate HasId(g: Game)
  {
    Truthy(g.id)
  }

  /** `Array.isArray(g.tags) ? g.tags : []`. */
  function TagsOf(g: Game): seq<string>
  {
    if g.tags.Some? then g.tags.value else []
  }

  const PLACEHOLDER: string := "assets/images/placeholder.svg"

  /** The images a record shows: its own, or the placeholder alone when it has none. */
  function ImagesOf(g: Game): (r: seq<string>)
    ensures |r| > 0
    ensures g.images.Some? && g.images.value != [] ==> r == g.images.value
    ensures g.images.None? || g.images.value == [] ==> r == [PLACEHOLDER]
  {
    if g.images.Some? && |g.images.value| > 0 then g.images.value else [PLACEHOLDER]
  }

  /** `firstImage(g)`: the card cover. */
  function FirstImage(g: Game): (r: string)
    ensures r == ImagesOf(g)[0]
    ensures g.images.None? ==> r == PLACEHOLDER
  {
    if g.images.Some? && |g.images.value| > 0 then g.images.value[0] else PLACEHOLDER
  }

  /** A card cover is the image the detail gallery opens on. */
  lemma FirstImageOpensGallery(g: Game)
    ensures FirstImage(g) == ImagesOf(g)[0]
  {
  }

  /** `badgeIf(label, value)`: the badge text "caption：value", only for a present value. */
  function BadgeIf(caption: string, v: Value): (r: Option<string>)
    ensures r.None? <==> !NonEmpty(v)
    ensures r.Some? ==> r.value == caption + "：" + v.s
  {
    if !NonEmpty(v) then None else Some(caption + "：" + v.s)
  }
}
