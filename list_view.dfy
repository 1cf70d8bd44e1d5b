/** The list page controller of `renderGamesList`: the loaded games, the search
    box text and the mutable `selected` tag set, changed by the search box, the
    tag buttons, "すべて" (all) and "クリア" (clear); every change re-runs `update`,
    which renders the counter, the pressed state of the buttons and the cards. */
module ListView {
  import opened Wrappers
  import opened Records
  import opened Cards
  import opened ListFilter

  const LOAD_ERROR: string := "読み込みエラー：data/games/ を確認してください。"
  const NO_RESULTS: string := "該当する作品がありません。"

  /** The `data-tag` of the "すべて" button; `updateTagButtons` skips every button carrying it,
      so a record tag spelled the same way gets a button that is never shown as pressed. */
  const ALL_MARKER: string := "__all__"

  /** The card grid: a single message card, or one card per shown record. */
  datatype Grid = Message(text: string) | CardGrid(cards: seq<CardView>)

  /** What `update` renders: the counter "表示：shown / total", whether "すべて" is pressed,
      each tag button with its pressed state, and the grid. */
  datatype ListPage = ListPage(shown: nat, total: nat, allPressed: bool, buttons: seq<(string, bool)>, grid: Grid)

  datatype ListScreen = ListLoadError(message: string) | ListShown(page: ListPage)

  /** `renderCards(list)`: the "no results" card for an empty list, otherwise one card per record, in order. */
  function RenderCards(list: seq<Game>): (g: Grid)
    ensures list == [] <==> g == Message(NO_RESULTS)
    ensures list != [] ==> (g.CardGrid? && |g.cards| == |list| &&
      forall k :: 0 <= k < |list| ==> g.cards[k] == ListCard(list[k]))
  {
    if list == [] then Message(NO_RESULTS)
    else CardGrid(seq(|list|, k requires 0 <= k < |list| => ListCard(list[k])))
  }

  /** `update()` for a given search box text and selection. */
  function Page(games: seq<Game>, input: string, selected: set<string>): (p: ListPage)
    ensures p.total == |games| && p.shown <= p.total
    ensures p.allPressed <==> selected == {}
    ensures p.grid == RenderCards(Visible(games, NormalizeQuery(input), selected))
  {
    var list := Visible(games, NormalizeQuery(input), selected);
    var count := Counter(games, NormalizeQuery(input), selected);
    var tags := AllTags(games);
    ListPage(count.0, count.1, selected == {},
      seq(|tags|, k requires 0 <= k < |tags| => (tags[k], tags[k] != ALL_MARKER && tags[k] in selected)),
      RenderCards(list))
  }

  /** The counter reads "shown / loaded", "すべて" is pressed exactly when nothing is
      selected, every tag button other than one spelled like the "すべて" marker shows
      whether its tag is selected (that one always reads as not pressed), and the grid holds
      one card per shown record or the "no results" card. */
  lemma PageSpec(games: seq<Game>, input: string, selected: set<string>)
    ensures Page(games, input, selected).total == |games|
    ensures Page(games, input, selected).shown == |Visible(games, NormalizeQuery(input), selected)|
    ensures Page(games, input, selected).shown <= |games|
    ensures Page(games, input, selected).allPressed <==> selected == {}
    ensures |Page(games, input, selected).buttons| == |AllTags(games)|
    ensures forall k :: 0 <= k < |AllTags(games)| ==>
      Page(games, input, selected).buttons[k] ==
        (AllTags(games)[k], AllTags(games)[k] != ALL_MARKER && AllTags(games)[k] in selected)
    ensures Page(games, input, selected).grid == RenderCards(Visible(games, NormalizeQuery(input), selected))
    ensures Page(games, input, selected).grid.Message? <==> Page(games, input, selected).shown == 0
    ensures Page(games, input, selected).grid.CardGrid? ==>
      |Page(games, input, selected).grid.cards| == Page(games, input, selected).shown
  {
  }

  /** A tag button click: `selected.has(t) ? selected.delete(t) : selected.add(t)`. */
  function Toggled(selected: set<string>, t: string): (r: set<string>)
    ensures t in r <==> t !in selected
    ensures forall u :: u != t ==> (u in r <==> u in selected)
  {
    if t in selected then selected - {t} else selected + {t}
  }

  /** Clicking the same tag twice restores the selection. */
  lemma ToggleTwice(selected: set<string>, t: string)
    ensures Toggled(Toggled(selected, t), t) == selected
  {
  }

  class ListController {
    const games: seq<Game>
    const tags: seq<string>
    var input: string
    var selected: set<string>

    /** The buttons are built from `allTags`, so only listed tags are ever selected. */
    ghost predicate Valid()
      reads this
    {
      tags == AllTags(games) && forall t :: t in selected ==> t in tags
    }

    /** The page right after loading: empty search box, nothing selected. */
    constructor (games: seq<Game>)
      ensures Valid() && this.games == games && input == "" && selected == {}
    {
      this.games := games;
      this.tags := AllTags(games);
      input := "";
      selected := {};
    }

    function View(): ListPage
      reads this
    {
      Page(games, input, selected)
    }

    /** An "input" event on the search box. */
    method Type(text: string) returns (page: ListPage)
      requires Valid()
      modifies this
      ensures Valid() && input == text && selected == old(selected)
      ensures page == View()
    {
      input := text;
      page := View();
    }

    /** A click on the button of tag `t`: flips that tag only, keeps the search text. */
    method ToggleTag(t: string) returns (page: ListPage)
      requires Valid() && t in tags
      modifies this
      ensures Valid() && selected == Toggled(old(selected), t) && input == old(input)
      ensures page == View()
    {
      selected := Toggled(selected, t);
      page := View();
    }

    /** "すべて": empties the selection and leaves the search text alone. */
    method ShowAll() returns (page: ListPage)
      requires Valid()
      modifies this
      ensures Valid() && selected == {} && input == old(input)
      ensures page == View()
    {
      selected := {};
      page := View();
    }

    /** "クリア": empties both the search box and the selection. */
    method Clear() returns (page: ListPage)
      requires Valid()
      modifies this
      ensures Valid() && selected == {} && input == ""
      ensures page == View()
    {
      input := "";
      selected := {};
      page := View();
    }
  }

  /** Two clicks on the same tag button leave the selection and the search text as they were. */
  method ToggleTwiceRestores(c: ListController, t: string)
    requires c.Valid() && t in c.tags
    modifies c
    ensures c.Valid() && c.selected == old(c.selected) && c.input == old(c.input)
  {
    var _ := c.ToggleTag(t);
    var _ := c.ToggleTag(t);
    ToggleTwice(old(c.selected), t);
  }

  /** After "クリア" every record with an id is listed again, in source order. */
  method ClearShowsAll(c: ListController) returns (page: ListPage)
    requires c.Valid()
    modifies c
    ensures page.shown == |Seqs.Filter(c.games, HasId)| && page.total == |c.games|
  {
    page := c.Clear();
    NoFilterShowsAll(c.games);
  }

  /** `renderGamesList`: a load-error card when the catalog cannot be loaded, otherwise the
      controller over the loaded games and its first `update`. */
  method RenderGamesList(catalog: Result<seq<Game>>) returns (c: ListController?, screen: ListScreen)
    ensures catalog.Failed? <==> c == null
    ensures catalog.Failed? ==> screen == ListLoadError(LOAD_ERROR)
    ensures c != null ==> (fresh(c) && c.Valid() && c.games == catalog.value &&
      c.input == "" && c.selected == {} && screen == ListShown(c.View()))
  {
    if catalog.Failed? {
      return null, ListLoadError(LOAD_ERROR);
    }
    c := new ListController(catalog.value);
    screen := ListShown(c.View());
  }
}
