/** The announcements box of the home page (`renderHome`): every item of
    `data/announcements.json` becomes the line "date： text", without the date part
    when the item has no date; blank lines are skipped, and the box is hidden when
    the feed cannot be read or has no items. */
module News {
  import opened Wrappers
  import opened Text
  import opened Seqs
  import opened Records

  /** One element of `items`: an object with `date` and `text`, or `null`/`undefined`,
      on which reading `it.date` throws. Any other non-object reads both fields as `undefined`. */
  datatype Item = Item(date: Value, text: Value) | Nullish

  /** What the box shows: nothing, or the list of lines. */
  datatype NewsView = Hidden | Shown(lines: seq<string>)

  /** Separator between date and text: a full-width colon and a space. */
  const DATE_SEPARATOR: string := "： "

  /** `${it.date ? it.date + "： " : ""}${it.text || ""}` (the empty string for
      `null`/`undefined`, whose reading throws instead). */
  function Line(it: Item): (l: string)
    ensures it.Item? && !Truthy(it.date) ==> l == OrElse(it.text, "")
    ensures it.Nullish? ==> l == ""
  {
    match it
    case Nullish => ""
    case Item(date, text) =>
      (if Truthy(date) then Rendered(date) + DATE_SEPARATOR else "") + OrElse(text, "")
  }

  /** An item with a date starts its line with the date and the separator, followed
      by the text or nothing. */
  lemma LineHasDate(it: Item)
    requires it.Item? && Truthy(it.date)
    ensures Rendered(it.date) + DATE_SEPARATOR <= Line(it)
    ensures Line(it)[|Rendered(it.date)| + |DATE_SEPARATOR|..] == OrElse(it.text, "")
  {
    var prefix := Rendered(it.date) + DATE_SEPARATOR;
    assert Line(it) == prefix + OrElse(it.text, "");
    assert Line(it)[..|prefix|] == prefix;
  }

  /** A line is kept exactly when its item has a date or a text with a non-space character:
      the separator alone is never blank. */
  lemma LineKept(it: Item)
    requires it.Item?
    ensures IsNonBlank(Line(it)) <==> Truthy(it.date) || (Truthy(it.text) && !IsBlank(Rendered(it.text)))
  {
    TrimBlank(Line(it));
    var body := OrElse(it.text, "");
    if Truthy(it.date) {
      var prefix := Rendered(it.date) + DATE_SEPARATOR;
      assert Line(it) == prefix + body;
      assert prefix[|prefix| - 2] == '：' && !IsSpace('：');
      assert !IsBlank(prefix);
      BlankAppend(prefix, body);
    } else {
      assert Line(it) == body;
      if !Truthy(it.text) {
        assert body == "";
      }
    }
  }

  /** `items.forEach(...)`: the kept lines in item order, or the throw on a `null` item. */
  function Lines(items: seq<Item>): (r: Result<seq<string>>)
    ensures r.Ok? ==> |r.value| <= |items|
    ensures items != [] && items[0].Nullish? ==> r.Failed?
  {
    if items == [] then Ok([])
    else if items[0].Nullish? then Failed
    else
      match Lines(items[1..])
      case Failed => Failed
      case Ok(rest) => Ok(if IsNonBlank(Line(items[0])) then [Line(items[0])] + rest else rest)
  }

  /** Every item's line, before the blank ones are skipped. */
  function AllLines(items: seq<Item>): seq<string>
  {
    seq(|items|, k requires 0 <= k < |items| => Line(items[k]))
  }

  /** Some item is `null` or `undefined`. */
  predicate HasNullish(items: seq<Item>)
  {
    exists k :: 0 <= k < |items| && items[k].Nullish?
  }

  /** Rendering throws exactly when some item is `null` or `undefined`. */
  lemma {:induction false} LinesFailed(items: seq<Item>)
    ensures Lines(items).Failed? <==> HasNullish(items)
  {
    if items != [] && !items[0].Nullish? {
      LinesFailed(items[1..]);
      if HasNullish(items) {
        var k :| 0 <= k < |items| && items[k].Nullish?;
        assert items[1..][k - 1] == items[k];
      }
      if HasNullish(items[1..]) {
        var k :| 0 <= k < |items[1..]| && items[1..][k].Nullish?;
        assert items[k + 1].Nullish?;
      }
    }
  }

  /** Otherwise the box lists the non-blank lines of the items, in item order. */
  lemma {:induction false} LinesKept(items: seq<Item>)
    ensures Lines(items).Ok? ==> Lines(items).value == Filter(AllLines(items), IsNonBlank)
  {
    if items != [] && !items[0].Nullish? {
      LinesKept(items[1..]);
      assert AllLines(items) == [Line(items[0])] + AllLines(items[1..]);
      assert (AllLines(items))[1..] == AllLines(items[1..]);
    }
  }

  /** The body of `data/announcements.json`: `items` is `None` when it is not an array. */
  datatype Feed = Feed(items: Option<seq<Item>>)

  /** The announcements box for the outcome of reading the feed. */
  function NewsBox(feed: Result<Feed>): (v: NewsView)
    ensures feed.Failed? ==> v.Hidden?
    ensures v.Shown? ==> feed.Ok? && feed.value.items.Some? && 0 < |feed.value.items.value|
    ensures v.Shown? ==> |v.lines| <= |feed.value.items.value|
  {
    match feed
    case Failed => Hidden
    case Ok(f) =>
      var items := if f.items.Some? then f.items.value else [];
      if items == [] then Hidden
      else
        match Lines(items)
        case Failed => Hidden
        case Ok(lines) => Shown(lines)
  }

  /** The box is hidden exactly when the feed cannot be read, has no item array or an empty
      one, or holds a `null` item; when it is shown, it lists the non-blank lines in order. */
  lemma NewsBoxSpec(feed: Result<Feed>)
    ensures NewsBox(feed).Hidden? <==>
      feed.Failed? || feed.value.items.None? || feed.value.items.value == [] ||
      HasNullish(feed.value.items.value)
    ensures NewsBox(feed).Shown? ==>
      NewsBox(feed).lines == Filter(AllLines(feed.value.items.value), IsNonBlank)
  {
    if feed.Ok? && feed.value.items.Some? {
      LinesFailed(feed.value.items.value);
      LinesKept(feed.value.items.value);
    }
  }

  /** The non-blank lines of the items are non-blank lines of some item. */
  lemma KeptLinesAreItemLines(items: seq<Item>)
    ensures forall l :: l in Filter(AllLines(items), IsNonBlank) ==>
      IsNonBlank(l) && exists k :: 0 <= k < |items| && Line(items[k]) == l
  {
    var all := AllLines(items);
    FilterMembers(all, IsNonBlank);
    forall l | l in Filter(all, IsNonBlank)
      ensures exists k :: 0 <= k < |items| && Line(items[k]) == l
    {
      assert l in all;
      var k :| 0 <= k < |all| && all[k] == l;
      assert all[k] == Line(items[k]);
    }
  }

  /** A shown line is never blank, and each comes from one item. */
  lemma ShownLinesAreNonBlank(feed: Result<Feed>)
    ensures NewsBox(feed).Shown? ==> forall l :: l in NewsBox(feed).lines ==>
      IsNonBlank(l) && exists k :: 0 <= k < |feed.value.items.value| && Line(feed.value.items.value[k]) == l
  {
    NewsBoxSpec(feed);
    if NewsBox(feed).Shown? {
      KeptLinesAreItemLines(feed.value.items.value);
    }
  }

  /** An item with a date but no text still shows its date line. */
  lemma DateOnlyItemIsShown(d: string)
    requires d != ""
    ensures Lines([Item(Str(d), Missing)]) == Ok([d + DATE_SEPARATOR])
  {
    var x := Item(Str(d), Missing);
    LineKept(x);
    assert Line(x) == d + DATE_SEPARATOR + "" == d + DATE_SEPARATOR;
    assert IsNonBlank(Line(x));
    assert [x][1..] == [];
    assert Lines([x][1..]) == Ok([]);
    assert Lines([x]) == Ok([Line(x)] + []) && [Line(x)] + [] == [Line(x)];
  }
}
