# Mottainai Games catalog: a Dafny model of `site.js`

The site is a static board-game catalog. One browser script, `assets/js/site.js`,
loads game records from JSON files and renders three pages:

- the list page, with a search box, tag buttons and a card grid;
- the home page, with an announcements box and a "latest game" card;
- the detail page, with rows that hide when they are empty, link buttons and an
  image switcher.

This project models what that script computes, leaving out the DOM. Each page's
rendering becomes a view model: the text shown, and which parts are hidden or
shown. Most of the script is expressions that build values, so most of the model
is functions and lemmas. Two parts change state step by step, and those are classes:

- The list page's controller (`ListView.ListController`) holds the search text and
  the mutable `selected` tag set, which the search box, the tag buttons, "すべて" and
  "クリア" change.
- The image switcher (`Gallery.Switcher`) holds the current position `i`, which
  "prev" and "next" move cyclically.

The home page sorts its array of games in place. That sort is a method on an `array`
(`Sorting.SortInPlace`), proved to produce the list that the function `Sorting.SortDesc`
specifies. The properties of the latest-game choice are proved about that function.

Modules, leaf first:

| module | file | models |
|---|---|---|
| `Wrappers` | wrappers.dfy | `Option`, and `Result` for an outcome that may have failed |
| `Seqs` | seqs.dfy | `filter`, `slice(0, n)` and `[...new Set(xs)]` on arrays |
| `Text` | text.dfy | `trim`, `toLowerCase` and `includes` on strings |
| `Sorting` | sorting.dfy | the stable `Array.prototype.sort` with a numeric key comparator, in place on an array |
| `Records` | records.dfy | JSON field values, the presence rule `nonEmpty`, `firstImage`, `badgeIf` |
| `Cards` | cards.dfy | the cards of the list page and of the latest box |
| `Loader` | loader.dfy | `loadGameIds`, `loadAllGames` |
| `ListFilter` | list_filter.dfy | `matchQuery`, `matchTags`, the visible list, the counter, `allTags` |
| `ListView` | list_view.dfy | `renderGamesList`, `update`, `renderCards` and the filter state |
| `Latest` | latest.dfy | the latest-game box of `renderHome` |
| `News` | news.dfy | the announcements box of `renderHome` |
| `Gallery` | gallery.dfy | the image switcher of `renderGame` |
| `Detail` | detail.dfy | `renderGame` and `setLinkBtn` |

Reading a file becomes a parameter. The outcome of reading the index or the
announcements is a `Result`. Reading one record is a function
`fetch: string -> Result<Game>`. `Date.parse` is a function `parse: string -> int`.

A JSON field is a `Value`: `Missing` (undefined), `Str(s)`, or `Other(truthy,
rendered)` for any other JSON value. `Other` keeps only the two things the script
uses: its truthiness and what a template literal renders it as. With this,
`nonEmpty` (a string with a non-space character), `||` (truthiness) and `${v}`
behave as they do in JavaScript.

Behaviour of the script worth knowing:

- The detail page reads `data/games/<id>.json` directly. It never looks the id up in
  the catalog index, so "Game not found" means only that the `id` parameter is absent
  or empty. A record missing from the index still shows when its file exists.
- An announcement with a date and no text still shows its line, "date： ".
- The announcements box is hidden when the feed cannot be read, when its `items` is
  not an array or is empty, and when an item is `null` or `undefined` (reading its
  `date` throws). When the items exist but every line is blank, the box is shown with
  no lines.
- A record tag spelled `__all__` gets a button and filters like any other tag. Its
  button is never shown as pressed, because `updateTagButtons` skips every button
  whose `data-tag` is `__all__`, the marker of the "すべて" button.
- An undated record has sort key 0, the 1970 epoch. So a record dated before 1970
  ranks below an undated one.

## Model

| member | source | states |
|---|---|---|
| `Records.OrElse` | assets/js/site.js:243-245 | `v \|\| fallback` gives the fallback exactly for a falsy value (absent, the empty string, a falsy non-string); a non-empty string is shown as it is, and any other truthy value as it renders |
| `Records.Truthy` | assets/js/site.js:212 | an absent value and the empty string are falsy; a present value is truthy |
| `Records.PresenceRule` | assets/js/site.js:42-44 | a value is present exactly when it is a string holding a character outside the ECMAScript white-space set |
| `Records.NonEmpty` | assets/js/site.js:42-44 | `nonEmpty` holds only for a non-empty string, and holds for every string that starts with a non-space |
| `Records.ImagesOf` | assets/js/site.js:316 | the gallery images are never empty: the record's own images when it has a non-empty array, and otherwise the placeholder alone |
| `Records.FirstImage` | assets/js/site.js:46-48 | the cover is the first image of the gallery, and the placeholder when the record has no image array |
| `Records.FirstImageOpensGallery` | assets/js/site.js:46-48 | a card's cover is the first image of the record's gallery |
| `Records.BadgeIf` | assets/js/site.js:50-53 | there is no badge exactly when the value is absent; otherwise the badge text is the caption, "：" and the value |
| `Text.TrimStartEdges` | assets/js/site.js:43 | trimming the start removes a prefix made only of white space, and what is kept starts with a non-space |
| `Text.TrimEndEdges` | assets/js/site.js:43 | trimming the end removes a suffix made only of white space, and what is kept ends with a non-space |
| `Text.TrimBlank` | assets/js/site.js:43 | `trim` gives the empty string exactly when the input is all white space |
| `Text.TrimEnds` | assets/js/site.js:269 | a non-empty trimmed string starts and ends with a non-space |
| `Text.TrimIsInfix` | assets/js/site.js:269 | the trimmed string is a slice of the input, with only white space on either side |
| `Text.Lower` | assets/js/site.js:134 | lower-casing keeps the length and the positions of white space, maps each modelled capital to the small letter 32 code points on, keeps every other character, and leaves no ASCII capital |
| `Text.LowerCharKeepsSpace` | assets/js/site.js:184 | lower-casing a character never makes it a space or stops it being one |
| `Text.LowerAppend` | assets/js/site.js:134 | lower-casing a concatenation lower-cases each part |
| `Text.LowerIdempotent` | assets/js/site.js:184 | lower-casing twice is lower-casing once |
| `Text.TrimStartLower` | assets/js/site.js:184 | trimming the start commutes with lower-casing |
| `Text.TrimEndLower` | assets/js/site.js:184 | trimming the end commutes with lower-casing |
| `Text.TrimLower` | assets/js/site.js:184 | trimming and lower-casing commute, so the order of `trim().toLowerCase()` does not matter |
| `Text.BlankAppend` | assets/js/site.js:213 | a concatenation is blank exactly when both parts are |
| `Text.ContainsEmpty` | assets/js/site.js:135 | every string includes the empty string |
| `Text.ContainsInLeft` | assets/js/site.js:135 | a string found in the left part of a concatenation is found in the whole |
| `Text.ContainsInRight` | assets/js/site.js:135 | a string found in the right part of a concatenation is found in the whole |
| `Text.ContainsAt` | assets/js/site.js:135 | `includes` holds exactly when the query is a prefix of the text at some position |
| `Seqs.Filter` | assets/js/site.js:185-187 | `filter` never lengthens a list |
| `Seqs.FilterMembers` | assets/js/site.js:185-187 | the filtered list holds exactly the elements that satisfy the predicate |
| `Seqs.FilterCount` | assets/js/site.js:185-187 | filtering keeps every copy of an element that passes and no copy of one that fails |
| `Seqs.FilterIsSubsequence` | assets/js/site.js:185-187 | the filtered list is a subsequence of the input, in input order |
| `Seqs.FilterKeepsAll` | assets/js/site.js:185-187 | a filter that every element passes changes nothing |
| `Seqs.FilterIdempotent` | assets/js/site.js:185-187 | filtering twice by the same predicate is filtering once |
| `Seqs.FilterCompose` | assets/js/site.js:185-187 | two chained filters are one filter by the conjunction |
| `Seqs.FilterMonotone` | assets/js/site.js:185-187 | a weaker predicate keeps a superset, in the same order |
| `Seqs.FilterNoDuplicates` | assets/js/site.js:93-95 | filtering a list without duplicates gives a list without duplicates |
| `Seqs.FilterKeepsOrder` | assets/js/site.js:93-95 | filtering keeps any strict order of the elements by a rank |
| `Seqs.IndexOf` | assets/js/site.js:93-95 | finds the first position of a value, and `\|s\|` exactly when the value is absent |
| `Seqs.IndexOfInPrefix` | assets/js/site.js:93-95 | appending to a list does not move the first occurrence of a value already in it |
| `Seqs.IndexOfPastPrefix` | assets/js/site.js:93-95 | a value new to a list first occurs where it is appended |
| `Seqs.DistinctSpec` | assets/js/site.js:93-95 | `[...new Set(s)]` holds every value of `s` once, in order of first occurrence |
| `Seqs.Take` | assets/js/site.js:161 | `slice(0, n)` is a prefix of length `min(\|s\|, n)` |
| `Sorting.InsertPermutes` | assets/js/site.js:228-232 | inserting an element adds exactly that element |
| `Sorting.InsertMembers` | assets/js/site.js:228-232 | after inserting, every element is the new one or an old one |
| `Sorting.InsertKeepsOrder` | assets/js/site.js:228-232 | inserting into a list sorted largest key first keeps it sorted |
| `Sorting.SortPermutes` | assets/js/site.js:228-232 | the sorted list is a permutation of the input |
| `Sorting.SortOrdered` | assets/js/site.js:228-232 | the sorted list has the largest key first |
| `Sorting.InsertStable` | assets/js/site.js:228-232 | inserting keeps the order among the elements of each key, with the new element first |
| `Sorting.SortStable` | assets/js/site.js:228-232 | the sort is stable: the elements with equal keys keep their input order |
| `Sorting.InsertAfter` | assets/js/site.js:228-232 | an element goes in just before the first element whose key is not larger than its own |
| `Sorting.InsertAt` | assets/js/site.js:228-232 | one step of the in-place sort: the prefix before `i` is untouched, and `a[i..]` becomes `a[i]` inserted into the sorted rest |
| `Sorting.SortInPlace` | assets/js/site.js:228-232 | sorting the array in place leaves it holding exactly the stable, largest-key-first ordering of its old contents |
| `Cards.Present` | assets/js/site.js:169-173 | `.filter(Boolean)` on the badges keeps exactly the badges that exist |
| `Cards.PresentAppend` | assets/js/site.js:169-173 | `.filter(Boolean)` keeps the order: the badges of a concatenation are those of each part, in order |
| `Cards.PresentOne` | assets/js/site.js:169-173 | a single badge is kept exactly when it exists |
| `Cards.CardTags` | assets/js/site.js:161-162 | a card shows the first three tags, or every tag when there are fewer |
| `Cards.ListCard` | assets/js/site.js:160-177 | a list card's cover, its badges (players, time, then at most three tags, at most five in all) and its catch line, which is the catch copy itself |
| `Cards.LatestCard` | assets/js/site.js:240-256 | the latest card's cover, its catch line (the catch copy itself) exactly when the catch copy is present, and its badges: the present ones of players, time and age, in that order |
| `Loader.GameIds` | assets/js/site.js:12-15 | the ids are the index's `games` array, and none when it is not an array |
| `Loader.Fulfilled` | assets/js/site.js:24-26 | the kept records are exactly the values of the fulfilled results |
| `Loader.FulfilledAppend` | assets/js/site.js:24-26 | the kept records of a concatenation are those of each part, in order |
| `Loader.FulfilledAllOk` | assets/js/site.js:24-26 | when every read succeeded, nothing is dropped and the order is kept |
| `Loader.Catalog` | assets/js/site.js:21-27 | the catalog has no more records than the index has entries, and holds exactly the records whose reads succeeded |
| `Loader.LoadAllGames` | assets/js/site.js:21-27 | the load fails exactly when the index cannot be read; otherwise the catalog is exactly the records whose reads succeeded, kept in id order as `Loader.CatalogSnoc` states |
| `Loader.CatalogSnoc` | assets/js/site.js:21-27 | one more id appends its record exactly when that read succeeded |
| `Loader.CatalogAllRead` | assets/js/site.js:21-27 | when every read succeeds, the catalog is every record, in index order |
| `Loader.FailedReadIsDropped` | assets/js/site.js:21-27 | a failed read of one id leaves out only that record |
| `ListFilter.NormalizeQuery` | assets/js/site.js:184 | the query is empty exactly when the search text is blank, and holds no ASCII capital |
| `ListFilter.MatchQuery` | assets/js/site.js:131-136 | the empty query matches every record; otherwise a record matches exactly when the query occurs in its lower-cased search text |
| `ListFilter.MatchTags` | assets/js/site.js:138-142 | with nothing selected every record matches; otherwise a record matches exactly when one of its tags is selected |
| `ListFilter.Visible` | assets/js/site.js:184-187 | the shown list is the records with an id that match the query and the tags, in source order and with every copy of such a record kept (a subsequence of the records whose multiset count of each record is its count in the input when it passes and 0 otherwise) |
| `ListFilter.VisibleIdempotent` | assets/js/site.js:185-187 | filtering the shown list again shows the same list |
| `ListFilter.NoFilterShowsAll` | assets/js/site.js:131-187 | with no query and no tag, every record with an id is shown, in source order |
| `ListFilter.BlankQueryMatchesAll` | assets/js/site.js:131-184 | a query of only white space filters nothing out |
| `ListFilter.QueryIgnoresCase` | assets/js/site.js:184 | upper and lower case in the search box make no difference |
| `ListFilter.TitleHitMatches` | assets/js/site.js:131-136 | a query found in the lower-cased title matches the record |
| `ListFilter.ExampleUpperQueryFindsLowerTitle` | assets/js/site.js:131-184 | the query "ABC" matches the title "abc game" |
| `ListFilter.MoreTagsWiden` | assets/js/site.js:138-142 | once a tag is selected, selecting more tags only widens the list and keeps its order |
| `ListFilter.Counter` | assets/js/site.js:190 | the counter shows the length of the shown list over every loaded record, and the two are equal only when every record passes |
| `ListFilter.FullFilterKeepsAll` | assets/js/site.js:190 | a filter that keeps as many elements as its input keeps every element |
| `ListFilter.AllTagValues` | assets/js/site.js:94 | the flattened tags are exactly the tags of some record |
| `ListFilter.AllTagValuesAppend` | assets/js/site.js:94 | `flatMap` keeps the order: the tags of a concatenation are those of each part, in order |
| `ListFilter.AllTagValuesOne` | assets/js/site.js:94 | one record contributes its own tags, in order, and none when `tags` is not an array |
| `ListFilter.AllTags` | assets/js/site.js:93-95 | every tag button carries a non-blank tag (the rest of its contract is in the three rows below) |
| `ListFilter.AllTagsNoDuplicates` | assets/js/site.js:93-95 | every tag gets one button |
| `ListFilter.AllTagsMembers` | assets/js/site.js:93-95 | the buttons are exactly the non-blank tags of the records |
| `ListFilter.AllTagsOrder` | assets/js/site.js:93-95 | the buttons come in the order in which their tags first appear |
| `ListView.RenderCards` | assets/js/site.js:153-181 | an empty list gives exactly the "no results" card; otherwise one card per record, in order |
| `ListView.Page` | assets/js/site.js:183-192 | the counter's total is every loaded record, "すべて" is pressed exactly when nothing is selected, and the grid renders the shown list |
| `ListView.PageSpec` | assets/js/site.js:144-192 | what `update` renders: the counter, "すべて" pressed exactly when nothing is selected, each tag button pressed exactly when its tag is selected and is not spelled `__all__`, and a grid that renders exactly the shown list: one card per shown record or the "no results" card |
| `ListView.Toggled` | assets/js/site.js:111-115 | a tag click flips that tag and leaves every other tag as it was |
| `ListView.ToggleTwice` | assets/js/site.js:111-115 | two clicks on one tag restore the selection |
| `ListView.ListController.constructor` | assets/js/site.js:78-95 | the controller starts with an empty search box, nothing selected, and the tag buttons of the records |
| `ListView.ListController.Type` | assets/js/site.js:128 | typing changes the search text only, keeps the selection, and re-renders |
| `ListView.ListController.ToggleTag` | assets/js/site.js:111-115 | a tag click toggles that tag, keeps the search text, and re-renders |
| `ListView.ListController.ShowAll` | assets/js/site.js:101 | "すべて" empties the selection, keeps the search text, and re-renders |
| `ListView.ListController.Clear` | assets/js/site.js:89 | "クリア" empties both the search box and the selection, and re-renders |
| `ListView.ToggleTwiceRestores` | assets/js/site.js:111-115 | two clicks on one tag button leave the controller as it was |
| `ListView.ClearShowsAll` | assets/js/site.js:86-192 | after "クリア" every record with an id is counted as shown |
| `ListView.RenderGamesList` | assets/js/site.js:57-194 | a failed load shows the load-error card with its message; otherwise a fresh controller renders its first page |
| `Latest.Key` | assets/js/site.js:229-230 | the sort key is `Date.parse` of a present `publishedAt`, and 0 when it is absent, blank or not a string |
| `Latest.PickLatest` | assets/js/site.js:226-238 | nothing is picked exactly when no record has an id; otherwise the pick is a record with an id (see the `PickLatest…` rows for newest and first) |
| `Latest.LatestInPlace` | assets/js/site.js:225-238 | filtering into a fresh array, sorting it in place and taking `games[0]` gives the picked record, or nothing for an empty array |
| `Latest.PickLatestNone` | assets/js/site.js:226-238 | the latest box is hidden exactly when no record has an id |
| `Latest.PickLatestIsCandidate` | assets/js/site.js:226-234 | the picked record is one of the records with an id |
| `Latest.PickLatestIsNewest` | assets/js/site.js:228-234 | no record with an id has a later key than the picked one |
| `Latest.PickLatestIsFirstOfItsKey` | assets/js/site.js:228-234 | among records with the newest key, the picked one comes first in source order |
| `Latest.StrictlyNewestIsPicked` | assets/js/site.js:226-234 | a record with an id that is strictly newer than every other is picked |
| `Latest.LatestBox` | assets/js/site.js:222-260 | the box is hidden when loading fails or no record has an id; otherwise it shows the latest card of the picked record |
| `News.Line` | assets/js/site.js:212 | an item without a truthy date shows its text or nothing; a `null` item gives no text |
| `News.LineHasDate` | assets/js/site.js:212 | an item with a truthy date shows the date, "： ", then its text or nothing |
| `News.LineKept` | assets/js/site.js:212-213 | a line is kept exactly when its item has a truthy date, or a truthy text that is not blank |
| `News.Lines` | assets/js/site.js:211-214 | there are never more lines than items, and a leading `null` item makes rendering throw |
| `News.LinesFailed` | assets/js/site.js:211-217 | rendering the lines throws exactly when some item is `null` or `undefined` |
| `News.LinesKept` | assets/js/site.js:211-214 | otherwise the lines are the non-blank item lines, in item order |
| `News.NewsBox` | assets/js/site.js:202-219 | a failed read hides the box; a shown box comes from an item array that is not empty, with at most one line per item |
| `News.NewsBoxSpec` | assets/js/site.js:202-219 | the box is hidden exactly when the feed cannot be read, has no items, or holds a null item; otherwise it lists the non-blank lines |
| `News.KeptLinesAreItemLines` | assets/js/site.js:211-213 | every non-blank line kept from the items is the line of some item |
| `News.ShownLinesAreNonBlank` | assets/js/site.js:212-213 | every shown line is non-blank and is the line of some item |
| `News.DateOnlyItemIsShown` | assets/js/site.js:212-213 | an item with a date and no text shows the line "date： " |
| `Gallery.StepBack` | assets/js/site.js:327 | "prev" moves one image back, and from the first image to the last |
| `Gallery.StepForward` | assets/js/site.js:328 | "next" moves one image forward, and from the last image to the first |
| `Gallery.StepsAreInverse` | assets/js/site.js:327-328 | "prev" undoes "next", and "next" undoes "prev" |
| `Gallery.Forward` | assets/js/site.js:328 | any number of "next" clicks stays within the images |
| `Gallery.ForwardIsRem` | assets/js/site.js:328 | after `k` clicks on "next" the position is `i + k` reduced by the image count |
| `Gallery.ForwardIsModular` | assets/js/site.js:328 | after `k` clicks on "next" the position is `(i + k) % n` |
| `Gallery.FullCycle` | assets/js/site.js:328 | `n` clicks on "next" come back to the image they started from |
| `Gallery.Switcher.constructor` | assets/js/site.js:316-321 | the switcher holds the record's images and opens on the first |
| `Gallery.Switcher.Show` | assets/js/site.js:322-326 | shows the current image; both buttons are disabled exactly when there is a single image |
| `Gallery.Switcher.Prev` | assets/js/site.js:327 | a "prev" click steps back cyclically and re-renders |
| `Gallery.Switcher.Next` | assets/js/site.js:328 | a "next" click steps forward cyclically and re-renders |
| `Gallery.SingleImageStays` | assets/js/site.js:324-328 | with a single image, the buttons are disabled and clicks keep the position at 0 |
| `Gallery.NextThenPrev` | assets/js/site.js:327-328 | "next" then "prev" shows the image shown before |
| `Detail.RowOf` | assets/js/site.js:297-308 | a row or the description is hidden exactly when its value is absent; otherwise it shows the value |
| `Detail.LinkButton` | assets/js/site.js:264-270 | a link button is hidden exactly when its address is absent; otherwise it links to the trimmed address |
| `Detail.LinkIsTrimmed` | assets/js/site.js:269 | a shown link's address is non-empty, has no surrounding white space, and is what remains of the value after removing white space |
| `Detail.ViewOf` | assets/js/site.js:287-316 | the page title and title fallbacks; the catch line is the catch copy or ""; the description hidden exactly when absent; a shown players, time or age row and a shown description hold the value itself; a shown rules, shop or video button links to the trimmed address; the gallery is the record's image list and opens on the card's cover |
| `Detail.ViewSpec` | assets/js/site.js:287-316 | each row, the description and each link button is hidden exactly when its value is absent, and when shown holds the value (a button: the trimmed address of the record's `links` entry); the title fallbacks; the catch line; the gallery is the record's image list and opens on the card's cover |
| `Detail.RenderGame` | assets/js/site.js:272-289 | no or an empty `id` gives "not found"; a failed read gives the load error; otherwise the page is the view of the record |
| `Detail.Heading` | assets/js/site.js:275-288 | the heading reads "Game not found", "読み込みエラー", or the record's title |

## Left out

- The DOM is left out: element creation (`el`), `innerHTML`, `style.display`, `disabled`,
  `aria-pressed` attributes and event wiring. Pages are modelled as the values they render.
- `fetch`, `res.ok` and `res.json()` are left out. The outcome of each read is a parameter.
  A body that is not an object is not modelled, except an announcements body that cannot be read.
- Concurrency is left out. `Promise.allSettled` becomes one outcome per id, in id order.
- `Date.parse` is the parameter `parse`. Its `NaN` result is left out, and so is the
  comparator's `NaN` case.
- `toLowerCase` covers ASCII, Latin-1 and full-width Latin capitals only. Other Unicode
  case mappings are left out.
- `encodeURIComponent` on the card link and `URLSearchParams` are left out. The card keeps
  the raw `id` value as its target, and the detail page takes the decoded `id` parameter.
- Array elements that are not strings, in `tags` and `images`, are left out; both arrays hold strings.
- A non-string truthy `title` as a text child is left out. The code passes such a value to
  `appendChild`, which throws; the model renders it as text.
- A record body that is `null` on the detail page is left out. Reading its `title` would throw.
- Image `alt` texts and the card's "詳細を見る" caption are left out.
- The early returns taken when a page lacks an element (`if(!btn) return`, `if(!row) return`,
  and the `if(newsSection && newsList)` guard) are left out. Every element is assumed to exist.
- The list page's filter bar set-up (`filterBar` creation and insertion) is left out.
- A record read is the function `fetch` of its id. So two entries of the index with the
  same id always get the same outcome, although the script fetches each entry on its own.
- `Cards.ListCard`, `Cards.LatestCard`: the link target, the heading and the feature line are
  built by the body and not restated in the contract.
- The comparator's own behaviour on inconsistent keys is left out. `Array.prototype.sort` is
  modelled as a stable insertion sort (`Sorting.SortInPlace`, specified by `Sorting.SortDesc`),
  which is what any stable sort gives for a numeric key.
