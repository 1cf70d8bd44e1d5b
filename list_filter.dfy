/** The filter engine of the list page (`renderGamesList`): query normalisation,
    `matchQuery`, `matchTags`, the two-step filter of `update`, its counter, and
    the distinct tag list the tag buttons are built from. */
module ListFilter {
  import opened Text
  import opened Seqs
  import opened Records

  /** `input.value.trim().toLowerCase()`. */
  function NormalizeQuery(input: string): (q: string)
    ensures q == "" <==> IsBlank(input)
    ensures forall i :: 0 <= i < |q| ==> !('A' <= q[i] <= 'Z')
  {
    TrimBlank(input);
    Lower(Trim(input))
  }

  /** The text a query is searched in: title, catch copy, first feature and
      description, non-strings counted as "", joined by single spaces and lower-cased. */
  function Haystack(g: Game): string
  {
    Lower(AsText(g.title) + HaystackTail(g))
  }

  /** The part of the haystack after the title. */
  function HaystackTail(g: Game): string
  {
    " " + AsText(g.catchCopy) + " " + AsText(g.feature1) + " " + AsText(g.description)
  }

  /** `matchQuery(g, q)`: an empty query matches everything; otherwise `q` must occur in the haystack. */
  predicate MatchQuery(g: Game, q: string)
    ensures q == "" ==> MatchQuery(g, q)
    ensures MatchQuery(g, q) <==> q == "" || exists i :: 0 <= i <= |Haystack(g)| && q <= Haystack(g)[i..]
  {
    ContainsAt(Haystack(g), q);
    q == "" || Contains(Haystack(g), q)
  }

  /** `matchTags(g)`: no selection means no tag filter; otherwise some tag of the record is selected (OR). */
  predicate MatchTags(g: Game, selected: set<string>)
    ensures selected == {} ==> MatchTags(g, selected)
    ensures MatchTags(g, selected) <==>
      selected == {} || exists k :: 0 <= k < |TagsOf(g)| && TagsOf(g)[k] in selected
  {
    selected == {} || exists t :: t in TagsOf(g) && t in selected
  }

  function Matches(q: string, selected: set<string>): Game -> bool
  {
    g => MatchQuery(g, q) && MatchTags(g, selected)
  }

  /** `games.filter(g => g && g.id).filter(g => matchQuery(g, q) && matchTags(g))`. */
  function Visible(games: seq<Game>, q: string, selected: set<string>): (r: seq<Game>)
    ensures IsSubsequence(r, games)
    ensures forall g :: g in r <==> g in games && HasId(g) && MatchQuery(g, q) && MatchTags(g, selected)
    ensures |r| <= |games|
    ensures forall g :: multiset(r)[g] ==
                        if HasId(g) && MatchQuery(g, q) && MatchTags(g, selected) then multiset(games)[g] else 0
    ensures r == Filter(games, And(HasId, Matches(q, selected)))
  {
    var withId := Filter(games, HasId);
    FilterCompose(games, HasId, Matches(q, selected));
    FilterCount(games, And(HasId, Matches(q, selected)));
    FilterIsSubsequence(games, And(HasId, Matches(q, selected)));
    FilterMembers(games, And(HasId, Matches(q, selected)));
    Filter(withId, Matches(q, selected))
  }

  /** Filtering what is already shown again shows the same list. */
  lemma VisibleIdempotent(games: seq<Game>, q: string, selected: set<string>)
    ensures Visible(Visible(games, q, selected), q, selected) == Visible(games, q, selected)
  {
    var v := Visible(games, q, selected);
    FilterKeepsAll(v, HasId);
    FilterKeepsAll(v, Matches(q, selected));
  }

  /** With no query and no selected tag, every record with an id is shown, in source order. */
  lemma NoFilterShowsAll(games: seq<Game>)
    ensures Visible(games, NormalizeQuery(""), {}) == Filter(games, HasId)
  {
    assert Trim("") == "";
    FilterKeepsAll(Filter(games, HasId), Matches("", {}));
  }

  /** A blank query is no query: it filters nothing out. */
  lemma BlankQueryMatchesAll(g: Game, input: string)
    requires IsBlank(input)
    ensures MatchQuery(g, NormalizeQuery(input))
  {
    TrimBlank(input);
  }

  /** Upper and lower case in the query make no difference. */
  lemma QueryIgnoresCase(input: string)
    ensures NormalizeQuery(Lower(input)) == NormalizeQuery(input)
  {
    TrimLower(input);
    LowerIdempotent(Trim(input));
  }

  /** A query found in the lower-cased title matches the record (e.g. "ABC" matches the title "abc game"). */
  lemma TitleHitMatches(g: Game, input: string)
    requires g.title.Str? && Contains(Lower(g.title.s), NormalizeQuery(input))
    ensures MatchQuery(g, NormalizeQuery(input))
  {
    LowerAppend(g.title.s, HaystackTail(g));
    ContainsInLeft(Lower(g.title.s), Lower(HaystackTail(g)), NormalizeQuery(input));
  }

  lemma ExampleUpperQueryFindsLowerTitle(g: Game)
    requires g.title == Str("abc game")
    ensures MatchQuery(g, NormalizeQuery("ABC"))
  {
    var q := "ABC";
    assert !IsSpace(q[0]) && !IsSpace(q[2]);
    assert Trim(q) == q;
    var lq := Lower(q);
    assert lq[0] == 'a' && lq[1] == 'b' && lq[2] == 'c';
    assert NormalizeQuery(q) == "abc";
    var lt := Lower(g.title.s);
    assert !IsCapital('a') && !IsCapital('b') && !IsCapital('c');
    assert lt[..3] == "abc";
    TitleHitMatches(g, q);
  }

  /** Selecting more tags (once at least one is selected) only widens the list, keeping source order. */
  lemma MoreTagsWiden(games: seq<Game>, q: string, fewer: set<string>, more: set<string>)
    requires fewer != {} && fewer <= more
    ensures IsSubsequence(Visible(games, q, fewer), Visible(games, q, more))
  {
    FilterMonotone(Filter(games, HasId), Matches(q, fewer), Matches(q, more));
  }

  /** The "showing N of M" readout: N counts the shown records, M every loaded record, id or not. */
  function Counter(games: seq<Game>, q: string, selected: set<string>): (c: (nat, nat))
    ensures c.1 == |games| && c.0 <= c.1
    ensures c.0 == |Visible(games, q, selected)|
    ensures c.0 == |games| ==> forall g :: g in games ==> HasId(g) && MatchQuery(g, q) && MatchTags(g, selected)
  {
    var v := Visible(games, q, selected);
    FilterIsSubsequence(games, And(HasId, Matches(q, selected)));
    FilterCompose(games, HasId, Matches(q, selected));
    if |v| == |games| then
      FullFilterKeepsAll(games, And(HasId, Matches(q, selected)));
      (|v|, |games|)
    else (|v|, |games|)
  }

  lemma {:induction false} FullFilterKeepsAll<T>(s: seq<T>, p: T -> bool)
    requires |Filter(s, p)| == |s|
    ensures forall x :: x in s ==> p(x)
  {
    if s != [] {
      assert p(s[0]);
      FullFilterKeepsAll(s[1..], p);
    }
  }

  /** Every tag value of every record, in record order (`games.flatMap(g => tags)`). */
  function AllTagValues(games: seq<Game>): (r: seq<string>)
    ensures forall t :: t in r <==> exists k :: 0 <= k < |games| && t in TagsOf(games[k])
  {
    if games == [] then []
    else
      var r := TagsOf(games[0]) + AllTagValues(games[1..]);
      assert forall k :: 1 <= k < |games| ==> games[k] == games[1..][k - 1];
      r
  }

  /** `flatMap` keeps the record order: the tags of a concatenation of record lists are those
      of each list, one after the other. */
  lemma {:induction false} AllTagValuesAppend(a: seq<Game>, b: seq<Game>)
    ensures AllTagValues(a + b) == AllTagValues(a) + AllTagValues(b)
  {
    if a != [] {
      assert (a + b)[0] == a[0];
      assert (a + b)[1..] == a[1..] + b;
      AllTagValuesAppend(a[1..], b);
    } else {
      assert a + b == b;
    }
  }

  /** The tags of one record are its own tags, in their order. */
  lemma AllTagValuesOne(g: Game)
    ensures AllTagValues([g]) == TagsOf(g)
  {
    assert [g][1..] == [];
  }

  function FirstSeenAt(games: seq<Game>): string -> int
  {
    t => IndexOf(AllTagValues(games), t)
  }

  /** `allTags`: the flattened tag values, de-duplicated, blank ones dropped. */
  function AllTags(games: seq<Game>): (r: seq<string>)
    ensures forall t :: t in r ==> IsNonBlank(t)
  {
    FilterMembers(Distinct(AllTagValues(games)), IsNonBlank);
    Filter(Distinct(AllTagValues(games)), IsNonBlank)
  }

  /** Every tag gets one button. */
  lemma AllTagsNoDuplicates(games: seq<Game>)
    ensures NoDuplicates(AllTags(games))
  {
    DistinctSpec(AllTagValues(games));
    FilterNoDuplicates(Distinct(AllTagValues(games)), IsNonBlank);
  }

  /** The buttons are exactly the non-blank tags of the records. */
  lemma AllTagsMembers(games: seq<Game>)
    ensures forall t :: t in AllTags(games) <==> !IsBlank(t) && exists k :: 0 <= k < |games| && t in TagsOf(games[k])
  {
    var flat := AllTagValues(games);
    DistinctSpec(flat);
    FilterMembers(Distinct(flat), IsNonBlank);
    forall t ensures IsNonBlank(t) <==> !IsBlank(t) {
      TrimBlank(t);
    }
  }

  /** The buttons come in the order in which their tags first appear in the records. */
  lemma AllTagsOrder(games: seq<Game>)
    ensures forall i, j :: 0 <= i < j < |AllTags(games)| ==>
      IndexOf(AllTagValues(games), AllTags(games)[i]) < IndexOf(AllTagValues(games), AllTags(games)[j])
  {
    DistinctSpec(AllTagValues(games));
    FilterKeepsOrder(Distinct(AllTagValues(games)), IsNonBlank, FirstSeenAt(games));
  }
}
