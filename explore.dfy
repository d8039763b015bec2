/** The objective catalogue page: the category tabs, the search box, and the list of
    objectives shown for the selected tab and query. */
module Explore {
  import opened Wrappers
  import opened Text

  datatype Category = Category(id: string, name: string, slug: string)

  datatype CatalogObjective = CatalogObjective(id: string, title: string, categoryId: string)

  /** `categories.find((c) => c.slug === slug)`: the first category with that slug. */
  function FindBySlug(cats: seq<Category>, slug: string): (r: Option<Category>)
    ensures r.Some? ==> r.value in cats && r.value.slug == slug
    ensures r.None? <==> forall c :: c in cats ==> c.slug != slug
  {
    if cats == [] then None
    else if cats[0].slug == slug then Some(cats[0])
    else FindBySlug(cats[1..], slug)
  }

  /** The category test: an empty tab passes everything; otherwise the objective's category
      must be the id of the tab's category, and a tab no category has passes nothing. */
  predicate MatchesCategory(o: CatalogObjective, selected: string, cats: seq<Category>)
  {
    if selected == "" then true
    else
      var c := FindBySlug(cats, selected);
      c.Some? && o.categoryId == c.value.id
  }

  /** The search test: the query, lower-cased, occurs in the lower-cased title. */
  predicate MatchesSearch(o: CatalogObjective, query: string)
  {
    Includes(Lower(o.title), Lower(query))
  }

  predicate Shown(o: CatalogObjective, selected: string, query: string, cats: seq<Category>)
  {
    MatchesCategory(o, selected, cats) && MatchesSearch(o, query)
  }

  /** `filteredObjectives`. */
  function Filtered(objs: seq<CatalogObjective>, selected: string, query: string, cats: seq<Category>)
    : (shown: seq<CatalogObjective>)
    ensures |shown| <= |objs|
    ensures forall o :: o in shown ==> o in objs && Shown(o, selected, query, cats)
  {
    if objs == [] then []
    else
      var rest := Filtered(objs[1..], selected, query, cats);
      if Shown(objs[0], selected, query, cats) then [objs[0]] + rest else rest
  }

  /** `a` is `b` with some elements left out, the rest in their order. */
  predicate SubsequenceOf<T(==)>(a: seq<T>, b: seq<T>)
  {
    if a == [] then true
    else if b == [] then false
    else if a[0] == b[0] then SubsequenceOf(a[1..], b[1..])
    else SubsequenceOf(a, b[1..])
  }

  /** The list shown keeps the catalogue's order and only drops objectives. */
  lemma {:induction false} FilteredIsSubsequence(objs: seq<CatalogObjective>, selected: string, query: string, cats: seq<Category>)
    ensures SubsequenceOf(Filtered(objs, selected, query, cats), objs)
  {
    if objs != [] {
      FilteredIsSubsequence(objs[1..], selected, query, cats);
      var rest := Filtered(objs[1..], selected, query, cats);
      if !Shown(objs[0], selected, query, cats) {
        SkipHead(rest, objs);
      }
    }
  }

  /** A subsequence of the tail is a subsequence of the whole list. */
  lemma {:induction false} SkipHead<T>(a: seq<T>, b: seq<T>)
    requires b != [] && SubsequenceOf(a, b[1..])
    ensures SubsequenceOf(a, b)
    decreases |b|
  {
    if a != [] && a[0] == b[0] {
      DropBoth(a, b[1..]);
      SkipHead(a[1..], b[1..]);
    }
  }

  /** Dropping the head of a non-empty subsequence and of the list keeps it a subsequence. */
  lemma {:induction false} DropBoth<T>(a: seq<T>, t: seq<T>)
    requires a != [] && SubsequenceOf(a, t)
    ensures t != [] && SubsequenceOf(a[1..], t[1..])
    decreases |t|
  {
    if a[0] != t[0] {
      var u := t[1..];
      DropBoth(a, u);
      SkipHead(a[1..], u);
    }
  }

  /** An objective is in the list shown exactly when it is in the catalogue and passes both
      tests. */
  lemma {:induction false} FilteredMembers(objs: seq<CatalogObjective>, selected: string, query: string, cats: seq<Category>)
    ensures forall o :: o in Filtered(objs, selected, query, cats) <==> o in objs && Shown(o, selected, query, cats)
  {
    if objs != [] {
      FilteredMembers(objs[1..], selected, query, cats);
      assert objs == [objs[0]] + objs[1..];
    }
  }

  /** With no tab selected and an empty query every objective is shown, in order. */
  lemma {:induction false} EmptyFiltersShowAll(objs: seq<CatalogObjective>, cats: seq<Category>)
    ensures Filtered(objs, "", "", cats) == objs
  {
    if objs != [] {
      EmptyFiltersShowAll(objs[1..], cats);
      IncludesBasics(Lower(objs[0].title));
      assert objs == [objs[0]] + objs[1..];
    }
  }

  /** The empty query matches every title, and a title always matches itself in any case. */
  lemma SearchBasics(o: CatalogObjective, query: string)
    ensures MatchesSearch(o, "")
    ensures Lower(query) == Lower(o.title) ==> MatchesSearch(o, query)
  {
    IncludesBasics(Lower(o.title));
  }

  /** A tab whose slug no category has shows nothing, whatever the query. */
  lemma {:induction false} UnknownTabShowsNothing(objs: seq<CatalogObjective>, selected: string, query: string, cats: seq<Category>)
    requires selected != "" && forall c :: c in cats ==> c.slug != selected
    ensures Filtered(objs, selected, query, cats) == []
  {
    if objs != [] {
      UnknownTabShowsNothing(objs[1..], selected, query, cats);
    }
  }

  /** With a tab selected, an objective passes the category test exactly when its category is
      the id of the first category with that slug. */
  lemma CategoryTest(o: CatalogObjective, selected: string, cats: seq<Category>, i: nat)
    requires selected != "" && i < |cats| && cats[i].slug == selected
    requires forall j :: 0 <= j < i ==> cats[j].slug != selected
    ensures MatchesCategory(o, selected, cats) <==> o.categoryId == cats[i].id
  {
    FirstWithSlug(cats, selected, i);
  }

  lemma {:induction false} FirstWithSlug(cats: seq<Category>, slug: string, i: nat)
    requires i < |cats| && cats[i].slug == slug
    requires forall j :: 0 <= j < i ==> cats[j].slug != slug
    ensures FindBySlug(cats, slug) == Some(cats[i])
  {
    if i > 0 {
      FirstWithSlug(cats[1..], slug, i - 1);
    }
  }

  /** `loadCategories`: on an answer the tabs are the categories and the selected tab is the
      first one's slug, or "" when there are none; a failed read changes nothing. */
  function AfterLoadCategories(cats: seq<Category>, selected: string, reply: Option<seq<Category>>)
    : (r: (seq<Category>, string))
    ensures reply.None? ==> r == (cats, selected)
    ensures reply.Some? && reply.value == [] ==> r == ([], "")
    ensures reply.Some? && reply.value != [] ==> r == (reply.value, reply.value[0].slug)
  {
    if reply.None? then (cats, selected)
    else (reply.value, if reply.value != [] && reply.value[0].slug != "" then reply.value[0].slug else "")
  }

  /** After a load that returned categories, the selected tab is the first one's, and the
      category test shows exactly that category's objectives. */
  lemma LoadSelectsFirstTab(cats: seq<Category>, selected: string, loaded: seq<Category>, o: CatalogObjective)
    requires loaded != [] && loaded[0].slug != ""
    ensures var (c, s) := AfterLoadCategories(cats, selected, Some(loaded));
      s != "" && FindBySlug(c, s) == Some(loaded[0])
      && (MatchesCategory(o, s, c) <==> o.categoryId == loaded[0].id)
  {
  }
}
