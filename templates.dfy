/** The template gallery, `src/pages/templates/TemplatesPage.tsx`: the search,
    category and technology filters, the technology toggle, the lists of
    categories and technologies offered as filters, and the Free / Premium
    tabs. */
module Templates {
  import opened Optional
  import opened Strings
  import opened Seqs

  /** A row of the `templates` table, reduced to the fields the gallery
      logic reads; `technology` may be missing. */
  datatype Template = Template(
    id: string,
    name: string,
    description: string,
    category: string,
    technology: Option<seq<string>>,
    isPremium: bool)

  /** The search box matches the name or the description, ignoring case. */
  predicate MatchesQuery(t: Template, query: string) {
    Contains(Lower(t.name), Lower(query)) || Contains(Lower(t.description), Lower(query))
  }

  /** The category buttons compare category names ignoring case. */
  predicate MatchesCategory(t: Template, category: string) {
    Lower(t.category) == Lower(category)
  }

  /** The technology buttons keep a template with at least one technology
      whose lowercase form is active; one with no technology list never. */
  predicate MatchesTech(t: Template, activeTech: seq<string>) {
    t.technology.Some? && exists k :: 0 <= k < |t.technology.value| && Lower(t.technology.value[k]) in activeTech
  }

  /** One of the gallery's filters. */
  datatype Criterion =
    | ByQuery(query: string)
    | ByCategory(category: string)
    | ByTech(activeTech: seq<string>)
    | ByPremium(premium: bool)

  predicate Holds(c: Criterion, t: Template) {
    match c
    case ByQuery(q) => MatchesQuery(t, q)
    case ByCategory(cat) => MatchesCategory(t, cat)
    case ByTech(active) => MatchesTech(t, active)
    case ByPremium(p) => t.isPremium == p
  }

  /** `templates.filter(...)` with the test of criterion `c`. */
  function Select(c: Criterion, ts: seq<Template>): (r: seq<Template>)
    ensures |r| <= |ts|
    ensures forall i :: 0 <= i < |r| ==> r[i] in ts && Holds(c, r[i])
    ensures forall i :: 0 <= i < |ts| && Holds(c, ts[i]) ==> ts[i] in r
    decreases |ts|
  {
    if ts == [] then []
    else
      var rest := Select(c, ts[1..]);
      assert forall i :: 0 <= i < |ts| - 1 ==> ts[1..][i] == ts[i + 1];
      if Holds(c, ts[0]) then [ts[0]] + rest else rest
  }

  lemma {:induction false} SelectIsSubsequence(c: Criterion, ts: seq<Template>)
    ensures IsSubsequence(Select(c, ts), ts)
    decreases |ts|
  {
    if ts != [] {
      SelectIsSubsequence(c, ts[1..]);
      var rest := Select(c, ts[1..]);
      if Holds(c, ts[0]) {
        assert ([ts[0]] + rest)[1..] == rest;
      } else if rest != [] {
        assert IsSubsequence(rest, ts[1..]);
      }
    }
  }

  /** One filter of the effect, applied only when `on`. */
  function Stage(ts: seq<Template>, on: bool, c: Criterion): seq<Template> {
    if on then Select(c, ts) else ts
  }

  /** A stage keeps the order, and keeps a template exactly when it is
      switched off or the template passes it. */
  lemma StageKeeps(ts: seq<Template>, on: bool, c: Criterion)
    ensures IsSubsequence(Stage(ts, on, c), ts)
    ensures forall x :: x in Stage(ts, on, c) <==> x in ts && (on ==> Holds(c, x))
  {
    if on {
      SelectIsSubsequence(c, ts);
      forall x | x in ts && Holds(c, x) ensures x in Select(c, ts) {
        var i :| 0 <= i < |ts| && ts[i] == x;
      }
    } else {
      SubsequenceOfItself(ts);
    }
  }

  /** The filter effect: the three filters, each applied only when set. */
  function Filtered(templates: seq<Template>, query: string, category: string, activeTech: seq<string>): (r: seq<Template>)
    ensures |r| <= |templates|
    ensures forall x :: x in r ==> x in templates
  {
    var byQuery := Stage(templates, query != [], ByQuery(query));
    var byCategory := Stage(byQuery, category != "all", ByCategory(category));
    Stage(byCategory, |activeTech| > 0, ByTech(activeTech))
  }

  /** Whether the filters keep a template, taken on their own. */
  predicate Kept(t: Template, query: string, category: string, activeTech: seq<string>) {
    (query != [] ==> Holds(ByQuery(query), t))
    && (category != "all" ==> Holds(ByCategory(category), t))
    && (|activeTech| > 0 ==> Holds(ByTech(activeTech), t))
  }

  /** `Kept` as the test of a single `filter`. */
  function KeptBy(query: string, category: string, activeTech: seq<string>): Template -> bool {
    t => Kept(t, query, category, activeTech)
  }

  /** `Select` is `filter` with the criterion's test. */
  lemma {:induction false} SelectIsFilter(c: Criterion, ts: seq<Template>, f: Template -> bool)
    requires forall x :: f(x) == Holds(c, x)
    ensures Select(c, ts) == Filter(f, ts)
    decreases |ts|
  {
    if ts != [] {
      SelectIsFilter(c, ts[1..], f);
    }
  }

  /** A stage is `filter` with a test that passes everything when the
      stage is off. */
  lemma StageIsFilter(ts: seq<Template>, on: bool, c: Criterion, f: Template -> bool)
    requires forall x :: f(x) == (on ==> Holds(c, x))
    ensures Stage(ts, on, c) == Filter(f, ts)
  {
    if on {
      SelectIsFilter(c, ts, f);
    } else {
      FilterAllKept(f, ts);
    }
  }

  /** The three stages together are one `filter` by `Kept`: the filtered
      list is the templates the filters keep, each as often as it occurs,
      in their order. */
  lemma FilteredKeepsOrder(templates: seq<Template>, query: string, category: string, activeTech: seq<string>)
    ensures var r := Filtered(templates, query, category, activeTech);
      && r == Filter(KeptBy(query, category, activeTech), templates)
      && IsSubsequence(r, templates)
      && (forall x :: x in r <==> x in templates && Kept(x, query, category, activeTech))
  {
    var byQuery := Stage(templates, query != [], ByQuery(query));
    var byCategory := Stage(byQuery, category != "all", ByCategory(category));
    var f1 := (t: Template) => query != [] ==> Holds(ByQuery(query), t);
    var f2 := (t: Template) => category != "all" ==> Holds(ByCategory(category), t);
    var f3 := (t: Template) => |activeTech| > 0 ==> Holds(ByTech(activeTech), t);
    var f12 := (t: Template) => f1(t) && f2(t);
    StageIsFilter(templates, query != [], ByQuery(query), f1);
    StageIsFilter(byQuery, category != "all", ByCategory(category), f2);
    StageIsFilter(byCategory, |activeTech| > 0, ByTech(activeTech), f3);
    FilterFilter(f1, f2, f12, templates);
    FilterFilter(f12, f3, KeptBy(query, category, activeTech), templates);
    FilterIsSubsequence(KeptBy(query, category, activeTech), templates);
  }

  /** With no search text, category "all" and no technology chosen, every
      template is shown. */
  lemma NoFilterShowsAll(templates: seq<Template>)
    ensures Filtered(templates, [], "all", []) == templates
  {
  }

  /** `toggleTechnology(tech)`: the lowercase name is removed when active
      and appended otherwise. */
  function ToggleTechnology(activeTech: seq<string>, tech: string): (r: seq<string>)
    ensures Lower(tech) in activeTech ==> Lower(tech) !in r
    ensures Lower(tech) !in activeTech ==> r == activeTech + [Lower(tech)]
    ensures forall x :: x != Lower(tech) ==> (x in r <==> x in activeTech)
  {
    var techLower := Lower(tech);
    if techLower in activeTech then Remove(activeTech, techLower) else activeTech + [techLower]
  }

  predicate AllLower(ts: seq<string>) {
    forall i :: 0 <= i < |ts| ==> NoUpper(ts[i])
  }

  /** The toggle keeps the active list lowercase and free of duplicates. */
  lemma ToggleKeepsInvariant(activeTech: seq<string>, tech: string)
    requires AllLower(activeTech) && NoDuplicates(activeTech)
    ensures var r := ToggleTechnology(activeTech, tech);
      AllLower(r) && NoDuplicates(r)
  {
    var techLower := Lower(tech);
    LowerIdempotent(tech);
    if techLower in activeTech {
      RemoveNoDuplicates(activeTech, techLower);
      var r := Remove(activeTech, techLower);
      forall i | 0 <= i < |r| ensures NoUpper(r[i]) {
        assert r[i] in activeTech;
      }
    } else {
      var r := activeTech + [techLower];
      forall i, j | 0 <= i < j < |r| ensures r[i] != r[j] {
        if j == |activeTech| {
          assert r[i] == activeTech[i];
        }
      }
    }
  }

  /** Toggling a technology that is not active twice gives back the
      original list; toggling an active one twice gives back the same
      technologies, the toggled one moved to the end. */
  lemma ToggleTwice(activeTech: seq<string>, tech: string)
    requires NoDuplicates(activeTech)
    ensures var r := ToggleTechnology(ToggleTechnology(activeTech, tech), tech);
      && (Lower(tech) !in activeTech ==> r == activeTech)
      && (Lower(tech) in activeTech ==>
            multiset(r) == multiset(activeTech) && r[|r| - 1] == Lower(tech))
  {
    var techLower := Lower(tech);
    LowerIdempotent(tech);
    if techLower !in activeTech {
      var added := activeTech + [techLower];
      assert ToggleTechnology(activeTech, tech) == added;
      assert techLower in added;
      RemoveAppended(activeTech, techLower);
      assert ToggleTechnology(added, tech) == Remove(activeTech, techLower);
    } else {
      var removed := Remove(activeTech, techLower);
      RemoveOne(activeTech, techLower);
      assert ToggleTechnology(activeTech, tech) == removed;
      assert ToggleTechnology(removed, tech) == removed + [techLower];
      assert multiset(removed + [techLower]) == multiset(removed) + multiset{techLower};
    }
  }

  /** `templates.map(t => t.category)`. */
  function CategoryNames(templates: seq<Template>): (r: seq<string>)
    ensures |r| == |templates|
    ensures forall i :: 0 <= i < |r| ==> r[i] == templates[i].category
  {
    seq(|templates|, i requires 0 <= i < |templates| => templates[i].category)
  }

  /** `templates.flatMap(t => t.technology || [])`. */
  function TechnologyNames(templates: seq<Template>): seq<string>
    decreases |templates|
  {
    if templates == [] then []
    else templates[0].technology.GetOr([]) + TechnologyNames(templates[1..])
  }

  /** Every technology of every template is in the flattened list, and
      nothing else. */
  lemma {:induction false} TechnologyNamesWithin(templates: seq<Template>)
    ensures forall i, k :: 0 <= i < |templates| && templates[i].technology.Some?
                         && 0 <= k < |templates[i].technology.value|
                         ==> templates[i].technology.value[k] in TechnologyNames(templates)
    ensures forall x :: x in TechnologyNames(templates) ==>
              exists i :: 0 <= i < |templates| && templates[i].technology.Some? && x in templates[i].technology.value
    decreases |templates|
  {
    if templates != [] {
      TechnologyNamesWithin(templates[1..]);
      var head := templates[0].technology.GetOr([]);
      var rest := TechnologyNames(templates[1..]);
      forall i, k | 0 <= i < |templates| && templates[i].technology.Some?
                    && 0 <= k < |templates[i].technology.value|
        ensures templates[i].technology.value[k] in TechnologyNames(templates)
      {
        if i == 0 {
          assert templates[i].technology.value[k] in head;
        } else {
          assert templates[i] == templates[1..][i - 1];
        }
      }
      forall x | x in TechnologyNames(templates)
        ensures exists i :: 0 <= i < |templates| && templates[i].technology.Some? && x in templates[i].technology.value
      {
        if x in head {
          assert templates[0].technology.Some?;
        } else {
          assert x in rest;
          var i :| 0 <= i < |templates[1..]| && templates[1..][i].technology.Some? && x in templates[1..][i].technology.value;
          assert templates[i + 1] == templates[1..][i];
        }
      }
    }
  }

  /** The category buttons: each category once, in first-appearance order. */
  function Categories(templates: seq<Template>): seq<string> {
    Distinct(CategoryNames(templates))
  }

  /** The technology buttons: each technology once, in first-appearance
      order. */
  function Technologies(templates: seq<Template>): seq<string> {
    Distinct(TechnologyNames(templates))
  }

  /** The button lists have no duplicates and offer exactly the
      categories and technologies that occur. */
  lemma ButtonLists(templates: seq<Template>)
    ensures NoDuplicates(Categories(templates)) && NoDuplicates(Technologies(templates))
    ensures forall i :: 0 <= i < |templates| ==> templates[i].category in Categories(templates)
    ensures forall c :: c in Categories(templates) <==> exists i :: 0 <= i < |templates| && templates[i].category == c
    ensures forall i, k :: 0 <= i < |templates| && templates[i].technology.Some?
                         && 0 <= k < |templates[i].technology.value|
                         ==> templates[i].technology.value[k] in Technologies(templates)
    ensures forall x :: x in Technologies(templates) ==>
              exists i :: 0 <= i < |templates| && templates[i].technology.Some? && x in templates[i].technology.value
  {
    var names := CategoryNames(templates);
    assert forall i :: 0 <= i < |templates| ==> names[i] == templates[i].category;
    TechnologyNamesWithin(templates);
    forall c | c in Categories(templates)
      ensures exists i :: 0 <= i < |templates| && templates[i].category == c
    {
      var i :| 0 <= i < |names| && names[i] == c;
    }
  }

  /** The Free tab. */
  function FreeTab(filtered: seq<Template>): seq<Template> {
    Select(ByPremium(false), filtered)
  }

  /** The Premium tab. */
  function PremiumTab(filtered: seq<Template>): seq<Template> {
    Select(ByPremium(true), filtered)
  }

  /** The Free and Premium tabs split the filtered list between them. */
  lemma {:induction false} TabsPartition(filtered: seq<Template>)
    ensures |FreeTab(filtered)| + |PremiumTab(filtered)| == |filtered|
    ensures multiset(FreeTab(filtered)) + multiset(PremiumTab(filtered)) == multiset(filtered)
    ensures forall i :: 0 <= i < |FreeTab(filtered)| ==> !FreeTab(filtered)[i].isPremium
    ensures forall i :: 0 <= i < |PremiumTab(filtered)| ==> PremiumTab(filtered)[i].isPremium
    decreases |filtered|
  {
    if filtered != [] {
      TabsPartition(filtered[1..]);
      assert filtered == [filtered[0]] + filtered[1..];
    }
  }
}
