/** The tools page, `src/pages/tools/ToolsPage.tsx`: the catalogue of tools,
    the three featured ones, and the grouping of the catalogue by category
    that the page renders section by section. */
module Tools {
  import opened Seqs

  /** A tool card; its icon is markup and is not modelled. */
  datatype Tool = Tool(id: string, title: string, category: string, path: string)

  /** The catalogue as the page lists it. */
  const Catalogue: seq<Tool> := [
    Tool("image-optimizer", "Image Optimizer", "Media", "/tools/image-optimizer"),
    Tool("code-formatter", "Code Formatter", "Development", "/tools/code-formatter"),
    Tool("color-generator", "Color Palette Generator", "Design", "/tools/color-palette"),
    Tool("file-converter", "File Converter", "Utilities", "/tools/file-converter"),
    Tool("ai-assistant", "AI Chat Assistant", "AI Tools", "/tools/ai-assistant"),
    Tool("meta-tag-generator", "Meta Tag Generator", "SEO", "/tools/meta-generator"),
    Tool("favicon-generator", "Favicon Generator", "Design", "/tools/favicon-generator"),
    Tool("api-tester", "API Tester", "Development", "/tools/api-tester")
  ]

  function CategoriesOf(tools: seq<Tool>): (r: seq<string>)
    ensures |r| == |tools| && forall i :: 0 <= i < |tools| ==> r[i] == tools[i].category
  {
    seq(|tools|, i requires 0 <= i < |tools| => tools[i].category)
  }

  /** The test `tool.category === c`. */
  function OfCategory(c: string): Tool -> bool {
    (t: Tool) => t.category == c
  }

  /** The tools of category `c`, in catalogue order. */
  function InCategory(tools: seq<Tool>, c: string): (r: seq<Tool>)
    ensures |r| <= |tools|
  {
    Filter(OfCategory(c), tools)
  }

  /** The group of `c` holds exactly the tools of category `c`. */
  lemma InCategoryMembers(tools: seq<Tool>, c: string)
    ensures forall x :: x in InCategory(tools, c) <==> x in tools && x.category == c
  {
  }

  lemma InCategoryIsSubsequence(tools: seq<Tool>, c: string)
    ensures IsSubsequence(InCategory(tools, c), tools)
  {
    FilterIsSubsequence(OfCategory(c), tools);
  }

  /** A tool added at the end joins the end of its own group only. */
  lemma InCategoryAppend(tools: seq<Tool>, t: Tool, c: string)
    ensures InCategory(tools + [t], c) == InCategory(tools, c) + (if t.category == c then [t] else [])
  {
    FilterAppend(OfCategory(c), tools, t);
  }

  /** A category no tool has has no tools. */
  lemma {:induction false} InCategoryAbsent(tools: seq<Tool>, c: string)
    requires c !in CategoriesOf(tools)
    ensures InCategory(tools, c) == []
    decreases |tools|
  {
    if tools != [] {
      assert CategoriesOf(tools)[0] == tools[0].category;
      assert CategoriesOf(tools[1..]) == CategoriesOf(tools)[1..];
      InCategoryAbsent(tools[1..], c);
    }
  }

  /** Every tool is in the group of its own category and in no other. */
  lemma ExactlyOneGroup(tools: seq<Tool>, t: Tool, c: string)
    requires t in tools
    ensures t in InCategory(tools, t.category)
    ensures c != t.category ==> t !in InCategory(tools, c)
  {
    InCategoryMembers(tools, t.category);
    InCategoryMembers(tools, c);
  }

  /** The sizes of the groups of `cats`, added up. */
  function GroupSizes(tools: seq<Tool>, cats: seq<string>): nat
    decreases |cats|
  {
    if cats == [] then 0 else |InCategory(tools, cats[0])| + GroupSizes(tools, cats[1..])
  }

  lemma {:induction false} GroupSizesAppendCategory(tools: seq<Tool>, cats: seq<string>, c: string)
    ensures GroupSizes(tools, cats + [c]) == GroupSizes(tools, cats) + |InCategory(tools, c)|
    decreases |cats|
  {
    if cats != [] {
      GroupSizesAppendCategory(tools, cats[1..], c);
      assert (cats + [c])[1..] == cats[1..] + [c];
    }
  }

  lemma {:induction false} GroupSizesAppendTool(tools: seq<Tool>, t: Tool, cats: seq<string>)
    requires NoDuplicates(cats)
    ensures GroupSizes(tools + [t], cats) == GroupSizes(tools, cats) + (if t.category in cats then 1 else 0)
    decreases |cats|
  {
    if cats != [] {
      assert NoDuplicates(cats[1..]) by {
        forall i, j | 0 <= i < j < |cats| - 1 ensures cats[1..][i] != cats[1..][j] {
          assert cats[1..][i] == cats[i + 1] && cats[1..][j] == cats[j + 1];
        }
      }
      GroupSizesAppendTool(tools, t, cats[1..]);
      InCategoryAppend(tools, t, cats[0]);
      assert t.category == cats[0] ==> t.category !in cats[1..];
      assert t.category in cats <==> t.category == cats[0] || t.category in cats[1..];
    }
  }

  /** The groups, one per distinct category, hold all the tools between
      them. */
  lemma {:induction false} GroupsCoverTools(tools: seq<Tool>)
    ensures GroupSizes(tools, Distinct(CategoriesOf(tools))) == |tools|
    decreases |tools|
  {
    if tools != [] {
      var p := tools[..|tools| - 1];
      var t := tools[|tools| - 1];
      assert p + [t] == tools;
      GroupsCoverTools(p);
      CategoriesStep(p, t);
      var d := Distinct(CategoriesOf(p));
      DistinctStep(CategoriesOf(p), t.category);
      GroupSizesAppendTool(p, t, d);
      if t.category !in d {
        GroupSizesAppendCategory(tools, d, t.category);
        assert t.category !in CategoriesOf(p);
        InCategoryAbsent(p, t.category);
        InCategoryAppend(p, t, t.category);
      }
    }
  }

  /** No group is empty: each category comes from a tool. */
  lemma NoEmptyGroup(tools: seq<Tool>, c: string)
    requires c in Distinct(CategoriesOf(tools))
    ensures InCategory(tools, c) != []
  {
    var k :| 0 <= k < |tools| && CategoriesOf(tools)[k] == c;
    InCategoryMembers(tools, c);
    assert tools[k] in InCategory(tools, c);
  }

  lemma TakeStep(tools: seq<Tool>, i: nat)
    requires i < |tools|
    ensures tools[..i + 1] == tools[..i] + [tools[i]]
  {
  }

  lemma CategoriesStep(p: seq<Tool>, t: Tool)
    ensures CategoriesOf(p + [t]) == CategoriesOf(p) + [t.category]
  {
  }

  lemma DistinctStep(xs: seq<string>, x: string)
    ensures Distinct(xs + [x]) == if x in Distinct(xs) then Distinct(xs) else Distinct(xs) + [x]
  {
    assert (xs + [x])[..|xs + [x]| - 1] == xs;
  }

  /** `groups` and `order` hold the grouping of `p`. */
  ghost predicate Grouped(groups: map<string, seq<Tool>>, order: seq<string>, p: seq<Tool>) {
    && order == Distinct(CategoriesOf(p))
    && (forall c :: c in groups <==> c in order)
    && (forall c :: c in groups ==> groups[c] == InCategory(p, c))
  }

  /** One step of the reduce keeps the grouping up to date: `g` and `o`
      are the groups and the key order once the tool's key exists. */
  lemma GroupedStep(groups: map<string, seq<Tool>>, order: seq<string>, p: seq<Tool>, t: Tool,
                    g: map<string, seq<Tool>>, o: seq<string>)
    requires Grouped(groups, order, p)
    requires t.category in groups ==> g == groups && o == order
    requires t.category !in groups ==> g == groups[t.category := []] && o == order + [t.category]
    ensures t.category in g
    ensures Grouped(g[t.category := g[t.category] + [t]], o, p + [t])
  {
    CategoriesStep(p, t);
    DistinctStep(CategoriesOf(p), t.category);
    if t.category in groups {
      GroupedAfter(g, o, p, t);
    } else {
      GroupedNewKey(groups, order, p, t);
      GroupedAfter(g, o, p, t);
    }
  }

  lemma GroupedNewKey(groups: map<string, seq<Tool>>, order: seq<string>, p: seq<Tool>, t: Tool)
    requires Grouped(groups, order, p) && t.category !in groups
    ensures forall c :: c in groups[t.category := []] ==> groups[t.category := []][c] == InCategory(p, c)
  {
    assert t.category !in CategoriesOf(p);
    InCategoryAbsent(p, t.category);
  }

  lemma GroupedAfter(g: map<string, seq<Tool>>, o: seq<string>, p: seq<Tool>, t: Tool)
    requires Distinct(CategoriesOf(p + [t])) == o
    requires forall c :: c in g <==> c in o
    requires t.category in g
    requires forall c :: c in g ==> g[c] == InCategory(p, c)
    ensures Grouped(g[t.category := g[t.category] + [t]], o, p + [t])
  {
    var g2 := g[t.category := g[t.category] + [t]];
    assert g2.Keys == g.Keys;
    forall c | c in g2 ensures g2[c] == InCategory(p + [t], c) {
      InCategoryAppend(p, t, c);
      if c == t.category {
        assert g2[c] == InCategory(p, c) + [t];
      } else {
        assert g2[c] == InCategory(p, c);
      }
    }
  }

  /** `getToolsByCategory()`: the reduce over the catalogue, creating a
      key the first time its category comes up and pushing each tool onto
      its category's list. `order` is the order the keys were created in,
      which is the order `Object.entries` renders them in. */
  method GroupByCategory(tools: seq<Tool>) returns (groups: map<string, seq<Tool>>, order: seq<string>)
    ensures order == Distinct(CategoriesOf(tools))
    ensures forall c :: c in groups <==> c in order
    ensures forall c :: c in groups ==> groups[c] == InCategory(tools, c)
  {
    groups := map[];
    order := [];
    var i := 0;
    GroupedAtStart(tools);
    while i < |tools|
      invariant 0 <= i <= |tools|
      invariant Grouped(groups, order, tools[..i])
    {
      TakeStep(tools, i);
      ghost var groups0, order0 := groups, order;
      var t := tools[i];
      if t.category !in groups {
        groups := groups[t.category := []];
        order := order + [t.category];
      }
      GroupedStep(groups0, order0, tools[..i], t, groups, order);
      groups := groups[t.category := groups[t.category] + [t]];
      i := i + 1;
    }
    GroupedAtEnd(groups, order, tools);
  }

  lemma GroupedAtStart(tools: seq<Tool>)
    ensures Grouped(map[], [], tools[..0])
  {
    assert tools[..0] == [];
  }

  lemma GroupedAtEnd(groups: map<string, seq<Tool>>, order: seq<string>, tools: seq<Tool>)
    requires Grouped(groups, order, tools[..|tools|])
    ensures order == Distinct(CategoriesOf(tools))
    ensures forall c :: c in groups <==> c in order
    ensures forall c :: c in groups ==> groups[c] == InCategory(tools, c)
  {
    assert tools[..|tools|] == tools;
  }

  /** `tools.slice(0, 3)`. */
  function Featured(tools: seq<Tool>): (r: seq<Tool>)
    ensures |r| == if |tools| < 3 then |tools| else 3
    ensures forall i :: 0 <= i < |r| ==> r[i] == tools[i]
  {
    if |tools| <= 3 then tools else tools[..3]
  }
}
