/** The template form of the dashboard, `src/modules/dashboard/pages/TemplateEditPage.tsx`:
    edit versus create mode, the field handlers, adding and removing
    technologies, and merging the categories found in the database into
    the category choices. */
module TemplateEdit {
  import opened Optional
  import opened Seqs

  /** The form's state: the template being edited. */
  datatype TemplateForm = TemplateForm(
    name: string,
    description: string,
    category: string,
    downloadUrl: string,
    previewImage: string,
    isPremium: bool,
    colorScheme: string,
    technology: Option<seq<string>>)

  /** The text fields the inputs and the category select write to, by their
      `name`. */
  datatype Field = Name | Description | CategoryField | DownloadUrl | PreviewImage | ColorScheme

  /** The form a new template starts from. */
  const EmptyForm := TemplateForm("", "", "", "", "", false, "", Some([]))

  /** The category choices before the database answers. */
  const DefaultCategories: seq<string> := ["Landing Page", "Dashboard", "Blog", "E-commerce", "Portfolio", "Admin"]

  /** `id !== 'new'`; a missing route id also counts as edit mode. */
  predicate IsEditMode(id: Option<string>) {
    id != Some("new")
  }

  lemma EditModeIff(id: Option<string>)
    ensures !IsEditMode(id) <==> id.Some? && id.value == "new"
  {
  }

  function Get(f: TemplateForm, field: Field): string {
    match field
    case Name => f.name
    case Description => f.description
    case CategoryField => f.category
    case DownloadUrl => f.downloadUrl
    case PreviewImage => f.previewImage
    case ColorScheme => f.colorScheme
  }

  /** `handleChange` and `handleSelectChange`: `{ ...prev, [name]: value }`. */
  function SetField(f: TemplateForm, field: Field, value: string): (r: TemplateForm)
    ensures Get(r, field) == value
    ensures forall g :: g != field ==> Get(r, g) == Get(f, g)
    ensures r.isPremium == f.isPremium && r.technology == f.technology
  {
    match field
    case Name => f.(name := value)
    case Description => f.(description := value)
    case CategoryField => f.(category := value)
    case DownloadUrl => f.(downloadUrl := value)
    case PreviewImage => f.(previewImage := value)
    case ColorScheme => f.(colorScheme := value)
  }

  /** Setting a field to what it holds changes nothing, and two settings of
      different fields do not interfere. */
  lemma SetFieldLaws(f: TemplateForm, a: Field, b: Field, x: string, y: string)
    ensures SetField(f, a, Get(f, a)) == f
    ensures a != b ==> SetField(SetField(f, a, x), b, y) == SetField(SetField(f, b, y), a, x)
    ensures SetField(SetField(f, a, x), a, y) == SetField(f, a, y)
  {
  }

  /** `handleSwitchChange(checked)`. */
  function SwitchChange(f: TemplateForm, checked: bool): (r: TemplateForm)
    ensures r.isPremium == checked
    ensures forall g :: Get(r, g) == Get(f, g)
    ensures r.technology == f.technology
  {
    f.(isPremium := checked)
  }

  /** `handleAddTechnology` with `selected` chosen in the select: the new
      form and the new selection. */
  function AddTechnology(f: TemplateForm, selected: string): (r: (TemplateForm, string))
    ensures selected == "" || (f.technology.Some? && selected in f.technology.value) ==> r == (f, selected)
    ensures selected != "" && !(f.technology.Some? && selected in f.technology.value) ==>
      r == (f.(technology := Some(f.technology.GetOr([]) + [selected])), "")
  {
    if selected == "" || (f.technology.Some? && selected in f.technology.value) then (f, selected)
    else (f.(technology := Some(f.technology.GetOr([]) + [selected])), "")
  }

  /** `handleRemoveTechnology(tech)`. */
  function RemoveTechnology(f: TemplateForm, tech: string): (r: TemplateForm)
    ensures r.technology.Some? && tech !in r.technology.value
    ensures forall g :: Get(r, g) == Get(f, g)
    ensures r.isPremium == f.isPremium
  {
    f.(technology := Some(Remove(f.technology.GetOr([]), tech)))
  }

  ghost predicate TechDistinct(f: TemplateForm) {
    NoDuplicates(f.technology.GetOr([]))
  }

  /** Adding keeps the technology list free of duplicates, appends the new
      one at the end and keeps the others in their order. */
  lemma AddTechnologyDistinct(f: TemplateForm, selected: string)
    requires TechDistinct(f)
    ensures TechDistinct(AddTechnology(f, selected).0)
    ensures var old_ := f.technology.GetOr([]);
      var new_ := AddTechnology(f, selected).0.technology.GetOr([]);
      |old_| <= |new_| && new_[..|old_|] == old_
  {
    var ts := f.technology.GetOr([]);
    if !(selected == "" || (f.technology.Some? && selected in f.technology.value)) {
      var r := ts + [selected];
      assert selected !in ts;
      forall i, j | 0 <= i < j < |r| ensures r[i] != r[j] {
        if j == |ts| { assert r[i] == ts[i]; }
      }
      assert r[..|ts|] == ts;
    }
  }

  /** Removing keeps the technology list free of duplicates and the
      remaining technologies in their order; it takes out exactly the one
      removed when it was there. */
  lemma RemoveTechnologyDistinct(f: TemplateForm, tech: string)
    requires TechDistinct(f)
    ensures TechDistinct(RemoveTechnology(f, tech))
    ensures IsSubsequence(RemoveTechnology(f, tech).technology.value, f.technology.GetOr([]))
    ensures tech in f.technology.GetOr([]) ==>
      multiset(RemoveTechnology(f, tech).technology.value) == multiset(f.technology.GetOr([])) - multiset{tech}
  {
    var ts := f.technology.GetOr([]);
    RemoveNoDuplicates(ts, tech);
    RemoveIsSubsequence(ts, tech);
    if tech in ts {
      RemoveOne(ts, tech);
    }
  }

  /** `fetchCategories`: the categories found, each once, appended to the
      previous choices that lack them; nothing changes when none are found. */
  function MergeCategories(previous: seq<string>, found: seq<string>): seq<string> {
    if |found| > 0 then Distinct(previous + Distinct(found)) else previous
  }

  /** The previous choices stay first and in order; what follows is new,
      found in the database and listed once. */
  lemma MergeCategoriesKeepsPrevious(previous: seq<string>, found: seq<string>)
    requires NoDuplicates(previous)
    ensures var r := MergeCategories(previous, found);
      && |previous| <= |r|
      && r[..|previous|] == previous
      && NoDuplicates(r)
      && (forall i :: |previous| <= i < |r| ==> r[i] in found && r[i] !in previous)
      && (forall x :: x in found ==> x in r)
  {
    if |found| > 0 {
      DistinctOfNoDuplicates(previous);
      DistinctAppend(previous, Distinct(found));
      var r := Distinct(previous + Distinct(found));
      forall x | x in found ensures x in r {
        assert x in Distinct(found);
        assert x in previous + Distinct(found);
        var k :| 0 <= k < |previous + Distinct(found)| && (previous + Distinct(found))[k] == x;
      }
    } else {
      assert previous[..|previous|] == previous;
    }
  }

  lemma DefaultCategoriesDistinct()
    ensures NoDuplicates(DefaultCategories)
  {
  }
}
