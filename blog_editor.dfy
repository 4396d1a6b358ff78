/** The string logic of the blog editor, `src/pages/blog/BlogEditorPage.tsx`:
    turning a title into a URL slug, the markdown toolbar that splices text
    into the post body at the selection, and the checks and field defaults
    of saving a post. */
module BlogEditor {
  import opened Optional
  import opened Strings
  import opened Seqs

  // ---------------------------------------------------------------------
  // slugify

  /** The characters `/[^\w\-]+/g` keeps. */
  predicate IsSlugChar(c: char) {
    IsWordChar(c) || c == '-'
  }

  /** The characters a slug is made of. */
  predicate IsSlugOutputChar(c: char) {
    ('a' <= c <= 'z') || IsDigit(c) || c == '_' || c == '-'
  }

  predicate NoSpace(s: string) {
    forall i :: 0 <= i < |s| ==> !IsSpace(s[i])
  }

  /** No two dashes in a row. */
  predicate NoDoubleDash(s: string) {
    forall i :: 0 <= i < |s| - 1 ==> !(s[i] == '-' && s[i + 1] == '-')
  }

  /** `.replace(/\s+/g, '-')`: every maximal run of white space becomes one '-'. */
  function SpacesToDashes(s: string): (r: string)
    ensures forall i :: 0 <= i < |r| ==> r[i] == '-' || r[i] in s
    ensures s == [] <==> r == []
    decreases |s|
  {
    if s == [] then []
    else if IsSpace(s[0]) then
      var t := TrimStart(s);
      TrimStartDropsBlank(s);
      var r := SpacesToDashes(t);
      assert forall x :: x in t ==> x in s;
      "-" + r
    else
      var r := SpacesToDashes(s[1..]);
      assert forall x :: x in s[1..] ==> x in s;
      [s[0]] + r
  }

  lemma {:induction false} SpacesToDashesNoSpace(s: string)
    requires NoSpace(s)
    ensures SpacesToDashes(s) == s
    decreases |s|
  {
    if s != [] {
      assert NoSpace(s[1..]) by {
        forall i | 0 <= i < |s| - 1 ensures !IsSpace(s[1..][i]) { assert s[1..][i] == s[i + 1]; }
      }
      SpacesToDashesNoSpace(s[1..]);
      assert [s[0]] + s[1..] == s;
    }
  }

  /** `s` without its leading dashes (`.replace(/^-+/, '')`). */
  function DropLeadingDashes(s: string): (r: string)
    ensures |r| <= |s| && r == s[|s| - |r|..]
    ensures r == [] || r[0] != '-'
    ensures s != [] && s[0] == '-' ==> |r| < |s|
    ensures s == [] || s[0] != '-' ==> r == s
    decreases |s|
  {
    if s != [] && s[0] == '-' then DropLeadingDashes(s[1..]) else s
  }

  /** `s` without its trailing dashes (`.replace(/-+$/, '')`). */
  function DropTrailingDashes(s: string): (r: string)
    ensures |r| <= |s| && r == s[..|r|]
    ensures r == [] || r[|r| - 1] != '-'
    ensures s == [] || s[|s| - 1] != '-' ==> r == s
    decreases |s|
  {
    if s != [] && s[|s| - 1] == '-' then DropTrailingDashes(s[..|s| - 1]) else s
  }

  /** `.replace(/\-\-+/g, '-')`: every run of dashes becomes one dash. */
  function CollapseDashes(s: string): (r: string)
    ensures forall i :: 0 <= i < |r| ==> r[i] in s
    ensures NoDoubleDash(r)
    ensures r != [] && r[0] == '-' ==> s != [] && s[0] == '-'
    decreases |s|
  {
    if s == [] then []
    else if s[0] == '-' then
      var t := DropLeadingDashes(s);
      var r := CollapseDashes(t);
      assert forall x :: x in t ==> x in s;
      "-" + r
    else
      var r := CollapseDashes(s[1..]);
      assert forall x :: x in s[1..] ==> x in s;
      [s[0]] + r
  }

  lemma {:induction false} CollapseDashesNoDoubleDash(s: string)
    requires NoDoubleDash(s)
    ensures CollapseDashes(s) == s
    decreases |s|
  {
    if s != [] {
      var t := s[1..];
      NoDoubleDashSlice(s, 1, |s|);
      assert s[1..|s|] == t;
      CollapseDashesNoDoubleDash(t);
      assert [s[0]] + t == s;
      if s[0] == '-' {
        assert t == [] || t[0] != '-' by {
          if t != [] { assert t[0] == s[1]; }
        }
        assert DropLeadingDashes(s) == t;
      } else {
        assert CollapseDashes(s) == [s[0]] + CollapseDashes(t);
      }
    }
  }

  /** A dash-free stretch stays so in any part of it. */
  lemma NoDoubleDashSlice(s: string, a: nat, b: nat)
    requires a <= b <= |s| && NoDoubleDash(s)
    ensures NoDoubleDash(s[a..b])
  {
    forall i | 0 <= i < b - a - 1 ensures !(s[a..b][i] == '-' && s[a..b][i + 1] == '-') {
      assert s[a..b][i] == s[a + i] && s[a..b][i + 1] == s[a + i + 1];
    }
  }

  /** The first four steps of `slugify`: lowercase, white space to dashes,
      other characters dropped, dash runs collapsed. */
  function Dashed(text: string): (r: string)
    ensures forall i :: 0 <= i < |r| ==> IsSlugOutputChar(r[i])
    ensures NoDoubleDash(r)
  {
    var kept := Filter(IsSlugChar, SpacesToDashes(Lower(text)));
    KeptChars(text);
    CollapseDashes(kept)
  }

  lemma KeptChars(text: string)
    ensures var kept := Filter(IsSlugChar, SpacesToDashes(Lower(text)));
      forall i :: 0 <= i < |kept| ==> IsSlugOutputChar(kept[i])
  {
    var lower := Lower(text);
    var dashed := SpacesToDashes(lower);
    var kept := Filter(IsSlugChar, dashed);
    forall i | 0 <= i < |kept| ensures IsSlugOutputChar(kept[i]) {
      assert kept[i] in dashed && IsSlugChar(kept[i]);
      assert kept[i] == '-' || kept[i] in lower;
    }
  }

  /** `slugify(text)`. */
  function Slugify(text: string): (r: string)
    ensures forall i :: 0 <= i < |r| ==> IsSlugOutputChar(r[i])
    ensures NoDoubleDash(r)
    ensures r == [] || (r[0] != '-' && r[|r| - 1] != '-')
  {
    var d := Dashed(text);
    var front := DropLeadingDashes(d);
    Trimmed(d, front, DropTrailingDashes(front));
    DropTrailingDashes(front)
  }

  lemma Trimmed(d: string, front: string, r: string)
    requires forall i :: 0 <= i < |d| ==> IsSlugOutputChar(d[i])
    requires NoDoubleDash(d)
    requires |front| <= |d| && front == d[|d| - |front|..]
    requires |r| <= |front| && r == front[..|r|]
    ensures forall i :: 0 <= i < |r| ==> IsSlugOutputChar(r[i])
    ensures NoDoubleDash(r)
  {
    forall i | 0 <= i < |r| ensures IsSlugOutputChar(r[i]) {
      assert r[i] == front[i] == d[|d| - |front| + i];
    }
    NoDoubleDashSlice(d, |d| - |front|, |d|);
    NoDoubleDashSlice(front, 0, |r|);
  }

  /** A slug is its own slug. */
  lemma SlugifyIdempotent(text: string)
    ensures Slugify(Slugify(text)) == Slugify(text)
  {
    var t := Slugify(text);
    assert Dashed(t) == t by { SlugUnchanged(t); }
  }

  /** The first four steps change nothing in a string made of slug
      characters with no two dashes in a row. */
  lemma SlugUnchanged(t: string)
    requires forall i :: 0 <= i < |t| ==> IsSlugOutputChar(t[i])
    requires NoDoubleDash(t)
    ensures Dashed(t) == t
  {
    assert NoUpper(t);
    LowerOfNoUpper(t);
    assert NoSpace(t);
    SpacesToDashesNoSpace(t);
    FilterAllKept(IsSlugChar, t);
    CollapseDashesNoDoubleDash(t);
  }

  // ---------------------------------------------------------------------
  // The markdown toolbar

  /** `selectedText || fallback`. */
  function OrDefault(s: string, fallback: string): string {
    if s == [] then fallback else s
  }

  /** The markdown toolbar kinds whose insertion wraps the selection. */
  predicate IsWrapKind(kind: string) {
    kind == "bold" || kind == "italic" || kind == "link" || kind == "image"
  }

  /** The toolbar kinds the switch knows. */
  predicate IsKnownKind(kind: string) {
    IsWrapKind(kind) || kind == "h1" || kind == "h2" || kind == "h3"
    || kind == "code" || kind == "list" || kind == "ordered-list"
  }

  /** `- line` for every line. */
  function Bulleted(lines: seq<string>): (r: seq<string>)
    ensures |r| == |lines|
  {
    seq(|lines|, i requires 0 <= i < |lines| => "- " + lines[i])
  }

  /** `${i + 1}. line` for the line at index `i`. */
  function Numbered(lines: seq<string>): (r: seq<string>)
    ensures |r| == |lines|
  {
    seq(|lines|, i requires 0 <= i < |lines| => NatToString(i + 1) + ". " + lines[i])
  }

  /** The text the toolbar button `kind` puts in place of the selection. */
  function Insertion(kind: string, selected: string): string {
    if kind == "bold" then "**" + OrDefault(selected, "text tebal") + "**"
    else if kind == "italic" then "*" + OrDefault(selected, "text miring") + "*"
    else if kind == "h1" then "# " + OrDefault(selected, "Heading 1") + "\n"
    else if kind == "h2" then "## " + OrDefault(selected, "Heading 2") + "\n"
    else if kind == "h3" then "### " + OrDefault(selected, "Heading 3") + "\n"
    else if kind == "link" then "[" + OrDefault(selected, "link text") + "](url)"
    else if kind == "image" then "![" + OrDefault(selected, "alt text") + "](url)"
    else if kind == "code" then
      if selected != [] then "```\n" + selected + "\n```" else "```\ncode\n```"
    else if kind == "list" then
      if selected != [] then Join(Bulleted(Split(selected, '\n')), '\n')
      else "- Item 1\n- Item 2\n- Item 3"
    else if kind == "ordered-list" then
      if selected != [] then Join(Numbered(Split(selected, '\n')), '\n')
      else "1. Item 1\n2. Item 2\n3. Item 3"
    else selected
  }

  /** The marks a wrapping kind puts before and after the selection, and the
      text it uses when nothing is selected. */
  function WrapMarks(kind: string): (string, string, string)
    requires IsWrapKind(kind)
  {
    if kind == "bold" then ("**", "**", "text tebal")
    else if kind == "italic" then ("*", "*", "text miring")
    else if kind == "link" then ("[", "](url)", "link text")
    else ("![", "](url)", "alt text")
  }

  /** The result of pressing toolbar button `kind` with the selection
      `[start, end)` of `content`: the new content and the caret position. */
  function InsertMarkdown(content: string, start: nat, end: nat, kind: string): (r: (string, nat))
    requires start <= end <= |content|
    ensures var ins := Insertion(kind, content[start..end]);
      && r.1 == start + |ins|
      && |r.0| == |content| - (end - start) + |ins|
      && r.0[..start] == content[..start]
      && r.0[start..r.1] == ins
      && r.0[r.1..] == content[end..]
  {
    var ins := Insertion(kind, content[start..end]);
    var r := content[..start] + ins + content[end..];
    assert r[start..start + |ins|] == ins;
    (r, start + |ins|)
  }

  /** The caret lands where the page puts it: the text before the caret is
      `start + insertion.length` UTF-16 code units long, counting the
      selection start in code units as the browser does. */
  lemma CaretInCodeUnits(content: string, start: nat, end: nat, kind: string)
    requires start <= end <= |content|
    ensures var (updated, caret) := InsertMarkdown(content, start, end, kind);
      && caret <= |updated|
      && Utf16Length(updated[..caret])
         == Utf16Length(content[..start]) + Utf16Length(Insertion(kind, content[start..end]))
  {
    var (updated, caret) := InsertMarkdown(content, start, end, kind);
    var ins := Insertion(kind, content[start..end]);
    assert updated[..caret] == content[..start] + ins by {
      assert updated[..caret] == updated[..start] + updated[start..caret];
    }
    Utf16LengthAppend(content[..start], ins);
  }

  /** An unknown button leaves the content as it is and puts the caret at
      the end of the selection. */
  lemma InsertUnknownUnchanged(content: string, start: nat, end: nat, kind: string)
    requires start <= end <= |content|
    requires !IsKnownKind(kind)
    ensures InsertMarkdown(content, start, end, kind) == (content, end)
  {
    assert content[..start] + content[start..end] + content[end..] == content;
  }

  /** The wrapping kinds put their marks around the selection, or around a
      fixed text when the selection is empty. */
  lemma {:induction false} WrapInsertion(kind: string, selected: string)
    requires IsWrapKind(kind)
    ensures var (open, close, fallback) := WrapMarks(kind);
      Insertion(kind, selected) == open + (if selected == [] then fallback else selected) + close
  {
  }

  /** A list insertion has exactly one line per selected line, the line
      with "- " in front. */
  lemma BulletedLines(selected: string)
    requires selected != []
    ensures var lines := Split(selected, '\n');
      var out := Split(Insertion("list", selected), '\n');
      |out| == |lines| && forall i :: 0 <= i < |lines| ==> out[i] == "- " + lines[i]
  {
    var lines := Split(selected, '\n');
    var b := Bulleted(lines);
    assert Separated(b, '\n') by {
      forall k | 0 <= k < |b| ensures '\n' !in b[k] {
        assert '\n' !in lines[k];
        assert b[k] == "- " + lines[k];
      }
    }
    SplitJoin(b, '\n');
  }

  /** An ordered-list insertion numbers the selected lines 1, 2, ... in
      their order, one output line per selected line. */
  lemma NumberedLines(selected: string)
    requires selected != []
    ensures var lines := Split(selected, '\n');
      var out := Split(Insertion("ordered-list", selected), '\n');
      |out| == |lines| && forall i :: 0 <= i < |lines| ==> out[i] == NatToString(i + 1) + ". " + lines[i]
  {
    var lines := Split(selected, '\n');
    assert Insertion("ordered-list", selected) == Join(Numbered(lines), '\n');
    NumberedSeparated(lines);
    SplitJoin(Numbered(lines), '\n');
  }

  /** Numbering lines that hold no line break adds none. */
  lemma NumberedSeparated(lines: seq<string>)
    requires Separated(lines, '\n')
    ensures Separated(Numbered(lines), '\n')
  {
    var b := Numbered(lines);
    forall k | 0 <= k < |b| ensures '\n' !in b[k] {
      var d := NatToString(k + 1);
      assert '\n' !in d by {
        forall m | 0 <= m < |d| ensures d[m] != '\n' { assert IsDigit(d[m]); }
      }
      assert '\n' !in lines[k];
      assert b[k] == d + ". " + lines[k];
    }
  }

  // ---------------------------------------------------------------------
  // Saving a post

  /** Why a save is refused before anything is written, in the order the
      checks run. */
  datatype Rejection = TitleRequired | ContentRequired | LoginRequired

  /** The row written to the `posts` table. */
  datatype PostData = PostData(
    title: string,
    content: string,
    excerpt: string,
    slug: string,
    featuredImage: string,
    categoryId: Option<string>,
    status: string,
    authorId: string,
    publishedAt: Option<string>)

  /** What a press of Save or Publish leads to: a refusal, or a write of
      `data` (an update of the post at the route's slug when `update`, an
      insert otherwise) that either fails with `error` or succeeds and then
      navigates to `navigateTo`, if anything. */
  datatype SaveOutcome =
    | Rejected(reason: Rejection)
    | Written(data: PostData, update: bool, error: Option<string>, navigateTo: Option<string>)

  /** `title.substring(0, 150)`. */
  function Prefix(s: string, n: nat): (r: string)
    ensures |r| == if |s| <= n then |s| else n
    ensures StartsWith(s, r)
  {
    if |s| <= n then s else s[..n]
  }

  /** The editor's fields. */
  datatype Form = Form(
    routeSlug: string,
    title: string,
    content: string,
    excerpt: string,
    category: string,
    featuredImage: string,
    isPublished: bool)

  /** `postData` of `handleSave(publish)`; `now` is the time of the press. */
  function PostDataOf(f: Form, publish: bool, userId: string, now: string): PostData {
    PostData(
      f.title,
      f.content,
      if f.excerpt != [] then f.excerpt else Prefix(f.title, 150) + "...",
      if f.routeSlug != [] then f.routeSlug else Slugify(f.title),
      f.featuredImage,
      if f.category != [] then Some(f.category) else None,
      if publish || f.isPublished then "published" else "draft",
      userId,
      if publish && !f.isPublished then Some(now) else None)
  }

  /** `handleSave(publish)`; `user` is the signed-in user's id, if any, and
      `writeError` the error the backend answers the write with, if any. */
  function SaveOutcomeOf(f: Form, publish: bool, user: Option<string>, now: string,
                         writeError: Option<string>): (r: SaveOutcome)
    ensures r.Written? ==> f.title != [] && f.content != [] && user.Some?
  {
    if f.title == [] then Rejected(TitleRequired)
    else if f.content == [] then Rejected(ContentRequired)
    else if user.None? then Rejected(LoginRequired)
    else
      var data := PostDataOf(f, publish, user.value, now);
      Written(data, f.routeSlug != [], writeError,
              if writeError.None? && publish then Some("/blog/" + data.slug) else None)
  }

  /** The checks run in the order title, content, user, and only a save that
      passes all three writes anything. */
  lemma SaveChecks(f: Form, publish: bool, user: Option<string>, now: string, writeError: Option<string>)
    ensures var r := SaveOutcomeOf(f, publish, user, now, writeError);
      && (r == Rejected(TitleRequired) <==> f.title == [])
      && (r == Rejected(ContentRequired) <==> f.title != [] && f.content == [])
      && (r == Rejected(LoginRequired) <==> f.title != [] && f.content != [] && user.None?)
      && (r.Written? <==> f.title != [] && f.content != [] && user.Some?)
  {
  }

  /** The fields of a written post: the status, the excerpt and slug
      defaults, and the publication time. */
  lemma PostDataFields(f: Form, publish: bool, userId: string, now: string)
    ensures var d := PostDataOf(f, publish, userId, now);
      && (d.status == "published" <==> publish || f.isPublished)
      && (d.status == "draft" <==> !publish && !f.isPublished)
      && (f.excerpt == [] ==> |d.excerpt| == (if |f.title| <= 150 then |f.title| else 150) + 3
                              && StartsWith(f.title, d.excerpt[..|d.excerpt| - 3])
                              && d.excerpt[|d.excerpt| - 3..] == "...")
      && (f.excerpt != [] ==> d.excerpt == f.excerpt)
      && d.slug == (if f.routeSlug != [] then f.routeSlug else Slugify(f.title))
      && (d.publishedAt.Some? <==> publish && !f.isPublished)
      && (d.categoryId.None? <==> f.category == [])
  {
    var d := PostDataOf(f, publish, userId, now);
    if f.excerpt == [] {
      var p := Prefix(f.title, 150);
      assert d.excerpt == p + "...";
      assert d.excerpt[..|d.excerpt| - 3] == p;
    }
  }

  /** The editor page's state. */
  class Editor {
    var form: Form
    var isSubmitting: bool

    constructor (routeSlug: string)
      ensures form == Form(routeSlug, [], [], [], [], [], false)
      ensures !isSubmitting
    {
      form := Form(routeSlug, [], [], [], [], [], false);
      isSubmitting := false;
    }

    /** `handleSave(publish)`: the checks of `SaveOutcomeOf`, then the write
        with `isSubmitting` set while it is under way. */
    method Save(publish: bool, user: Option<string>, now: string, writeError: Option<string>)
      returns (outcome: SaveOutcome)
      modifies this
      ensures outcome == SaveOutcomeOf(form, publish, user, now, writeError)
      ensures form == old(form)
      ensures isSubmitting == (if outcome.Rejected? then old(isSubmitting) else false)
    {
      outcome := SaveOutcomeOf(form, publish, user, now, writeError);
      if outcome.Written? {
        isSubmitting := true;
        // the write happens here; the `finally` clause then clears the flag
        isSubmitting := false;
      }
    }
  }
}
