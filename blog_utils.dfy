/** The blog helpers of `src/utils/blogUtils.ts`: choosing a post's image,
    estimating its reading time, and cutting fenced code blocks out of a
    post body and putting placeholder tags in their place. */
module BlogUtils {
  import opened Optional
  import opened Strings
  import opened Seqs

  // ---------------------------------------------------------------------
  // Post images

  /** The three images bundled with the application. */
  datatype Asset = TechImage | DesignImage | ProgrammingImage

  /** What an image reference resolves to: a bundled image, or a path or URL
      used as it is. */
  datatype PostImage = Bundled(asset: Asset) | Path(url: string)

  /** The `localImages` table: exactly three keys. */
  function LocalImage(name: string): Option<Asset> {
    if name == "blog-tech" then Some(TechImage)
    else if name == "blog-design" then Some(DesignImage)
    else if name == "blog-programming" then Some(ProgrammingImage)
    else None
  }

  /** `url.split('/').pop().split('.')[0]`: the last path segment up to its
      first dot. */
  function ImageStem(url: string): (r: string)
    ensures '/' !in r && '.' !in r
  {
    var segments := Split(url, '/');
    var last := segments[|segments| - 1];
    SplitPiecesWithin(last, '.');
    Split(last, '.')[0]
  }

  /** The segment after the last '/' is the stem followed by, if anything, a
      dot and the rest. */
  lemma {:induction false} ImageStemIsFileNamePrefix(url: string)
    ensures var segments := Split(url, '/');
      var last := segments[|segments| - 1];
      StartsWith(last, ImageStem(url))
      && (|ImageStem(url)| < |last| ==> last[|ImageStem(url)|] == '.')
  {
    var segments := Split(url, '/');
    var last := segments[|segments| - 1];
    var pieces := Split(last, '.');
    JoinSplit(last, '.');
    if |pieces| > 1 {
      assert last == pieces[0] + ['.'] + Join(pieces[1..], '.');
    }
  }

  /** `getPostImage(imageUrl)` of blogUtils. */
  function GetPostImage(imageUrl: Option<string>): (r: PostImage)
    // null or empty: the tech image
    ensures imageUrl == None || imageUrl == Some("") ==> r == Bundled(TechImage)
    // a URL starting with "http" is used as it is
    ensures imageUrl.Some? && StartsWith(imageUrl.value, "http") ==> r == Path(imageUrl.value)
    // any other reference whose stem is a key gives that bundled image
    ensures imageUrl.Some? && imageUrl.value != "" && !StartsWith(imageUrl.value, "http")
            && LocalImage(ImageStem(imageUrl.value)).Some?
            ==> r == Bundled(LocalImage(ImageStem(imageUrl.value)).value)
    // otherwise a public-folder path is kept and everything else falls back
    ensures imageUrl.Some? && imageUrl.value != "" && !StartsWith(imageUrl.value, "http")
            && LocalImage(ImageStem(imageUrl.value)).None?
            ==> r == (if StartsWith(imageUrl.value, "/images/") then Path(imageUrl.value)
                      else Bundled(TechImage))
    // the result is a bundled image or the input unchanged
    ensures r.Path? ==> imageUrl == Some(r.url)
  {
    if imageUrl == None || imageUrl == Some("") then Bundled(TechImage)
    else
      var url := imageUrl.value;
      if !StartsWith(url, "http") && ImageStem(url) != "" && LocalImage(ImageStem(url)).Some? then
        Bundled(LocalImage(ImageStem(url)).value)
      else if !StartsWith(url, "http") && StartsWith(url, "/images/") then
        Path(url)
      else if StartsWith(url, "http") then
        Path(url)
      else
        Bundled(TechImage)
  }

  // ---------------------------------------------------------------------
  // Reading time

  const WordsPerMinute: nat := 200

  /** `calculateReadingTime(content)`. */
  function ReadingTime(content: Option<string>): (r: nat)
    ensures r >= 1
    ensures content == None || content == Some("") ==> r == 1
    // otherwise the least positive number of minutes that covers the pieces
    ensures content.Some? && content.value != [] ==>
      var n := |SplitOnSpaceRuns(content.value)|;
      n <= WordsPerMinute * r && (r == 1 || WordsPerMinute * (r - 1) < n)
  {
    if content == None || content == Some("") then 1
    else
      var n := |SplitOnSpaceRuns(content.value)|;
      var minutes := (n + WordsPerMinute - 1) / WordsPerMinute;
      if minutes < 1 then 1 else minutes
  }

  // ---------------------------------------------------------------------
  // Fenced code blocks

  /** One entry of `codeBlocks`: the language tag, the trimmed code, and the
      trimmed file name when the fence carried a `[name]` part. */
  datatype CodeBlock = CodeBlock(language: string, code: string, filename: Option<string>)

  /** A half-open range `[start, end)` of the content. */
  datatype Span = Span(start: nat, end: nat)

  /** The positions of one match of the fence pattern: where the language
      tag ends, the raw file name if the group took part, the code, and the
      end of the closing fence. */
  datatype FenceMatch = FenceMatch(langEnd: nat, name: Option<Span>, code: Span, end: nat)

  /** Three backticks start at `i`. */
  predicate FenceAt(s: string, i: int) {
    0 <= i && i + 3 <= |s| && s[i] == '`' && s[i + 1] == '`' && s[i + 2] == '`'
  }

  /** The first fence at or after `i`, if any. */
  function NextFence(s: string, i: nat): (r: Option<nat>)
    requires i <= |s|
    ensures r.Some? ==> i <= r.value && FenceAt(s, r.value)
                        && forall j :: i <= j < r.value ==> !FenceAt(s, j)
    ensures r.None? ==> forall j :: i <= j ==> !FenceAt(s, j)
    decreases |s| - i
  {
    if i + 3 > |s| then None
    else if FenceAt(s, i) then Some(i)
    else NextFence(s, i + 1)
  }

  /** The end of the longest run of characters satisfying `f` from `i`. */
  function RunEnd(s: string, i: nat, f: char -> bool): (r: nat)
    requires i <= |s|
    ensures i <= r <= |s|
    ensures forall k :: i <= k < r ==> f(s[k])
    ensures r == |s| || !f(s[r])
    decreases |s| - i
  {
    if i < |s| && f(s[i]) then RunEnd(s, i + 1, f) else i
  }

  /** The last index in `[i, j)` holding `c`, if any. */
  function LastIndexIn(s: string, i: nat, j: nat, c: char): (r: Option<nat>)
    requires i <= j <= |s|
    ensures r.Some? ==> i <= r.value < j && s[r.value] == c
                        && forall k :: r.value < k < j ==> s[k] != c
    ensures r.None? ==> forall k :: i <= k < j ==> s[k] != c
    decreases j - i
  {
    if j == i then None
    else if s[j - 1] == c then Some(j - 1)
    else LastIndexIn(s, i, j - 1, c)
  }

  /** The part `\s*\n([\s\S]*?)```` of the pattern tried from `g`. The greedy
      `\s*` gives back white space until a line feed follows, so the code
      starts after the last line feed of the white-space run at `g`; the lazy
      group then stops at the first fence after it. Backtracking further
      cannot help: an earlier start only adds white space, which holds no
      backtick. */
  function CodeSpan(s: string, g: nat): (r: Option<Span>)
    requires g <= |s|
    ensures r.Some? ==> g < r.value.start <= r.value.end && r.value.end + 3 <= |s|
    ensures r.Some? ==> s[r.value.start - 1] == '\n'
    ensures r.Some? ==> FenceAt(s, r.value.end)
                        && forall j :: r.value.start <= j < r.value.end ==> !FenceAt(s, j)
  {
    var h := RunEnd(s, g, IsSpace);
    match LastIndexIn(s, g, h, '\n')
    case None => None
    case Some(nl) =>
      match NextFence(s, nl + 1)
      case None => None
      case Some(k) => Some(Span(nl + 1, k))
  }

  /** The optional group `(?:\s*\[([^\]]+)\])` tried from `q`: white space, a
      '[', at least one character other than ']', and the closing ']'. Gives
      the span of the raw file name; the group ends one past it. */
  function NameSpan(s: string, q: nat): (r: Option<Span>)
    requires q <= |s|
    ensures r.Some? ==> q < r.value.start < r.value.end < |s| && s[r.value.end] == ']'
    ensures r.Some? ==> forall k :: r.value.start <= k < r.value.end ==> s[k] != ']'
  {
    var w := RunEnd(s, q, IsSpace);
    if w < |s| && s[w] == '[' then
      var b := RunEnd(s, w + 1, c => c != ']');
      if w + 1 < b < |s| then Some(Span(w + 1, b)) else None
    else None
  }

  /** The fence pattern ```` ```(\w+)(?:\s*\[([^\]]+)\])?\s*\n([\s\S]*?)``` ````
      matched at position `p`, with JavaScript's backtracking order: the
      language is the whole word run (a shorter one leaves a word character
      that nothing after it accepts), the file-name group is tried first and
      dropped only when the rest fails after it. */
  function MatchAt(s: string, p: nat): (r: Option<FenceMatch>)
    requires p <= |s|
    // only an opening fence followed by a word character can start a match
    ensures !FenceAt(s, p) ==> r == None
    ensures FenceAt(s, p) && (p + 3 == |s| || !IsWordChar(s[p + 3])) ==> r == None
    ensures r.Some? ==> var m := r.value;
      && FenceAt(s, p)
      && p + 3 < m.langEnd < m.code.start <= m.code.end && m.end == m.code.end + 3 <= |s|
      && FenceAt(s, m.code.end)
      && (forall k :: p + 3 <= k < m.langEnd ==> IsWordChar(s[k]))
      && (m.name.Some? ==> m.langEnd < m.name.value.start <= m.name.value.end < m.code.start)
  {
    if !FenceAt(s, p) then None
    else
      var q := RunEnd(s, p + 3, IsWordChar);
      if q == p + 3 then None
      else
        var name := NameSpan(s, q);
        var named := if name.Some? then CodeSpan(s, name.value.end + 1) else None;
        if named.Some? then
          Some(FenceMatch(q, name, named.value, named.value.end + 3))
        else
          var plain := CodeSpan(s, q);
          if plain.Some? then Some(FenceMatch(q, None, plain.value, plain.value.end + 3))
          else None
  }

  /** The entry pushed for a match: `lang`, `code.trim()` and
      `filename?.trim()`. */
  function BlockOf(s: string, p: nat, m: FenceMatch): (b: CodeBlock)
    requires p + 3 <= m.langEnd <= |s| && m.code.start <= m.code.end <= |s|
    requires m.name.Some? ==> m.name.value.start <= m.name.value.end <= |s|
    ensures b.filename.Some? == m.name.Some?
    ensures IsTrimmed(b.code) && (b.filename.Some? ==> IsTrimmed(b.filename.value))
  {
    CodeBlock(s[p + 3..m.langEnd], Trim(s[m.code.start..m.code.end]),
              if m.name.Some? then Some(Trim(s[m.name.value.start..m.name.value.end])) else None)
  }

  /** The content cut into what the global replace sees: characters the
      pattern does not match at, and matched fences with their text. */
  datatype Piece = Lit(c: char) | Block(text: string, block: CodeBlock)

  /** One step of the scan at `p < |s|`: the fence matched there, or the
      character there, and the position the scan resumes at. */
  function Step(s: string, p: nat): (r: (Piece, nat))
    requires p < |s|
    ensures p < r.1 <= |s|
    ensures r.0.Lit? <==> MatchAt(s, p).None?
    ensures r.0.Lit? ==> r.0.c == s[p] && r.1 == p + 1
    ensures r.0.Block? ==> r.1 == MatchAt(s, p).value.end && r.0.text == s[p..r.1]
                           && r.0.block == BlockOf(s, p, MatchAt(s, p).value)
  {
    match MatchAt(s, p)
    case Some(m) => (Block(s[p..m.end], BlockOf(s, p, m)), m.end)
    case None => (Lit(s[p]), p + 1)
  }

  /** The scan of `content.replace(codeBlockRegex, …)`: a match is tried at
      every position from left to right and the scan resumes after it. */
  function Pieces(s: string, p: nat): seq<Piece>
    requires p <= |s|
    decreases |s| - p
  {
    if p == |s| then []
    else
      var (x, next) := Step(s, p);
      [x] + Pieces(s, next)
  }

  lemma PiecesStep(s: string, p: nat)
    requires p < |s|
    ensures var ps := Pieces(s, p);
      ps != [] && ps[0] == Step(s, p).0 && ps[1..] == Pieces(s, Step(s, p).1)
  {
  }

  /** The text the pieces were cut from. */
  function Source(ps: seq<Piece>): string
    decreases |ps|
  {
    if ps == [] then []
    else Text(ps[0]) + Source(ps[1..])
  }

  function Text(piece: Piece): string {
    match piece
    case Lit(c) => [c]
    case Block(t, _) => t
  }

  /** `__CODE_BLOCK_${i}__`. */
  function Placeholder(i: nat): (r: string)
    ensures |r| > 0 && r[0] == '_'
  {
    "__CODE_BLOCK_" + NatToString(i) + "__"
  }

  /** The pieces with the fences numbered from `k` and replaced by their
      placeholders. */
  function Render(ps: seq<Piece>, k: nat): string
    decreases |ps|
  {
    if ps == [] then []
    else match ps[0]
      case Lit(c) => [c] + Render(ps[1..], k)
      case Block(_, _) => Placeholder(k) + Render(ps[1..], k + 1)
  }

  /** The blocks of the matched fences, in order. */
  function Blocks(ps: seq<Piece>): seq<CodeBlock>
    decreases |ps|
  {
    if ps == [] then []
    else match ps[0]
      case Lit(_) => Blocks(ps[1..])
      case Block(_, b) => [b] + Blocks(ps[1..])
  }

  /** `extractCodeBlocks(content)`: the replace callback pushes each block
      and returns the placeholder numbered by the count pushed before it. */
  method ExtractCodeBlocks(content: string) returns (processed: string, blocks: seq<CodeBlock>)
    ensures processed == Render(Pieces(content, 0), 0)
    ensures blocks == Blocks(Pieces(content, 0))
  {
    processed := [];
    blocks := [];
    var i := 0;
    ExtractedAtStart(content);
    while i < |content|
      invariant ExtractedUpTo(content, i, processed, blocks)
      decreases |content| - i
    {
      var m := MatchAt(content, i);
      ExtractStep(content, i, processed, blocks);
      if m.Some? {
        processed := processed + Placeholder(|blocks|);
        blocks := blocks + [BlockOf(content, i, m.value)];
        i := m.value.end;
      } else {
        processed := processed + [content[i]];
        i := i + 1;
      }
    }
    ExtractedAtEnd(content, processed, blocks);
  }

  lemma ExtractedAtStart(content: string)
    ensures ExtractedUpTo(content, 0, [], [])
  {
    assert [] + Render(Pieces(content, 0), 0) == Render(Pieces(content, 0), 0);
    assert [] + Blocks(Pieces(content, 0)) == Blocks(Pieces(content, 0));
  }

  lemma ExtractedAtEnd(content: string, processed: string, blocks: seq<CodeBlock>)
    requires ExtractedUpTo(content, |content|, processed, blocks)
    ensures processed == Render(Pieces(content, 0), 0)
    ensures blocks == Blocks(Pieces(content, 0))
  {
    assert Pieces(content, |content|) == [];
    assert processed + [] == processed;
    assert blocks + [] == blocks;
  }

  /** The loop invariant of `ExtractCodeBlocks`: what is built so far,
      followed by the rendering of the rest, is the whole rendering. */
  ghost predicate ExtractedUpTo(content: string, i: nat, processed: string, blocks: seq<CodeBlock>) {
    && i <= |content|
    && processed + Render(Pieces(content, i), |blocks|) == Render(Pieces(content, 0), 0)
    && blocks + Blocks(Pieces(content, i)) == Blocks(Pieces(content, 0))
  }

  /** One iteration of the scan keeps the invariant. */
  lemma ExtractStep(content: string, i: nat, processed: string, blocks: seq<CodeBlock>)
    requires i < |content| && ExtractedUpTo(content, i, processed, blocks)
    ensures var m := MatchAt(content, i);
      m.Some? ==> ExtractedUpTo(content, m.value.end, processed + Placeholder(|blocks|), blocks + [BlockOf(content, i, m.value)])
    ensures MatchAt(content, i).None? ==> ExtractedUpTo(content, i + 1, processed + [content[i]], blocks)
  {
    PiecesStep(content, i);
    var ps := Pieces(content, i);
    if ps[0].Block? {
      RenderBlockStep(ps, |blocks|, processed, blocks);
    } else {
      RenderLitStep(ps, |blocks|, processed);
    }
  }

  lemma RenderBlockStep(ps: seq<Piece>, n: nat, pre: string, preBlocks: seq<CodeBlock>)
    requires ps != [] && ps[0].Block?
    ensures pre + Render(ps, n) == (pre + Placeholder(n)) + Render(ps[1..], n + 1)
    ensures preBlocks + Blocks(ps) == (preBlocks + [ps[0].block]) + Blocks(ps[1..])
  {
  }

  lemma RenderLitStep(ps: seq<Piece>, n: nat, pre: string)
    requires ps != [] && ps[0].Lit?
    ensures pre + Render(ps, n) == (pre + [ps[0].c]) + Render(ps[1..], n)
    ensures Blocks(ps) == Blocks(ps[1..])
  {
  }

  /** The scan cuts the content into pieces whose texts, in order, are the
      content again. */
  lemma {:induction false} SourceOfPieces(s: string, p: nat)
    requires p <= |s|
    ensures Source(Pieces(s, p)) == s[p..]
    decreases |s| - p
  {
    if p < |s| {
      PiecesStep(s, p);
      var ps := Pieces(s, p);
      var next := Step(s, p).1;
      assert Text(ps[0]) == s[p..next];
      SourceOfPieces(s, next);
      SourceStep(s, p, ps, next);
    }
  }

  lemma SourceStep(s: string, p: nat, ps: seq<Piece>, next: nat)
    requires p < next <= |s| && ps != []
    requires Text(ps[0]) == s[p..next] && Source(ps[1..]) == s[next..]
    ensures Source(ps) == s[p..]
  {
    assert s[p..] == s[p..next] + s[next..];
  }

  /** Every block the scan yields has a word-character language, trimmed code
      and a trimmed file name, and its fence text opens with three backticks
      and the language and closes with three backticks. */
  predicate WellFormed(piece: Piece) {
    piece.Block? ==>
      var b := piece.block;
      && b.language != [] && (forall i :: 0 <= i < |b.language| ==> IsWordChar(b.language[i]))
      && IsTrimmed(b.code) && (b.filename.Some? ==> IsTrimmed(b.filename.value))
      && FenceAt(piece.text, 0) && 3 + |b.language| < |piece.text| - 3
      && (forall i :: 0 <= i < |b.language| ==> piece.text[3 + i] == b.language[i])
      && FenceAt(piece.text, |piece.text| - 3)
  }

  /** A match the matcher can return yields a well-formed piece. */
  lemma MatchWellFormed(s: string, p: nat, m: FenceMatch)
    requires FenceAt(s, p) && p + 3 < m.langEnd < m.code.start <= m.code.end
    requires m.end == m.code.end + 3 <= |s| && FenceAt(s, m.code.end)
    requires forall k :: p + 3 <= k < m.langEnd ==> IsWordChar(s[k])
    requires m.name.Some? ==> m.langEnd < m.name.value.start <= m.name.value.end < m.code.start
    ensures WellFormed(Block(s[p..m.end], BlockOf(s, p, m)))
  {
    var lang := BlockOf(s, p, m).language;
    assert lang == s[p + 3..m.langEnd];
    MatchText(s, p, m.langEnd, m.end);
  }

  lemma MatchText(s: string, p: nat, langEnd: nat, end: nat)
    requires FenceAt(s, p) && p + 3 < langEnd < end - 3 && end <= |s| && FenceAt(s, end - 3)
    requires forall k :: p + 3 <= k < langEnd ==> IsWordChar(s[k])
    ensures var t := s[p..end]; var lang := s[p + 3..langEnd];
      && lang != [] && (forall i :: 0 <= i < |lang| ==> IsWordChar(lang[i]))
      && FenceAt(t, 0) && 3 + |lang| < |t| - 3
      && (forall i :: 0 <= i < |lang| ==> t[3 + i] == lang[i])
      && FenceAt(t, |t| - 3)
  {
    var t := s[p..end];
    assert t[0] == s[p] && t[1] == s[p + 1] && t[2] == s[p + 2];
    assert t[|t| - 3] == s[end - 3] && t[|t| - 2] == s[end - 2] && t[|t| - 1] == s[end - 1];
  }

  lemma {:induction false} PiecesWellFormed(s: string, p: nat)
    requires p <= |s|
    ensures forall i :: 0 <= i < |Pieces(s, p)| ==> WellFormed(Pieces(s, p)[i])
    decreases |s| - p
  {
    if p < |s| {
      PiecesStep(s, p);
      var ps := Pieces(s, p);
      var next := Step(s, p).1;
      if ps[0].Block? {
        MatchWellFormed(s, p, MatchAt(s, p).value);
      }
      PiecesWellFormed(s, next);
      assert forall i :: 1 <= i < |ps| ==> ps[i] == ps[1..][i - 1];
    }
  }

  /** Content without three backticks in a row is left as it is and yields
      no blocks. */
  lemma {:induction false} NoFenceNoBlocks(s: string, p: nat, k: nat)
    requires p <= |s|
    requires forall j :: p <= j ==> !FenceAt(s, j)
    ensures Render(Pieces(s, p), k) == s[p..]
    ensures Blocks(Pieces(s, p)) == []
    decreases |s| - p
  {
    if p < |s| {
      var ps := Pieces(s, p);
      PiecesStep(s, p);
      assert ps[0] == Lit(s[p]) && ps[1..] == Pieces(s, p + 1);
      NoFenceNoBlocks(s, p + 1, k);
      assert Render(ps, k) == [s[p]] + Render(ps[1..], k);
      assert s[p..] == [s[p]] + s[p + 1..];
    }
  }

  lemma ExtractWithoutFence(content: string)
    requires !Contains(content, "```")
    ensures Render(Pieces(content, 0), 0) == content
    ensures Blocks(Pieces(content, 0)) == []
  {
    forall j | 0 <= j ensures !FenceAt(content, j) {
      if FenceAt(content, j) {
        assert content[j..j + 3] == "```";
        ContainsOccurrence(content, "```", j);
      }
    }
    NoFenceNoBlocks(content, 0, 0);
  }

  // ---------------------------------------------------------------------
  // Placeholder substitution

  /** The replacement text `String.prototype.replace` inserts for a string
      pattern: `$$` gives `$`, `$&` the matched text, `` $` `` the text
      before the match and `$'` the text after it; with no capture groups
      every other `$` is literal. */
  function Substitute(rep: string, matched: string, before: string, after: string): string
    decreases |rep|
  {
    if rep == [] then []
    else if |rep| >= 2 && rep[0] == '$' && rep[1] == '$' then "$" + Substitute(rep[2..], matched, before, after)
    else if |rep| >= 2 && rep[0] == '$' && rep[1] == '&' then matched + Substitute(rep[2..], matched, before, after)
    else if |rep| >= 2 && rep[0] == '$' && rep[1] == '`' then before + Substitute(rep[2..], matched, before, after)
    else if |rep| >= 2 && rep[0] == '$' && rep[1] == '\'' then after + Substitute(rep[2..], matched, before, after)
    else [rep[0]] + Substitute(rep[1..], matched, before, after)
  }

  /** A replacement without `$` is inserted as it is. */
  lemma {:induction false} SubstituteLiteral(rep: string, matched: string, before: string, after: string)
    requires '$' !in rep
    ensures Substitute(rep, matched, before, after) == rep
    decreases |rep|
  {
    if rep != [] {
      assert rep[0] != '$';
      assert forall x :: x in rep[1..] ==> x in rep;
      SubstituteLiteral(rep[1..], matched, before, after);
      assert [rep[0]] + rep[1..] == rep;
    }
  }

  /** `s.replace(pat, rep)` for a string pattern: only the first occurrence
      is replaced. */
  function ReplaceFirst(s: string, pat: string, rep: string): (r: string)
    ensures !Contains(s, pat) ==> r == s
  {
    var i := IndexOf(s, pat);
    if i < 0 then s
    else s[..i] + Substitute(rep, pat, s[..i], s[i + |pat|..]) + s[i + |pat|..]
  }

  /** When the pattern's first character does not occur in `a`, the first
      occurrence of the pattern in `a + pat + c` is the one after `a`. */
  lemma ReplaceFirstAt(a: string, pat: string, c: string, rep: string)
    requires pat != [] && pat[0] !in a
    requires '$' !in rep
    ensures ReplaceFirst(a + pat + c, pat, rep) == a + rep + c
  {
    var s := a + pat + c;
    assert s[|a|..|a| + |pat|] == pat;
    assert OccursAt(s, pat, |a|);
    var i := IndexOf(s, pat);
    assert i == |a|;
    assert s[..i] == a;
    assert s[i + |pat|..] == c;
    SubstituteLiteral(rep, pat, a, c);
  }

  const TagOpen: string := "<CodeBlockPlaceholder id=\""
  const LanguageAttr: string := "\" language=\""
  const FilenameAttr: string := "filename=\""
  const TagClose: string := " />"

  /** The tag `processContent` puts in place of placeholder `i`; a missing
      or empty file name leaves out the `filename` attribute. */
  function Tag(i: nat, b: CodeBlock): string {
    TagOpen + NatToString(i) + LanguageAttr + b.language + "\" "
    + (if b.filename.Some? && b.filename.value != "" then FilenameAttr + b.filename.value + "\"" else "")
    + TagClose
  }

  /** The pieces with every fence, numbered from `k`, replaced by its tag. */
  function RenderTags(ps: seq<Piece>, k: nat): string
    decreases |ps|
  {
    if ps == [] then []
    else match ps[0]
      case Lit(c) => [c] + RenderTags(ps[1..], k)
      case Block(_, b) => Tag(k, b) + RenderTags(ps[1..], k + 1)
  }

  /** The fold of the `forEach`: placeholders `0 .. n-1` replaced in turn. */
  function ReplaceTags(s: string, blocks: seq<CodeBlock>, n: nat): string
    requires n <= |blocks|
  {
    if n == 0 then s
    else ReplaceFirst(ReplaceTags(s, blocks, n - 1), Placeholder(n - 1), Tag(n - 1, blocks[n - 1]))
  }

  /** What `processContent(content)` returns. */
  function Processed(content: string): (r: string)
    ensures content == [] ==> r == []
  {
    if content == [] then []
    else
      var ps := Pieces(content, 0);
      ReplaceTags(Render(ps, 0), Blocks(ps), |Blocks(ps)|)
  }

  /** `processContent(content)`. */
  method ProcessContent(content: string) returns (result: string)
    ensures result == Processed(content)
  {
    if content == [] {
      return [];
    }
    var processed, blocks := ExtractCodeBlocks(content);
    result := processed;
    for i := 0 to |blocks|
      invariant result == ReplaceTags(processed, blocks, i)
    {
      result := ReplaceFirst(result, Placeholder(i), Tag(i, blocks[i]));
    }
  }

  /** Content for which the placeholders cannot be confused with anything
      else: no '_' outside the fences or in a language or file name (a
      placeholder starts with '_'), and no '$' in a file name (the tag is a
      replacement string). */
  predicate Safe(ps: seq<Piece>) {
    forall i :: 0 <= i < |ps| ==> SafePiece(ps[i])
  }

  predicate AllWellFormed(ps: seq<Piece>) {
    forall i :: 0 <= i < |ps| ==> WellFormed(ps[i])
  }

  predicate SafePiece(x: Piece) {
    match x
    case Lit(c) => c != '_'
    case Block(_, b) =>
      '_' !in b.language && (b.filename.Some? ==> '_' !in b.filename.value && '$' !in b.filename.value)
  }

  /** Text with neither of the characters a placeholder or a replacement
      pattern starts with. */
  predicate Clean(s: string) {
    '_' !in s && '$' !in s
  }

  lemma TagClean(i: nat, b: CodeBlock)
    requires SafePiece(Block([], b))
    requires forall k :: 0 <= k < |b.language| ==> IsWordChar(b.language[k])
    ensures Clean(Tag(i, b))
  {
    assert '$' !in b.language by {
      forall k | 0 <= k < |b.language| ensures b.language[k] != '$' { assert IsWordChar(b.language[k]); }
    }
    var d := NatToString(i);
    assert '_' !in d && '$' !in d by {
      forall k | 0 <= k < |d| ensures d[k] != '_' && d[k] != '$' {
        assert IsDigit(d[k]);
      }
    }
    var attr := if b.filename.Some? && b.filename.value != "" then FilenameAttr + b.filename.value + "\"" else "";
    TagOpenClean();
    TagPartsClean();
    assert '_' !in attr && '$' !in attr;
  }

  lemma TagOpenClean()
    ensures '_' !in TagOpen && '$' !in TagOpen
  {
  }

  lemma TagPartsClean()
    ensures '_' !in LanguageAttr && '$' !in LanguageAttr
    ensures '_' !in FilenameAttr && '$' !in FilenameAttr
    ensures '_' !in TagClose && '$' !in TagClose
    ensures '_' !in "\" " && '$' !in "\" "
    ensures '_' !in "\"" && '$' !in "\""
  {
  }

  /** A block whose tag is clean: no '_' or '$' in its language or file
      name, and a language of word characters. */
  predicate ValidBlock(b: CodeBlock) {
    SafePiece(Block([], b)) && forall i :: 0 <= i < |b.language| ==> IsWordChar(b.language[i])
  }

  predicate AllClean(tags: seq<string>) {
    forall m :: 0 <= m < |tags| ==> Clean(tags[m])
  }

  /** The tags of `blocks`, numbered from 0. */
  function Tags(blocks: seq<CodeBlock>): (r: seq<string>)
    ensures |r| == |blocks| && forall i :: 0 <= i < |blocks| ==> r[i] == Tag(i, blocks[i])
  {
    seq(|blocks|, i requires 0 <= i < |blocks| => Tag(i, blocks[i]))
  }

  lemma TagsClean(blocks: seq<CodeBlock>)
    requires forall i :: 0 <= i < |blocks| ==> ValidBlock(blocks[i])
    ensures AllClean(Tags(blocks))
  {
    forall m | 0 <= m < |blocks| ensures Clean(Tags(blocks)[m]) {
      TagClean(m, blocks[m]);
    }
  }

  /** Safe, well-formed pieces yield valid blocks only. */
  lemma {:induction false} BlocksValid(ps: seq<Piece>)
    requires Safe(ps) && AllWellFormed(ps)
    ensures forall i :: 0 <= i < |Blocks(ps)| ==> ValidBlock(Blocks(ps)[i])
    decreases |ps|
  {
    if ps != [] {
      SafeTail(ps);
      BlocksValid(ps[1..]);
      if ps[0].Block? {
        assert Blocks(ps) == [ps[0].block] + Blocks(ps[1..]);
      }
    }
  }

  lemma SafeTail(ps: seq<Piece>)
    requires ps != [] && Safe(ps) && AllWellFormed(ps)
    ensures Safe(ps[1..]) && AllWellFormed(ps[1..]) && SafePiece(ps[0]) && WellFormed(ps[0])
  {
    var rest := ps[1..];
    forall i | 0 <= i < |rest| ensures SafePiece(rest[i]) && WellFormed(rest[i]) {
      assert rest[i] == ps[i + 1];
    }
  }

  /** The rendering after the tags below `j` have been substituted: fences
      numbered below `j` show their entry of `tags`, the others their
      placeholder. */
  function Mixed(ps: seq<Piece>, k: nat, j: nat, tags: seq<string>): string
    decreases |ps|
  {
    if ps == [] then []
    else match ps[0]
      case Lit(c) => [c] + Mixed(ps[1..], k, j, tags)
      case Block(_, b) =>
        (if k < j && k < |tags| then tags[k] else Placeholder(k)) + Mixed(ps[1..], k + 1, j, tags)
  }

  lemma {:induction false} MixedNone(ps: seq<Piece>, k: nat, j: nat, tags: seq<string>)
    requires j <= k
    ensures Mixed(ps, k, j, tags) == Render(ps, k)
    decreases |ps|
  {
    if ps != [] {
      match ps[0]
      case Lit(_) => MixedNone(ps[1..], k, j, tags);
      case Block(_, _) => MixedNone(ps[1..], k + 1, j, tags);
    }
  }

  /** The entries of `tags` from `k` on are the tags of `blocks`, numbered
      from `k`. */
  predicate TagsAt(tags: seq<string>, k: nat, blocks: seq<CodeBlock>)
    decreases |blocks|
  {
    blocks == [] || (k < |tags| && tags[k] == Tag(k, blocks[0]) && TagsAt(tags, k + 1, blocks[1..]))
  }

  lemma {:induction false} TagsAtSuffix(blocks: seq<CodeBlock>, k: nat)
    requires k <= |blocks|
    ensures TagsAt(Tags(blocks), k, blocks[k..])
    decreases |blocks| - k
  {
    if k < |blocks| {
      TagsAtSuffix(blocks, k + 1);
      assert blocks[k..][1..] == blocks[k + 1..];
    }
  }

  lemma {:induction false} MixedAll(ps: seq<Piece>, k: nat, j: nat, tags: seq<string>)
    requires k + |Blocks(ps)| <= j && TagsAt(tags, k, Blocks(ps))
    ensures Mixed(ps, k, j, tags) == RenderTags(ps, k)
    decreases |ps|
  {
    if ps != [] {
      match ps[0]
      case Lit(_) =>
        MixedAll(ps[1..], k, j, tags);
      case Block(_, b) =>
        assert Blocks(ps) == [b] + Blocks(ps[1..]);
        MixedAll(ps[1..], k + 1, j, tags);
    }
  }

  /** Substituting tag `j` changes exactly the place where placeholder `j`
      stands, and everything before that place is free of '_'. */
  lemma {:induction false} MixedSplit(ps: seq<Piece>, k: nat, j: nat, tags: seq<string>) returns (a: string, c: string)
    requires Safe(ps) && AllClean(tags)
    requires k <= j < k + |Blocks(ps)| && k + |Blocks(ps)| <= |tags|
    ensures '_' !in a
    ensures Mixed(ps, k, j, tags) == a + Placeholder(j) + c
    ensures Mixed(ps, k, j + 1, tags) == a + tags[j] + c
    decreases |ps|, 1
  {
    if ps[0].Lit? {
      a, c := SplitPastLit(ps, k, j, tags);
    } else if j == k {
      a, c := SplitHere(ps, k, tags);
    } else {
      a, c := SplitPastBlock(ps, k, j, tags);
    }
  }

  lemma SafeRest(ps: seq<Piece>)
    requires ps != [] && Safe(ps)
    ensures Safe(ps[1..]) && SafePiece(ps[0])
  {
    var rest := ps[1..];
    forall i | 0 <= i < |rest| ensures SafePiece(rest[i]) {
      assert rest[i] == ps[i + 1];
    }
  }

  /** A literal character first: the split of the rest, with the character
      put in front. */
  lemma {:induction false} SplitPastLit(ps: seq<Piece>, k: nat, j: nat, tags: seq<string>) returns (a: string, c: string)
    requires ps != [] && ps[0].Lit? && Safe(ps) && AllClean(tags)
    requires k <= j < k + |Blocks(ps)| && k + |Blocks(ps)| <= |tags|
    ensures '_' !in a
    ensures Mixed(ps, k, j, tags) == a + Placeholder(j) + c
    ensures Mixed(ps, k, j + 1, tags) == a + tags[j] + c
    decreases |ps|, 0
  {
    SafeRest(ps);
    assert Blocks(ps) == Blocks(ps[1..]);
    var a', c' := MixedSplit(ps[1..], k, j, tags);
    var t := [ps[0].c];
    PrependSplit(t, a', c', Placeholder(j), tags[j]);
    a, c := t + a', c';
  }

  /** Block `j` first: nothing before it, and the rest shows placeholders. */
  lemma SplitHere(ps: seq<Piece>, k: nat, tags: seq<string>) returns (a: string, c: string)
    requires ps != [] && ps[0].Block? && k < |tags|
    ensures '_' !in a
    ensures Mixed(ps, k, k, tags) == a + Placeholder(k) + c
    ensures Mixed(ps, k, k + 1, tags) == a + tags[k] + c
  {
    var rest := Mixed(ps[1..], k + 1, k, tags);
    MixedNone(ps[1..], k + 1, k, tags);
    MixedNone(ps[1..], k + 1, k + 1, tags);
    assert Mixed(ps, k, k, tags) == Placeholder(k) + rest;
    assert Mixed(ps, k, k + 1, tags) == tags[k] + rest;
    a, c := [], rest;
    EmptyPrefix(Placeholder(k), rest);
    EmptyPrefix(tags[k], rest);
  }

  lemma EmptyPrefix(x: string, c: string)
    ensures [] + x + c == x + c
  {
  }

  /** A block before block `j`: its tag, then the split of the rest. */
  lemma {:induction false} SplitPastBlock(ps: seq<Piece>, k: nat, j: nat, tags: seq<string>) returns (a: string, c: string)
    requires ps != [] && ps[0].Block? && Safe(ps) && AllClean(tags)
    requires k < j < k + |Blocks(ps)| && k + |Blocks(ps)| <= |tags|
    ensures '_' !in a
    ensures Mixed(ps, k, j, tags) == a + Placeholder(j) + c
    ensures Mixed(ps, k, j + 1, tags) == a + tags[j] + c
    decreases |ps|, 0
  {
    SafeRest(ps);
    assert Blocks(ps) == [ps[0].block] + Blocks(ps[1..]);
    var a', c' := MixedSplit(ps[1..], k + 1, j, tags);
    var t := tags[k];
    assert Clean(t);
    PrependSplit(t, a', c', Placeholder(j), tags[j]);
    a, c := t + a', c';
  }

  lemma PrependSplit(t: string, a: string, c: string, x: string, y: string)
    ensures t + (a + x + c) == (t + a) + x + c
    ensures t + (a + y + c) == (t + a) + y + c
  {
  }

  lemma {:induction false} ReplaceTagsMixed(ps: seq<Piece>, j: nat)
    requires Safe(ps) && AllClean(Tags(Blocks(ps)))
    requires j <= |Blocks(ps)|
    ensures ReplaceTags(Render(ps, 0), Blocks(ps), j) == Mixed(ps, 0, j, Tags(Blocks(ps)))
  {
    var tags := Tags(Blocks(ps));
    if j == 0 {
      MixedNone(ps, 0, 0, tags);
    } else {
      var s, blocks := Render(ps, 0), Blocks(ps);
      ReplaceTagsMixed(ps, j - 1);
      var a, c := MixedSplit(ps, 0, j - 1, tags);
      assert ReplaceTags(s, blocks, j) == ReplaceFirst(a + Placeholder(j - 1) + c, Placeholder(j - 1), tags[j - 1]);
      ReplaceFirstAt(a, Placeholder(j - 1), c, tags[j - 1]);
    }
  }

  /** When no placeholder can be confused with other text, `processContent`
      replaces every matched fence, in order, by the tag of its block:
      the `id` is its position among the matches, and the rest of the
      content is unchanged. */
  lemma ProcessedRendersTags(content: string)
    requires Safe(Pieces(content, 0))
    ensures Processed(content) == RenderTags(Pieces(content, 0), 0)
  {
    if content != [] {
      var ps := Pieces(content, 0);
      PiecesWellFormed(content, 0);
      BlocksValid(ps);
      TagsClean(Blocks(ps));
      ReplacedAllTags(ps);
    }
  }

  /** Substituting every tag in the rendering with placeholders gives the
      rendering with tags. */
  lemma ReplacedAllTags(ps: seq<Piece>)
    requires Safe(ps) && AllClean(Tags(Blocks(ps)))
    ensures ReplaceTags(Render(ps, 0), Blocks(ps), |Blocks(ps)|) == RenderTags(ps, 0)
  {
    ReplaceTagsMixed(ps, |Blocks(ps)|);
    TagsAtSuffix(Blocks(ps), 0);
    assert Blocks(ps)[0..] == Blocks(ps);
    MixedAll(ps, 0, |Blocks(ps)|, Tags(Blocks(ps)));
  }
}
