/** The text-to-speech page, `src/pages/tools/TextToSpeechPage.tsx`: the
    playing and speaking flags as the play, pause and stop buttons and the
    utterance's events move them, the list of the five most recent texts,
    and the character and word counts under the text box. The browser's speech synthesis
    is outside the model: what it is doing (`paused`, `speaking`) is a
    parameter, and what the page asks of it is returned as a `Request`. */
module TextToSpeech {
  import opened Strings
  import opened Seqs

  const MaxRecent: nat := 5

  /** `[text, ...recents].slice(0, 5)`. */
  function Prepend(recents: seq<string>, text: string): (r: seq<string>)
    ensures |r| == if |recents| + 1 < MaxRecent then |recents| + 1 else MaxRecent
    ensures r[0] == text
  {
    var all := [text] + recents;
    if |all| <= MaxRecent then all else all[..MaxRecent]
  }

  /** The end handler's update of the recent texts: a text that is not
      blank and not yet listed goes first, and the list keeps at most five. */
  function RecentsAfterEnd(recents: seq<string>, text: string): seq<string> {
    if !IsBlank(text) && text !in recents then Prepend(recents, text) else recents
  }

  lemma RecentsAfterEndShape(recents: seq<string>, text: string)
    ensures var r := RecentsAfterEnd(recents, text);
      && (IsBlank(text) || text in recents ==> r == recents)
      && (!IsBlank(text) && text !in recents ==>
            |r| <= MaxRecent && r[0] == text
            && r[1..] == recents[..if |recents| < MaxRecent - 1 then |recents| else MaxRecent - 1])
  {
    var all := [text] + recents;
    if !IsBlank(text) && text !in recents {
      var r := RecentsAfterEnd(recents, text);
      assert r == all[..|r|];
      assert r[1..] == all[1..|r|];
    }
  }

  /** A list without repetitions keeps none after the update. */
  lemma RecentsAfterEndDistinct(recents: seq<string>, text: string)
    requires NoDuplicates(recents)
    ensures NoDuplicates(RecentsAfterEnd(recents, text))
  {
    if !IsBlank(text) && text !in recents {
      var all := [text] + recents;
      var r := RecentsAfterEnd(recents, text);
      forall i, j | 0 <= i < j < |all| ensures all[i] != all[j] {
        if i == 0 { assert all[j] == recents[j - 1]; }
        else { assert all[i] == recents[i - 1] && all[j] == recents[j - 1]; }
      }
      forall i, j | 0 <= i < j < |r| ensures r[i] != r[j] {
        assert r[i] == all[i] && r[j] == all[j];
      }
    }
  }

  /** The number of non-empty pieces. */
  function NonEmptyCount(pieces: seq<string>): nat
    decreases |pieces|
  {
    if pieces == [] then 0
    else (if pieces[0] != [] then 1 else 0) + NonEmptyCount(pieces[1..])
  }

  /** `text.length`, the character count under the text box: JavaScript
      counts UTF-16 code units, so a character outside the Basic
      Multilingual Plane counts twice. */
  function CharCount(text: string): (r: nat)
    ensures |text| <= r <= 2 * |text|
    ensures r == |text| <==> IsBmp(text)
  {
    Utf16LengthIsLengthIffBmp(text);
    Utf16Length(text)
  }

  /** `text.split(/\s+/).filter(Boolean).length`, the word count under the
      text box: one word per maximal run of characters other than white
      space. */
  function WordCount(text: string): (r: nat)
    ensures r == WordStarts(text, true)
    ensures r <= |text|
  {
    WordStartsCountPieces(text);
    WordStartsBounds(text, true);
    NonEmptyCount(SplitOnSpaceRuns(text))
  }

  /** The number of places where a word starts in `s`: a character that is
      not white space, at the start (when `afterSpace`) or after white
      space. */
  function WordStarts(s: string, afterSpace: bool): nat
    decreases |s|
  {
    if s == [] then 0
    else (if afterSpace && !IsSpace(s[0]) then 1 else 0) + WordStarts(s[1..], IsSpace(s[0]))
  }

  /** Leading white space starts no word. */
  lemma {:induction false} WordStartsSkipSpace(s: string)
    ensures WordStarts(TrimStart(s), true) == WordStarts(s, true)
    decreases |s|
  {
    if s != [] && IsSpace(s[0]) {
      WordStartsSkipSpace(s[1..]);
    }
  }

  lemma {:induction false} WordStartsCountPieces(s: string)
    ensures WordStarts(s, true) == NonEmptyCount(SplitOnSpaceRuns(s))
    ensures WordStarts(s, false) == NonEmptyCount(SplitOnSpaceRuns(s)[1..])
    decreases |s|
  {
    if s == [] {
    } else if IsSpace(s[0]) {
      var t := TrimStart(s);
      WordStartsCountPieces(t);
      WordStartsSkipSpace(s[1..]);
      assert TrimStart(s[1..]) == t;
      assert SplitOnSpaceRuns(s) == [[]] + SplitOnSpaceRuns(t);
      assert SplitOnSpaceRuns(s)[1..] == SplitOnSpaceRuns(t);
    } else {
      var rest := SplitOnSpaceRuns(s[1..]);
      WordStartsCountPieces(s[1..]);
      var r := [[s[0]] + rest[0]] + rest[1..];
      assert SplitOnSpaceRuns(s) == r;
      assert r[1..] == rest[1..];
    }
  }

  /** The word count is the number of word starts: each maximal run of
      characters other than white space is one word. */
  lemma WordCountIsWordStarts(text: string)
    ensures WordCount(text) == WordStarts(text, true)
    ensures IsBlank(text) ==> WordCount(text) == 0
    ensures WordCount(text) <= |text|
  {
    WordStartsCountPieces(text);
    WordStartsBounds(text, true);
  }

  lemma {:induction false} WordStartsBounds(s: string, afterSpace: bool)
    ensures WordStarts(s, afterSpace) <= |s|
    ensures IsBlank(s) ==> WordStarts(s, afterSpace) == 0
    decreases |s|
  {
    if s != [] {
      WordStartsBounds(s[1..], IsSpace(s[0]));
    }
  }

  /** The utterance the page creates: its text and the recent texts its end
      handler sees, both as they were when play was pressed. */
  datatype Utterance = Utterance(text: string, recentsAtPlay: seq<string>)

  /** The end handler's update of the current recent texts: the check
      sees the list as it was when play was pressed, the update the list as
      it is now. */
  function EndUpdate(current: seq<string>, u: Utterance): (r: seq<string>)
    ensures u.recentsAtPlay == current ==> r == RecentsAfterEnd(current, u.text)
    ensures !IsBlank(u.text) && u.text !in u.recentsAtPlay ==> 1 <= |r| <= MaxRecent && r[0] == u.text
    ensures IsBlank(u.text) || u.text in u.recentsAtPlay ==> r == current
  {
    if !IsBlank(u.text) && u.text !in u.recentsAtPlay then Prepend(current, u.text) else current
  }

  /** What the page asks of the browser's speech synthesis. */
  datatype Request = NoRequest | PauseSpeech | ResumeSpeech | Speak(utterance: Utterance, cancelFirst: bool) | CancelSpeech

  /** The page's state. */
  class Player {
    var text: string
    var isPlaying: bool
    var isSpeaking: bool
    var recents: seq<string>

    ghost predicate Valid()
      reads this
    {
      NoDuplicates(recents) && |recents| <= MaxRecent
    }

    constructor ()
      ensures text == "" && !isPlaying && !isSpeaking && recents == []
      ensures Valid()
    {
      text := "";
      isPlaying := false;
      isSpeaking := false;
      recents := [];
    }

    /** `handlePlayPause`, given whether the speech is paused and speaking:
        playing pauses; a paused speech resumes; a blank text does nothing;
        otherwise a new utterance is spoken, after cancelling one still
        speaking. The flags change here only for pause and resume. */
    method PlayPause(synthPaused: bool, synthSpeaking: bool) returns (req: Request)
      modifies this
      ensures old(isPlaying) ==> req == PauseSpeech && !isPlaying
      ensures !old(isPlaying) && synthPaused ==> req == ResumeSpeech && isPlaying
      ensures !old(isPlaying) && !synthPaused && IsBlank(text) ==>
        req == NoRequest && isPlaying == old(isPlaying)
      ensures !old(isPlaying) && !synthPaused && !IsBlank(text) ==>
        req == Speak(Utterance(text, recents), synthSpeaking) && isPlaying == old(isPlaying)
      ensures isSpeaking == old(isSpeaking) && text == old(text) && recents == old(recents)
    {
      if isPlaying {
        isPlaying := false;
        return PauseSpeech;
      }
      if synthPaused {
        isPlaying := true;
        return ResumeSpeech;
      }
      TrimEmptyIffBlank(text);
      if Trim(text) == "" {
        return NoRequest;
      }
      req := Speak(Utterance(text, recents), synthSpeaking);
    }

    /** `handleStop`: only a speech in progress is cancelled. */
    method Stop(synthSpeaking: bool) returns (req: Request)
      modifies this
      ensures synthSpeaking ==> req == CancelSpeech && !isPlaying && !isSpeaking
      ensures !synthSpeaking ==> req == NoRequest && isPlaying == old(isPlaying) && isSpeaking == old(isSpeaking)
      ensures text == old(text) && recents == old(recents)
    {
      req := NoRequest;
      if synthSpeaking {
        req := CancelSpeech;
        isPlaying := false;
        isSpeaking := false;
      }
    }

    /** The utterance's start event. */
    method OnStart()
      modifies this
      ensures isPlaying && isSpeaking
      ensures text == old(text) && recents == old(recents)
    {
      isPlaying := true;
      isSpeaking := true;
    }

    /** The utterance's pause event. */
    method OnPause()
      modifies this
      ensures !isPlaying && isSpeaking == old(isSpeaking)
      ensures text == old(text) && recents == old(recents)
    {
      isPlaying := false;
    }

    /** The utterance's resume event. */
    method OnResume()
      modifies this
      ensures isPlaying && isSpeaking == old(isSpeaking)
      ensures text == old(text) && recents == old(recents)
    {
      isPlaying := true;
    }

    /** The utterance's end event: both flags drop, and the spoken text is
        put first in the recent texts unless it is blank or was listed when
        play was pressed. */
    method OnEnd(u: Utterance)
      modifies this
      ensures !isPlaying && !isSpeaking && text == old(text)
      ensures recents == EndUpdate(old(recents), u)
      ensures u.recentsAtPlay == old(recents) && old(Valid()) ==> Valid()
    {
      isPlaying := false;
      isSpeaking := false;
      if u.recentsAtPlay == recents && Valid() {
        RecentsAfterEndDistinct(recents, u.text);
      }
      recents := EndUpdate(recents, u);
    }

    /** `clearRecentTexts`. */
    method ClearRecents()
      modifies this
      ensures recents == [] && Valid()
      ensures text == old(text) && isPlaying == old(isPlaying) && isSpeaking == old(isSpeaking)
    {
      recents := [];
    }

    /** `useRecentText(saved)` and typing in the text box. */
    method SetText(t: string)
      modifies this
      ensures text == t
      ensures recents == old(recents) && isPlaying == old(isPlaying) && isSpeaking == old(isSpeaking)
    {
      text := t;
    }
  }
}
