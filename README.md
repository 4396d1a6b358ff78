# Admin dashboard helpers, modelled in Dafny

This project models the logic inside the views of a React admin dashboard and
blog whose data lives in a hosted Supabase database. It covers:

- the blog helpers: post images, reading time, and fenced code blocks cut out
  of a post and put back as placeholder tags;
- the blog editor: slugs, the markdown toolbar, and the checks and defaults
  of saving a post;
- the calculator's keys;
- the template gallery's filters and its technology toggle;
- the template form's fields and technology list;
- the AI chat page's conversation list;
- the admin chat panel's search, incoming messages and send;
- the text-to-speech page's playback flags, recent texts, and character and word counts;
- the tools page's grouping by category;
- the blog index's post defaults and images;
- the weather page's icon choice, location search and hourly strip.

Each source file is one module: `BlogUtils`, `BlogEditor`, `Calculator`,
`Templates`, `TemplateEdit`, `AIChat`, `AdminChat`, `TextToSpeech`, `Tools`,
`BlogPage`, `Weather`. The shared modules give the JavaScript built-ins the
views rely on:

- `Strings`: `toLowerCase` on ASCII, `\s`, `trim`, `split` and `join` on one
  character, `split(/\s+/)`, `includes`, `indexOf`, `toString` of a natural
  number;
- `Seqs`: `filter`, and `[...new Set(s)]` as `Distinct`;
- `Optional`: the missing value.

The form follows the source:

- Pure helpers are functions, with lemmas about them.
- A page whose handlers update state is a class whose fields are that state,
  with one method per handler. This covers the calculator, the AI chat page,
  the admin chat panel, the text-to-speech player and the blog editor's save.
- The tools page's `reduce` is a method with a loop over an accumulator map.
- `extractCodeBlocks` is a method with a loop that pushes into the block
  list. `processContent` is a method with a loop that rewrites the result
  one placeholder at a time.

Everything the views get from outside becomes a parameter:

- database answers and whether each write fails;
- the signed-in user;
- clock readings used as ids;
- what the browser's speech synthesis is doing;
- the formatted results of the calculator's floating-point arithmetic.

The writes a handler asks for are returned as values.

Two behaviours of the code worth knowing:

- The admin chat panel appends every incoming message row to the list.
  Nothing is merged or de-duplicated
  (`src/modules/dashboard/components/AdminChatPanel.tsx:178`).
- After conversations are loaded, the tab effect runs after the search effect
  and shows the whole list. So a reload discards the search filter.

## Model

| member | source | states |
|---|---|---|
| BlogUtils.GetPostImage | src/utils/blogUtils.ts:16-40 | null or empty gives the tech image. A URL starting with "http" is returned unchanged. Any other reference whose last segment's stem is one of the three keys gives that bundled image. Without a key, an "/images/" path is kept and anything else falls back to the tech image. A returned path is always the input. |
| BlogUtils.ImageStemIsFileNamePrefix | src/utils/blogUtils.ts:22 | the stem is the last path segment up to, not including, its first dot |
| BlogUtils.ReadingTime | src/utils/blogUtils.ts:47-52 | 1 for null or empty content and never below 1; otherwise the least number of minutes at 200 words per minute covering the pieces of `split(/\s+/)` |
| BlogUtils.MatchAt | src/utils/blogUtils.ts:106 | the fence regex tried at one position: no match without three backticks followed by a word character. A match has a word-character language, an optional bracketed name, a newline before the code, and a closing fence. |
| BlogUtils.BlockOf | src/utils/blogUtils.ts:112-116 | the pushed block has the trimmed code, and a trimmed file name exactly when the name group took part |
| BlogUtils.Step | src/utils/blogUtils.ts:110 | the scan of the global replace always moves forward and never past the end of the content |
| BlogUtils.SourceOfPieces | src/utils/blogUtils.ts:110 | the pieces the scan cuts, put back together, are the content |
| BlogUtils.PiecesWellFormed | src/utils/blogUtils.ts:106-116 | every block found has a word-character language, trimmed code and a trimmed name, and its text starts with three backticks and the language |
| BlogUtils.ExtractCodeBlocks | src/utils/blogUtils.ts:102-121 | the processed content is the content with the i-th match, left to right from 0, replaced by `__CODE_BLOCK_i__`; the blocks are the matches' blocks in the same order |
| BlogUtils.NoFenceNoBlocks | src/utils/blogUtils.ts:106-118 | content without three backticks is left unchanged and yields no block |
| BlogUtils.ExtractWithoutFence | src/utils/blogUtils.ts:102-121 | `extractCodeBlocks` of content without three backticks gives the content and no blocks |
| BlogUtils.ReplaceFirst | src/utils/blogUtils.ts:138 | `replace` with a string pattern: unchanged when the pattern does not occur |
| BlogUtils.ReplaceFirstAt | src/utils/blogUtils.ts:138 | when the pattern's first character is not in the text before its occurrence, exactly that occurrence becomes the replacement, given no `$` in the replacement |
| BlogUtils.SubstituteLiteral | src/utils/blogUtils.ts:138 | a replacement string without `$` is inserted as it is |
| BlogUtils.Processed | src/utils/blogUtils.ts:124-125 | empty content gives the empty string |
| BlogUtils.ProcessContent | src/utils/blogUtils.ts:124-142 | the forEach loop replaces placeholders 0, 1, ... in turn with the tag of their block |
| BlogUtils.ProcessedRendersTags | src/utils/blogUtils.ts:124-142 | when no '_' occurs outside the fences or in a language or name, and no '$' in a name, the result is the content with the i-th fence replaced by the tag carrying `id="i"` and that block's language, and the `filename` attribute exactly when the block has a non-empty name |
| BlogUtils.ReplacedAllTags | src/utils/blogUtils.ts:131-139 | replacing placeholders 0 to n-1 in turn in the rendering gives the rendering with tags |
| BlogUtils.ReplaceTagsMixed | src/utils/blogUtils.ts:131-139 | after the first j replacements, fences below j show their tag and the others their placeholder |
| BlogUtils.MixedSplit | src/utils/blogUtils.ts:138 | placeholder j occurs in the partly replaced text with no '_' before it, so the next replacement hits that fence's placeholder |
| BlogUtils.TagClean | src/utils/blogUtils.ts:136 | the tag of a block whose language is word characters and whose name has no '_' or '$' has neither character |
| BlogUtils.BlocksValid | src/utils/blogUtils.ts:106-116 | the blocks of safe, well-formed pieces all have clean tags |
| BlogEditor.Slugify | src/pages/blog/BlogEditorPage.tsx:110-119 | the slug has only lowercase letters, digits, '_' and '-', no "--", and no leading or trailing '-' |
| BlogEditor.SlugifyIdempotent | src/pages/blog/BlogEditorPage.tsx:110-119 | a slug is its own slug |
| BlogEditor.SpacesToDashes | src/pages/blog/BlogEditorPage.tsx:114 | every character of the result is a dash or from the input, and only the empty input gives the empty string |
| BlogEditor.SpacesToDashesNoSpace | src/pages/blog/BlogEditorPage.tsx:114 | text without white space is unchanged |
| BlogEditor.CollapseDashes | src/pages/blog/BlogEditorPage.tsx:116 | no "--" remains, every character comes from the input, and a leading dash only if there was one |
| BlogEditor.CollapseDashesNoDoubleDash | src/pages/blog/BlogEditorPage.tsx:116 | text without "--" is unchanged |
| BlogEditor.DropLeadingDashes | src/pages/blog/BlogEditorPage.tsx:117 | the result is a suffix that does not start with '-', and the input when it does not start with '-' |
| BlogEditor.DropTrailingDashes | src/pages/blog/BlogEditorPage.tsx:118 | the result is a prefix that does not end with '-', and the input when it does not end with '-' |
| BlogEditor.Dashed | src/pages/blog/BlogEditorPage.tsx:111-116 | after the character filter and the dash collapse only slug characters remain and no "--" |
| BlogEditor.SlugUnchanged | src/pages/blog/BlogEditorPage.tsx:111-116 | text made of slug characters without "--" passes the first steps unchanged |
| BlogEditor.InsertMarkdown | src/pages/blog/BlogEditorPage.tsx:207-258 | the new content is the content before the selection, the insertion, then the content after it; the caret lands right after the insertion (positions counted in characters) |
| BlogEditor.CaretInCodeUnits | src/pages/blog/BlogEditorPage.tsx:207-258 | the model's caret marks the same place as the page's `start + insertion.length`: the text before it is that many UTF-16 code units long, counting the selection start in code units |
| BlogEditor.InsertUnknownUnchanged | src/pages/blog/BlogEditorPage.tsx:247-251 | an unknown kind leaves the content unchanged and puts the caret at the selection's end |
| BlogEditor.WrapInsertion | src/pages/blog/BlogEditorPage.tsx:213-233 | bold, italic, link and image put their marks around the selection, or around their fixed text when nothing is selected |
| BlogEditor.BulletedLines | src/pages/blog/BlogEditorPage.tsx:237-240 | the list insertion has one line per selected line, each with "- " in front |
| BlogEditor.NumberedLines | src/pages/blog/BlogEditorPage.tsx:242-245 | the ordered-list insertion has one line per selected line, numbered 1, 2, ... in order |
| BlogEditor.Prefix | src/pages/blog/BlogEditorPage.tsx:155 | the first 150 characters of the title, or all of a shorter one; characters are Unicode scalar values, so this agrees with `substring(0, 150)` only on text of the Basic Multilingual Plane |
| BlogEditor.SaveOutcomeOf | src/pages/blog/BlogEditorPage.tsx:121-201 | nothing is written unless the title and content are non-empty and a user is signed in |
| BlogEditor.SaveChecks | src/pages/blog/BlogEditorPage.tsx:122-147 | the refusals come in the order title, content, login, each exactly when the earlier checks passed and its own failed; a write happens exactly when all three pass |
| BlogEditor.PostDataFields | src/pages/blog/BlogEditorPage.tsx:152-162 | the status is "published" iff publishing or already published; an empty excerpt becomes the first 150 characters of the title and "..."; the slug is the route's or the slugified title; the publication time is set iff publishing a post not yet published; an empty category becomes null |
| BlogEditor.Editor.Save | src/pages/blog/BlogEditorPage.tsx:121-201 | the outcome is `SaveOutcomeOf` of the form; the form is unchanged; `isSubmitting` is false after any write and untouched by a refusal |
| Calculator.ClearResets | src/pages/tools/CalculatorPage.tsx:66-90 | 'C' shows "0" and empties the expression; the history stays |
| Calculator.DigitOnZero | src/pages/tools/CalculatorPage.tsx:93-95 | a digit pressed on a display of "0" becomes both the display and the whole expression |
| Calculator.OperatorAppends | src/pages/tools/CalculatorPage.tsx:96-99 | an operator is displayed alone and appended to the expression as " op " |
| Calculator.DigitAppends | src/pages/tools/CalculatorPage.tsx:100-109 | a digit or '.' is appended to the expression; it replaces an operator on the display and is appended to anything else |
| Calculator.DisplayNeverEmpty | src/pages/tools/CalculatorPage.tsx:87-193 | after C, a digit, '.', an operator or backspace the display is not empty |
| Calculator.ReplaceLastPartParts | src/pages/tools/CalculatorPage.tsx:147-165 | replacing the last space-separated part with text without a space changes exactly that part |
| Calculator.BackspaceShortensPart | src/pages/tools/CalculatorPage.tsx:171-179 | with a display of several characters, a last part of several characters loses its last character and the other parts stay |
| Calculator.BackspaceRemovesPart | src/pages/tools/CalculatorPage.tsx:178-191 | a one-character display, or a one-character last part, removes the last part and keeps the others; with no other part the expression becomes empty |
| Calculator.BackspaceKeepsEmptyPart | src/pages/tools/CalculatorPage.tsx:176-183 | an expression ending in a space is left as it is by backspace on a long display |
| Calculator.EqualsRecords | src/pages/tools/CalculatorPage.tsx:113-138 | a successful '=' shows the result, continues from it, and appends the expression and result to the history, keeping the earlier entries; a failure shows "Error" and changes nothing else |
| Calculator.CalculatorPage.ButtonClick | src/pages/tools/CalculatorPage.tsx:64-85 | the new state is the key's effect on the old one |
| Calculator.Pressed | src/pages/tools/CalculatorPage.tsx:64-85 | `handleButtonClick`: only '=' touches the history, and then only by appending one entry to the earlier ones |
| Calculator.Typed | src/pages/tools/CalculatorPage.tsx:92-111 | `updateDisplay`: the history stays, and the display becomes the key or the old display followed by the key, so it is never empty after a key |
| Calculator.IsOperator | src/pages/tools/CalculatorPage.tsx:195-197 | the four operator keys are one character each, and none is a digit key or '.' |
| Calculator.CalculatorPage.ClearDisplay | src/pages/tools/CalculatorPage.tsx:87-90 | display "0", empty expression, history kept |
| Calculator.CalculatorPage.CalculateResult | src/pages/tools/CalculatorPage.tsx:113-138 | the result is displayed, becomes the expression and is recorded; an error shows "Error" |
| Calculator.CalculatorPage.ErrorTimeout | src/pages/tools/CalculatorPage.tsx:136 | the timer puts "0" back on the display |
| Calculator.CalculatorPage.UpdateDisplay | src/pages/tools/CalculatorPage.tsx:92-111 | the display and expression change as `updateDisplay` says, the history stays |
| Calculator.CalculatorPage.Backspace | src/pages/tools/CalculatorPage.tsx:170-193 | the display loses its last character, or becomes "0" when it had one; the expression's parts are edited in place as above |
| Calculator.CalculatorPage.ClearHistory | src/pages/tools/CalculatorPage.tsx:207-208 | the history becomes empty and nothing else changes |
| Calculator.CalculatorPage.SelectHistory | src/pages/tools/CalculatorPage.tsx:321-324 | the entry's result becomes both the display and the expression |
| Templates.Select | src/pages/templates/TemplatesPage.tsx:70-89 | a filter keeps exactly the templates that pass its test |
| Templates.StageKeeps | src/pages/templates/TemplatesPage.tsx:69-90 | a filter that is switched on keeps exactly the templates passing it, in order; one that is off keeps everything |
| Templates.FilteredKeepsOrder | src/pages/templates/TemplatesPage.tsx:64-93 | the filtered list is a single `filter` of the templates by `Kept`, so it keeps their order and every copy of a kept row. A template is kept exactly when it contains the query ignoring case, has the active category ignoring case, and has a technology whose lowercase form is active; each filter applies only when set, and a template without technologies fails the technology filter. |
| Templates.Filtered | src/pages/templates/TemplatesPage.tsx:64-93 | the filter effect: the three filters, each applied only when set, leave at most the templates there were, and only those |
| Templates.NoFilterShowsAll | src/pages/templates/TemplatesPage.tsx:66-92 | no query, category "all" and no technology show every template |
| Templates.ToggleTechnology | src/pages/templates/TemplatesPage.tsx:96-103 | the lowercase name is removed when active and appended at the end otherwise; no other name is added or removed |
| Templates.ToggleKeepsInvariant | src/pages/templates/TemplatesPage.tsx:96-103 | a lowercase, duplicate-free active list stays lowercase and duplicate-free |
| Templates.ToggleTwice | src/pages/templates/TemplatesPage.tsx:96-103 | toggling an inactive technology twice restores the list; toggling an active one twice keeps the same technologies and moves it to the end |
| Templates.TechnologyNamesWithin | src/pages/templates/TemplatesPage.tsx:107 | the flattened list holds every technology of every template, and nothing else |
| Templates.ButtonLists | src/pages/templates/TemplatesPage.tsx:106-107 | the category and technology buttons are duplicate-free and offer exactly the categories and technologies of the templates |
| Templates.TabsPartition | src/pages/templates/TemplatesPage.tsx:330-375 | the Free and Premium tabs split the filtered list between them by `is_premium` |
| TemplateEdit.EditModeIff | src/modules/dashboard/pages/TemplateEditPage.tsx:42 | the form is in create mode exactly when the route id is "new" |
| TemplateEdit.SetField | src/modules/dashboard/pages/TemplateEditPage.tsx:120-127 | the named field gets the value and every other field is unchanged |
| TemplateEdit.SetFieldLaws | src/modules/dashboard/pages/TemplateEditPage.tsx:120-127 | writing back a field's own value changes nothing; writes to different fields commute; the last of two writes to one field wins |
| TemplateEdit.SwitchChange | src/modules/dashboard/pages/TemplateEditPage.tsx:129-131 | only `is_premium` changes |
| TemplateEdit.AddTechnology | src/modules/dashboard/pages/TemplateEditPage.tsx:133-141 | an empty or already present selection changes nothing; otherwise it is appended at the end and the selection is cleared |
| TemplateEdit.AddTechnologyDistinct | src/modules/dashboard/pages/TemplateEditPage.tsx:133-141 | adding keeps the list duplicate-free and the earlier technologies first, in their order |
| TemplateEdit.RemoveTechnology | src/modules/dashboard/pages/TemplateEditPage.tsx:143-148 | the technology is no longer in the list and no other field changes |
| TemplateEdit.RemoveTechnologyDistinct | src/modules/dashboard/pages/TemplateEditPage.tsx:143-148 | removing keeps the list duplicate-free and the others in their order, and takes out exactly one copy when present |
| TemplateEdit.MergeCategoriesKeepsPrevious | src/modules/dashboard/pages/TemplateEditPage.tsx:109-113 | the previous categories stay first and in order; the rest are found categories not already listed; the result is duplicate-free and holds every category found |
| TemplateEdit.DefaultCategoriesDistinct | src/modules/dashboard/pages/TemplateEditPage.tsx:57-59 | the initial category choices are distinct |
| AIChat.Fresh | src/pages/tools/AIChatPage.tsx:64-76 | a new conversation has the given id and exactly one message, the assistant's greeting with its own id; the two ids come from two clock readings |
| AIChat.ReplaceByIdChangesOnlyMatch | src/pages/tools/AIChatPage.tsx:121-123 | the list keeps its length; entries with the conversation's id become the conversation and all others are unchanged |
| AIChat.ReplaceById | src/pages/tools/AIChatPage.tsx:121-123 | the `map` keeps the length of the list |
| AIChat.RemoveById | src/pages/tools/AIChatPage.tsx:131 | exactly the conversations with another id remain |
| AIChat.RemoveByIdIsSubsequence | src/pages/tools/AIChatPage.tsx:131 | the remaining conversations keep their order |
| AIChat.FindOther | src/pages/tools/AIChatPage.tsx:134 | the conversation found has another id, and none is found exactly when every id matches |
| AIChat.FindOtherIsFirstRemaining | src/pages/tools/AIChatPage.tsx:131-135 | the new current conversation is the first one left after the delete, or none |
| AIChat.ChatPage.Mount | src/pages/tools/AIChatPage.tsx:41-59 | an empty list gets exactly one demo conversation, which is put on screen; a non-empty list is left alone |
| AIChat.ChatPage.NewConversation | src/pages/tools/AIChatPage.tsx:63-81 | the fresh conversation goes first in the list and on screen, and the input is cleared |
| AIChat.ChatPage.Send | src/pages/tools/AIChatPage.tsx:84-102 | a blank input, or no conversation on screen, changes nothing. Otherwise the untrimmed input is appended as a user message after the existing ones, the input is cleared, and the page is loading. |
| AIChat.ChatPage.Respond | src/pages/tools/AIChatPage.tsx:105-126 | the assistant's reply follows, the list captured when sending gets the conversation in place of the one with its id, and loading ends |
| AIChat.ChatPage.Delete | src/pages/tools/AIChatPage.tsx:130-136 | the conversation is removed; if it was on screen, the first other conversation in list order, or none, takes its place; otherwise the screen is unchanged |
| AIChat.SendThenRespond | src/pages/tools/AIChatPage.tsx:95-116 | a send and its answer add exactly two messages after the existing ones, the user's and then the assistant's |
| AdminChat.MatchingMembers | src/modules/dashboard/components/AdminChatPanel.tsx:116-121 | a conversation is kept exactly when the lowercased username or full name of its first profile contains the lowercased term |
| AdminChat.Matching | src/modules/dashboard/components/AdminChatPanel.tsx:116-121 | the search `filter` keeps at most the conversations there were |
| AdminChat.SearchFiltered | src/modules/dashboard/components/AdminChatPanel.tsx:112-124 | the search effect: a term that is blank after `trim()` shows the whole list, and no term shows more |
| AdminChat.MatchingIsSubsequence | src/modules/dashboard/components/AdminChatPanel.tsx:116-122 | the kept conversations keep their order |
| AdminChat.SearchFilteredKeeps | src/modules/dashboard/components/AdminChatPanel.tsx:112-124 | a term that trims to empty shows every conversation; otherwise exactly the matching ones, in order |
| AdminChat.NamelessNeverMatches | src/modules/dashboard/components/AdminChatPanel.tsx:117-118 | missing names count as "", so a conversation without names never matches a non-blank term |
| AdminChat.TabFiltered | src/modules/dashboard/components/AdminChatPanel.tsx:127-135 | every tab shows the whole list |
| AdminChat.Initials | src/modules/dashboard/components/AdminChatPanel.tsx:249-252 | "U" for a missing or empty name, otherwise the first character uppercased |
| AdminChat.Panel.Loaded | src/modules/dashboard/components/AdminChatPanel.tsx:72-135 | the loaded conversations end up in both lists, the tab effect having the last word |
| AdminChat.Panel.SetSearchTerm | src/modules/dashboard/components/AdminChatPanel.tsx:112-124 | the shown list is the search result for the new term and nothing else changes |
| AdminChat.Panel.SetTab | src/modules/dashboard/components/AdminChatPanel.tsx:127-135 | the whole list is shown and nothing else changes |
| AdminChat.Panel.Select | src/modules/dashboard/components/AdminChatPanel.tsx:319 | clicking a conversation selects it and nothing else changes |
| AdminChat.Panel.MessagesLoaded | src/modules/dashboard/components/AdminChatPanel.tsx:139-152 | the rows read for the selected conversation become the messages shown and nothing else changes |
| AdminChat.Panel.SetNewMessage | src/modules/dashboard/components/AdminChatPanel.tsx:420 | typing sets the message box and nothing else changes |
| AdminChat.Panel.ReceiveInsert | src/modules/dashboard/components/AdminChatPanel.tsx:176-179 | the row goes at the end, the list grows by one and the earlier messages stay, with no de-duplication |
| AdminChat.Panel.StartSend | src/modules/dashboard/components/AdminChatPanel.tsx:194-210 | no selected conversation, a blank message or no user means no insert and no change. Otherwise the trimmed, non-empty message is inserted as the admin's, and the panel is sending. The messages shown are not touched. |
| AdminChat.Panel.FinishSend | src/modules/dashboard/components/AdminChatPanel.tsx:212-239 | the last message is updated only after the insert succeeded, the input is cleared only after both writes succeeded, and sending ends either way; the messages shown are not touched |
| AdminChat.StoredTextsAgree | src/modules/dashboard/components/AdminChatPanel.tsx:207-220 | the stored message and the conversation's last message are the same trimmed, non-empty text |
| TextToSpeech.Prepend | src/pages/tools/TextToSpeechPage.tsx:134 | the text is first and the list keeps at most five entries |
| TextToSpeech.RecentsAfterEndShape | src/pages/tools/TextToSpeechPage.tsx:133-134 | a blank or listed text changes nothing; otherwise the text goes first, followed by the earlier entries cut to at most five in all |
| TextToSpeech.RecentsAfterEndDistinct | src/pages/tools/TextToSpeechPage.tsx:133-134 | a duplicate-free list stays duplicate-free |
| TextToSpeech.EndUpdate | src/pages/tools/TextToSpeechPage.tsx:128-135 | the check sees the list as it was at play time: with that list current, this is the update above; a blank or listed text changes nothing |
| TextToSpeech.WordCountIsWordStarts | src/pages/tools/TextToSpeechPage.tsx:296 | the word count is the number of maximal runs of characters other than white space; it is 0 for blank text and at most the character count |
| TextToSpeech.WordCount | src/pages/tools/TextToSpeechPage.tsx:296 | the word count is the number of places where a word starts, and at most the number of characters |
| TextToSpeech.CharCount | src/pages/tools/TextToSpeechPage.tsx:296 | `text.length` counts UTF-16 code units: between one and two per character, and one per character exactly for text of the Basic Multilingual Plane |
| TextToSpeech.WordStartsCountPieces | src/pages/tools/TextToSpeechPage.tsx:296 | the non-empty pieces of `split(/\s+/)` are counted by the word starts |
| TextToSpeech.Player.SetText | src/pages/tools/TextToSpeechPage.tsx:75-190 | `handleTextChange` (lines 75-77) and `useRecentText` (lines 184-190): the text becomes the typed or chosen text; the recent texts and both flags stay |
| TextToSpeech.Player.PlayPause | src/pages/tools/TextToSpeechPage.tsx:80-143 | playing pauses; a paused speech resumes; blank text asks for nothing and leaves the flags; otherwise an utterance of the text is spoken, cancelling a speech still under way |
| TextToSpeech.Player.Stop | src/pages/tools/TextToSpeechPage.tsx:147-153 | only a speech under way is cancelled, clearing both flags; otherwise nothing changes |
| TextToSpeech.Player.OnStart | src/pages/tools/TextToSpeechPage.tsx:123-126 | playing and speaking |
| TextToSpeech.Player.OnPause | src/pages/tools/TextToSpeechPage.tsx:138 | not playing |
| TextToSpeech.Player.OnResume | src/pages/tools/TextToSpeechPage.tsx:139 | playing |
| TextToSpeech.Player.OnEnd | src/pages/tools/TextToSpeechPage.tsx:128-136 | both flags drop and the recent texts get the end update; the list stays duplicate-free and within five entries when it was at play time |
| TextToSpeech.Player.ClearRecents | src/pages/tools/TextToSpeechPage.tsx:193-194 | the recent texts become empty |
| Tools.InCategoryMembers | src/pages/tools/ToolsPage.tsx:80-86 | a category's group holds exactly the tools of that category |
| Tools.InCategoryIsSubsequence | src/pages/tools/ToolsPage.tsx:84 | within a group the tools keep their catalogue order |
| Tools.ExactlyOneGroup | src/pages/tools/ToolsPage.tsx:80-86 | every tool is in the group of its own category and in no other |
| Tools.GroupsCoverTools | src/pages/tools/ToolsPage.tsx:79-87 | the group sizes add up to the number of tools |
| Tools.NoEmptyGroup | src/pages/tools/ToolsPage.tsx:81-84 | every group holds at least one tool |
| Tools.GroupByCategory | src/pages/tools/ToolsPage.tsx:79-87 | the keys are the distinct categories in first-appearance order and each group is the category's tools in order |
| Tools.Featured | src/pages/tools/ToolsPage.tsx:108 | the first three tools, in order |
| BlogPage.Format | src/pages/blog/BlogPage.tsx:78-94 | id, title, slug and status are copied, and every displayed text field is filled |
| BlogPage.FormatDefaults | src/pages/blog/BlogPage.tsx:82-92 | a missing or empty excerpt, image, author or category name or slug gets its default ("No excerpt available", "/placeholder.svg", "Unknown Author", "Uncategorized", "uncategorized"), whether the joined profile or category is missing or only its column; a filled one is kept; a missing or empty avatar becomes null |
| BlogPage.OrNull | src/pages/blog/BlogPage.tsx:88 | the avatar fallback to null: a filled value is kept, and null or "" give null |
| BlogPage.FormatAll | src/pages/blog/BlogPage.tsx:78 | every row is formatted, in order |
| BlogPage.Displayed | src/pages/blog/BlogPage.tsx:175 | the placeholder posts are shown exactly when no post was fetched |
| BlogPage.CategoryImage | src/pages/blog/BlogPage.tsx:128-135 | on the lowercased category name: "design", then "tech", then "program" or "develop" decide, and the tech image is the last resort |
| BlogPage.PostImageOf | src/pages/blog/BlogPage.tsx:113-136 | a non-http image whose stem is a key gives that image; an http URL is kept; everything else takes the category's image |
| BlogPage.ImagesPathDiffers | src/pages/blog/BlogPage.tsx:115-133 | an "/images/" path that is no key is kept by the blog helpers but replaced by the category image on the blog index |
| BlogPage.NoImageTakesCategory | src/pages/blog/BlogPage.tsx:83-135 | a post fetched without an image shows its category's image |
| BlogPage.BadgeSlugFirstSpace | src/pages/blog/BlogPage.tsx:211 | the badge slug is the lowercased name with only its first space made a dash |
| BlogPage.BadgeSlug | src/pages/blog/BlogPage.tsx:211 | the badge slug has as many characters as the category name |
| Weather.Classify | src/pages/tools/WeatherPage.tsx:92-108 | each icon is chosen exactly when its keywords occur and no earlier keyword does, in the order rain or drizzle, cloud, fog or mist, snow or sleet, thunder or lightning, clear or sun; partly cloudy exactly when none occurs |
| Weather.SunAndCloudUnreachable | src/pages/tools/WeatherPage.tsx:90-108 | `getIcon` is the keyword priority without the sun-and-cloud branch, which never decides; the default icon means neither "clear" nor "sun" |
| Weather.GetIcon | src/pages/tools/WeatherPage.tsx:89-109 | `getIcon`, branch for branch, is the keyword priority on the lowercased condition |
| Weather.GetIconIgnoresCase | src/pages/tools/WeatherPage.tsx:90 | the icon does not depend on letter case |
| Weather.Submitted | src/pages/tools/WeatherPage.tsx:262-273 | blank input keeps the current location; anything else becomes it, untrimmed |
| Weather.EveryThirdHourIndices | src/pages/tools/WeatherPage.tsx:493-494 | the kept hours are those at indices 0, 3, 6, ..., in order, (n + 2) / 3 of them |
| Weather.EveryThirdHour | src/pages/tools/WeatherPage.tsx:493-494 | the hourly strip keeps (n + 2) / 3 of n hours |
| Weather.DayShowsEight | src/pages/tools/WeatherPage.tsx:493-494 | 24 hours show 8 |
| Weather.HourLabel | src/pages/tools/WeatherPage.tsx:509 | "00:00" exactly for hour 0, otherwise the hour without padding and ":00" |
| Strings.TrimEmptyIffBlank | src/modules/dashboard/components/AdminChatPanel.tsx:113 | `trim()` gives the empty string exactly for text made only of white space |
| Strings.TrimIsTrimmed | src/modules/dashboard/components/AdminChatPanel.tsx:207 | a trimmed text neither starts nor ends with white space |
| Strings.SplitJoin | src/pages/tools/CalculatorPage.tsx:176-183 | joining parts without the separator and splitting again gives back the parts |
| Strings.JoinSplit | src/pages/tools/CalculatorPage.tsx:176-183 | splitting and joining again gives back the text |
| Strings.Utf16Length | src/pages/tools/TextToSpeechPage.tsx:296 | JavaScript's `length` lies between the number of characters and twice that |
| Strings.Utf16LengthIsLengthIffBmp | src/pages/tools/TextToSpeechPage.tsx:296 | the JavaScript length equals the number of characters exactly when no character lies outside the Basic Multilingual Plane |
| Strings.Utf16LengthAppend | src/pages/blog/BlogEditorPage.tsx:256-257 | the JavaScript length of a concatenation is the sum of the lengths |
| Strings.LowerIdempotent | src/pages/templates/TemplatesPage.tsx:97 | a lowercased text has no uppercase letter and lowercases to itself |
| Seqs.Distinct | src/pages/templates/TemplatesPage.tsx:106 | `[...new Set(s)]` is duplicate-free and holds exactly the elements of `s` |
| Seqs.DistinctAppend | src/modules/dashboard/pages/TemplateEditPage.tsx:112 | the distinct list of `a + b` starts with that of `a`, and everything after it comes from `b` and is not in `a` |
| Seqs.FilterPartition | src/pages/templates/TemplatesPage.tsx:330-375 | a filter and its negation together keep every element once |
| Seqs.RemoveOne | src/pages/templates/TemplatesPage.tsx:99 | removing a present element from a duplicate-free list takes out exactly one copy |

## Left out

- Supabase reads and writes are left out. Fetched rows and write errors are parameters, and the writes a handler asks for are returned as values.
- The realtime channels are left out. Subscribing and removing a channel are push-based plumbing; only the effect of an INSERT event is modelled.
- Floating point and `eval` in the calculator are left out. `%`, `±` and `=` get their formatted results from the `Numerics` parameter.
- The text-to-speech rate, pitch and volume sliders are left out, because they are floating point.
- The regular-expression markdown renderers are left out, because modelling them needs a full regular-expression engine.
- Dates and timers become parameters: `Date.now()` ids, the publication time, and `toLocaleDateString`. The 1.5-second answer and error delays appear only as separate steps (`Respond`, `ErrorTimeout`).
- Browser APIs are left out: speech synthesis, clipboard, geolocation and focus. Whether speech is paused or speaking is a parameter. A request to the synthesis is a returned value.
- Lengths and positions count Unicode scalar values, while JavaScript's `length`, `substring` and `selectionStart` count UTF-16 code units. The two agree only on text of the Basic Multilingual Plane. A `substring` that ends inside a surrogate pair cannot be represented. `CharCount` and `CaretInCodeUnits` give the code-unit counts where the page shows or uses them.
- BlogEditor.Prefix: takes 150 characters, where `substring(0, 150)` takes 150 UTF-16 code units. The two differ for a title with a character outside the Basic Multilingual Plane among its first 150.
- Letter case covers ASCII only. `toLowerCase` and `toUpperCase` change only ASCII letters, so Unicode case mapping is not modelled.
- `in localImages` is modelled as a test against exactly the three keys. Names inherited from `Object.prototype` are not modelled.
- `Object.entries` puts integer-like keys first, and `!acc[tool.category]` is false for a name inherited from `Object.prototype` (such as `constructor` or `toString`), whose `push` would then throw. The tools page's categories are assumed to be neither, so its groups come in first-appearance order.
- `handleChange` is modelled for the six text fields of the template form only. An input named after another key is not modelled.
- The templates page's fetch, with its placeholder templates for an empty or failed answer, is left out, because it is I/O.
- The loading flags set around fetches are left out, as are toasts, navigation apart from the save's target, icons and markup.
- The admin chat panel's read of the selected conversation's messages is a database read: its rows are the parameter of `AdminChat.Panel.MessagesLoaded`, and its error toast is left out.
- The weather demo data made with `Math.random` is left out.
- BlogUtils.ProcessedRendersTags: proved only for content with no '_' outside the fences or in a language or file name, and no '$' in a file name. Otherwise a placeholder may be found in the wrong place, or `$` may be read as a replacement pattern. `ProcessContent` itself is modelled for all content.
- Templates.ToggleTwice: for a technology that is already active, it states only that the same technologies come back with the toggled one at the end, because the toggle really moves it to the end.
- Calculator.CalculatorPage.ErrorTimeout: fires whenever called. The model does not capture that it runs 1.5 seconds later, when another key may already have changed the display.
- AIChat.ChatPage.Respond and TextToSpeech.Player.OnEnd: the handlers read state captured when the message was sent or play was pressed, as the source's closures do. `Respond` takes the captured list, and `OnEnd` takes the list as it was at play time.
