# Lezioni-da-YouTube — a verified model of its string logic

Lezioni-da-YouTube is a Streamlit app. It takes a YouTube link, fetches the video's
transcript, and turns it into a Markdown "scheda di lezione" (lesson card). This project
models the pure logic of `app.py` in Dafny and proves what that logic promises:

- **`extract_video_id`** (module `VideoId`, `videoid.dfy`): four fixed patterns are tried
  in list order with `re.search`, and each captures an 11-character token over
  `[A-Za-z0-9_-]`. The search follows the regex engine's own order. It tries the leftmost
  start first and, at each start, the optional scheme and `www.` in backtracking order.
  The search is then proved equal to a scan for the leftmost anchor literal whose tail
  matches. On top of that scan the model proves:
  - soundness;
  - the "no anchor, no id" rule;
  - the pattern order;
  - the watch form's "last `&v=` on the line wins" rule.
- **`escape_markdown`** (module `Markdown`, `markdown.dfy`): the loop of sixteen global
  `replace` passes is a method with a loop invariant, proved equal to a per-character
  escape `Escape`. The model then proves facts about `Escape`:
  - its exact length;
  - where each input character lands in the output;
  - that it is not idempotent;
  - the unescape round-trip in both directions.
- **`generate_lesson_from_text`** (module `Lesson`, `lesson.dfy`):
  - The word count follows Python's `str.split()` with the full `str.isspace` set.
  - The 500-character preview is modelled with its ellipsis.
  - The card is a template with three holes, filled by the method
    `GenerateLessonFromText`. It calls the escaping loop twice.
  - Lemmas read the count, the preview and the transcript back out of the card.
- **`get_transcript`** (module `Transcript`, `transcript.dfy`): the choice of track, the
  join of the segment texts with single spaces, and the mapping of the service's three
  named failures to messages. The transcript service is an input: what listing the
  tracks yields and what fetching a track yields.
- **The pieces together** (module `LessonTool`, `pipeline.dfy`): the word count of a
  joined transcript is the sum of its segments' word counts. One watch URL is also
  followed through to its card.

`Wrappers` (`wrappers.dfy`) holds the `Option` and `Result` datatypes.

The escaping loop can look as if later passes re-escape the backslashes that earlier
passes inserted. They do not. The loop handles the backslash first, so a backslash
inserted by a later pass is never escaped again. `EscapeMarkdown` and
`ReplaceExtendsEscape` prove this. The model follows the code: every special character
gains exactly one backslash. Escaping is still not idempotent, because escaping twice
adds more backslashes (`EscapeNotIdempotent`).

## Model

| member | source | states |
|---|---|---|
| Markdown.ReplaceChar | app.py:129 | `str.replace` with a one-character target: a text without the target comes back unchanged |
| Markdown.ReplaceCharConcat | app.py:129 | a global replace of one character acts on each part of a concatenation separately |
| Markdown.SpecialCharsDistinct | app.py:127 | the list holds 16 distinct characters, and the backslash comes first |
| Markdown.SpecialCharFresh | app.py:127-128 | the loop meets each character once, and after the first pass it never meets the backslash |
| Markdown.ReplaceExtendsEscape | app.py:128-129 | one replace pass, applied to text already escaped for the earlier characters, also escapes the new character |
| Markdown.EscapeMarkdown | app.py:124-130 | the sequential loop of sixteen replaces returns `Escape(text)`, the single per-character escape |
| Markdown.EscapePlain | app.py:124-130 | a text without special characters is left unchanged |
| Markdown.EscapeChar | app.py:127-129 | a special character becomes a backslash followed by itself; any other character is unchanged |
| Markdown.EscapeConcat | app.py:128-129 | escaping acts character by character, so it distributes over concatenation |
| Markdown.EscapeLength | app.py:124-130 | output length = input length + number of special characters |
| Markdown.EscapeAt | app.py:124-130 | the escape of input character `i` starts at output index `i` + (specials before it): `\` then the character when it is special, the character alone otherwise |
| Markdown.CountSpecialOfEscape | app.py:124-130 | escaped text holds twice as many special characters as the input |
| Markdown.EscapeNotIdempotent | app.py:124-130 | escaping a text that holds a special character twice differs from escaping it once |
| Markdown.UnescapeEscape | app.py:124-130 | deleting the backslash before each special character gives back the original text |
| Markdown.EscapeWellEscaped | app.py:124-130 | escaped output leaves no special character without its own backslash |
| Markdown.EscapeUnescape | app.py:124-130 | every well-escaped text is the escape of its unescaping (the converse round-trip) |
| Markdown.EscapeAroundSpecials | app.py:127-129 | three ordinary characters around `*` and `_` keep their places; the two specials each gain a backslash |
| Markdown.EscapeExample | app.py:124-130 | `a*b_c` escapes to `a\*b\_c` |
| VideoId.ExtractVideoId | app.py:18-46 | `extract_video_id` itself; no ensures of its own: stated by ExtractSound, ExtractWithoutAnchor, ExtractWatchForm, ExtractWatchLastParam, ExtractBareForm, ExtractShortForm |
| VideoId.FirstMatch | app.py:41-46 | the loop over the four patterns with its early return; no ensures of its own: stated by FirstMatchSpec and FirstMatchAt |
| VideoId.SearchFrom | app.py:42 | `re.search`: the leftmost start at which the pattern matches; no ensures of its own: stated by SearchFromIsScan and SearchIsScan against the scan `ScanFrom`, whose meaning ScanFromSpec gives |
| VideoId.MatchWith | app.py:35-38 | one match attempt at a start, trying the optional scheme and `www.` in backtracking order; no ensures of its own: stated by MatchWithAtAnchor and MatchWithLands |
| VideoId.AmpScan | app.py:35 | `(?:.*&)?v=` with a greedy `.*` that backs off from the line end; no ensures of its own: stated by AmpScanLast, AmpScanNone and AmpScanFrom |
| VideoId.IdAt | app.py:35-38 | the capture `([a-zA-Z0-9_-]{11})` yields an 11-character token over the class, taken from the URL at that index |
| VideoId.LineEnd | app.py:35 | the stretch `.*` may cover ends at the first line break or at the end of the text |
| VideoId.AmpScanLast | app.py:35 | in `(?:.*&)?v=`, the last `&v=<token>` before the line end wins, whatever comes before it |
| VideoId.AmpScanNone | app.py:35 | with no `&v=<token>` on the line, `v=` is read right after `watch?` |
| VideoId.AmpScanFrom | app.py:35 | the watch tail reads `v=` either right after `watch?` or right after some `&` on the line |
| VideoId.ScanFromSpec | app.py:42 | the scan gives the match at the leftmost anchor occurrence that has one, and nothing when no occurrence has one |
| VideoId.PrefixesAndAnchors | app.py:35-38 | no optional prefix contains `y`, and every anchor literal starts with `y` |
| VideoId.MatchWithAtAnchor | app.py:35-38 | at an anchor occurrence, the backtracking over prefixes settles on the empty prefix |
| VideoId.MatchWithLands | app.py:35-38 | a match at a start is an anchor match right after one of the prefixes |
| VideoId.ScanSkip | app.py:42 | the scan passes over a stretch where no anchor match starts |
| VideoId.SearchFromIsScan | app.py:42 | `re.search` over scheme, `www.`, anchor and tail finds the same token as the leftmost-anchor scan |
| VideoId.PrefixThenAnchor | app.py:35-38 | a prefix followed by an anchor match: the scan from the next index reaches that same match |
| VideoId.SearchIsScan | app.py:42 | `re.search` of one pattern equals the leftmost-anchor scan over the whole URL |
| VideoId.WatchAmpSound | app.py:35 | a token read after an `&v=` on the `youtube.com/watch?` line sits right after that `&v=` |
| VideoId.WatchDirectSound | app.py:35 | a token read right after `youtube.com/watch?v=` sits right after that marker |
| VideoId.AnchorMatchSound | app.py:35-38 | a token one pattern finds is a valid id that sits in the URL right after that pattern's marker |
| VideoId.ExtractSound | app.py:34-46 | the result is `None` or an 11-character `[A-Za-z0-9_-]` token found in the URL right after `youtu.be/`, `youtube.com/embed/`, `youtube.com/v/`, `youtube.com/watch?v=`, or after an `&v=` on the `watch?` line |
| VideoId.ExtractWithoutAnchor | app.py:41-46 | a URL without any of the four anchor literals gives `None` |
| VideoId.ScanPastPlainText | app.py:35-38 | text without a `y` in front of the anchor holds no match, so the scan passes over it |
| VideoId.SearchBareForm | app.py:36-38 | short, embed and legacy links: optional scheme and `www.`, the anchor, a token, and anything after it give that token |
| VideoId.ScanBareForm | app.py:36-38 | the same for the leftmost-anchor scan |
| VideoId.SearchWatchForm | app.py:35 | `[scheme][www.]youtube.com/watch?v=<token><rest>` gives the token when `rest` holds no `&v=` |
| VideoId.ScanWatchForm | app.py:35 | the same for the leftmost-anchor scan |
| VideoId.ScanWatchAnchored | app.py:35 | after text without a `y`, the watch anchor and a query whose tail matches, that tail decides |
| VideoId.WatchTailAt | app.py:35 | `v=<token>` right after `watch?`, with no later `&v=`, gives the token; characters after it are ignored |
| VideoId.WatchTailLastParam | app.py:35 | other parameters may come before `&v=<token>` on the line; with no later `&v=`, that token is the result |
| VideoId.ExtractWatchLastParam | app.py:34-46 | `extract_video_id` of `…youtube.com/watch?<q>&v=<token><rest>` is that token, whatever `q` holds on the same line |
| VideoId.ExtractBareForm | app.py:34-46 | when no earlier pattern's anchor occurs, a short, embed or legacy link gives its token; pattern order decides |
| VideoId.FirstMatchAt | app.py:41-44 | the first pattern in list order that matches decides the result |
| VideoId.FirstMatchSpec | app.py:41-46 | the result is that of the first matching pattern, with all earlier ones failing; `None` only when every pattern fails |
| VideoId.ExtractWatchForm | app.py:34-46 | `extract_video_id` of `[scheme][www.]youtube.com/watch?v=<token><rest>` is the token when `rest` holds no `&v=` |
| VideoId.ExtractWatchExample | app.py:34-46 | `https://www.youtube.com/watch?v=ABCDEFGHIJK&t=5s` gives `ABCDEFGHIJK` |
| VideoId.AbsentChar | app.py:35-38 | a literal holding a character the URL lacks occurs nowhere in it |
| VideoId.ExtractShortForm | app.py:34-46 | a `youtu.be/<token>` link without any `?` gives its token |
| Transcript.JoinTexts | app.py:88 | `" ".join(...)` of the segment texts; no ensures of its own: stated by JoinLength, JoinAppend and SplitJoin |
| Transcript.Raise | app.py:92-97 | the three `except` clauses; no ensures of its own: stated by RaiseDistinguishes |
| Transcript.ChooseTrack | app.py:73-82 | `find_transcript(['it', 'en'])`, else the first track listed, else `NoTranscriptFound`; no ensures of its own: stated by PreferredTrackDecides, FallsBackToFirstTrack and NoTrackIsNotFound |
| Transcript.GetTranscript | app.py:65-97 | `get_transcript` given what the service yields; no ensures of its own: stated by GetTranscriptOutcome, PreferredTrackDecides, FallsBackToFirstTrack and NoTrackIsNotFound |
| Transcript.SplitOnSpace | app.py:88 | the inverse that the join at app.py:88 is checked against (`SplitJoin`): splitting on single spaces always yields at least one piece |
| Transcript.JoinLength | app.py:88 | the joined text is as long as the texts plus one space between each pair |
| Transcript.JoinAppend | app.py:88 | joining keeps segment order: joining two runs gives their joins around a single space |
| Transcript.SplitWord | app.py:88 | splitting after a space-free text gives that text back as the first piece |
| Transcript.SplitJoin | app.py:88 | when no text holds a space, splitting the join on single spaces gives back the texts, in order |
| Transcript.RaiseDistinguishes | app.py:92-97 | disabled, not-found and unavailable each get their own message; other failures propagate unchanged |
| Transcript.PreferredTrackDecides | app.py:73-88 | a track `find_transcript(['it', 'en'])` picks decides the result, and on success the result is its segments joined |
| Transcript.FallsBackToFirstTrack | app.py:75-79 | with no Italian or English track, only the first listed track matters |
| Transcript.NoTrackIsNotFound | app.py:80-82 | no track at all is reported as "Nessuna trascrizione trovata per questo video." |
| Transcript.GetTranscriptOutcome | app.py:65-97 | success is the chosen track's segments joined; every failure is the mapping of some service failure |
| Transcript.JoinExample | app.py:88 | segments `Hello` and `world` join to `Hello world` |
| Lesson.WordCount | app.py:133 | `len(transcript_text.split())`; no ensures of its own: stated by WordCountIsRunStarts, NoWordsIffAllSpace and, for `Words`, by WordsCoverText, WordsAroundSpace and WordsOfWord |
| Lesson.FillCard | app.py:141-203 | the f-string with its three holes; no ensures of its own: stated by FillPreviewSlice, FillTranscriptSlice and FillCountLine |
| Lesson.LessonCard | app.py:141-203 | the card `generate_lesson_from_text` returns; no ensures of its own: stated by GenerateLessonFromText, CardCount, CardCountLine, CardPreview and CardTranscript |
| Lesson.WordLen | app.py:133 | a word runs up to the first whitespace character and holds none |
| Lesson.Words | app.py:133 | every piece of `split()` is non-empty and holds no whitespace |
| Lesson.RunStartsInWord | app.py:133 | inside a word no new run starts |
| Lesson.RunStartsAtSpace | app.py:133 | after whitespace, a text counts its runs as if it were the start of the text |
| Lesson.WordCountIsRunStarts | app.py:133 | the word count is the number of places where a run of non-whitespace begins |
| Lesson.NonSpaceConcat | app.py:133 | removing whitespace distributes over concatenation |
| Lesson.NonSpaceOfWord | app.py:133 | a word loses nothing when whitespace is removed |
| Lesson.WordsCoverText | app.py:133 | the words, put back together, are the text with its whitespace removed |
| Lesson.NoWordsIffAllSpace | app.py:133 | the word count is 0 exactly when every character is whitespace (the empty text included) |
| Lesson.WordLenBeforeSpace | app.py:133 | whitespace after a text ends its first word where it would end anyway |
| Lesson.WordsOfWord | app.py:133 | a non-empty text without whitespace is one word |
| Lesson.WordsAroundSpace | app.py:133 | a whitespace character between two texts separates their words: the words are those of each side, in order |
| Lesson.Preview | app.py:134 | a text of at most 500 characters is its own preview; a longer one gives its first 500 characters plus `...` (503 in all) |
| Lesson.EscapedPreview | app.py:134-138 | the preview is escaped after truncation. A long text's escaped preview starts the escaped transcript and ends in `\.\.\.`, with its exact length |
| Lesson.DecimalString | app.py:144 | `str(n)` is a non-empty string of decimal digits with no leading zero |
| Lesson.ParseDecimalString | app.py:144 | the decimal digits of `n` read back as `n` |
| Lesson.GenerateLessonFromText | app.py:133-205 | the card is the template filled with the decimal word count, the escaped preview and the escaped transcript, each escaped by the loop |
| Lesson.CardOfPlain | app.py:133-203 | a transcript of at most 500 characters with no special character appears unchanged as both the preview and the full transcript |
| Lesson.FillPreviewSlice | app.py:144-150 | in the filled template, the preview stands between the text after the count and the fixed sections |
| Lesson.FillTranscriptSlice | app.py:196-203 | the filled template ends with the transcript and then the closing lines |
| Lesson.CardCountSlice | app.py:141-144 | the card opens with the fixed head, and the word count in decimal follows it |
| Lesson.CardCount | app.py:141-144 | the number written after the head reads back as the word count of the raw transcript |
| Lesson.CardPreviewSlice | app.py:144-150 | after the text that follows the count comes the escaped preview, then the fixed sections |
| Lesson.CardPreview | app.py:144-150 | unescaping the card's preview slice gives the preview back |
| Lesson.CardTranscriptSlice | app.py:196-203 | the card ends with the escaped full transcript and then the closing `</details>` block |
| Lesson.CardTranscript | app.py:196-203 | unescaping the block before the closing lines gives the full transcript back |
| Lesson.FillCountLine | app.py:141-147 | in a filled template whose head ends with a label and whose text after the count starts with a unit, the label, the count and the unit stand side by side |
| Lesson.TemplateCountLine | app.py:144 | the lesson card's template, filled with any count, writes `- **Lunghezza trascrizione**: <count> parole` |
| Lesson.CardCountLine | app.py:133-144 | the card of a transcript holds the line `- **Lunghezza trascrizione**: <n> parole`, with `n` its word count in decimal |
| Lesson.CountLine | app.py:144 | the count stands between `- **Lunghezza trascrizione**: ` and ` parole` |
| LessonTool.WordCountOfTranscript | app.py:133 | the word count of the transcript `get_transcript` joins (app.py:88) is the sum of the segments' word counts |
| LessonTool.TwoWords | app.py:133 | two one-word segments make a two-word transcript |
| LessonTool.TwoWordPlainCard | app.py:133-203 | two one-word segments whose join is short and holds no special character: the card writes 2 as the count and the join, unchanged, as preview and transcript |
| LessonTool.HelloWorldPlain | app.py:127 | `Hello world` fits the preview and holds no special character |
| LessonTool.HelloWorldCard | app.py:133-203 | the segments `Hello` and `world` join to `Hello world`, counted as 2 words, and the card shows `2` and then `Hello world` twice, unescaped |
| LessonTool.WatchUrlToLessonExample | app.py:35 | `https://www.youtube.com/watch?v=ABCDEFGHIJK&t=5s` gives `ABCDEFGHIJK`; a service offering one English track with `Hello` and `world` gives `Hello world`, and its card is the template filled with `2`, `Hello world` and `Hello world` |

## Left out

- `main()` and the Streamlit UI are not modelled: layout, spinners, the video embed, the
  download button and its file name `lezione_<id>.md`.
- The transcript service is not modelled: `YouTubeTranscriptApi().list`, `fetch`, and how
  `find_transcript(['it', 'en'])` ranks tracks. What they yield is an input:
  - the chosen preferred track, if any;
  - the tracks in iteration order;
  - per track, its segments or a failure.
- Segment timing is dropped: only each segment's `text` is kept.
- Exceptions other than the three named ones are modelled as passed through unchanged
  (`OtherFailure`). The model does not say what Python prints for them.
- General regular-expression semantics are not modelled. Only the four fixed patterns are,
  as direct matchers.
- `str.replace` is modelled only for the one-character targets the escaper uses.
- The emoji and Italian prose of the card are constant strings. Only where the three
  values sit between them is proved.
