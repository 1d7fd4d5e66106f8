# Document review backend: a verified model of its deterministic core

The backend lets a user upload a markdown document, have several AI reviewer personas
comment on it paragraph by paragraph, and merge those comments into a short meta-review.
Around the calls to the language model sits ordinary deterministic logic, and that logic is
what this project models in Dafny and proves properties of:

- **Meta-review synthesis** (`meta_service.dfy`, module `MetaService`):
  - grouping comments by location (stable sort on `(start_line, end_line)`, then merging
    every comment that starts within 2 lines of the running group end);
  - the fallback that turns each group into one meta-comment;
  - stripping code fences from the model's reply;
  - source matching by persona name, de-duplicated by comment id;
  - resolving each finding's line range and defaults.
- **Personas and paragraph-anchored review** (`review_service.dfy`, module `ReviewService`):
  - the four-persona registry and the selection rule;
  - the paragraph splitter;
  - the `[PARAGRAPH n]` tag parser, modelled as Python's `re.findall` runs it, backtracking
    included;
  - the comment stream, persona after persona.
- **Review endpoints** (`reviews_api.dfy`, module `ReviewsApi`):
  - title extraction with `^#\s+(.+)$` under `re.MULTILINE`, backtracking included;
  - the `.md` upload check and the raw upload;
  - the 404 and version hash of a review start;
  - the server-sent-event sequence and the websocket message sequence.
- **Request guards** (`security.dfy`, module `Security`):
  - client-address extraction;
  - the per-address sliding-window rate limiter, a `RateLimiter` class whose `requests` map
    the methods update in place;
  - the CSRF decision, a method driven by an `originValid` flag, proved equal to a
    declarative statement of the rule.
- **Health aggregation** (`status.dfy`, module `Status`): the three checks, the disk
  thresholds and the "worst status wins" roll-up.

`text.dfy` (module `Text`) models the Python `str` operations these rely on (`strip`,
`split`, `join`, `find`, `startswith`, ASCII `title`). `wrappers.dfy` holds `Option`.

The model's inputs stand in for everything nondeterministic or external:
- each persona's model reply is an `Option<string>`, where `None` means the call raised;
- `json.loads` is a function parameter that may fail;
- the clock readings are integers;
- the database probe is a boolean and free disk space is a byte count;
- the document store is a map from id to content and version hashes.

Two behaviours of the code a reader may not expect:
- A failing model call does not just drop that persona's comments. The exception escapes
  `review_document`, so the stream ends at that persona. The SSE stream then carries no
  done event, and the websocket sends an error message in place of `done`.
- Personas are reviewed one after another, not concurrently, despite the comment at
  `backend/services/review_service.py:174`.

## Model

| member | source | states |
|---|---|---|
| MetaService.Insert | backend/services/meta_service.py:22 | inserting into a sorted list adds exactly one element and keeps the multiset |
| MetaService.SortByLocation | backend/services/meta_service.py:22 | the sort is a permutation of its input |
| MetaService.InsertSorted | backend/services/meta_service.py:22 | insertion keeps the list sorted by `(start_line, end_line)` |
| MetaService.InsertStable | backend/services/meta_service.py:22 | insertion puts a comment before the equal-keyed comments already there; since the sort inserts each element into the sorted rest of the list, an earlier element ends up ahead of later ones with the same key (stability of `sorted`) |
| MetaService.SortByLocationSpec | backend/services/meta_service.py:22 | the result is sorted by `(start_line, end_line)`, is a permutation of the input, and keeps the input order among equal keys |
| MetaService.MaxEnd | backend/services/meta_service.py:33 | the running group end is the largest `end_line` of the group's comments and is attained |
| MetaService.MaxEndSnoc | backend/services/meta_service.py:33 | the running end after one more comment is the larger of the old end and that comment's `end_line` |
| MetaService.ChainedSnoc | backend/services/meta_service.py:32-34 | a comment starting within 2 lines of the running end keeps the group chained |
| MetaService.ExtendOk | backend/services/meta_service.py:32-34 | a comment starting within 2 lines of the group end joins it and the group stays well formed (smallest start first, largest end, chained) |
| MetaService.CloseOk | backend/services/meta_service.py:35-41 | closing a well-formed group keeps every closed group well formed |
| MetaService.FlattenAppend | backend/services/meta_service.py:36 | closing a group appends its comments to the concatenation of all groups |
| MetaService.SeparatedReplaceLast | backend/services/meta_service.py:32-34 | growing the open group keeps every group more than 2 lines after the previous one |
| MetaService.SeparatedPush | backend/services/meta_service.py:35-41 | a new group opens only more than 2 lines after the previous group's end |
| MetaService.GroupRunFlatten | backend/services/meta_service.py:30-43 | the groups' comment lists concatenate to the visited comments in order, so every comment lands in exactly one group |
| MetaService.GroupRunSeparated | backend/services/meta_service.py:30-43 | each group starts more than 2 lines after the previous group ends |
| MetaService.GroupRunOk | backend/services/meta_service.py:24-43 | every group starts at its smallest `start_line`, ends at its largest `end_line`, and each comment joined within 2 lines of the running end |
| MetaService.GroupingOfSorted | backend/services/meta_service.py:24-43 | grouping sorted comments yields a separated partition of them into well-formed groups |
| MetaService.SortedTail | backend/services/meta_service.py:30 | the comments after the first are still sorted and start no earlier |
| MetaService.GroupsWellFormed | backend/services/meta_service.py:17-44 | no groups exactly for no comments; the groups concatenate to the stably sorted input (a permutation); groups are well formed and separated |
| MetaService.Groups | backend/services/meta_service.py:17-44 | there are no more groups than comments, and none exactly when there are no comments |
| MetaService.GroupRunKeepsClosed | backend/services/meta_service.py:30-44 | the loop never changes a closed group, closes the open group at the end, and opens at most one group per further comment |
| MetaService.GroupCommentsByLocation | backend/services/meta_service.py:17-44 | the grouping loop computes exactly the grouping specified above, with its partition and separation properties |
| MetaService.SourcesOf | backend/services/meta_service.py:167-175 | one source per comment, in order, copying persona id, name, colour and content |
| MetaService.SourcesOfConcat | backend/services/meta_service.py:167-175 | sources of concatenated comment lists are the concatenated sources |
| MetaService.FallbackSourcesInOrder | backend/services/meta_service.py:163-186 | the fallback's sources, read meta-comment by meta-comment, are the sources of all grouped comments in order |
| MetaService.FallbackSynthesis | backend/services/meta_service.py:161-186 | one meta-comment per group in group order, with the group's range, contents joined by `" | "`, category `clarity`, priority `medium` and one source per comment |
| MetaService.FallbackKeepsEveryComment | backend/services/meta_service.py:161-186 | the fallback cites every input comment exactly once, in sorted order, so the number of sources equals the number of comments |
| MetaService.StripFences | backend/services/meta_service.py:96-102 | the cleaned reply has no whitespace at either end; a reply that does not start with three backticks after `strip()` is only stripped |
| MetaService.AfterOpeningLine | backend/services/meta_service.py:100 | dropping the opening fence line leaves exactly what follows the first newline |
| MetaService.BeforeClosingFence | backend/services/meta_service.py:102 | cutting at the last three backticks removes a closing fence and nothing else |
| MetaService.FenceRoundTrip | backend/services/meta_service.py:96-102 | a fenced reply (opening line, payload, closing fence) is cleaned to the stripped payload |
| MetaService.OneLineFenceRoundTrip | backend/services/meta_service.py:98-102 | a one-line fenced reply (fence, payload without newline, fence) loses its three opening backticks and its closing fence, leaving the stripped payload |
| MetaService.OneLineFenceShape | backend/services/meta_service.py:100 | a one-line fenced reply starts with the fence, holds no newline, and after its first three characters is the payload followed by the fence |
| MetaService.FencedReplyShape | backend/services/meta_service.py:98-100 | a fenced reply starts with the fence and contains a newline, so the first-line branch is taken |
| MetaService.FencedReplyUnpadded | backend/services/meta_service.py:96 | a reply that begins and ends with a backtick is unchanged by `strip()` |
| MetaService.MatchingSpec | backend/services/meta_service.py:119-132 | cited comments come from the grouped list in order, were written by a contributing persona, have pairwise distinct ids, and every comment by a contributing persona has its id cited |
| MetaService.MatchingCitesFirst | backend/services/meta_service.py:124-132 | of several comments by contributing personas that share an id, the first is the one cited: a comment whose id is unseen and differs from every earlier named comment's id is cited itself |
| MetaService.Matching | backend/services/meta_service.py:119-132 | at most one citation per comment, each by a named persona and with an id not already seen |
| MetaService.FromFinding | backend/services/meta_service.py:119-157 | a finding's meta-comment has at most one source per grouped comment, each by a persona the finding names |
| MetaService.MatchingStep | backend/services/meta_service.py:124-132 | one turn of the loop: a comment by a contributing persona with an unseen id is cited and its id marked seen; any other is skipped and the seen set is unchanged |
| MetaService.MatchSources | backend/services/meta_service.py:122-132 | the loop with its `seen_ids` set produces exactly the sources of the matching comments |
| MetaService.MinFirst | backend/services/meta_service.py:137 | the smallest first element of the ranges, attained by one of them |
| MetaService.MaxSecond | backend/services/meta_service.py:138 | the largest second element of the ranges, attained by one of them |
| MetaService.ResolveRange | backend/services/meta_service.py:134-146 | non-empty `line_ranges` give `(min first) - 1` to `(max second) - 1`; else an in-bounds `group_index` (default 0) gives that group's range; else `(0, 0)` |
| MetaService.MetaCommentsOf | backend/services/meta_service.py:112-159 | one meta-comment per finding, in order, each with matched sources, resolved range and defaults `""`, `clarity`, `medium` |
| MetaService.Synthesize | backend/services/meta_service.py:46-159 | no comments: `[]` without calling the model; a failed call or decode: the fallback over the groups; otherwise one meta-comment per decoded finding |
| ReviewService.PersonaIds | backend/services/review_service.py:68 | the registry's ids, in order |
| ReviewService.Lookup | backend/services/review_service.py:70-71 | a persona is found exactly when its id is registered, and the one found has that id |
| ReviewService.GetPersona | backend/services/review_service.py:70-71 | `get_persona` finds exactly the registered ids and returns `None` for any other |
| ReviewService.ListPersonas | backend/services/review_service.py:73-74 | the four default personas, with distinct ids, each of which `get_persona` finds again |
| ReviewService.LookupDistinct | backend/services/review_service.py:68 | in a registry with distinct ids, looking up a persona's id gives that persona |
| ReviewService.Known | backend/services/review_service.py:118-119 | the selection keeps only registered personas and at most one per requested id |
| ReviewService.KnownOfIds | backend/services/review_service.py:118-119 | selecting by the ids of registered personas gives those personas back |
| ReviewService.SelectAll | backend/services/review_service.py:118-119 | `None` or an empty list selects the whole registry in registry order |
| ReviewService.Select | backend/services/review_service.py:118-119 | each selected persona is in the registry and is what a lookup of its id finds; a non-empty request selects at most as many personas as it names |
| ReviewService.SelectPersonas | backend/services/review_service.py:118-119 | each selected persona is what `get_persona` returns for its id, and no list selects all four registered personas in order |
| ReviewService.SelectCounts | backend/services/review_service.py:118-119 | a registered id is selected as many times as it was requested (duplicates kept); an unknown id never |
| ReviewService.SelectKeepsOrder | backend/services/review_service.py:118-119 | the selected personas follow the request order |
| ReviewService.Close | backend/services/review_service.py:84-92 | closing a run of non-blank lines appends it as the next paragraph, numbered by position |
| ReviewService.CloseRuns | backend/services/review_service.py:85-90 | the closed paragraph is a maximal run, with its lines joined by newlines |
| ReviewService.CloseGaps | backend/services/review_service.py:84-92 | consecutive paragraphs stay apart with only blank lines between them |
| ReviewService.SkipBlank | backend/services/review_service.py:84-93 | a blank line outside a paragraph changes nothing |
| ReviewService.Flush | backend/services/review_service.py:98-104 | the paragraph open at a blank line or at the end is emitted with its start, end and index |
| ReviewService.ScanClose | backend/services/review_service.py:84-92 | the loop invariant survives a blank line that ends a paragraph |
| ReviewService.ScanBlank | backend/services/review_service.py:84 | the loop invariant survives a blank line between paragraphs |
| ReviewService.ScanLine | backend/services/review_service.py:93-96 | the loop invariant survives a non-blank line, which opens or extends the current paragraph |
| ReviewService.ScanEnd | backend/services/review_service.py:98-104 | after the last line, flushing the open paragraph completes the paragraphing |
| ReviewService.ScanDone | backend/services/review_service.py:98 | with no paragraph open after the last line, the paragraphs listed so far are the paragraphing |
| ReviewService.ScanFinish | backend/services/review_service.py:98-104 | after the last line, flushing the open paragraph if there is one completes the paragraphing |
| ReviewService.ScanStep | backend/services/review_service.py:83-96 | one turn of the loop (a blank line closes the open paragraph, a non-blank one opens or extends it) keeps the loop invariant |
| ReviewService.OpenRun | backend/services/review_service.py:84-90 | the open lines closed by a blank line or the end form a maximal run, and their newline join is the paragraph built for it |
| ReviewService.ParseLines | backend/services/review_service.py:83-104 | the loop yields exactly the maximal runs of non-blank lines, in order, numbered by position, each joined by newlines |
| ReviewService.ParseDocumentStructure | backend/services/review_service.py:76-106 | the paragraphs of the content split on `'\n'` are exactly its maximal runs of lines whose `strip()` is non-empty |
| ReviewService.OutsideIsBlank | backend/services/review_service.py:83-96 | every line outside all paragraphs is blank |
| ReviewService.OutsideFrom | backend/services/review_service.py:83-96 | a line outside all paragraphs, at or after paragraph `k`, is blank |
| ReviewService.Covered | backend/services/review_service.py:83-104 | every non-blank line lies in exactly one paragraph |
| ReviewService.Ordered | backend/services/review_service.py:84-92 | paragraphs are in document order and do not overlap |
| ReviewService.OrderedFrom | backend/services/review_service.py:84-92 | any earlier paragraph ends before any later one starts |
| ReviewService.NoParagraphs | backend/services/review_service.py:83-104 | there are no paragraphs exactly when every line is blank |
| ReviewService.EmptyContent | backend/services/review_service.py:79-98 | empty content has no paragraphs |
| ReviewService.SkipSpaces | backend/services/review_service.py:150 | greedy `\s*`: the longest run of whitespace from a position |
| ReviewService.SkipDigits | backend/services/review_service.py:150 | greedy `\d+`: the longest run of digits from a position |
| ReviewService.SkipSpacesRun | backend/services/review_service.py:150 | every character `\s*` passes over is whitespace |
| ReviewService.SkipDigitsAll | backend/services/review_service.py:150 | every character `\d+` passes over is a digit |
| ReviewService.BodyEnd | backend/services/review_service.py:150 | the lazy body ends at the next `[PARAGRAPH` after its first character, or at the end |
| ReviewService.TagAt | backend/services/review_service.py:150-151 | a match of the tag pattern spans at least the marker, a digit, `]` and one body character, and ends within the reply |
| ReviewService.Tags | backend/services/review_service.py:150-151 | `findall`'s matches do not overlap: each takes at least 13 characters of the text after the starting position |
| ReviewService.TagsAt | backend/services/review_service.py:150-151 | from a marker position, each match takes at least 13 characters of the rest of the text |
| ReviewService.NatStr | backend/services/review_service.py:154 | a number written in decimal is a non-empty run of digits |
| ReviewService.NatStrValue | backend/services/review_service.py:154 | `int()` of a number's decimal digits is that number |
| Text.IndexFromSkips | backend/services/review_service.py:151 | the search for the next marker passes over a stretch without one |
| ReviewService.NoMarkerAt | backend/services/review_service.py:150 | no marker starts at a character other than `[` |
| ReviewService.NoMarkerIn | backend/services/review_service.py:150 | no marker starts in a stretch without `[` |
| ReviewService.TagAtHead | backend/services/review_service.py:150 | a marker, digits, `]` and a non-space character match with that number and the body up to the next marker |
| ReviewService.HeadScan | backend/services/review_service.py:150 | on `[PARAGRAPH`, one space, digits, `]`, one space and a non-space character, `\s*`, `\d+` and `\s*` match exactly the space, the digits and the space |
| ReviewService.SkipDigitsOver | backend/services/review_service.py:150 | `\d+` over a run of digits stops at the non-digit after it |
| ReviewService.SkipOneSpace | backend/services/review_service.py:150 | `\s*` over one space before a non-space character takes exactly that space |
| ReviewService.LaidBodyEnd | backend/services/review_service.py:150 | the body of a tag written as the prompt asks, without `[`, runs exactly to the next tag or the end |
| ReviewService.LaidHead | backend/services/review_service.py:150 | a tag written as the prompt asks (`[PARAGRAPH X] comment`) with decimal digits and a plain body is readable by the pattern where it stands |
| ReviewService.RenderPieces | backend/services/review_service.py:135 | where the marker, digits, `]` and body of a written tag sit in its text |
| ReviewService.RenderAt | backend/services/review_service.py:135 | a written tag followed by nothing or another tag is laid out at fixed positions, with the next tag or the end right after it |
| ReviewService.RenderLaidOut | backend/services/review_service.py:135 | written tags one after another are laid out one after another up to the end |
| ReviewService.LaidReadOut | backend/services/review_service.py:150-151 | laid-out tags match one after another, each with its number and body, each match ending where the next tag starts |
| ReviewService.BodyEndPlain | backend/services/review_service.py:150 | a body without `[` ends exactly at the next marker or the end |
| ReviewService.SkipDigitsRun | backend/services/review_service.py:150 | the digit run ends at the first non-digit |
| ReviewService.TagsStep | backend/services/review_service.py:151 | after a match, `findall` resumes where the match ended |
| ReviewService.TagsRender | backend/services/review_service.py:150-151 | a run of written tags is parsed back to those tags in order (round trip) |
| ReviewService.TagsOfWritten | backend/services/review_service.py:150-151 | prose without `[` followed by written tags parses back to what the tags stand for |
| ReviewService.MeaningsOfWritten | backend/services/review_service.py:154 | writing tags with decimal numbers and reading back their meaning gives the tags |
| ReviewService.TagsNone | backend/services/review_service.py:151 | with no marker left, nothing more is found |
| ReviewService.TagsSame | backend/services/review_service.py:151 | `findall` from two positions with the same next marker finds the same tags |
| ReviewService.TagsOfReply | backend/services/review_service.py:150-151 | prose before the first tag is ignored and each tag's body runs to the next tag: a reply's tags are parsed back exactly |
| ReviewService.CommentOfSpec | backend/services/review_service.py:155-171 | a tag's comment spans exactly the start and end lines of the paragraph the tag names, and its content is the tag's body stripped, empty exactly when the body is all whitespace |
| ReviewService.CommentOf | backend/services/review_service.py:155-171 | a tag's comment is anchored to an existing paragraph, carries stripped content, sits in `document.md` and copies the persona's id, name and colour and the document's id and version |
| ReviewService.CommentsOf | backend/services/review_service.py:153-172 | a reply yields at most one comment per tag |
| ReviewService.CommentsOfSpec | backend/services/review_service.py:153-172 | every comment of a reply is anchored to an existing paragraph and authored by the reviewing persona for this document version |
| ReviewService.CommentsOfOne | backend/services/review_service.py:154-155 | a tag gives a comment exactly when its paragraph number is below the paragraph count |
| ReviewService.CommentsOfPrefix | backend/services/review_service.py:153-172 | the comments of the first tags, then what the next tag gives, are the comments of one more tag |
| ReviewService.CommentsOfAppend | backend/services/review_service.py:153-172 | comments follow tag order |
| ReviewService.ReviewWithPersona | backend/services/review_service.py:123-172 | the per-persona loop yields exactly the comments of the reply's in-range tags, in tag order |
| ReviewService.StreamSpec | backend/services/review_service.py:175-182 | every streamed comment is anchored and written by one of the selected personas |
| ReviewService.Stream | backend/services/review_service.py:174-182 | a stream that does not fail had a reply from every selected persona |
| ReviewService.StreamAppend | backend/services/review_service.py:175-182 | all comments of one persona come before any of the next; a failed call ends the stream there |
| ReviewService.StreamFails | backend/services/review_service.py:175-182 | the stream fails exactly when some persona's call fails |
| ReviewService.StreamStep | backend/services/review_service.py:177-179 | one persona's turn: a failed call ends the stream, a reply puts its comments ahead of the rest |
| ReviewService.StreamAdvance | backend/services/review_service.py:177-179 | after the comments sent so far, a failed call ends the stream there; a reply adds its comments and the stream goes on with the next persona |
| ReviewService.StreamEnds | backend/services/review_service.py:175-182 | the stream from the first persona after nothing is the whole stream, and past the last persona nothing more is sent and nothing failed |
| ReviewService.StreamReviews | backend/services/review_service.py:175-182 | the persona loop yields exactly the specified stream |
| ReviewService.ReviewDocument | backend/services/review_service.py:108-182 | `review_document` selects the personas, splits the paragraphs correctly and yields the stream of their comments in persona order |
| ReviewsApi.LineEnd | backend/api/reviews.py:28 | greedy `.+` stops at the first newline or the end |
| ReviewsApi.LastDot | backend/api/reviews.py:28 | `\s+` gives back characters until `.` can match: the last position in range that is not a newline |
| ReviewsApi.HeadingAt | backend/api/reviews.py:28 | a heading match's group is non-empty and within one line |
| ReviewsApi.FirstHeading | backend/api/reviews.py:28 | `re.search` finds the leftmost heading, whose group is non-empty and within one line |
| ReviewsApi.Spaced | backend/api/reviews.py:34 | `-` and `_` become spaces and nothing else changes |
| ReviewsApi.ExtractTitle | backend/api/reviews.py:25-35 | with a heading, a one-line title without surrounding whitespace; otherwise a `.md` name loses `.md`, with no `-` or `_` left; any other name is returned as is |
| ReviewsApi.StripKeepsOut | backend/api/reviews.py:30 | stripping adds no character |
| ReviewsApi.TitleKeepsOut | backend/api/reviews.py:34 | title-casing leaves non-letters alone |
| ReviewsApi.FirstHeadingSkip | backend/api/reviews.py:28 | positions without `#` never start a match |
| ReviewsApi.NoHashAt | backend/api/reviews.py:28 | a position that does not hold `#` starts no match |
| ReviewsApi.NoHashNoHeading | backend/api/reviews.py:28-35 | content without `#` has no heading, so the title is the title-cased file name or the file name itself |
| ReviewsApi.HashNeedsSpace | backend/api/reviews.py:28 | `##`, `#text` and a final `#` never match |
| ReviewsApi.HeadingAtLine | backend/api/reviews.py:28-30 | a `#` at a line start followed by whitespace then a line of text matches with that text |
| ReviewsApi.FirstHeadingOf | backend/api/reviews.py:28 | after lines without `#`, a `#` line whose whitespace may cross a newline is the first match |
| ReviewsApi.HeadingLayout | backend/api/reviews.py:28 | where the `#`, the whitespace and the text of a heading line sit, after lines without `#` |
| ReviewsApi.FirstHeadingLine | backend/api/reviews.py:28 | a `#` at a line start after text without `#`, then whitespace and a line of text, is the first match, with that text as its group |
| ReviewsApi.HeadingTitle | backend/api/reviews.py:28-30 | round trip: a level-1 heading, whose whitespace may include newlines, gives its stripped text as the title, whatever the file name |
| ReviewService.SkipSpacesAt | backend/services/review_service.py:150 | `\s*` runs exactly to the first non-whitespace character |
| ReviewsApi.LineEndAt | backend/api/reviews.py:28 | `.+` stops at the first newline |
| ReviewsApi.BlankHeading | backend/api/reviews.py:28-30 | `#` followed only by spaces backtracks to match one space, so the title is empty |
| ReviewsApi.UploadDocument | backend/api/reviews.py:37-58 | rejected with 400 exactly when the name does not end in `.md`; otherwise created with the extracted title and `Uploaded from <name>` |
| ReviewsApi.UploadRaw | backend/api/reviews.py:60-75 | always created, with no extension check and `untitled.md` as the default name |
| ReviewsApi.UntitledRaw | backend/api/reviews.py:60-63 | a raw upload without heading or name is titled `Untitled` |
| ReviewsApi.UntitledWords | backend/api/reviews.py:33-34 | the default name `untitled.md` becomes the title `Untitled` |
| ReviewsApi.VersionHash | backend/api/reviews.py:90 | the newest version's commit hash, or `HEAD` without versions |
| ReviewsApi.SseFrame | backend/api/reviews.py:100-101 | a frame is `data: `, the payload, then a blank line |
| ReviewsApi.Generate | backend/api/reviews.py:92-101 | one event per comment in order, then exactly one done event, which is last, unless a call failed |
| ReviewsApi.StartReview | backend/api/reviews.py:82-110 | 404 exactly for an unknown document; otherwise its version hash and the event stream of its review |
| ReviewsApi.StartedCount | backend/api/reviews.py:132 | the announced count is the number of requested ids when there are any, else 4 |
| ReviewsApi.StartedCountCovers | backend/api/reviews.py:132-140 | the announced count is never below the number of reviewing personas |
| ReviewsApi.StartedCountOvercounts | backend/api/reviews.py:132 | unknown ids are counted although no persona reviews for them |
| ReviewsApi.ReviewWebsocket | backend/api/reviews.py:112-153 | an unknown document gives one error message; otherwise start, the comments in order, then `done` or the error of the failed call |
| ReviewsApi.SendReview | backend/api/reviews.py:132-151 | the start message, one message per comment, then the closing message |
| ReviewsApi.CommentMessages | backend/api/reviews.py:141-144 | one comment message per comment, in order |
| ReviewsApi.CommentMessagesSnoc | backend/api/reviews.py:134-144 | sending one more comment appends one message |
| ReviewsApi.WebsocketShape | backend/api/reviews.py:132-151 | everything between start and the end is a comment; exactly one closing message, last, and it is `done` exactly when no call failed |
| Security.ClientIp | backend/core/security.py:38-42 | a non-empty `X-Forwarded-For` gives a stripped address without commas; otherwise the client host, or `unknown` |
| Security.StripKeepsComma | backend/core/security.py:41 | stripping introduces no comma |
| Security.ForwardedFirst | backend/core/security.py:39-41 | the first forwarded entry, stripped, is the address, whatever follows |
| Security.ForwardedSingle | backend/core/security.py:39-41 | a single forwarded entry is taken stripped |
| Security.BeforeCharAt | backend/core/security.py:41 | `split(",")[0]` is the text before the first comma |
| Security.Prune | backend/core/security.py:44-46 | cleanup keeps exactly the timestamps with `now - t < 60`, each as many times as it occurs, in order |
| Security.SubsequenceDrop | backend/core/security.py:46 | dropping a timestamp keeps the order of the rest |
| Security.PruneIdempotent | backend/core/security.py:44-46 | cleaning up twice at the same instant changes nothing more |
| Security.PruneLater | backend/core/security.py:44-46 | an earlier cleanup followed by a later one equals the later alone |
| Security.RateLimiter.Recent | backend/core/security.py:36 | an address never seen has no timestamps (the `defaultdict`) |
| Security.RateLimiter.constructor | backend/core/security.py:34-36 | the limiter starts with no recorded requests |
| Security.RateLimiter.CleanupOld | backend/core/security.py:44-46 | the address's list is replaced by its cleaned-up list and every other address is left alone, keeping no address above the limit |
| Security.RateLimiter.Dispatch | backend/core/security.py:48-74 | disabled or non-`/api/` requests pass and record nothing; a full window gives 429 with `Retry-After: 60` and records nothing; otherwise one timestamp is appended and `max(0, limit - count)` remains; no address ever holds more than `limit` timestamps |
| Security.RefererHost | backend/core/security.py:115 | the referer host holds no `/` |
| Security.CsrfDispatch | backend/core/security.py:85-138 | unchecked exactly for disabled CSRF, safe methods, non-`/api/` paths and paths starting with the upload path; otherwise accepted exactly when origin or referer, token or JSON vouches for it; 403 otherwise |
| Security.TokenSuffices | backend/core/security.py:122-124 | any non-empty `X-CSRF-Token` validates a checked request |
| Security.JsonSuffices | backend/core/security.py:128-130 | a content type containing `application/json` validates a request |
| Security.RawUploadExempt | backend/core/security.py:97-100 | the prefix match exempts `/api/v1/reviews/upload/raw` too |
| Security.SafeVerbsUnchecked | backend/core/security.py:90-91 | GET, HEAD and OPTIONS are never checked |
| Security.OriginOverridesReferer | backend/core/security.py:108-117 | with a non-empty `Origin`, the referer is never consulted |
| Security.LocalhostPrefix | backend/core/security.py:110-113 | any origin whose host starts with `localhost`, such as `localhost.example.com`, is accepted for every `Host` |
| Security.AfterScheme | backend/core/security.py:110 | `split("://", 1)[-1]` of an `http://` origin is everything after the scheme |
| Security.NoTrailingSlash | backend/core/security.py:110 | `rstrip("/")` leaves a host not ending in `/` alone |
| Status.Rank | backend/api/status.py:80-87 | healthy is best and unhealthy worst |
| Status.DiskHealth | backend/api/status.py:56-78 | more than 100 MiB free is healthy, more than 10 MiB degraded, anything else or a failed probe unhealthy |
| Status.DiskMonotone | backend/api/status.py:59-76 | more free space never gives a worse disk status |
| Status.Overall | backend/api/status.py:80-87 | the overall status is never better than any check and is the status of one of them (or healthy) |
| Status.SystemStatus | backend/api/status.py:26-89 | exactly three checks, `database`, `anthropic_api_key`, `disk_space`, in that order, with their statuses, and the worst-wins roll-up |
| Status.MissingKeyIsUnhealthy | backend/api/status.py:40-51 | a missing API key makes the whole system unhealthy |
| Status.HealthyExactly | backend/api/status.py:80-87 | the system is healthy exactly when every check is |
| Text.Strip | backend/services/review_service.py:159 | `strip()` is empty exactly for all-whitespace text and otherwise has no whitespace at either end |
| Text.StripTrims | backend/services/review_service.py:159 | `strip()` removes only whitespace and only at the ends: the result is a slice of the text with only whitespace before and after it |
| Text.Split | backend/services/review_service.py:79 | `split('\n')` gives at least one piece, no piece holds the separator, and joining them gives the text back |
| Text.SplitJoin | backend/services/review_service.py:79 | splitting a join of separator-free pieces gives the pieces back |
| Text.SplitAfterPiece | backend/services/review_service.py:79 | splitting a separator-free piece, the separator and more text gives that piece followed by the split of the rest |
| Text.IndexFrom | backend/services/review_service.py:150 | `find` from a position: the first occurrence at or after it, or none at all |
| Text.TitleAt | backend/api/reviews.py:34 | `title()` capitalises a letter exactly when the character before it is not a letter |
| Text.TitleIdempotent | backend/api/reviews.py:34 | title-casing twice changes nothing more |

## Left out

- The calls to the language model (`AsyncAnthropic`) and their prompts are left out: each
  reply is an input, and `json.loads` is a parameter that may fail.
- The personas' system prompts are not part of the `Persona` value, since only the model
  reads them.
- Random ids (`uuid4`) and creation times (`utcnow`) are not part of any value, since they
  are nondeterministic.
- Python's `\d` also matches non-ASCII decimal digits. The tag parser models ASCII digits only.
- `str.title()` is modelled on ASCII letters. Other letters are left as they are.
- The JSON encoding of a comment (`model_dump_json`) is not modelled. An event carries the
  comment value, and `SseFrame` gives the framing.
- Decoding an upload as UTF-8, and its failure, is not modelled: the content is a string.
- The websocket's `receive_json` is not modelled, and neither are disconnects, the second
  `close()` after the not-found message, and the text of an exception. That text is the
  `failure` parameter.
- The response that `call_next` produces is not modelled. A request admitted while another
  is in flight is modelled as if the two ran one after the other: the remaining count is
  computed right after the append.
- The rate limiter uses integer timestamps rather than floats. Its settings are fixed when
  the limiter is built, as the cached settings object is.
- `generate_csrf_token` is left out: it is an HMAC-SHA256 computation.
- The health check messages, which hold floats and exception texts, are left out. So are
  the database path computation and the probes themselves.
- `backend/services/git_service.py`, `backend/services/document_service.py`,
  `backend/database.py`, `backend/api/documents.py`, `backend/api/personas.py`,
  `backend/main.py` and `backend/core/config.py` are not part of this model: they are
  persistence, wiring and configuration.
- MetaService.Synthesize: a reply that decodes but has the wrong shape raises out of
  `synthesize` with no fallback, since only the model call and the decoding sit inside the
  `try` (`backend/services/meta_service.py:88-110`). Such replies are one that is not a list
  of objects, a `line_ranges` entry that is not a pair of numbers (lines 137-138), a JSON
  `null` for `group_index` (line 141), and a field whose type fails the `MetaComment`
  validation, such as a `null` content (lines 148-157). The typed `decode` parameter yields
  well-formed findings or nothing, so it cannot express these failures; a `None` field of a
  `Finding` stands for a key the model left out. A string `contributing_personas` does not
  raise (`set()` turns it into its characters, line 119); the model takes the names as a
  list only.
- ReviewService.CommentsOf: its own contract states only the count. What each comment
  holds is stated by `CommentsOfSpec` and `CommentOfSpec`.
