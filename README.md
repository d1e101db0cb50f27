# ChatGPT Save, modelled in Dafny

This project models the core of the "ChatGPT Save" browser extension, together with its
reference Python converter. The extension captures a ChatGPT conversation and saves it as
Markdown or JSON. The model covers these parts:

- **Transcript builder** (`conversation-parser.js`). It filters the conversation `mapping` by
  role, joins and trims each message's content parts, formats each `create_time` the way
  `Date.prototype.toISOString` does, sorts the messages by time with `unknown` last, and renders
  a Markdown transcript.
- **DOM-sourced renderer** (`lib/background/markdownRenderer.js`). It pairs each message of the
  mapping with the Markdown the page rendered for that message id.
- **Page parser** (`lib/content/chatMarkdownParser.js`). It normalises every `<pre>` block
  inside each chat article to a single `<code>` child that keeps the language hint. It then
  collects the Markdown of each article under its turn id.
- **Download service** (`lib/background/index.js`). It normalises the requested format,
  derives a slug file name and builds the `data:` URL, whose base 64 encoding follows section 4
  of RFC 4648 with `=` padding.
- **Background capture** (`background.js`). It records each response's content encoding and
  body chunks per request, normalises the encoding, extracts the conversation id from the
  request path, stores a snapshot and cleans up in every case.
- **Page-side lookups** (`lib/content/apiHandler.js`). These are the conversation id taken
  from the page URL, the UUID test, the cookie reader and the device-id fallback chain.
- **Python converter** (`example_chatgpt_to_markdown.py`). It follows Python's rules: Python
  truthiness, an exception for every malformed payload shape, no trimming, `str.capitalize`,
  and a stable sort by the key `(time == "unknown", time)`.

Each source file becomes one module. A few modules are shared between them:

- `Wrappers`: `Option` and `Result`.
- `Js`: the dynamically typed JSON/JavaScript values.
- `Text`: ECMAScript `trim`, ASCII case mapping, `join`, code-unit string order.
- `Seqs`: filter-map and concat-map folds.
- `Calendar` and `Timestamp`: the date arithmetic of ECMA-262 and the `toISOString` layout.
- `TimeOrder`: the time comparator and the stable sort shared by both transcript builders.

The mode of each part follows the source:

- Loops that build a list or a string are methods with loop invariants. Each is proved equal
  to a specification function, and the properties are proved about that function.
- The renderer, the page parser and the request tracker are classes whose methods update
  their fields.
- Pure helpers are functions.

Two behaviours of the code are worth stating outright:

- The formatted time keeps the milliseconds (`2023-11-14 22:13:20.000 UTC`), because
  `toISOString` always emits them (`conversation-parser.js:113`).
- `extractConversationId` (`background.js:146`) returns the path text after the first
  `conversation/` anywhere in the path that is followed by a character other than `/`. That
  text runs up to the next `/`.

Two details are kept exactly as written:

- The header separator of `conversation-parser.js:130` is the three characters
  U+00E2 U+20AC U+201C, a mis-decoded en dash. The other two renderers use U+2013.
- The DOM-sourced renderer reads a `role` its entries do not have, so each of its headers is
  `>  – <time>`.

The DOM normaliser works on a value tree. `querySelectorAll('pre')` takes a static list of
the `<pre>` elements in document order, and a `<pre>` that an earlier step removed from the
tree can no longer be seen. Hence processing each `<pre>` top-down and recursing only into
what it keeps gives the same tree as the source's in-place loop.

## Model

| member | source | states |
|---|---|---|
| Text.Trim | conversation-parser.js:100 | The result is the input minus a white-space prefix and a white-space suffix (the ECMAScript WhiteSpace and LineTerminator set), and it neither starts nor ends with white space |
| Text.TrimIdempotent | conversation-parser.js:117 | Trimming a trimmed title or content again changes nothing |
| Text.Capitalize | conversation-parser.js:139-144 | Same length; the first character is upper-cased and the rest is kept unchanged |
| Text.PyCapitalize | example_chatgpt_to_markdown.py:79 | Same length; the first character is upper-cased and every other character lower-cased |
| Text.ToLowerEquals | lib/background/index.js:51 | `toLowerCase(s)` equals a lower-case text exactly when each character of `s` is that character or its upper-case form |
| Text.Contains | lib/content/chatMarkdownParser.js:56 | `includes` is true exactly when the text occurs at some position |
| Text.ReplaceTwice | conversation-parser.js:113 | Replacing the first `T` and then the first `Z` of an ISO string rewrites just those two characters |
| Text.JoinConcat | conversation-parser.js:136 | Joining two non-empty line lists is joining each, with one separator between them |
| Text.StrLessTotal | conversation-parser.js:76 | Any two distinct strings are ordered one way or the other by code-unit comparison |
| Text.StrLessTransitive | conversation-parser.js:76 | The string order is transitive |
| Calendar.CivilFromDays | conversation-parser.js:113 | The date of a day number is a valid proleptic Gregorian date, and its day number is that day number |
| Calendar.CivilRoundTrip | conversation-parser.js:113 | Every valid date is recovered from its day number |
| Calendar.CivilFromDaysMonotone | conversation-parser.js:113 | A later day has a later date |
| Calendar.DaysFromCivilMonotone | conversation-parser.js:113 | A later date has a larger day number |
| Timestamp.Digits | conversation-parser.js:113 | A zero-padded field is exactly `w` decimal digits |
| Timestamp.DigitsRoundTrip | conversation-parser.js:113 | A zero-padded field reads back as its number |
| Timestamp.DigitsOrder | conversation-parser.js:113 | Smaller numbers give smaller padded fields of the same width |
| Timestamp.InstantOf | conversation-parser.js:108-113 | The split of a time value into date and clock fields is valid and adds back up to the time value |
| Timestamp.InstantRoundTrip | conversation-parser.js:108-113 | Every valid instant is recovered from its time value |
| Timestamp.YearText | conversation-parser.js:113 | Years 0 to 9999 are 4 digits; others are a sign and 6 digits |
| Timestamp.YearTextInjective | conversation-parser.js:113 | Different years have different year texts |
| Timestamp.TimeClip | conversation-parser.js:108-111 | A time value exists exactly for finite values within 8.64e15 ms, and it is the value truncated toward zero |
| Timestamp.EpochMillis | conversation-parser.js:103-111 | A time value exists exactly for a finite number whose product with 1000 lies within 8.64e15 |
| Timestamp.FormatTimestamp | conversation-parser.js:103-114 | `unknown` exactly when there is no valid time value; otherwise the ISO layout with ` ` for `T` and ` UTC` for `Z` |
| Timestamp.FormatTimestampLength | conversation-parser.js:103-114 | The result is `unknown`, 27 characters for years 0 to 9999, or 30 characters otherwise |
| Timestamp.FormatMillisLength | conversation-parser.js:113 | The formatted length depends only on whether the year has four digits |
| Timestamp.FormatMillisInjective | conversation-parser.js:113 | Different time values format differently |
| Timestamp.FormatMillisOrder | conversation-parser.js:113 | For years 0 to 9999, an earlier time value formats as a smaller string |
| Timestamp.FormatInstantOrder | conversation-parser.js:113 | An earlier instant formats as a smaller string for four-digit years |
| Timestamp.KnownTimesSortChronologically | conversation-parser.js:70-77 | For four-digit years, string order of formatted times is chronological order |
| Timestamp.ExtendedYearSortsFirst | conversation-parser.js:70-77 | A time in year 10000 or later sorts before an earlier four-digit-year time (`+` precedes the digits) |
| Timestamp.FormatTimestampExample | conversation-parser.js:103-114 | Epoch second 1700000000 formats as `2023-11-14 22:13:20.000 UTC` |
| TimeOrder.CompareTimesMeaning | conversation-parser.js:70-77 | Negative exactly when the first time is known and the second is unknown or larger; zero exactly for equal times; antisymmetric |
| TimeOrder.TimeLETotal | conversation-parser.js:70-77 | The comparator is total |
| TimeOrder.TimeLETransitive | conversation-parser.js:70-77 | The comparator is transitive, so it is a consistent comparator for `sort` |
| TimeOrder.PyKeyMatchesComparator | example_chatgpt_to_markdown.py:70 | The Python tuple key orders times exactly as the JavaScript comparator does, with the same ties |
| TimeOrder.SortSorted | conversation-parser.js:70 | The sorted list is in comparator order |
| TimeOrder.SortPermutes | conversation-parser.js:70 | The sorted list is a permutation of the collected one |
| TimeOrder.SortStable | conversation-parser.js:70 | Messages with equal times keep their collection order |
| TimeOrder.SortedMeaning | conversation-parser.js:70-77 | In a sorted list, `unknown` is only followed by `unknown`, and known times ascend |
| Js.ObjectValuesLookup | conversation-parser.js:45 | For an array, its elements; for an object with distinct keys, value `i` is what reading its `i`-th key gives, and a value is listed exactly when some own property reads it |
| Js.CapitalizeValue | conversation-parser.js:139-144 | `''` for a falsy value, else the string with its first character upper-cased |
| ConversationParser.BuildRoleFilterCases | conversation-parser.js:28-40 | A single role exactly when the lower-cased role names it; both roles otherwise |
| ConversationParser.UserFilterIgnoresCase | conversation-parser.js:33-35 | Any capitalisation of `user` selects only `user` |
| ConversationParser.AggregateContent | conversation-parser.js:82-101 | The loop's result is the trimmed newline join of the string parts and the non-empty string `text` of object parts |
| ConversationParser.AggregatedContentTrimmed | conversation-parser.js:84-86 | The content is already trimmed, and it is `''` when `parts` is not an array |
| ConversationParser.PartLinesOfStrings | conversation-parser.js:89-91 | String parts are kept one for one |
| ConversationParser.PartLinesSkip | conversation-parser.js:92-96 | A part that is neither a string nor an object with a non-empty string `text` adds nothing |
| ConversationParser.ExtractMessages | conversation-parser.js:42-80 | The loop's result is the records of the qualifying nodes, in mapping order, stably sorted by time |
| ConversationParser.RecordOfKept | conversation-parser.js:46-59 | A node yields a record exactly when its message is truthy, its role is a non-empty string in the filter, and its content is non-empty |
| ConversationParser.RecordOfFields | conversation-parser.js:61-67 | A record has a kept role, trimmed non-empty content, and a time that is `unknown` or 27 or 30 characters long |
| ConversationParser.CollectMembership | conversation-parser.js:45-68 | A record is collected exactly when some node yields it |
| ConversationParser.ExtractedMessages | conversation-parser.js:42-80 | Every extracted record comes from a node, and the list is in comparator order |
| ConversationParser.ExtractTitle | conversation-parser.js:116-119 | The trimmed title when it is a string, `''` otherwise; always trimmed |
| ConversationParser.RenderMarkdown | conversation-parser.js:121-137 | The loop's result is the newline join of the title lines and four lines per message |
| ConversationParser.TranscriptBlocks | conversation-parser.js:124-134 | The title lines come first, then message `k` occupies lines `4k` to `4k+3` after them: header, blank, content, blank |
| ConversationParser.TranscriptLineCount | conversation-parser.js:121-137 | Two title lines only for a non-empty title, plus four lines per message |
| ConversationParser.ConversationToMarkdown | conversation-parser.js:16-26 | The transcript of the filtered, sorted messages; `''` when `mapping` is not an object |
| MarkdownRendering.MarkdownRenderer.constructor | lib/background/markdownRenderer.js:2-6 | The three arguments are stored |
| MarkdownRendering.MarkdownRenderer.WithDefaultRoles | lib/background/markdownRenderer.js:2 | Without `roles`, the roles are `user`, `assistant`, `system` |
| MarkdownRendering.MarkdownRenderer.Compile | lib/background/markdownRenderer.js:8-15 | The rendering of the mapped messages under the trimmed title; `''` when `mapping` or `markdownMessages` is not an object |
| MarkdownRendering.MarkdownRenderer.MapMessages | lib/background/markdownRenderer.js:22-44 | The loop's result is the entries of the qualifying nodes, in mapping order |
| MarkdownRendering.MarkdownRenderer.RenderMarkdown | lib/background/markdownRenderer.js:64-79 | The loop's result is the `\n\n` join of the title entry and one block per entry |
| MarkdownRendering.MappedOfMeaning | lib/background/markdownRenderer.js:25-40 | A node is mapped exactly when its message, its id and the Markdown stored for that id are truthy; the entry carries that Markdown and the formatted time |
| MarkdownRendering.MappedMembership | lib/background/markdownRenderer.js:25-41 | An entry is mapped exactly when some node yields it |
| MarkdownRendering.MappedKeepsOrder | lib/background/markdownRenderer.js:25-41 | When every node qualifies, entry `i` is node `i`'s |
| MarkdownRendering.HeaderHasNoRole | lib/background/markdownRenderer.js:73 | Because entries have no `role`, every header is `>  – ` followed by the time |
| MarkdownRendering.BlockTextShape | lib/background/markdownRenderer.js:72-75 | A block is the header, a newline and the Markdown |
| MarkdownRendering.RenderedLinesShape | lib/background/markdownRenderer.js:64-79 | One title entry `# title` plus three newlines for a non-empty title, then one block per entry in order |
| MarkdownRendering.RenderedWithoutMessages | lib/background/markdownRenderer.js:67-78 | With no entries the output is the title entry alone, or `''` |
| ChatMarkdown.FirstCode | lib/content/chatMarkdownParser.js:37-40 | The found node is a `code` element inside the forest |
| ChatMarkdown.FirstCodeInDocumentOrder | lib/content/chatMarkdownParser.js:37-40 | The recursive search finds the first `code` element in document order, as `querySelectorAll('code')[0]` does |
| ChatMarkdown.HintPos | lib/content/chatMarkdownParser.js:54-55 | The scan stops at the first position where `language-` and one more non-space character follow the start or white space |
| ChatMarkdown.LanguageHintMeaning | lib/content/chatMarkdownParser.js:53-55 | No hint exactly when no `language-` token starts at the start or after white space; otherwise the first such token, which runs to the next white space |
| ChatMarkdown.WithLanguage | lib/content/chatMarkdownParser.js:52-58 | Adding the hint changes only the class name |
| ChatMarkdown.NormalizeForest | lib/content/chatMarkdownParser.js:32-62 | Normalisation keeps the number of top-level nodes |
| ChatMarkdown.NormalizePre | lib/content/chatMarkdownParser.js:36-58 | A `pre` without `code` is untouched; otherwise its only child is its first `code`, normalised and given the language hint |
| ChatMarkdown.NormalizeKeepsNode | lib/content/chatMarkdownParser.js:36-61 | Text is untouched; an element keeps its tag, class and attributes |
| ChatMarkdown.NormalizeWithoutPre | lib/content/chatMarkdownParser.js:36 | Content without `pre` elements is unchanged |
| ChatMarkdown.OwnHintKept | lib/content/chatMarkdownParser.js:53-56 | A `code` with its own hint keeps its class, because its own hint is already included |
| ChatMarkdown.PreHintAdded | lib/content/chatMarkdownParser.js:53-58 | Otherwise the `pre`'s hint is added unless the class text already includes it |
| ChatMarkdown.DedupeMeaning | lib/content/chatMarkdownParser.js:57 | The class list holds no duplicates and the same tokens |
| ChatMarkdown.TokensAreWords | lib/content/chatMarkdownParser.js:57 | Class tokens are non-empty and free of ASCII white space |
| ChatMarkdown.ClassListAddAppends | lib/content/chatMarkdownParser.js:57 | `classList.add` of a new token writes the deduplicated tokens followed by the new one |
| ChatMarkdown.ChatMarkdownParser.constructor | lib/content/chatMarkdownParser.js:6-11 | The converter is stored |
| ChatMarkdown.ChatMarkdownParser.Parse | lib/content/chatMarkdownParser.js:13-30 | The loop builds the object of turn ids to Markdown; the result is `''` exactly when there are no articles |
| ChatMarkdown.SetPropertyLookup | lib/content/chatMarkdownParser.js:26 | After `messages[id] = md`, `id` reads `md` and every other key is unchanged |
| ChatMarkdown.SetPropertyFields | lib/content/chatMarkdownParser.js:26 | Assignment keeps keys distinct and adds no other property |
| ChatMarkdown.CollectedMissing | lib/content/chatMarkdownParser.js:19-27 | An id that no article stores is absent |
| ChatMarkdown.CollectedLast | lib/content/chatMarkdownParser.js:26 | When several articles share a turn id, the last one with Markdown wins |
| ChatMarkdown.CollectedEntries | lib/content/chatMarkdownParser.js:19-29 | Keys are distinct and every entry comes from an article |
| ChatMarkdown.MarkdownEntryShape | lib/content/chatMarkdownParser.js:20-26 | An article contributes exactly when its turn id and its Markdown are non-empty, and then it maps the id to the Markdown |
| DownloadService.NormalizeFormatMeaning | lib/background/index.js:46-52 | `markdown` exactly for a string that is `markdown` in any ASCII capitalisation, `json` otherwise |
| DownloadService.RequireConversation | lib/background/index.js:54-59 | Passes a plain object through; anything else fails with the missing-payload message |
| DownloadService.StripLeading | lib/background/index.js:120 | Removes leading `-` only, and leaves none |
| DownloadService.StripTrailing | lib/background/index.js:120 | Removes trailing `-` only, and leaves none |
| DownloadService.CollapseShape | lib/background/index.js:119 | Collapsing keeps only `a`-`z`, `0`-`9` and single `-` characters |
| DownloadService.SlugifyShape | lib/background/index.js:111-121 | A slug holds only `a`-`z`, `0`-`9` and single inner hyphens |
| DownloadService.SlugifyIdempotent | lib/background/index.js:111-121 | Slugifying a slug gives it back |
| DownloadService.DeriveFilenameBase | lib/background/index.js:98-109 | The loop returns the first non-empty slug among `title`, `id` and `conversation_id`, else `chatgpt-conversation` |
| DownloadService.FilenameBaseShape | lib/background/index.js:98-109 | The file name base is a non-empty slug |
| DownloadService.BinaryStringAppend | lib/background/index.js:89-92 | Appending chunk by chunk gives the binary string of all bytes |
| DownloadService.BtoaOfBinary | lib/background/index.js:94 | `btoa` of a binary string is the base 64 encoding of its bytes and never throws |
| DownloadService.EncodeDataUrl | lib/background/index.js:82-96 | The chunked loop yields `data:<mime>;base64,` followed by the encoding of all bytes |
| DownloadService.DataUrlRoundTrip | lib/background/index.js:94-95 | The URL starts with its header, and decoding the rest gives back the bytes |
| DownloadService.ProcessDownloadMeaning | lib/background/index.js:26-44 | Fails exactly without a plain-object response; otherwise, under a non-empty slug, a `.md` download holding the renderer's compilation of the response with the page Markdown (`{}` when that is falsy), or a `.json` download of the stringified response |
| DownloadService.CompiledWithoutMarkdown | lib/background/index.js:32-34 | With no page Markdown, the renderer writes only the title |
| DownloadService.EmptyParseGivesTitleOnly | lib/background/index.js:32-34 | An empty-string `markdownMessages` (what the page parser returns without articles) downloads only the title entry |
| DownloadService.HandleMessageMeaning | lib/background/index.js:8-24 | `true` exactly for a plain-object download request, `undefined` and no response otherwise; the response's `ok` says whether the download succeeded |
| Base64.LetterRoundTrip | lib/background/index.js:94 | Every sextet's letter decodes to that sextet |
| Base64.ValuesOfLetters | lib/background/index.js:94 | The letters of sextets decode back to them |
| Base64.OctetsOfSextets | lib/background/index.js:94 | Splitting 1 to 3 bytes into sextets and regrouping gives them back, with zero padding bits |
| Base64.SextetsOfOctets | lib/background/index.js:94 | Regrouping zero-padded sextets into bytes and splitting gives them back |
| Base64.QuantumRoundTrip | lib/background/index.js:94 | Each padded four-letter quantum decodes to its bytes |
| Base64.DecodeEncode | lib/background/index.js:94 | Decoding the encoding gives back the bytes |
| Base64.EncodeDecode | lib/background/index.js:94 | Any text that decodes is the encoding of its bytes, so the encoding is canonical |
| Base64.EncodeLength | lib/background/index.js:94 | The output has four characters per started group of three bytes |
| BackgroundCapture.NormalizeEncodingMeaning | background.js:112-132 | `gzip` for gzip or x-gzip, `brotli` for br, `deflate` for deflate, after trimming and lower-casing; nothing otherwise, including identity and blank |
| BackgroundCapture.IdFromMeaning | background.js:146-147 | The scan finds the first `conversation/` followed by a non-`/` character |
| BackgroundCapture.IdShape | background.js:146-147 | The captured id is non-empty and holds no `/` |
| BackgroundCapture.ExtractConversationIdMeaning | background.js:143-152 | No id exactly when no `conversation/` is followed by a non-`/` character; otherwise the text after the first such match, up to the next `/` |
| BackgroundCapture.FindEncodingHeaderMeaning | background.js:7-9 | The header found is the first whose name is `content-encoding` in any ASCII case |
| BackgroundCapture.RecordedEncodingMeaning | background.js:5-13 | The recorded encoding is the lower-cased, non-empty value of that first header |
| BackgroundCapture.RequestTracker.constructor | background.js:2-3 | Both maps start empty |
| BackgroundCapture.RequestTracker.OnHeadersReceived | background.js:5-19 | Records the encoding when the header has a value; nothing else changes |
| BackgroundCapture.RequestTracker.OnBeforeRequest | background.js:21-25 | Starts an empty chunk list for the request |
| BackgroundCapture.RequestTracker.OnData | background.js:27-31 | Appends a copy of the chunk to the request's list |
| BackgroundCapture.RequestTracker.EncodingFor | background.js:55 | The recorded encoding, or `identity` |
| BackgroundCapture.RequestTracker.CleanupRequest | background.js:167-170 | Removes the request from both maps and nothing else |
| BackgroundCapture.RequestTracker.ProcessCapturedResponse | background.js:53-74 | Stores a snapshot exactly when the payload is truthy and the path has an id; the request is cleaned up in every case |
| ApiHandler.IsUuidMeaning | lib/content/apiHandler.js:135-137 | The UUID test ignores case; a UUID has dashes exactly at 8, 13, 18 and 23, and is a non-empty segment without `/` |
| ApiHandler.SegmentsAreSegments | lib/content/apiHandler.js:118 | Every segment is non-empty and holds no `/` |
| ApiHandler.SegmentsOfJoin | lib/content/apiHandler.js:118 | Splitting slash-joined segments gives them back |
| ApiHandler.IndexOf | lib/content/apiHandler.js:119 | The first position of the value, or -1 when absent |
| ApiHandler.CurrentConversationIdMeaning | lib/content/apiHandler.js:116-133 | The segment after the first `c` segment if one follows; else the last segment if it is a UUID; else `conversationId` if non-empty, else `conversation_id` |
| ApiHandler.DeepLink | lib/content/apiHandler.js:119-123 | On a path `/c/<id>/...`, the id is the conversation id |
| ApiHandler.CookieFrom | lib/content/apiHandler.js:63-64 | The scan finds the first position where `name=` follows the start or `; ` |
| ApiHandler.CookieTextMeaning | lib/content/apiHandler.js:62-66 | No text exactly when `name=` never follows the start or `; `; otherwise the text after the first such match, up to the next `;` |
| ApiHandler.CookieRoundTrip | lib/content/apiHandler.js:63-65 | A cookie string starting with `name=value` reads back the value |
| ApiHandler.GetDeviceId | lib/content/apiHandler.js:49-60 | The first non-empty stored value among the four keys in order; else the `oai_device_id` cookie when non-empty; else the `oai-device-id` cookie |
| PyConverter.ContentPieces | example_chatgpt_to_markdown.py:51-57 | The inner loop keeps one piece per dict or string part, in order |
| PyConverter.JoinLines | example_chatgpt_to_markdown.py:63 | `"\n".join` succeeds exactly when every piece is a string |
| PyConverter.PartPieceMeaning | example_chatgpt_to_markdown.py:53-57 | A string part is kept as it is, a dict without `text` gives `""`, and any other part is skipped |
| PyConverter.ContentOfStrings | example_chatgpt_to_markdown.py:50-63 | Content of string parts is their exact newline join, with nothing trimmed or dropped |
| PyConverter.EpochToReadable | example_chatgpt_to_markdown.py:31-35 | `None` reads as `unknown` |
| PyConverter.Entry | example_chatgpt_to_markdown.py:41-67 | A collected message has a kept role; a node that is not a dict raises |
| PyConverter.EntrySkips | example_chatgpt_to_markdown.py:41-47 | A node is skipped exactly when its message is falsy, or its role is hashable and not kept |
| PyConverter.CollectedErrStays | example_chatgpt_to_markdown.py:41-67 | The first exception ends the loop, whatever follows |
| PyConverter.CollectedRoles | example_chatgpt_to_markdown.py:41-67 | Each node gives at most one message, and every message has a kept role |
| PyConverter.NodeEntry | example_chatgpt_to_markdown.py:42-67 | The loop body yields the node's message, a skip, or the exception it raises |
| PyConverter.ExtractMessages | example_chatgpt_to_markdown.py:38-71 | The loop's result is the collected messages stably sorted, or the first exception |
| PyConverter.ExtractedSorted | example_chatgpt_to_markdown.py:70 | The result is a permutation of the collected messages, in key order, with equal times in mapping order |
| PyConverter.ToMarkdown | example_chatgpt_to_markdown.py:74-82 | The loop's result is the newline join of the lines of each message |
| PyConverter.MarkdownLinesSkipEmpty | example_chatgpt_to_markdown.py:78 | Messages with empty content leave no trace |
| PyConverter.MarkdownLayout | example_chatgpt_to_markdown.py:79-81 | Each other message gives header, blank, content, blank, in order |
| PyConverter.MarkdownEmpty | example_chatgpt_to_markdown.py:74-82 | The Markdown is empty exactly when no message has content |
| PyConverter.KeepRoles | example_chatgpt_to_markdown.py:98-121 | The two flags exclude each other; `user` is kept unless assistant-only, and `assistant` unless user-only |
| PyConverter.Convert | example_chatgpt_to_markdown.py:112-136 | The Markdown of the kept messages, or the stop message when `mapping` is falsy |

## Left out

- Browser and runtime I/O is replaced by parameters or left out. This covers `document`,
  `window.location`, `localStorage`, `document.cookie`, `chrome.*` listeners,
  `chrome.downloads`, `chrome.storage`, `fetch`, Blob and file I/O.
- `processCapturedResponse` receives decoding and `JSON.parse` as one parameter,
  `decodeAndParse`. `decodeBody` and its stream, `DecompressionStream` and `TextDecoder` are
  not modelled, and neither is a failure of `storeConversationSnapshot`.
- `new URL(...)` is not modelled. The capture takes the request's pathname, and
  `currentConversationId` takes the page's pathname and a query lookup.
- The chunk lists in `requestChunks` are recorded, but the source never reads them back (it
  uses the closure's own array). The model keeps that.
- `JSON.stringify(response, null, 2)` is a parameter, `stringify`.
- `encodeDataUrl` takes the UTF-8 bytes of the content, so the Blob's UTF-8 encoding step is
  left out.
- `triggerDownload` and the `chrome.downloads` error path are left out.
- Turndown's HTML-to-Markdown conversion is a parameter of the page parser. HTML parsing and
  serialisation are left out; the DOM is a value tree.
- ChatMarkdown.NormalizeForest: it is modelled on values, so in-place DOM mutation and node
  identity are not captured.
- `decodeURIComponent` is a parameter of `readCookie`; its `Err` is the `URIError` it throws.
- `AuthManager.getAccessToken` and `requestAccessToken` are left out. Their point is to
  de-duplicate concurrent asynchronous token requests, and they need `fetch`.
- `ApiHandler.fetchConversation` is left out. It needs the network and calls a
  `ConversationClient` that the source never defines.
- Logging (`console.*`) is left out.
- Timestamp.EpochMillis: number arithmetic is exact, and `epochSeconds * 1000` is not rounded
  to binary64. So a `create_time` whose exact product falls just below a millisecond boundary
  formats 1 ms early, and this holds for ordinary dates too. For example, take the double
  nearest 1700000000.123. The model gives time value 1700000000122
  (`Timestamp.ExactProductExample`). In binary64 the product rounds to 1700000000123, so
  JavaScript prints `.123`. This affects `conversation-parser.js:108` and
  `lib/background/markdownRenderer.js:51`.
- Case mapping is ASCII only, in `toLowerCase`, `toUpperCase` and Python's `capitalize`.
  Characters such as U+212A KELVIN SIGN, which `toLowerCase` maps to `k`, are not covered.
- Js.JsToString: number-to-string conversion is not modelled. A numeric message id counts as
  absent. A numeric Markdown value that is truthy is still mapped, but it is written as `''`,
  where JavaScript writes its digits.
- MarkdownRendering.MarkdownFor: lookups see only own properties of plain objects.
  Inherited properties such as `constructor` are not seen. Neither are index properties of an
  array `markdownMessages`.
- JavaScript's ordering of integer-like keys and the special `__proto__` key are not modelled
  in the objects that `parse` builds.
- `localeCompare` is taken as code-unit order. The compared strings are digits and ASCII
  punctuation.
- Python: the local-time rendering of `epoch_to_readable` (`ZoneInfo`, `strftime`) is a
  parameter, `localTime`.
- Python: `argparse` and file I/O are left out. Reading the payload and `json.loads` are left
  out; the converter starts from the parsed value.
- Python: JSON objects are taken to have distinct keys. For a duplicated key, a Python dict
  keeps the last value.
- PyConverter.Entry: an exception is reported by its class name only.
