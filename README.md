# E-Live playlist parsing and loading, in Dafny

This project models the core of a small IPTV web front end. The front end
reads extended-M3U playlists over HTTP and shows their channels in a
paginated gallery and a player page. The core has three parts.

- **The worker parser** (`src/utils/m3uParser.js`). It splits the body on
  `'\n'` and trims every line with JavaScript's `trim`. A `#EXTINF:` line
  opens a pending entry:
  - its name is the text after the last comma, or `"Unknown"` when that text
    is empty, then trimmed;
  - its logo is the first `tvg-logo="…"` capture, or `''`.

  A line starting with `http` completes the pending entry, if there is one.
  Every other line is ignored. The worker posts a `PARTIAL` snapshot when the
  count equals a truthy `limit`, then `FULL`, or only `ERROR` when the fetch
  throws.
- **The streaming loader** of `src/App.jsx`. This is the selection effect and
  its `loadStream` run:
  - the target URL is `m3uUrl || url`;
  - the page is reset, and a cached list short-circuits the run;
  - on a miss the list is cleared and `switching` set;
  - the reading loop keeps back the unterminated tail (`lines.pop()`) and runs
    the same line classifier on the complete lines;
  - a one-time fast path shows the first 20 channels;
  - the finalize step writes the URL-keyed cache; the catch step clears
    `switching`.

  It also covers the gallery's 30-per-page arithmetic and its page buttons.
- **The player grid** of `src/pages/PlayerPage.jsx`. It has 10 cards per
  page and its own page buttons. A card is highlighted when its URL is the
  playing channel's.

## Files

- `text.dfy` (`JsString`): `trim` over the ECMAScript white-space and
  line-terminator set, `startsWith`, and `split` on one character. It holds
  the facts that the streaming proof needs about the last piece and the
  complete pieces of a split.
- `m3u.dfy` (`M3u`): the line classifier `Step` and its fold `ParseLines`.
  It also defines name and logo extraction. Its lemmas cover:
  - provenance: every channel comes from an `#EXTINF:` line and the next
    significant line, a URL line, in input order;
  - the count bounds;
  - orphan URLs, replaced and dangling entries;
  - well-formed output;
  - a worked example.
- `worker.dfy` (`Worker`): the `onmessage` handler as a method with its loop,
  proved against the message sequence `Messages`.
- `stream.dfy` (`Stream`): chunked reading as a specification. It proves
  chunk-boundary invariance and relates the result to the worker's parse.
- `controller.dfy` (`Controller`): the `App` component's state as a class,
  with `Select` (the effect), `LoadStream` (the run) and the button clicks.
- `pagination.dfy` (`Pagination`): `Math.ceil`, `slice`, and the guarded
  `p => p ± 1` updates, shared by both pages.
- `player.dfy` (`Player`): the player grid and `isActive`.

Three behaviours of the code may be unexpected. The model keeps them as
written:

- The loader has no staleness guard. A superseded run still writes the cache
  and the shown list (`SupersededRunOverwrites`).
- A cached empty list counts as a hit, because an empty JavaScript array is
  truthy.
- The streamed parse never classifies a final line without a newline, so
  such a line is lost (`UnterminatedUrlDropped`). For a body that ends with a
  newline, the stream and the worker agree (`StreamMatchesWorker`).
- The gallery and the player share one page index, but the player's buttons
  bound it by the player's own page count. Returning from the player can
  therefore leave the gallery on a page past its last one, with no channels
  shown (`PlayerLeavesGalleryRange`).

## Model

| member | source | states |
|---|---|---|
| `JsString.TrimIsTrimmed` | src/utils/m3uParser.js:12 | a trimmed line neither starts nor ends with a white-space or line-terminator character |
| `JsString.TrimOfTrimmed` | src/utils/m3uParser.js:12 | trimming a string that is already trimmed returns it unchanged |
| `JsString.TrimInfix` | src/utils/m3uParser.js:12 | the trimmed line is a contiguous infix of the original line |
| `JsString.TrimKeepsNonWhitespace` | src/utils/m3uParser.js:12 | a line with any non-white-space character trims to a non-empty string |
| `JsString.TrimKeepsAbsent` | src/utils/m3uParser.js:12 | trimming adds no character that the line did not contain |
| `JsString.TrimStartSpec` | src/utils/m3uParser.js:12 | the leading cut is all white space and what remains does not start with white space |
| `JsString.TrimEndSpec` | src/utils/m3uParser.js:12 | the trailing cut is all white space and what remains does not end with white space |
| `JsString.SplitLacksSep` | src/utils/m3uParser.js:7 | no piece of `split('\n')` contains a newline |
| `JsString.SplitNoSep` | src/utils/m3uParser.js:7 | text without the separator splits into itself alone |
| `JsString.SplitPiece` | src/utils/m3uParser.js:7 | a separator-free head followed by the separator becomes the first piece |
| `JsString.SplitTerminated` | src/utils/m3uParser.js:7 | pieces each followed by the separator, then a separator-free tail, split back into exactly those pieces and that tail |
| `JsString.SplitJoin` | src/App.jsx:60-62 | the complete pieces, each followed by `'\n'`, and then the popped last piece, rebuild the text |
| `JsString.TerminatedAppend` | src/App.jsx:60-62 | writing pieces out with their terminators distributes over concatenation |
| `JsString.TerminatedEndsWithSep` | src/App.jsx:60-62 | a non-empty list of terminated pieces ends with the separator |
| `JsString.LastPieceIsAfterLastSep` | src/App.jsx:60-62 | the popped piece is the suffix after the last newline, contains no newline, and is preceded by one unless it is the whole text |
| `JsString.LastPieceAfterFinalSep` | src/App.jsx:60-62 | text ending with a newline leaves an empty `partialText` |
| `JsString.SplitAppend` | src/App.jsx:59-62 | appending a chunk: the complete lines are the old complete lines followed by those of the held-back tail plus the chunk, and the new tail is that text's tail |
| `M3u.KindsDisjoint` | src/utils/m3uParser.js:13-17 | no trimmed line both starts with `#EXTINF:` and starts with `http` |
| `M3u.KindOf` | src/utils/m3uParser.js:13-17 | a line's kind is `#EXTINF:` exactly when its trimmed form starts with the tag, and URL exactly when it starts with `http` |
| `M3u.DisplayNameFacts` | src/utils/m3uParser.js:14-16 | a name never contains a comma; a non-empty trimmed line gives a non-empty name; a line with no comma is its own name |
| `M3u.NameAfterLastComma` | src/utils/m3uParser.js:14-16 | whatever precedes the last comma, the name is `"Unknown"` when nothing follows it, and otherwise the trimmed text that follows it |
| `M3u.PlaceholderAfterFinalComma` | src/utils/m3uParser.js:14 | a line ending in a comma is named `"Unknown"` |
| `M3u.TrimmedNameAfterLastComma` | src/utils/m3uParser.js:14-16 | trimmed, non-empty text after the last comma is the name as it stands |
| `M3u.FirstLogoMatchSpec` | src/utils/m3uParser.js:15 | the match search finds the leftmost position where `tvg-logo="` occurs with a later `"`, or reports that there is none |
| `M3u.UpToQuoteSpec` | src/utils/m3uParser.js:15 | the capture `[^"]*` is the longest quote-free prefix, and it stops at a quote exactly when one follows |
| `M3u.UpToQuoteOfPrefix` | src/utils/m3uParser.js:15 | the capture of a quote-free text followed by a quote is that text |
| `M3u.LogoFacts` | src/utils/m3uParser.js:15-16 | a logo never contains a quote, and is `''` when the line has no match |
| `M3u.LogoIsLeftmostCapture` | src/utils/m3uParser.js:15-16 | when the leftmost match starts at `p`, the logo is the text from `p` plus the attribute prefix up to the next quote |
| `M3u.LogoAfterPrefix` | src/utils/m3uParser.js:15-16 | a line whose first `t` begins `tvg-logo="cap"` has logo `cap` |
| `M3u.NoLogoWithoutT` | src/utils/m3uParser.js:15-16 | a line without the letter `t` has logo `''` |
| `M3u.RunFromAppend` | src/utils/m3uParser.js:11-27 | running the loop over two consecutive line lists is running it over the first and continuing with the second |
| `M3u.PairRunSound` | src/utils/m3uParser.js:11-27 | the kind-level run pairs lines exactly: each pair is an `#EXTINF:` line followed, after only ignored lines, by a URL line; pairs are in order and do not overlap; every such pattern is paired; the open entry is the last unanswered `#EXTINF:` |
| `M3u.ParseFollowsPairs` | src/utils/m3uParser.js:11-27 | after any prefix of the lines the parser's channels are the channels of the pairs found so far, and its pending entry is the open `#EXTINF:` line's |
| `M3u.ParseProvenance` | src/utils/m3uParser.js:11-27 | every emitted channel comes from an `#EXTINF:` line and a later URL line with only ignored lines between; channels are in input order, each URL line comes before the next channel's `#EXTINF:` line, and no such pair is missed |
| `M3u.ChannelsOfExplains` | src/utils/m3uParser.js:11-27 | any in-order exhaustive pairing of the lines explains exactly the channels built from its pairs |
| `M3u.ChannelsOfIndex` | src/utils/m3uParser.js:18-19 | channel `k` is built from pair `k` |
| `M3u.CountBounds` | src/utils/m3uParser.js:13-20 | the channels plus the pending entry number at most the `#EXTINF:` lines, and the channels at most the `http` lines |
| `M3u.OthersInert` | src/utils/m3uParser.js:11-27 | lines that are neither `#EXTINF:` nor `http` change nothing |
| `M3u.OrphanUrlsIgnored` | src/utils/m3uParser.js:17 | with nothing pending and no `#EXTINF:` line, `http` lines produce no channel and leave the state as it was |
| `M3u.NoUrlNoChannel` | src/utils/m3uParser.js:17-19 | without an `http` line no channel is emitted |
| `M3u.DanglingEntryDropped` | src/utils/m3uParser.js:13-20 | a final `#EXTINF:` line with no later `http` line adds no channel |
| `M3u.PendingReplaced` | src/utils/m3uParser.js:13-16 | a second `#EXTINF:` line with only ignored lines since the first silently replaces the first entry |
| `M3u.StepWellFormed` | src/utils/m3uParser.js:12-19 | one line keeps every channel well formed: non-empty comma-free name, quote-free logo, trimmed URL starting with `http` |
| `M3u.RunFromWellFormed` | src/utils/m3uParser.js:11-27 | the loop keeps every channel and the pending entry well formed |
| `M3u.ParsedChannelsWellFormed` | src/utils/m3uParser.js:11-27 | every channel the parser emits is well formed |
| `M3u.PairEmits` | src/utils/m3uParser.js:13-20 | an `#EXTINF:` line followed by an `http` line emits one channel built from them and leaves nothing pending |
| `M3u.TwoLinesSplit` | src/utils/m3uParser.js:7 | two newline-terminated, newline-free lines in front of any text split off as two pieces |
| `M3u.FourLinesSplit` | src/utils/m3uParser.js:7 | four newline-free lines, each followed by a newline, split into those lines and a final empty piece |
| `M3u.EmptyLineInert` | src/utils/m3uParser.js:12-20 | the empty piece after a final newline changes nothing |
| `M3u.TwoPairsRun` | src/utils/m3uParser.js:11-27 | two `#EXTINF:`/`http` pairs in a row give those two channels in order |
| `M3u.TwoPairs` | src/utils/m3uParser.js:11-27 | the same with the empty piece after the final newline |
| `M3u.ExampleName1Facts` | src/utils/m3uParser.js:14-16 | the first example line's name is `Channel One` |
| `M3u.ExampleLogo1Facts` | src/utils/m3uParser.js:15-16 | the first example line's logo is `http://x/logo.png` |
| `M3u.ExampleEntry2` | src/utils/m3uParser.js:14-16 | the second example entry is named `Channel Two` and has logo `''` |
| `M3u.WorkedExample` | src/utils/m3uParser.js:7-27 | the two-channel example playlist parses to `Channel One` with its logo and `http://stream/1`, then `Channel Two` with logo `''` and `http://stream/2` |
| `Worker.HandleMessage` | src/utils/m3uParser.js:2-33 | the handler's loop posts exactly the message sequence `Messages` for the request and the fetch outcome; a failed fetch posts only `ERROR` with the error's message |
| `Worker.RunFromExtends` | src/utils/m3uParser.js:19 | channels are only ever appended |
| `Worker.ParsePrefix` | src/utils/m3uParser.js:19-24 | the channels after a prefix of the lines are a prefix of all channels |
| `Worker.StepAddsAtMostOne` | src/utils/m3uParser.js:17-20 | one line adds at most one channel |
| `Worker.ReachesEveryCount` | src/utils/m3uParser.js:23 | the running count passes through every value up to the final count, so the `=== limit` test can fire for every reachable limit |
| `Worker.LimitReached` | src/utils/m3uParser.js:23 | a truthy `limit` is at most the final count exactly when the running count equals it after some line |
| `Worker.SuccessShape` | src/utils/m3uParser.js:23-29 | on success one `FULL` with every channel and the url comes last; a `PARTIAL` precedes it exactly when `limit` is truthy and the count equals it after some line; it is posted at most once, carries the url, and lists the first `limit` channels of the `FULL` list |
| `Stream.ReceivedIsWholeParse` | src/App.jsx:50-64 | after any chunks, `partialText` is the text after the last newline of everything received, and the parser state is the whole-text parse of the newline-terminated lines |
| `Stream.ChunkingInvariance` | src/App.jsx:55-62 | two chunkings of the same text leave the same `partialText` and parser state |
| `Stream.WorkerSeesTail` | src/App.jsx:55-64 | the worker's parse of the whole text is the stream's state after one more line, the held-back tail |
| `Stream.StreamMatchesWorker` | src/App.jsx:55-64 | for text that is empty or ends with a newline, the streamed channels are the worker's and nothing is held back |
| `Stream.UnterminatedUrlDropped` | src/App.jsx:55-62 | a held-back `http` line that would complete the pending entry is never classified, so the worker finds one channel more |
| `Controller.TargetUrl` | src/App.jsx:32-33 | the target is `m3uUrl` when truthy, otherwise `url` when truthy, otherwise there is none; a target is never empty |
| `Controller.App.constructor` | src/App.jsx:11-16 | the component starts with no channels, not switching, an empty cache and page 0 |
| `Controller.App.Select` | src/App.jsx:32-42 | with no target nothing changes and nothing loads; a cached target, even with an empty list, resets the page and shows the cached list without loading, leaving `switching` alone; any other target resets the page, clears the list, sets `switching` and loads that URL; the cache is never written |
| `Controller.App.LoadStream` | src/App.jsx:44-93 | the lists shown are the first 20 channels once, when 20 exist, then the full list if the transfer completes; on completion the cache maps the URL to the full list and it is shown; on an error the cache is untouched and the shown list is the first 20 or the old list; `switching` ends false and the page is untouched |
| `Controller.App.ReceiveChunk` | src/App.jsx:59-82 | one read appends the chunk, holds back the text after the last newline and classifies the complete lines, exactly as `Receive`; the fast path fires at most once |
| `Controller.App.ClassifyLines` | src/App.jsx:64-82 | the per-line loop equals the worker's classifier over the lines; the first time the count reaches 20 the first 20 are shown and `switching` cleared, and never again |
| `Controller.App.ClickPrev` | src/App.jsx:168-170 | with the gallery controls rendered, previous moves back one page unless on page 0, and changes nothing else |
| `Controller.App.ClickNext` | src/App.jsx:168-176 | with the gallery controls rendered, next moves on one page unless on the last, and changes nothing else |
| `Controller.App.ClickPlayerPrev` | src/pages/PlayerPage.jsx:80-82 | the player's previous button moves the shared page back one unless on page 0 |
| `Controller.App.ClickPlayerNext` | src/pages/PlayerPage.jsx:90-92 | the player's next button moves the shared page on one unless it is at or past the grid's last page |
| `Controller.SupersededRunOverwrites` | src/App.jsx:31-96 | with no staleness guard, a run for an earlier selection that finishes last leaves its own list shown, and both lists are cached |
| `Controller.ReselectUsesCache` | src/App.jsx:31-96 | selecting `a`, then `b`, then `a` again, each run completing first: the third selection shows `a`'s cached list (even an empty one) on page 0, starts no transfer, and both lists stay cached |
| `Pagination.TotalPagesIsCeiling` | src/App.jsx:98 | the page count is the ceiling of length over page size: enough pages for every item, none beyond the last item, and zero only for an empty list |
| `Pagination.PageContents` | src/App.jsx:99 | page `p` holds at most a page of items, the items from `p` times the page size on, and none past the end |
| `Pagination.FirstPagesArePrefix` | src/App.jsx:99 | the first `n` pages one after another are the list's prefix of `n` pages' length |
| `Pagination.PagesCoverAll` | src/App.jsx:98-99 | the pages up to the page count, in order, are the whole list: every channel is shown exactly once |
| `Pagination.ClicksStayInRange` | src/App.jsx:170-176 | from a page in range, either click leads to a page in range; a click that is not disabled moves by exactly one |
| `Pagination.NextReachesEveryPage` | src/App.jsx:176 | from page 0, `k` clicks on next reach page `k` for every existing page |
| `Pagination.GalleryControlsNeedTwoPages` | src/App.jsx:168 | more than 30 channels is exactly two or more gallery pages |
| `Pagination.SharedPageIndex` | src/App.jsx:108-116 | the page index the gallery hands to the player never has fewer player pages, and a gallery page in range is a non-empty player page |
| `Pagination.PlayerLeavesGalleryRange` | src/pages/PlayerPage.jsx:90-92 | when the grid has more pages than the gallery, next clicks on the player reach the grid's last page, which is past the gallery's last page and shows an empty gallery page |
| `Pagination.SixtyFiveChannelsSharedPage` | src/App.jsx:108-116 | with 65 channels the player reaches page 6 while the gallery has three pages and shows nothing on page 6 |
| `Pagination.SixtyFiveChannels` | src/App.jsx:98-99 | 65 channels make gallery pages of 30, 30 and 5, and seven player pages, the last with 5 |
| `Player.GridContents` | src/pages/PlayerPage.jsx:14-19 | grid page `p` holds channels `10p` up to `min(10p + 10, length)`: at most ten, none past the end |
| `Player.GridPagesAreTheNonEmptyPages` | src/pages/PlayerPage.jsx:14-19 | a grid page is non-empty exactly when it is below `totalPages` |
| `Player.PlayingCardPosition` | src/pages/PlayerPage.jsx:102-103 | channel `i` is the card at position `i % 10` of page `i / 10`, and it is highlighted while it plays |
| `Player.OnlyPlayingCardActive` | src/pages/PlayerPage.jsx:103 | with distinct URLs, a card is highlighted exactly when it is the playing channel's own card |
| `Player.GridButtons` | src/pages/PlayerPage.jsx:80-92 | previous is disabled exactly on page 0 and next always for an empty list; from a page in range both clicks stay in range, and a next click that is not disabled shows a non-empty page |

## Left out

- Network I/O: `fetch`, the proxy prefix `https://api.allorigins.win/raw?url=` and `encodeURIComponent` are left out. A fetch is an input: the body or the error message for the worker, and a `Transfer` for the loader. A `Transfer` is the chunks delivered before `done`, or before the read that throws.
- `TextDecoder`: chunks are modelled as already-decoded text. The model's characters are Unicode scalar values, whereas JavaScript strings are UTF-16 code units. This makes no difference to `trim`, `split` or `startsWith` on the characters involved.
- `console.error`, `window.scrollTo`, the `onError` image fallbacks and all JSX markup: these are output only.
- React scheduling: each `setState` call is modelled as an immediate field write. `[...allParsedChannels]` and the structured clone done by `postMessage` are modelled as value snapshots.
- Overlapping runs: runs are separate `LoadStream` calls that write independently. Nothing is claimed about their ordering except the demonstration that the last to finish wins.
- The Firebase playlist listener, with its initial auto-select (src/App.jsx:20-28), is not part of this model. It is an external store.
- The other files of the repository are not part of this model: the hooks, `VideoPlayer`, the layout and card components, and the context store. They are I/O or view code.
- Worker.HandleMessage: `limit` is an integer with 0 as the falsy value. `undefined`, `NaN` and non-integer limits are not modelled.
- Controller.TargetUrl: only string-valued or missing fields are modelled. Other truthy JavaScript values are not.
- Controller.App.Select: models one run of the effect body, not its trigger. React runs the effect only when `selectedPlaylist` changes identity (src/App.jsx:96). Clicking the tab that is already selected therefore does nothing, whereas calling `Select` again resets the page and, on a cache miss, starts another `LoadStream`.
- Controller.App.Select: in JavaScript, a URL equal to an `Object.prototype` property name (such as `constructor`) reads as a cache hit. The model looks up stored keys only.
- Controller.App.ClickPrev: this method and `ClickNext` take the button-is-rendered condition `!switching && channels.length > 30` as a precondition. Clicks while the controls are hidden are not modelled.
