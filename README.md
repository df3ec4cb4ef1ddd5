# open-in-vscode content scripts, modelled in Dafny

The browser extension adds "Open in VSCode" and "Open in Cursor" buttons to
GitHub pages. Its content scripts watch the page for inserted content and do
four things:

- They put a pair of buttons into every diff file header that has none yet.
- They turn file-list links into "open in editor" links. These are the links
  that jump to a diff section.
- They put a pair of buttons next to the size line of a file ("blob") page.
- They answer Cmd+. or Ctrl+. on a blob page.

Every action ends in a message to the extension's background script. A
best-effort `ping` goes first to wake the service worker.

This project models the logic of those scripts over abstract data:

- A pathname is a string, split on `/` as JavaScript's `split` does.
- Headers, links and size-line candidates are records and objects. The
  elements that a CSS selector would find are given as inputs.
- Child lists that the scripts change in place are `seq` fields of classes,
  and methods reassign them.
- Event handlers are functions that return an `Outcome`: whether
  `preventDefault` and `stopPropagation` were called, the messages sent in
  order, whether an error was logged or alerted, and any fallback navigation.

Modules:

- `Text`: the JavaScript string built-ins the scripts use.
- `Broker`: messages and `sendToBackground`.
- `Resolver`: the two URL rules.
- `Buttons`: button nodes and button clicks.
- `Headers`: the diff-header scanner.
- `Links`: the link hijacker.
- `BlobView`: the blob-view injector.
- `Keyboard`: the shortcut handler.
- `Observer`: the mutation callback.

The default ref `main` is kept as the source has it. It is wrong for
repositories whose default branch has another name, and on pull-request pages,
where the head branch is not looked up.

## Model

| member | source | states |
|---|---|---|
| `Text.Trim` | src/inject-buttons.js:247 | the result has no JavaScript whitespace at either end and is a contiguous slice of the input with only whitespace around it |
| `Text.SplitOn` | src/inject-buttons.js:102 | `split('/')` gives at least one piece and no piece holds the separator |
| `Text.JoinSplit` | src/inject-buttons.js:102 | joining the pieces with `/` gives the pathname back |
| `Text.SplitJoin` | src/inject-buttons.js:269 | splitting a `/`-join of separator-free pieces gives exactly those pieces, so piece i of a pathname is what sits between its i-th and (i+1)-th slash |
| `Text.ContainsAt` | src/keyboard-shortcut.js:23 | the `includes` test holds exactly when the needle occurs at some position |
| `Text.StripInvisible` | src/inject-buttons.js:249 | the result contains no character in U+200B..U+200F or U+FEFF and is never longer than the input |
| `Text.StripConcat` | src/inject-buttons.js:249 | stripping distributes over concatenation, so every other character is kept and stays in order |
| `Text.StripKeepsVisible` | src/inject-buttons.js:249 | text without invisible characters is left unchanged |
| `Text.StripIdempotent` | src/inject-buttons.js:249 | stripping twice equals stripping once |
| `Text.LowerAscii` | src/inject-buttons.js:347 | the `/i` flag folds exactly `A`..`Z` onto `a`..`z` and leaves every other character alone |
| `Broker.SendToBackground` | src/inject-buttons.js:4-12 | exactly two messages go out, `ping` first and then the real message; whether the caller sees a rejection depends only on the real send, so a ping failure is ignored |
| `Resolver.EditorUrlAsWritten` | src/inject-buttons.js:101-119 | the editor-button rule as written gives a URL exactly on pages whose piece 3 is `pull`, `commit`, `compare`, `tree` or `blob` |
| `Resolver.EditorUrlAsWrittenUndefinedRef` | src/inject-buttons.js:113-118 | on a ref page that stops after the page type, the rule as written builds `.../blob/undefined/<path>`, where the corrected rule gives no URL |
| `Resolver.ResolveEditorUrl` | src/inject-buttons.js:101-126 | a URL comes out exactly on `pull` pages and on ref pages that have a piece 4; wherever it gives one, that URL is the one the code builds |
| `Resolver.EditorUrlOnRefPages` | src/inject-buttons.js:113-118 | on `commit`, `compare`, `tree` and `blob` pages the URL is `origin/owner/repo/blob/<piece 4>/<path>` |
| `Resolver.EditorUrlOnPullPages` | src/inject-buttons.js:111-112 | on `pull` pages the ref is `main`, whatever the pull-request number |
| `Resolver.EditorUrlElsewhere` | src/inject-buttons.js:109-121 | any other page type gives no URL |
| `Resolver.LinkUrlWithRef` | src/inject-buttons.js:268-282 | off `pull` pages, a non-empty piece 4 becomes the ref, whatever the page type |
| `Resolver.LinkUrlDefaultRef` | src/inject-buttons.js:274-282 | on `pull` pages, and when piece 4 is empty or missing, the ref is `main` |
| `Resolver.ResolversAgree` | src/inject-buttons.js:268-282 | where the editor rule gives a URL and piece 4 is non-empty (or the page is `pull`), the link rule gives the same URL |
| `Buttons.OpenAction` | src/inject-buttons.js:123 | the VSCode button sends `openInVscode`, the Cursor button `openInCursor`, and never `ping` |
| `Buttons.EditorButtonClick` | src/inject-buttons.js:95-130 | the click always calls `preventDefault` and `stopPropagation`; with no URL nothing is sent; otherwise ping then open with the resolved URL, and a rejected send is only logged |
| `Buttons.BlobButtonClick` | src/inject-buttons.js:378-426 | ping then open with the current page URL; a rejected send is logged and alerted |
| `Headers.ExtractFilePath` | src/inject-buttons.js:150-170 | a path that is found is never empty |
| `Headers.FirstTruthy` | src/inject-buttons.js:150-166 | the result is absent exactly when no candidate is a non-empty string; otherwise it is the first such candidate |
| `Headers.LinkOrder` | src/inject-buttons.js:162 | the link gives its `title`, else its trimmed text |
| `Headers.SourceOrder` | src/inject-buttons.js:154-164 | the file-info element gives its `data-path`, else its `title`, else what its link gives |
| `Headers.ExtractionOrder` | src/inject-buttons.js:150-166 | extraction returns the first non-empty candidate in this order: header `data-path`, file-info `data-path`, file-info `title`, link `title`, trimmed link text |
| `Headers.InjectGuarantees` | src/inject-buttons.js:143-189 | attributes never change; an already annotated header, a header with no path and a header with no container stay unchanged; the header is annotated afterwards exactly when a path and a container exist; existing children stay, in order, behind (actions) or ahead of (file info) exactly zero or two new nodes |
| `Headers.InjectPlacement` | src/inject-buttons.js:176-188 | with an actions container the children become `[vscode, cursor] ++ old`; otherwise, with a file-info element, `old ++ [vscode, cursor]`; otherwise nothing is inserted |
| `Headers.InjectIdempotent` | src/inject-buttons.js:143-147 | injecting into an injected header changes nothing |
| `Headers.FileHeader.InjectButton` | src/inject-buttons.js:143-189 | the in-place prepends and appends leave the header as the injection specification says |
| `Headers.ProcessFileHeaders` | src/inject-buttons.js:191-203 | every listed header, even one listed twice, ends as one injection of its old state, and a second scan would change none of them |
| `Links.LinkFilePath` | src/inject-buttons.js:247-249 | the path read from a link's text has no invisible characters and is a fixed point of the stripping |
| `Links.HijackGuarantees` | src/inject-buttons.js:238-256 | after the hijacker a link is marked; a marked link is untouched; an unmarked one gets a handler bound to its cleaned text and original `href`, plus the matching title |
| `Links.HijackIdempotent` | src/inject-buttons.js:239-244 | hijacking a hijacked link changes nothing |
| `Links.DiffLink.Hijack` | src/inject-buttons.js:238-256 | the field updates on one link match the hijack specification |
| `Links.HijackFilePathLinks` | src/inject-buttons.js:227-297 | every resolved link, even one reached twice, ends as one hijack of its old state and carries the marker; `null` entries are skipped |
| `Links.LinkClick` | src/inject-buttons.js:258-295 | with Meta or Ctrl held nothing happens; otherwise the click calls `preventDefault`, sends ping and then open with the link-rule URL, and on a rejected send logs and navigates to the original `href` when it is non-empty |
| `BlobView.SizePatternMeaning` | src/inject-buttons.js:347 | matching from each digit equals the regular expression: digits, optional whitespace, then `lines`, `loc`, `KB`, `MB` or `Bytes` with case ignored |
| `BlobView.CaseSensitivity` | src/inject-buttons.js:335-347 | the known-selector test is case-sensitive and the leaf test is not: `12 kb` passes only the leaf test |
| `BlobView.FirstWhere` | src/inject-buttons.js:334-338 | the result is absent exactly when no element passes; otherwise it is the first element that passes |
| `BlobView.FirstInGroups` | src/inject-buttons.js:331-341 | the selectors are tried in order, and the result is the first passing match of the first selector that has one |
| `BlobView.SelectMetadata` | src/inject-buttons.js:331-352 | no element is found exactly when no selector match passes the text test and no leaf passes the size pattern; a found element passed one of the two tests; a match among the known selectors always wins, and the leaf scan decides only when there is none |
| `BlobView.FindMetadata` | src/inject-buttons.js:331-352 | the nested loops with `break` return exactly the selected element |
| `BlobView.InsertAfter` | src/inject-buttons.js:429-430 | the new nodes sit right after position i and the other children keep their order |
| `BlobView.ParentNode.InsertButtonsAfter` | src/inject-buttons.js:429-430 | the two `insertBefore` calls leave the siblings as metadata element, VSCode button, Cursor button |
| `BlobView.InjectBlobViewButton` | src/inject-buttons.js:310-431 | the injector acts only on `/blob/` pages without the blob button and only when an element is found; it then inserts the two buttons after that element and records the button; no other parent changes, so a second run is a no-op |
| `Keyboard.KeyDown` | src/keyboard-shortcut.js:15-39 | `preventDefault` is called exactly when Meta or Ctrl is held, the key is `.` and the pathname contains `/blob/`; only then does anything happen, and then it is ping then `openInVscode` with the page URL, a rejected send only logged |
| `Keyboard.PingFailureIgnored` | src/keyboard-shortcut.js:5-12 | the handler's outcome does not depend on whether the ping fails |
| `Keyboard.ShortcutOnFilePage` | src/keyboard-shortcut.js:17-34 | Cmd+. on `/acme/widgets/blob/main/README.md` calls `preventDefault` and sends one open message carrying the page URL |
| `Keyboard.ShortcutOffFilePages` | src/keyboard-shortcut.js:22-25 | on any pathname that cannot contain `/blob/` (no letter b, e.g. `/acme/widgets/pull/42`) the shortcut sends nothing and leaves the event untouched |
| `Observer.ShouldProcess` | src/inject-buttons.js:210-217 | the flag is set exactly when some mutation in the batch added nodes |
| `Observer.OnMutations` | src/inject-buttons.js:209-224 | a batch that added nodes leaves every header as one injection of its old state and every link as one hijack of its old state; when the blob injection acts, the selected element's parent gains the VSCode and Cursor buttons right after it and every other parent keeps its children, and the blob flag is set; any other batch changes nothing |

## Left out

- Transport: `chrome.runtime.sendMessage` and its asynchronous resolution are a foreign call. A send is an entry in the message log, and two flags say whether the ping or the real send is rejected.
- Event-loop plumbing: subscribing the `MutationObserver`, registering event listeners, and the initial calls at script load are not modelled. Neither are `async`/`await` ordering and a send that never settles.
- Selectors: CSS selector matching, `querySelector`, `querySelectorAll` and `closest` are not computed. Their results are inputs, and `null` or `None` stands for "nothing found".
- Element identity and aliasing: one element can match both the actions selector and the file-info selector. Each container is modelled as its own child list, so such an element would be updated in only one of them. Nested headers, one header inside another, are not modelled either.
- Headers.ProcessFileHeaders and Observer.OnMutations: a header's link and a hijacked diff link are separate objects, and the header link's `title` is a constant. In the scripts they can be the same element. The hijacker writes `title` on `.file-info a[href^="#"]` links (src/inject-buttons.js:232, :256), and the header scan picks its link by `a[title]` and reads that title (src/inject-buttons.js:160-162). Take a `.file-header` with a `.file-actions` child, no `data-path`, and a `.file-info` holding only `<a href="#diff-abc">src/app.ts</a>`. The first batch finds no path for the header, then the hijack gives the link the title `Open src/app.ts in VSCode (Ctrl/Cmd+Click for original behavior)`. The next batch that adds nodes reads that title as the file path and inserts buttons bound to it. So in the scripts a second run can change a header, while in the model a rescan of unchanged headers is a no-op.
- Page-wide marker: the blob-button marker is a flag on the page. It is not computed by searching the whole document.
- Cosmetics: button styles, hover swapping, SVG icons, button tooltips and the link `cursor` style are not modelled. The hijacked link's `title` is kept because it is an attribute the hijacker writes.
- URL parsing: `new URL(window.location.href)` is not modelled. Origin, pathname and href are three independent input strings.
- Pathname pieces: a piece past the end of the split reads as the text `undefined`, as in a template literal. This matters only for the as-written editor rule and for link URLs on pathnames shorter than `/owner/repo`.
- Buttons.EditorButtonClick: the click follows the corrected editor rule, `Resolver.ResolveEditorUrl`. On a `commit`, `compare`, `tree` or `blob` pathname with no fourth piece, e.g. `/acme/widgets/compare` with path `a.ts`, the model sends nothing. The scripts send a ping and then an open message for `https://github.com/acme/widgets/blob/undefined/a.ts` (src/inject-buttons.js:113-126). `Resolver.EditorUrlAsWritten` gives that URL, as recorded under Findings.
- Console and alert: what `console.error` and `alert` print is not modelled. That they happen is recorded in the `Outcome`.
- Button creation: `createVSCodeButton` and `createCursorButton` are modelled by the `EditorButton` node, which carries the editor and the bound file path.
- Strings: they are sequences of Unicode code points, not UTF-16 code units. Every character the scripts test is in the Basic Multilingual Plane, so this does not change any result.

## Findings

| source | as written | input that shows it | evidently intended | confidence | as-written member | corrected member |
|---|---|---|---|---|---|---|
| src/inject-buttons.js:113-118 | on `commit`, `compare`, `tree` and `blob` pages, `pathParts[4]` is put into the URL even when the pathname has no piece 4 | pathname `/acme/widgets/compare`, path `a.ts`, gives `https://github.com/acme/widgets/blob/undefined/a.ts`, and an open message is sent for it | no URL, so nothing is sent, when the ref piece is missing | high; not executed | `Resolver.EditorUrlAsWritten`, `Resolver.EditorUrlAsWrittenUndefinedRef` | `Resolver.ResolveEditorUrl` |
