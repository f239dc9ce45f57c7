# LMS file picker prototype, modelled in Dafny

This project models the sequential logic of a small Preact file-picker
prototype. The picker lets a user choose a file from a learning-management
system's storage. It covers five pieces of the code:

- **Fake LMS storage** (`listFiles`). A fixed table maps directory paths to
  stored names. Listing a directory sorts its names with directories first,
  then by the locale order. Each name becomes an entry: a trailing `/` marks a
  directory and is stripped from the name. The icon depends on the `.pdf`
  extension. Only files carry a modification time.
- **Table keyboard handling** (`nextItem` and `onKeyDown`). Enter uses the
  selected item. The arrow keys move the selection with wrap-around. This uses
  JavaScript's truncating `%`, written out explicitly.
- **Breadcrumbs** (`DirectoryBreadcrumbs`). The path is split into its
  non-empty `/`-separated parts behind a root segment "Files". Segment `i`
  links to the first `i` parts joined by `/`.
- **The LMS file picker** (`LMSFilePicker`), as a pure transition function
  `Step(state, event)` that returns the new state and the effects performed,
  in order. Effects are listing requests, popup open/focus/close, and the
  host callbacks `onSelectFile`, `onAuthorized` and `onCancel`. Asynchronous
  boundaries are explicit events. A listing request is settled by id, which
  lets responses arrive in any order. The code has no stale-response guard,
  and the model has none either.
- **The fake backend's token state** (`/oauth_redirect`,
  `/authorize_lms_file_access`, `/lms_files`), as
  `Handle(tokens, request) -> (tokens', response)`.

Modules: `Wrappers` (Option/Result), `JsSemantics` (property-key coercion,
names inherited from `Object.prototype`, truncating remainder), `Strings`
(`endsWith`, `split`/`join` with JavaScript's edge cases), `Ordering`
(consistent comparators and a stable insertion sort), `FakeLmsStorage`,
`Table`, `DirectoryBreadcrumbs`, `LmsFilePicker`, `PickerTraces` (runs over
event sequences) and `FakeLmsServer`.

Parameters stand in for what the code gets from its environment:

- `localeLe(a, b)` means `a.localeCompare(b) <= 0`. It is an abstract total
  preorder, since distinct strings may compare equal. Lexicographic order
  on Unicode code points is proved to be one such order.
- `now` is a clock reading, one per listing.
- The popup is an abstract capability. It is opened, focused and closed by
  effects, and reports its closing with the `AuthWindowClosed` event.

The model follows the code, including where one might expect a picker to
behave otherwise:

- No response is checked against the current path.
- A retry after the popup that fails again still calls `onAuthorized`.
- Non-authorization listing failures are swallowed, not surfaced.
- A failed listing request leaves `isLoading` set.
- A path change from a breadcrumb or a directory issues a request whose
  authorization failure nobody handles.
- Cancel closes the popup and drops its reference, so a popup that was still
  awaited never reports its closing, and a retry already under way ends
  without releasing the handle.

Breadcrumb destinations have no leading slash ("Tragedies"), while the
picker's own paths ("/Tragedies") and the stored keys do. The model keeps
both as written. `FakeLmsServer.BreadcrumbDestinationListsNothing` shows the
consequence for a directory two levels down. The stored table has no such
directory (no name under "/Tragedies" ends in `/`), so the consequence needs
a deeper tree than the stored one. It is not listed as a finding, because the
code does not show which side is meant to change.

## Model

| member | source | states |
|---|---|---|
| `FakeLmsStorage.IconUrl` | src/server/fake-lms-storage.js:5-7 | An icon URL is the mime-icon prefix followed by the icon name, and nothing else |
| `FakeLmsStorage.IconUrlInjective` | src/server/fake-lms-storage.js:5-7 | Icon URLs are the mime-icon prefix followed by the icon name, so two icons share a URL only if they are the same icon |
| `FakeLmsStorage.ToEntry` | src/server/fake-lms-storage.js:82-98 | A name is a directory iff it ends in `/`. A directory loses that `/`, gets the folder icon and no modification time. A file keeps its name, carries the clock reading, and gets the PDF icon iff it ends in `.pdf`, otherwise the generic icon |
| `FakeLmsStorage.StoredNameRoundTrip` | src/server/fake-lms-storage.js:83-95 | From an entry one recovers exactly the stored name it was listed from |
| `FakeLmsStorage.ListDirectory` | src/server/fake-lms-storage.js:72-98 | A listing has exactly as many entries as the directory has stored names |
| `FakeLmsStorage.ListDirectoryNames` | src/server/fake-lms-storage.js:72-98 | The entries, read back as stored names, are the directory's names in the directories-first order |
| `FakeLmsStorage.ListingIsPermutation` | src/server/fake-lms-storage.js:72-98 | A listing has exactly one entry per stored name: its stored names are a permutation of the directory's names |
| `FakeLmsStorage.ListingOrdered` | src/server/fake-lms-storage.js:72-80 | Under a consistent locale order, every directory entry precedes every file entry, and within each group the stored names ascend |
| `FakeLmsStorage.NameOrderConsistent` | src/server/fake-lms-storage.js:72-80 | The directories-first comparator is a total preorder whenever the locale order is |
| `FakeLmsStorage.ListFiles` | src/server/fake-lms-storage.js:67-70 | A path that is not a stored directory lists nothing. A stored one lists one entry per stored name |
| `FakeLmsStorage.PrototypePathThrows` | src/server/fake-lms-storage.js:67-72 | As written, the directory "toString" is not stored yet passes the `!files[path]` test, and sorting it throws |
| `FakeLmsStorage.ListFilesAsWritten` | src/server/fake-lms-storage.js:67-72 | As written, the lookup fails exactly for unstored names inherited from `Object.prototype`, and otherwise agrees with the corrected listing |
| `Ordering.Sort` | src/server/fake-lms-storage.js:72-80 | Sorting returns a permutation (same multiset) of its input |
| `Ordering.InsertSorted` | src/server/fake-lms-storage.js:72-80 | Inserting into a sorted sequence under a consistent comparator keeps it sorted |
| `Ordering.SortSorted` | src/server/fake-lms-storage.js:72-80 | The sort's output is ordered under any consistent comparator |
| `Ordering.CodePointLeTotal` | src/server/fake-lms-storage.js:79 | Code-point order compares any two strings one way or the other |
| `Ordering.CodePointLeTransitive` | src/server/fake-lms-storage.js:79 | Code-point order is transitive, so it is one admissible locale order |
| `JsSemantics.TruncatedRemainder` | src/components/Table.js:16 | JavaScript's `%` lies strictly between `-n` and `n`, takes the sign of the dividend, and is congruent to it modulo `n` |
| `Table.IndexOf` | src/components/Table.js:11 | `indexOf` gives the first position holding the item, or -1 exactly when no position holds it |
| `Table.NextItem` | src/components/Table.js:10-21 | An absent item gives the first item, or nothing for an empty list. A present item at first index `i` gives the item at Euclidean `(i + amount) mod n` |
| `Table.WrapIsEuclidean` | src/components/Table.js:16-19 | Adding the length to a negative truncated remainder yields the Euclidean remainder |
| `Table.NextItemInList` | src/components/Table.js:10-21 | For a non-empty list the result is always one of its items |
| `Table.DownFromLastWraps` | src/components/Table.js:16-20 | With distinct items, moving by +1 from the last item gives the first |
| `Table.UpFromFirstWraps` | src/components/Table.js:16-20 | Moving by -1 from the first item gives the last |
| `Table.StepBack` | src/components/Table.js:16-19 | Stepping back by `amount` modulo `n` undoes stepping forward by it |
| `Table.MoveAndBack` | src/components/Table.js:16-20 | With distinct items, moving by `k` and then by `-k` returns to the original item |
| `Table.OnKeyDown` | src/components/Table.js:34-50 | Enter calls `onUseItem` with the selection. ArrowUp selects the item at -1 and ArrowDown the item at +1. The event is marked handled iff one of those three keys was pressed, iff a callback is invoked |
| `Table.UpThenDown` | src/components/Table.js:39-44 | With distinct items, ArrowUp then ArrowDown selects the original item again |
| `Strings.Split` | src/components/DirectoryBreadcrumbs.js:13 | `split('/')` yields at least one part, and no part contains the separator |
| `Strings.JoinSplit` | src/components/DirectoryBreadcrumbs.js:13 | Joining the parts of a split with the same separator gives the string back |
| `Strings.SplitAround` | src/components/DirectoryBreadcrumbs.js:13 | Splitting at a separator splits each side independently |
| `Strings.SplitJoin` | src/components/DirectoryBreadcrumbs.js:16 | Splitting a join of separator-free parts gives back the parts |
| `Strings.NonEmpty` | src/components/DirectoryBreadcrumbs.js:13 | The filter keeps only non-empty parts, each one drawn from the input |
| `DirectoryBreadcrumbs.NonEmptyParts` | src/components/DirectoryBreadcrumbs.js:13 | Path parts are never empty and never contain `/` |
| `DirectoryBreadcrumbs.Segments` | src/components/DirectoryBreadcrumbs.js:13-14 | There is one segment per non-empty path part, plus the root segment |
| `DirectoryBreadcrumbs.Destination` | src/components/DirectoryBreadcrumbs.js:15-16 | A destination never has a leading or trailing `/` or a `//`. It is empty iff the root segment was clicked or the path has no parts |
| `DirectoryBreadcrumbs.PartsAroundSlash` | src/components/DirectoryBreadcrumbs.js:13 | The parts of `a + "/" + b` are the parts of `a` followed by the parts of `b` |
| `DirectoryBreadcrumbs.RootHasNoParts` | src/components/DirectoryBreadcrumbs.js:13-14 | Both `""` and `"/"` give only the segment "Files" |
| `DirectoryBreadcrumbs.LeadingSlashIgnored` | src/components/DirectoryBreadcrumbs.js:13 | A leading slash adds no segment |
| `DirectoryBreadcrumbs.TrailingSlashIgnored` | src/components/DirectoryBreadcrumbs.js:13 | A trailing slash adds no segment |
| `DirectoryBreadcrumbs.DoubledSlashIgnored` | src/components/DirectoryBreadcrumbs.js:13 | `//` yields the same segments as `/` |
| `DirectoryBreadcrumbs.EnteringAddsSegment` | src/components/DirectoryBreadcrumbs.js:13-14 | Appending `"/" + name` for a non-empty, slash-free name adds exactly the segment `name` |
| `DirectoryBreadcrumbs.JoinNormalised` | src/components/DirectoryBreadcrumbs.js:16 | Joining non-empty, slash-free parts gives a path with no leading or trailing `/` and no `//` |
| `DirectoryBreadcrumbs.RootSegmentNavigatesToRoot` | src/components/DirectoryBreadcrumbs.js:15-16 | Segment 0 navigates to `""` |
| `DirectoryBreadcrumbs.DestinationIsPrefix` | src/components/DirectoryBreadcrumbs.js:13-16 | Segment `i` navigates to the first `i` parts joined by `/`. The destination is normalised, and re-splitting it yields exactly those parts |
| `DirectoryBreadcrumbs.Render` | src/components/DirectoryBreadcrumbs.js:22-37 | The bar has one link per path part. Link `i` shows segment `i` and leads to segment `i`'s destination. The current location shown after the links is the last segment |
| `DirectoryBreadcrumbs.PartsOfJoin` | src/components/DirectoryBreadcrumbs.js:13-16 | Cutting a destination built from non-empty, slash-free parts gives back exactly those parts |
| `DirectoryBreadcrumbs.FollowingLinkTruncates` | src/components/DirectoryBreadcrumbs.js:22-37 | Link `i` is labelled with segment `i`. Following it leads to a location whose bar has exactly the first `i + 1` segments, with segment `i` as the current location |
| `DirectoryBreadcrumbs.LastLinkLeadsToParent` | src/components/DirectoryBreadcrumbs.js:13-16 | In a child directory's bar, the last link leads to the parent, up to redundant slashes |
| `DirectoryBreadcrumbs.TwoLevelDestination` | src/components/DirectoryBreadcrumbs.js:16 | In "/a/b" the first link below the root leads to "a", with no leading slash |
| `LmsFilePicker.Mount` | src/components/LMSFilePicker.js:19-56 | The initial state has `isAuthorizing = !isAuthorized`, an empty path and listing, and loading set. Mounting opens the popup iff the hint is negative, and otherwise requests the root |
| `LmsFilePicker.FetchFiles` | src/components/LMSFilePicker.js:65-70 | A fetch sets loading and issues one request, with a fresh id, for the current path |
| `LmsFilePicker.FetchFilesOrPrompt` | src/components/LMSFilePicker.js:72-76 | Fetch-or-prompt hides the prompt, sets loading and issues one request for the current path |
| `LmsFilePicker.AuthorizeAndFetch` | src/components/LMSFilePicker.js:84-96 | Authorizing shows the prompt. It focuses a live popup, does nothing to one Cancel already closed, and keeps the handle either way. When there is no handle it opens a popup and awaits it |
| `LmsFilePicker.SetPath` | src/components/LMSFilePicker.js:58-63 | A new path triggers exactly one request for it. An unchanged path triggers nothing and leaves the state as it was |
| `LmsFilePicker.SelectFile` | src/components/LMSFilePicker.js:114-120 | A directory moves to `path + "/" + name` and requests it. A file calls `onSelectFile(path + "/" + name)` and leaves the state unchanged |
| `LmsFilePicker.Complete` | src/components/LMSFilePicker.js:65-105 | A success replaces the files and ends loading. Only an authorization failure awaited by fetch-or-prompt shows the prompt. Failures leave files and loading alone. The retry after the popup fires `onAuthorized` (if given), then closes and releases the popup, whatever the outcome. After a Cancel the retry still fires `onAuthorized` but the handle is not cleared. Any other response has no effect on the popup |
| `LmsFilePicker.CancelPicker` | src/components/LMSFilePicker.js:122-127 | Without a handle, Cancel only calls `onCancel`. With a live popup it closes it, then calls `onCancel`, and the handle becomes a closed one that keeps any retry in flight. With a closed handle, closing it again throws before `onCancel` |
| `LmsFilePicker.Step` | src/components/LMSFilePicker.js:108-166 | Listing and breadcrumb events are ignored while the prompt shows, and Authorize outside it. The popup's closing matters only while it is awaited: it hides the prompt, sets loading and issues one retry for the current path |
| `LmsFilePicker.Title` | src/components/LMSFilePicker.js:129-131 | The title is "Allow file access" iff the prompt is shown |
| `LmsFilePicker.StepPreservesValid` | src/components/LMSFilePicker.js:84-105 | Request ids stay fresh, and a popup retry is always a pending fetch-or-prompt request |
| `LmsFilePicker.CompletePreservesValid` | src/components/LMSFilePicker.js:65-105 | Settling any request, including the popup's retry after a Cancel, keeps request ids fresh and any retry still held a pending fetch-or-prompt request |
| `LmsFilePicker.SelectDirectoryFetchesOnce` | src/components/LMSFilePicker.js:114-116 | Entering a directory appends its name to the path and issues exactly one request, for that path |
| `LmsFilePicker.SelectFileNotifiesHost` | src/components/LMSFilePicker.js:114-120 | Choosing a file reports `path + "/" + name` and changes nothing |
| `LmsFilePicker.ChangePathFetchesIffChanged` | src/components/LMSFilePicker.js:58-63 | A breadcrumb click issues a request for the new path iff it differs from the current one, and at most one |
| `LmsFilePicker.SuccessReplacesListing` | src/components/LMSFilePicker.js:65-70 | A successful response replaces the files and clears loading, whatever path it was requested for |
| `LmsFilePicker.AuthorizationErrorPrompts` | src/components/LMSFilePicker.js:72-81 | An authorization failure shows the prompt iff fetch-or-prompt awaited it. It leaves files and loading unchanged |
| `LmsFilePicker.OtherErrorSwallowed` | src/components/LMSFilePicker.js:72-81 | Any other failure changes neither the prompt nor the listing |
| `LmsFilePicker.AuthorizeFocusesExistingWindow` | src/components/LMSFilePicker.js:84-90 | Authorize with a popup handle present changes no state. It focuses a live popup and does nothing for one Cancel closed |
| `LmsFilePicker.RetryAlwaysReleasesWindow` | src/components/LMSFilePicker.js:95-105 | Unless Cancel came first, however the retry settles, `onAuthorized` fires iff given, then the popup is closed and the handle cleared |
| `LmsFilePicker.CancelledRetryKeepsHandle` | src/components/LMSFilePicker.js:95-105 | When Cancel came during the retry, the retry's settling still fires `onAuthorized` iff given, closes nothing, and the closed handle stays |
| `LmsFilePicker.CancelClosesWindowFirst` | src/components/LMSFilePicker.js:122-127 | Cancel without a handle only calls `onCancel`. With a live popup it closes it before calling `onCancel` and changes nothing but the handle. With a handle Cancel already closed it does nothing at all |
| `PickerTraces.RunPreservesValid` | src/components/LMSFilePicker.js:58-106 | The picker's state invariant holds after any sequence of events |
| `PickerTraces.RunSinglePopup` | src/components/LMSFilePicker.js:84-105 | Along any run, at no point are two popups open |
| `PickerTraces.AtMostOnePopup` | src/components/LMSFilePicker.js:84-105 | From mounting on, at most one authorization popup exists at a time |
| `PickerTraces.ParentLinkReturns` | src/components/LMSFilePicker.js:114-116 | After entering a directory, the last breadcrumb leads back to where it was entered from |
| `PickerTraces.BrowseScenario` | src/components/LMSFilePicker.js:50-120 | With the hint set, the root is requested. Entering "Tragedies" requests "/Tragedies", and choosing "Sonnets.pdf" reports "/Sonnets.pdf" |
| `PickerTraces.AuthorizeScenario` | src/components/LMSFilePicker.js:84-105 | Without the hint, a popup opens. Its closing retries the root, and success shows the files, fires `onAuthorized` once and closes the popup |
| `PickerTraces.RefusedRetryStillReportsAuthorized` | src/components/LMSFilePicker.js:95-105 | A retry refused again still fires `onAuthorized` and brings the prompt back |
| `PickerTraces.CancelledPopupNeverRetries` | src/components/LMSFilePicker.js:84-127 | After Cancel while the popup is awaited, its closing starts no retry, and a second Cancel neither closes anything nor calls `onCancel` |
| `PickerTraces.CancelDuringRetryKeepsHandle` | src/components/LMSFilePicker.js:84-127 | A Cancel between the popup closing and the retry's response closes the popup and calls `onCancel`. The response still fires `onAuthorized`, and the handle stays set |
| `PickerTraces.LateResponseOverwrites` | src/components/LMSFilePicker.js:58-70 | A slow response for a directory the user left replaces the current directory's files |
| `FakeLmsServer.ListingPath` | src/server/index.js:132 | A missing or empty `path` lists `/`. Any other path is used as given |
| `FakeLmsServer.AuthorizeQuery` | src/server/index.js:99-110 | The authorization redirect carries `state` equal to the incoming `auth_token`, and returns to `/oauth_redirect` |
| `FakeLmsServer.ListingResponse` | src/server/index.js:121-134 | 403 with status "failure" iff the token is not marked authenticated. Otherwise the listing of the requested path |
| `FakeLmsServer.Handle` | src/server/index.js:45-134 | A redirect marks exactly its `state` key, with a missing value becoming "undefined". No other request changes the tokens |
| `FakeLmsServer.Serve` | src/server/index.js:45-134 | A run of requests gets one response per request. Every redirect gets the close-popup page, and every authorization request is redirected to the authorization endpoint with `state` equal to its token |
| `FakeLmsServer.ServeMarksExactlyRedirected` | src/server/index.js:23-47 | After any run, a token is authenticated iff it was before or some redirect in the run named it |
| `FakeLmsServer.ServeIsMonotone` | src/server/index.js:23-47 | Nothing ever unmarks a token |
| `FakeLmsServer.AuthorizeFlowMarksToken` | src/server/index.js:99-110 | Completing the redirect with the launch's `state` authenticates exactly the client's token |
| `FakeLmsServer.HeaderUsedVerbatim` | src/server/index.js:122-124 | The `Authorization` header is the key itself. An authenticated token sent as `Bearer <token>` gets 403 |
| `FakeLmsServer.MissingValuesShareKey` | src/server/index.js:46-47 | A redirect without `state` lets every request without an `Authorization` header through |
| `FakeLmsServer.PrototypeTokenPassesCheck` | src/server/index.js:124 | As written, "toString" passes the token check without any redirect. The corrected check answers 403 |
| `FakeLmsServer.FetchOutcome` | src/utils/api.js:7-18 | The picker sees an authorization error iff its token is unknown, and otherwise the listing of its path (root for `""`) |
| `FakeLmsServer.BreadcrumbDestinationListsNothing` | src/components/DirectoryBreadcrumbs.js:16 | For a directory two levels down, "/Tragedies/<name>", the breadcrumb back up to "Tragedies" requests "Tragedies". That path is not stored, so an authorized request lists nothing. The stored table has no directory at that depth |
| `FakeLmsServer.StoredKeysAreAbsolute` | src/server/fake-lms-storage.js:10-65 | Stored directories are keyed with a leading slash: "/Tragedies" holds twelve plays and "Tragedies" is not a key |

## Findings

| source | as written | input that shows it | evidently intended | confidence | as-written member | corrected member |
|---|---|---|---|---|---|---|
| src/server/index.js:124 | `!isAuthenticated[authToken]` indexes a plain object, so names it inherits (`toString`, `constructor`, ...) read as truthy | `GET /lms_files` with header `Authorization: toString`, and no redirect ever | only tokens marked by `/oauth_redirect` are served; all others get 403 | high; not executed | `FakeLmsServer.PrototypeTokenPassesCheck` | `FakeLmsServer.ListingResponse` |
| src/server/fake-lms-storage.js:68 | `!files[path]` is false for inherited names, and then `files[path].sort` throws a TypeError | authenticated `GET /lms_files?path=toString` | an empty listing, as for any other path that is not stored | high; not executed | `FakeLmsStorage.PrototypePathThrows` | `FakeLmsStorage.ListFiles` |

## Left out

- The popup window class (src/utils/AuthWindow.js) is browser I/O: `window.open`, centring arithmetic, 300 ms polling and navigation. The popup is an abstract capability here.
- A popup blocked by the browser makes `window.open` return `null`. Authorization then throws, and the picker's `finally` dereferences the missing window, leaving its handle set. This is popup-class behaviour and is not modelled.
- After Cancel the popup class has dropped its window, so its 300 ms poll throws on every tick and the awaited authorization never settles. The model has no event for this: a closed handle just ignores `AuthWindowClosed`.
- A Cancel during the retry makes the picker's `finally` throw when it closes the window again, so the handle is never cleared. The model keeps the closed handle, and the thrown error itself is not modelled.
- The host unmounts the picker when `onCancel` fires (src/components/FilePickerApp.js:40, 69), so events after Cancel only matter while it is still mounted. Unmounting is not modelled.
- The `fetch` wrapper (src/utils/api.js) becomes the events `FetchOk`, `FetchAuthError` and `FetchOtherError`. `FetchOutcome` maps server responses onto them. The `StartFetch` effect omits the auth token, which never changes.
- Preact's render scheduling and `setState` batching are not modelled. Each event is applied to a committed state. Two batched path changes that return to the old path would issue no request in the code.
- `LmsFilePicker.Step` ignores events from views the current state does not render. These are listing and breadcrumb events while the prompt shows, and the Authorize button outside it.
- Table row clicks and double-clicks call `onSelectItem` and `onUseItem` directly. They are markup wiring. `FileList` passes the picker's `selectFile` as the table's select callback, and that wiring is not modelled.
- Table.NextItem: `amount` is an unbounded integer rather than a double, so the model has no rounding at huge magnitudes.
- `localeCompare` is the abstract order `localeLe`, with no locale data. Code-point order is shown to be one admissible instance. It agrees with JavaScript's UTF-16 code-unit comparison except for characters outside the Basic Multilingual Plane.
- `new Date().toISOString()` is the parameter `now`. The code reads the clock once per file (src/server/fake-lms-storage.js:96), while the model gives every file in a listing the same reading.
- `FakeLmsServer.FetchOutcome` maps every page that is neither a listing nor a 403 to a non-authorization error, as the JSON parse in src/utils/api.js:16 would fail on it. The exact error is not modelled.
- `sort` mutates the shared table in place. Each listing here sorts the stored sequence afresh. Re-sorting a stably sorted sequence with the same comparator gives the same order, though that is not proved.
- Stability of the sort is not stated as a property. Only permutation and order are proved.
- Express plumbing is not modelled: static files, the bundler, the 300 ms latency middleware, mustache pages, `GET /` and `POST /`, `/fake_lms_oauth_authorize` and `app.listen`.
- Query strings are modelled as key/value pairs without percent-encoding. Repeated query parameters, which arrive as arrays, are not modelled.
- FakeLmsServer.Handle: a redirect with `state=__proto__` is recorded as a marked token, whereas the object assignment in the code ignores it. The corrected dictionary semantics are used throughout.
- Rendering-only components (Dialog, Button, DialogBackground, FileList markup, URLFilePicker, FilePickerApp, src/index.js) are not modelled.
