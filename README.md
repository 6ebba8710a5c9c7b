# voltvault core, modelled in Dafny

voltvault is a short-form video site. The public side is an endless,
swipeable feed. It sits behind two gates: an age confirmation first, then a
wallet holding enough of a token. The admin side uploads, files and deletes
videos. The repository has two back ends, and the model keeps them apart,
one module per source file:

- an Express server (`server/src/index.ts`) with an in-memory session set;
- serverless handlers (`api/*.ts`) over Postgres and a blob store.

Modules and what they model:

| module | source | form |
|---|---|---|
| `VideoFeed` | client/src/components/VideoFeed.tsx | pure navigation step functions, and a `Feed` class whose handlers are proved to follow them |
| `VideoPlayer` | client/src/components/VideoPlayer.tsx | `Player` and `MediaElement` classes |
| `App` | client/src/App.tsx, client/src/components/WalletConnect.tsx | the gate function, and classes for the page with one or with two wallet states |
| `AgeVerification` | client/src/components/AgeVerification.tsx | an `AgeForm` class writing to `Browser.LocalStorage` |
| `Wallet` | client/src/hooks/useWallet.ts | a `WalletHook` class; the injected provider is an oracle value |
| `ClientAdmin` | client/src/Admin.tsx | an `AdminApp` class |
| `AdminPanel` | Admin.tsx | file checks, form schemas, an `Uploader` class for the progress interval, the list filters, the distinct titles |
| `ExpressServer` | server/src/index.ts | a `Server` class: sessions, the guard, login and logout, upload and delete |
| `AuthApi`, `VideosApi`, `CategoriesApi`, `UploadApi` | api/auth.ts, api/videos.ts, api/categories.ts, api/upload.ts | the handlers; `Database.Db` holds the tables; `UploadApi.BlobStore` holds the blob store |
| `Text`, `Browser`, `Database`, `Common`, `Types` | (shared) | the JavaScript string operations the handlers use, `localStorage`, the Postgres tables, and shared types |

Randomness, clocks and the network are parameters of the operations that
use them:

- the shuffle's exchanges;
- upload timestamps and random suffixes;
- session tokens;
- what the wallet provider answers;
- whether a query fails.

Timers are events. `Settle` is the feed's 500 ms debounce timer firing.
`Uploader.Tick` is one firing of the admin upload interval.

## Model

| member | source | states |
|---|---|---|
| VideoFeed.ScrollTo | client/src/components/VideoFeed.tsx:35-51 | while a scroll is in progress nothing changes; otherwise the index becomes the target and the debounce flag is raised; the touch origin is kept |
| VideoFeed.WheelStep | client/src/components/VideoFeed.tsx:53-62 | the index goes up by one exactly for a positive delta below the last slide, and down by one exactly for a negative delta above the first, both only when not scrolling; any move raises the flag; no move changes nothing |
| VideoFeed.TouchEndStep | client/src/components/VideoFeed.tsx:68-81 | a travel of at most 50 px changes nothing; upward travel of more than 50 px advances and downward travel retreats, within the list and only when not scrolling |
| VideoFeed.Step | client/src/components/VideoFeed.tsx:53-81 | one gesture moves the index by at most one slide; a touch start only records its origin and a timer firing only lowers the flag; exactly when the index moves is `VideoFeed.StepMove` |
| VideoFeed.Run | client/src/components/VideoFeed.tsx:53-81 | after any gesture sequence the index has moved by at most one slide per gesture; that it stays in the list is `VideoFeed.RunInBounds` |
| VideoFeed.StepMove | client/src/components/VideoFeed.tsx:36-39 | any accepted gesture moves exactly one slide, needs the flag clear beforehand and sets it |
| VideoFeed.StepInBounds | client/src/components/VideoFeed.tsx:57-60 | every gesture keeps the index inside the list |
| VideoFeed.RunInBounds | client/src/components/VideoFeed.tsx:53-81 | any sequence of gestures keeps the index inside the list |
| VideoFeed.ScrollingBlocksMoves | client/src/components/VideoFeed.tsx:36 | while the flag is up and the timer has not fired, no gesture changes the index and the flag stays up |
| VideoFeed.AtMostOneMovePerWindow | client/src/components/VideoFeed.tsx:48-50 | between two timer firings the index changes at most once, by at most one slide; none at all if the window was already open |
| VideoFeed.NoWraparound | client/src/components/VideoFeed.tsx:57-59 | advancing at the last slide or retreating at the first, by wheel or by touch, is a no-op that opens no window |
| VideoFeed.SettledAdvances | client/src/components/VideoFeed.tsx:48-58 | k settled wheel-downs are 2k events |
| VideoFeed.SettledAdvancesReach | client/src/components/VideoFeed.tsx:48-58 | with the timer firing between gestures, k wheel-downs advance exactly k slides while the last slide is not passed |
| VideoFeed.ReachLastSlide | client/src/components/VideoFeed.tsx:53-62 | from slide 0, n-1 settled advances reach slide n-1, and one more wheel-down does nothing |
| VideoFeed.Slides | client/src/components/VideoFeed.tsx:108-117 | one slide per video, in list order, each carrying its video |
| VideoFeed.ExactlyOneActive | client/src/components/VideoFeed.tsx:115-116 | exactly the current slide is active; only the next slide, if any, gets the preload hint |
| VideoFeed.Render | client/src/components/VideoFeed.tsx:83-121 | the spinner while loading, the empty state for an empty list, and otherwise exactly the slides of the videos with the current one active |
| VideoFeed.OnePlayerPlays | client/src/components/VideoFeed.tsx:108-117 | in a rendered feed the i-th player plays the i-th video, and only the player of the current slide is told to play |
| VideoFeed.Exchange | client/src/components/VideoFeed.tsx:25 | one exchange keeps the length |
| VideoFeed.Shuffle | client/src/components/VideoFeed.tsx:25 | the reordering keeps the length |
| VideoFeed.ExchangePermutes | client/src/components/VideoFeed.tsx:25 | one exchange is a permutation |
| VideoFeed.ShufflePermutes | client/src/components/VideoFeed.tsx:25 | the shuffled list holds exactly the fetched videos, each as often |
| VideoFeed.Feed.constructor | client/src/components/VideoFeed.tsx:6-11 | loading, no videos, index 0, not scrolling, touch origin 0 |
| VideoFeed.Feed.FetchVideos | client/src/components/VideoFeed.tsx:19-33 | on success the list is a permutation of the response; on failure it stays empty; loading ends on both paths |
| VideoFeed.Feed.ScrollToIndex | client/src/components/VideoFeed.tsx:35-51 | the component's state moves as `ScrollTo` says |
| VideoFeed.Feed.HandleWheel | client/src/components/VideoFeed.tsx:53-62 | the component's state moves as `WheelStep` says |
| VideoFeed.Feed.HandleTouchStart | client/src/components/VideoFeed.tsx:64-66 | records the touch origin with no debounce check |
| VideoFeed.Feed.HandleTouchEnd | client/src/components/VideoFeed.tsx:68-81 | the component's state moves as `TouchEndStep` says |
| VideoFeed.Feed.SettleTimerFires | client/src/components/VideoFeed.tsx:48-50 | the timer clears the debounce flag |
| VideoFeed.Feed.Handle | client/src/components/VideoFeed.tsx:53-81 | each gesture drives the component as one step of the navigation function |
| VideoFeed.Feed.HandleAll | client/src/components/VideoFeed.tsx:53-81 | any gesture sequence drives the component as `Run` says, and the index stays within a non-empty list |
| VideoPlayer.MediaElement.constructor | client/src/components/VideoPlayer.tsx:40-47 | the element gets the video's source and the mute flag, and preload is always `auto` |
| VideoPlayer.Player.constructor | client/src/components/VideoPlayer.tsx:5-13 | a player starts muted and loading, with no element attached |
| VideoPlayer.Player.PlaybackEffect | client/src/components/VideoPlayer.tsx:15-23 | an attached element is asked to play when active and to pause otherwise; a rejected `play()` is only logged, so nothing else changes |
| VideoPlayer.Player.AttachElement | client/src/components/VideoPlayer.tsx:40-50 | the rendered element follows the mute state, preloads `auto` and has received the playback request of the effect |
| VideoPlayer.Player.SetActive | client/src/components/VideoPlayer.tsx:15-23 | the effect runs only when `isActive` changes; the mute state and the element's mute are untouched |
| VideoPlayer.Player.ToggleMute | client/src/components/VideoPlayer.tsx:25-30 | with an element, the mute state and the element flip together; without one, nothing changes |
| VideoPlayer.Player.OnLoadedData | client/src/components/VideoPlayer.tsx:48 | the spinner goes away and nothing else changes |
| VideoPlayer.ToggleTwice | client/src/components/VideoPlayer.tsx:25-30 | toggling twice restores the mute state of the player and of its element |
| VideoPlayer.LoadedStaysLoaded | client/src/components/VideoPlayer.tsx:12-13 | once loaded, a player stays loaded through any toggle or activation change |
| App.Gate | client/src/App.tsx:18-26 | the age screen exactly when the age is unconfirmed; the wallet screen exactly when it is confirmed without access; the feed exactly when both hold |
| App.AppState.constructor | client/src/App.tsx:8-9 | the age is unconfirmed and the wallet starts without an address or access |
| App.AppState.MountEffect | client/src/App.tsx:11-16 | only the stored string `true` confirms the age; any other value leaves it as it was |
| App.AppState.OnVerify | client/src/App.tsx:19 | the callback confirms the age and leaves the age screen |
| App.FeedNeedsAgeAndBalance | client/src/App.tsx:18-26 | the feed is on screen only with a confirmed age and a balance at or above the threshold |
| App.SeparatePage.constructor | client/src/components/WalletConnect.tsx:5 | the page as written: App and the wallet screen each hold their own fresh wallet state |
| App.SeparatePage.ConnectFromGate | client/src/components/WalletConnect.tsx:5-9 | connecting updates only the wallet screen's state; App's state, and the screen App picks, stay as they were |
| App.SeparateInstancesLeaveBlankScreen | client/src/App.tsx:9 | a holder with enough tokens who confirms the age and connects stays on the wallet screen, which then renders nothing |
| App.SharedPage.constructor | client/src/App.tsx:9 | one fresh wallet state shared by App and the wallet screen |
| App.SharedPage.ConnectFromGate | client/src/components/WalletConnect.tsx:5-9 | connecting updates the state App reads, with the effects of `connectWallet` |
| App.SharedInstanceReachesFeed | client/src/App.tsx:18-26 | with one shared state the same holder reaches the feed |
| AgeVerification.AgeForm.constructor | client/src/components/AgeVerification.tsx:8 | the box starts unchecked |
| AgeVerification.AgeForm.SetAgreed | client/src/components/AgeVerification.tsx:29 | the flag takes the checkbox value, so unchecking clears it |
| AgeVerification.AgeForm.HandleSubmit | client/src/components/AgeVerification.tsx:10-15 | with the box checked, stores `age_verified = true` and verifies; without it, storage is untouched and nothing is verified |
| AgeVerification.UncheckedSubmitDoesNothing | client/src/components/AgeVerification.tsx:10-15 | checking, unchecking and then submitting writes nothing and does not verify |
| Browser.LocalStorage.constructor | client/src/App.tsx:12 | storage holds the given items |
| Browser.LocalStorage.GetItem | client/src/App.tsx:12 | a value exactly for a stored key, and it is the stored one |
| Browser.LocalStorage.SetItem | client/src/components/AgeVerification.tsx:12 | the key maps to the value and the other keys keep theirs |
| Browser.LocalStorage.RemoveItem | client/src/Admin.tsx:21 | the key is gone and the other keys keep theirs |
| Wallet.RequiredBalance | client/src/hooks/useWallet.ts:6 | a non-zero configured number is the threshold; a missing, non-numeric or zero value falls back to 10000 |
| Wallet.DigitPrefix | client/src/hooks/useWallet.ts:24 | the longest leading run of digits of the radix: a prefix of the text, made of digits, followed by a non-digit or the end |
| Wallet.ParseIntNeedsDigit | client/src/hooks/useWallet.ts:24 | `parseInt` answers a number only for text that holds a digit; otherwise `NaN` |
| Wallet.ParseDigits | client/src/hooks/useWallet.ts:24 | `parseInt` of a run of decimal digits is its value |
| Wallet.ParseDecimal | client/src/hooks/useWallet.ts:24 | `parseInt` reads back any decimal rendering |
| Wallet.ChainIdEncoding | client/src/hooks/useWallet.ts:24 | a chain id configured as the decimal rendering of n is sent as `0x` plus the hex digits of n, which read back as n |
| Wallet.ChainIdParam | client/src/hooks/useWallet.ts:24 | the chain parameter is `0x` followed by the rendering of the parsed setting; its digits for a decimal setting are `Wallet.ChainIdEncoding`, and for the default `Wallet.DefaultChainIdParam` |
| Wallet.DefaultSettingIsDecimal | client/src/hooks/useWallet.ts:4 | without configuration the chain id is the decimal rendering of 7777777 |
| Wallet.DefaultChainIdParam | client/src/hooks/useWallet.ts:4 | without configuration the chain parameter is `0x76adf1` |
| Wallet.SwitchToChain | client/src/hooks/useWallet.ts:21-40 | the switch is always sent first; the add follows exactly on error code 4902, with the same chain id; any other error is rethrown; the call succeeds exactly when the switch, or the add after it, does |
| Wallet.ErrorText | client/src/hooks/useWallet.ts:84 | the error's own message when non-empty, otherwise the fallback; never empty |
| Wallet.WalletHook.constructor | client/src/hooks/useWallet.ts:15-19 | no address, zero balance, no access, not connecting, no error, no chain request sent |
| Wallet.WalletHook.CheckBalance | client/src/hooks/useWallet.ts:42-58 | a successful read records the balance and grants access exactly when it reaches the threshold; a failed read only sets the error and answers 0 |
| Wallet.WalletHook.BeginConnect | client/src/hooks/useWallet.ts:61-62 | the spinner is on and the error cleared |
| Wallet.WalletHook.CompleteConnect | client/src/hooks/useWallet.ts:64-87 | no wallet, a refused request, a failed switch and a failed balance read each set the matching error and leave access alone; the address is recorded before the switch; after a good switch the balance decides access; the spinner always ends |
| Wallet.WalletHook.ConnectWallet | client/src/hooks/useWallet.ts:60-88 | on every path the spinner is off at the end; the full happy path ends with the balance read, access decided by the threshold and no error |
| Wallet.WalletHook.DisconnectWallet | client/src/hooks/useWallet.ts:90-94 | forgets the address, the balance and the access; the error stays |
| Wallet.WalletHook.MountCheck | client/src/hooks/useWallet.ts:96-107 | a wallet that already exposes an account is re-read from its first account: a successful balance read records the balance and the access and keeps the error, a failed one sets the balance error and keeps balance and access; without a wallet or an account nothing changes |
| ClientAdmin.ViewFor | client/src/Admin.tsx:25-29 | the login form exactly when not authenticated, the dashboard exactly when authenticated |
| ClientAdmin.AdminApp.constructor | client/src/Admin.tsx:6 | the page starts unauthenticated |
| ClientAdmin.AdminApp.Mount | client/src/Admin.tsx:8-14 | a stored non-empty token authenticates; otherwise the flag is left as it was |
| ClientAdmin.AdminApp.HandleLogin | client/src/Admin.tsx:16-18 | after login the dashboard is shown |
| ClientAdmin.AdminApp.HandleLogout | client/src/Admin.tsx:20-23 | the stored token is removed, other keys are kept, and the login form is shown |
| ClientAdmin.ReloadAfterLogout | client/src/Admin.tsx:8-23 | a fresh page load after a logout starts at the login form |
| AdminPanel.CheckFile | Admin.tsx:228-248 | the checks in order: no file, then a type not starting with `video/`, then a size above 500 MiB, otherwise accepted; each outcome in both directions |
| AdminPanel.SizeBoundary | Admin.tsx:241-248 | exactly 524288000 bytes pass and one more byte fails; any type not starting with `video/` fails at any size |
| AdminPanel.VideoForm.constructor | Admin.tsx:103-110 | the form starts with empty title, category and URL |
| AdminPanel.VideoForm.DefaultCategoryEffect | Admin.tsx:119-123 | an empty category becomes the first category once there is one; a chosen category is kept |
| AdminPanel.VideoForm.ResetAfterAdd | Admin.tsx:139-145 | after an add, title and URL are empty and the category is the first one, or empty when there is none |
| AdminPanel.VideoFormErrors | Admin.tsx:30-34 | no error exactly for a non-empty title and category and a valid URL; each field's message appears exactly when that field fails |
| AdminPanel.CategoryFormErrors | Admin.tsx:36-38 | no error exactly for a non-empty name |
| AdminPanel.AddVideoEnabled | Admin.tsx:415 | "Add Video" is enabled exactly with an uploaded URL and no request in flight |
| AdminPanel.Uploader.constructor | Admin.tsx:63-65 | not uploading, progress 0, no URL, no timers |
| AdminPanel.Uploader.SelectFile | Admin.tsx:228-259 | the outcome is `CheckFile`'s; an accepted file starts the upload at 0 with one interval; a rejected file starts nothing |
| AdminPanel.Uploader.Tick | Admin.tsx:257-259 | each firing adds 10 and caps at 90 |
| AdminPanel.Uploader.ResponseArrives | Admin.tsx:266-267 | the interval is cleared and the bar shows 100 |
| AdminPanel.Uploader.Finish | Admin.tsx:269-291 | the upload ends with progress 0; a good response fills the URL in the panel and the form; a failed one keeps the old URL |
| AdminPanel.Uploader.FetchFailsAsWritten | Admin.tsx:282-291 | as written, a rejected request ends the upload at 0 but its interval keeps running |
| AdminPanel.Uploader.VideoAdded | Admin.tsx:139-146 | after an add, the form is reset, the URL cleared, and "Add Video" disabled |
| AdminPanel.Uploader.FetchFailsClearing | Admin.tsx:282-291 | with the interval cleared on every path, a rejected request leaves no timer and the invariant holds |
| AdminPanel.UploadSucceeds | Admin.tsx:228-292 | a full successful upload ends idle at 0 with no timer and the new URL in panel and form |
| AdminPanel.LeakedTimerAfterNetworkError | Admin.tsx:257-291 | after a network error the leaked interval moves the progress of an idle panel to 10 |
| AdminPanel.ClearedTimerAfterNetworkError | Admin.tsx:257-291 | with the interval cleared on every path, a failed upload leaves no timer and progress 0 |
| AdminPanel.ByCategory | Admin.tsx:302-304 | exactly the videos of the chosen category, never more than the list |
| AdminPanel.ByTitle | Admin.tsx:306-308 | exactly the videos with the chosen title, never more than the list |
| AdminPanel.ByCategoryIsSubsequence | Admin.tsx:302-304 | the category filter keeps list order |
| AdminPanel.ByTitleIsSubsequence | Admin.tsx:306-308 | the title filter keeps list order |
| AdminPanel.FinalFilteredVideos | Admin.tsx:302-308 | never longer than the list, and a video is shown exactly when it matches every filter not set to `all` |
| AdminPanel.FinalFilteredIsOrderedSelection | Admin.tsx:302-308 | the list shown keeps list order and holds a video exactly when it matches every filter not set to `all` |
| AdminPanel.TitleAllSelectsEverything | Admin.tsx:302-308 | choosing the title `all` shows the whole list under the chosen category whatever the titles are, so a video titled `all` cannot be singled out |
| AdminPanel.Titles | Admin.tsx:310 | a title is listed exactly when some video carries it, one per video in list order; `AdminPanel.UniqueTitles` keeps each once |
| AdminPanel.Distinct | Admin.tsx:310 | the same titles as the input, each once |
| AdminPanel.DistinctInFirstAppearanceOrder | Admin.tsx:310 | the distinct titles come in order of first appearance |
| AdminPanel.UniqueTitles | Admin.tsx:310 | every title of the list exactly once, in order of first appearance |
| ExpressServer.Authorized | server/src/index.ts:81-88 | the guard passes only with a header and a live non-empty session; the exact cases are `ExpressServer.BearerHeader`, `ExpressServer.BareTokenPasses` and `ExpressServer.MissingHeaderFails` |
| ExpressServer.BearerHeader | server/src/index.ts:81-88 | a `Bearer <token>` header passes exactly for a non-empty live token |
| ExpressServer.BareTokenPasses | server/src/index.ts:82-83 | a header holding a live token without any `Bearer ` also passes |
| ExpressServer.MissingHeaderFails | server/src/index.ts:82-86 | no header, no access |
| ExpressServer.Basename | server/src/index.ts:48 | the last path segment holds no slash; its value is given by `ExpressServer.BasenameOfPlainName` and `ExpressServer.BasenameOfJoin` |
| ExpressServer.BasenameOfPlainName | server/src/index.ts:48 | a name without a slash is its own last segment |
| ExpressServer.BasenameOfJoin | server/src/index.ts:48 | the last segment of `dir/name` is `name`, whatever the directory part holds |
| ExpressServer.Extname | server/src/index.ts:48 | an extension is empty, or a dot followed by text with no slash and no further dot; its value is given by the three lemmas that follow |
| ExpressServer.ExtnameOfPlainName | server/src/index.ts:48 | a name `stem.ext`, with a dot-free extension and no slash, has extension `.ext` (just `.` when `ext` is empty) |
| ExpressServer.ExtnameOfDotless | server/src/index.ts:48 | a name without a dot has no extension |
| ExpressServer.ExtnameOfLeadingDot | server/src/index.ts:48 | a name whose only dot opens it, such as `.mp4`, has no extension |
| ExpressServer.FileFilter | server/src/index.ts:46-54 | an accepted name has a four-character extension |
| ExpressServer.FileFilterLowerOnly | server/src/index.ts:46-54 | exactly `.mov` and `.mp4`, in any letter case, pass; the upper-case list entries never match |
| ExpressServer.FileFilterRefusesNoExtension | server/src/index.ts:46-54 | a name without a dot, or whose only dot opens it such as `.mp4`, is refused |
| ExpressServer.StoredFilename | server/src/index.ts:37-40 | the stored name is the time, a dash and the random number, followed by the original extension; what that gives is `ExpressServer.StoredKeepsExtension` |
| ExpressServer.StoredKeepsExtension | server/src/index.ts:37-40 | the stored name is non-empty, has no slash so it stays in the uploads directory, and has the extension of the original name, the one the filter checked |
| ExpressServer.UploadUrl | server/src/index.ts:151 | the URL is the stored name under `/uploads/`; its meaning is `ExpressServer.ServedUnderUploads` |
| ExpressServer.ServedUnderUploads | server/src/index.ts:151 | the last segment of the URL of a stored file is that file, with its extension |
| ExpressServer.UploadUrlKeepsExtension | server/src/index.ts:37-40 | an uploaded file is served at a URL with the extension of the original file |
| ExpressServer.MaxOrder | server/src/index.ts:154 | null exactly when no row has an order; otherwise an order that occurs and bounds all the others |
| ExpressServer.NextOrder | server/src/index.ts:155 | the next order is above every order already stored |
| ExpressServer.NextOrderAbove | server/src/index.ts:155 | the next order is above every stored order, and 1 when none is stored |
| ExpressServer.WithoutId | server/src/index.ts:181 | the rows left are exactly those with another id |
| ExpressServer.UrlOf | server/src/index.ts:173-174 | a URL exactly when a row has the id, and it is that row's URL |
| ExpressServer.Server.constructor | server/src/index.ts:58 | no sessions, no rows, no files |
| ExpressServer.Server.Login | server/src/index.ts:62-72 | a password equal to the configured one adds the fresh token and returns it; anything else is 401 and adds nothing |
| ExpressServer.Server.Logout | server/src/index.ts:74-78 | removes the given token, if any, and always reports success |
| ExpressServer.Server.UploadVideo | server/src/index.ts:144-167 | 401 without a live session; a refused file is 500; no file is 400 before any query; otherwise the file is on disk and one row is added with `/uploads/<name>`, the next display order, a missing category as null and a missing duration as `0.6s`; on a database failure the answer is 500 and the file stays |
| ExpressServer.Server.DeleteVideo | server/src/index.ts:169-187 | 401 without a live session; otherwise the row's file is removed if present, every row with the id goes, and success is reported even for an unknown id; 500 on a database failure |
| ExpressServer.LogoutRevokes | server/src/index.ts:74-88 | logging out revokes exactly that token; every other session passes as before |
| ExpressServer.LoginThenGuard | server/src/index.ts:62-88 | after a successful login its token passes the guard exactly when it is non-empty |
| ExpressServer.UnsetPasswordAcceptsMissingPassword | server/src/index.ts:63-68 | with `ADMIN_PASSWORD` unset, a login body without a password is accepted |
| AuthApi.Handle | api/auth.ts:3-43 | login with a body gives the shared secret for the right password and 401 otherwise; login without a body throws and answers 500; logout always succeeds; `me` passes exactly for the expected header; anything else is 405 |
| AuthApi.LoginTokenPassesMe | api/auth.ts:8-33 | the token a login hands out, sent back as a Bearer header, passes `me` |
| AuthApi.LogoutRevokesNothing | api/auth.ts:26-36 | nothing is stored: after any logout, `me` answers exactly as before |
| AuthApi.UnsetSecretAcceptsUndefined | api/auth.ts:8 | with `SESSION_SECRET` unset, the header `Bearer undefined` passes `me` |
| AuthApi.UnsetPasswordAcceptsMissingPassword | api/auth.ts:13-15 | with `ADMIN_PASSWORD` unset, a login whose body has no `password` field succeeds, while one with no body at all answers 500 |
| Database.Filter | api/videos.ts:51 | exactly the rows the condition keeps, and no more rows than the table |
| Database.CategoryNamed | api/videos.ts:12-13 | none exactly when no category has the name; otherwise a category of the table with that name |
| Database.Db.constructor | api/videos.ts:4-7 | empty tables that satisfy the id and time invariant |
| Database.Db.InsertVideo | api/videos.ts:69-72 | the new row gets the next id and the current time and is appended; ids stay unique and times increasing |
| Database.Db.DeleteVideo | api/videos.ts:82 | returns the rows with the id and keeps exactly the others |
| Database.Db.InsertCategory | api/categories.ts:39-42 | the new category gets the next id and the current time and is appended |
| Database.FilterKeepsOrder | api/videos.ts:51 | keeping some rows keeps ids and creation times increasing |
| VideosApi.Reverse | api/videos.ts:47 | the rows in opposite order |
| VideosApi.Listing | api/videos.ts:46-56 | no more rows than the table, and all of them without a filter; which rows and in what order is `VideosApi.ListingNewestFirst` |
| VideosApi.ListingNewestFirst | api/videos.ts:46-56 | the list holds exactly the rows of the requested category, or all rows, each once, newest first |
| VideosApi.EnsureDefaultCategory | api/videos.ts:9-30 | the id of an existing `Uncategorized` category, or of one inserted only when there is none; videos untouched |
| VideosApi.NamedAfterAppend | api/videos.ts:21-25 | a category appended to a table without its name is the first with that name |
| VideosApi.EnsureTwice | api/videos.ts:9-30 | a second call inserts nothing and answers the same id |
| VideosApi.Handle | api/videos.ts:32-98 | GET: one row or 404, or the newest-first listing. POST: 500 with the `TypeError` message when the body is `null`, writing nothing; 400 without title or URL; else one new row with the given category or `Uncategorized`, the categories unchanged unless `Uncategorized` was missing, in which case exactly that row is added. DELETE: 400 without id, 404 for an unknown id, else 204 and the row removed. Any query failure: 500. Other methods: 405 |
| CategoriesApi.CountOf | api/categories.ts:16 | at most the number of rows, and zero exactly when no row is filed under the category |
| CategoriesApi.CountByCategory | api/categories.ts:16-21 | an entry exactly for each category id that occurs, holding its number of rows |
| CategoriesApi.Insert | api/categories.ts:15 | insertion adds exactly one element |
| CategoriesApi.InsertSorted | api/categories.ts:15 | inserting into a list sorted by name keeps it sorted |
| CategoriesApi.SortByName | api/categories.ts:15 | the sorted list is a permutation of the table |
| CategoriesApi.SortByNameSorted | api/categories.ts:15 | the list is ordered by name and is a permutation of the table |
| CategoriesApi.Listing | api/categories.ts:23-26 | one entry per category |
| CategoriesApi.ListingCountsAndOrder | api/categories.ts:14-28 | each entry counts exactly the rows of its category, and entries are ordered by name |
| CategoriesApi.ListingKeepsCategories | api/categories.ts:23-26 | a category is listed, with all its fields, exactly when it is in the table, including those with no videos |
| CategoriesApi.DanglingVideoCountsNothing | api/categories.ts:25 | a video filed under an id no category has changes no count |
| CategoriesApi.ThreeVideosCountThree | api/categories.ts:16-26 | three videos filed under a category give it a count of three, and none elsewhere |
| CategoriesApi.Handle | api/categories.ts:9-52 | GET lists by name with counts and writes nothing; POST with a `null` body is 500 `Database error` and writes nothing; POST without a name is 400, otherwise the category is added (201); a query failure is 500; other methods are 405 |
| UploadApi.FlattenAppend | api/upload.ts:17 | concatenating the chunks distributes over splitting the chunk list |
| UploadApi.ConcatChunks | api/upload.ts:11-17 | the buffer is the concatenation of all chunks, in order |
| UploadApi.BinaryString | api/upload.ts:22 | one character per byte, with that byte's code, so the text has only codes below 256; `UploadApi.BinaryRoundTrip` reads it back |
| UploadApi.BinaryBytes | api/upload.ts:36 | one byte per character, its low eight bits; on text with codes below 256 it is undone by `UploadApi.BinaryString` |
| UploadApi.BinaryRoundTrip | api/upload.ts:22-36 | converting bytes to binary text and back gives the same bytes, for any slice |
| UploadApi.Boundary | api/upload.ts:18-20 | no boundary without a `boundary=` in the header; a boundary found is non-empty and holds no `boundary=` |
| UploadApi.BoundaryAfter | api/upload.ts:18 | a header whose first `boundary=` follows a prefix without `b` yields exactly what follows it |
| UploadApi.BoundaryOfFormHeader | api/upload.ts:18 | the boundary of a browser's `multipart/form-data; boundary=B` header reads back as B (RFC 7578, section 4.1) |
| UploadApi.CaptureFrom | api/upload.ts:26 | a capture is the shortest run of non-terminators ending before a quote |
| UploadApi.MatchPosFrom | api/upload.ts:26 | the leftmost position from which the expression matches, or -1 when none does |
| UploadApi.FilenameMatch | api/upload.ts:26 | a captured name is non-empty and comes from a `filename="` in the part |
| UploadApi.FilenameOfParameter | api/upload.ts:26-29 | a `filename="<name>"` parameter with no earlier one reads back as the name |
| UploadApi.Substring | api/upload.ts:35 | `substring` takes the slice between the two bounds, in either order |
| UploadApi.SubstringSymmetric | api/upload.ts:35 | swapping the bounds of `substring` changes nothing |
| UploadApi.PartFile | api/upload.ts:25-38 | a file comes only from a part naming `Content-Disposition` and `filename=`, and carries the non-empty matched name; the exact cases are `UploadApi.PartFileCases`, and a well-formed part reads back by `UploadApi.FilePartRoundTrip` |
| UploadApi.PartFileCases | api/upload.ts:25-38 | a part yields a file exactly when it names `Content-Disposition` and `filename=`, the name matches and a CRLF occurs; the `contentStart === -1` test never fires |
| UploadApi.PartContent | api/upload.ts:30-35 | headers without a blank line, a blank line, the data and a CRLF give back exactly the data, even when it holds CRLFs |
| UploadApi.FilePartRoundTrip | api/upload.ts:24-38 | a file part laid out as RFC 7578, section 4.2 describes reads back exactly the file's name and bytes |
| UploadApi.MapParts | api/upload.ts:24 | one result per part |
| UploadApi.PartFiles | api/upload.ts:24-39 | one result per part |
| UploadApi.FirstSomeIndex | api/upload.ts:24-40 | the first index holding a file, or the end |
| UploadApi.FirstFileSpec | api/upload.ts:24-42 | no file exactly when no part holds one; otherwise the file of the first part that does |
| UploadApi.ScanParts | api/upload.ts:24-42 | the loop answers the file of the first part holding one, or none |
| UploadApi.ParseBody | api/upload.ts:10-43 | no boundary, no file; a file found carries a non-empty name; which part it comes from is `UploadApi.FirstFileSpec` |
| UploadApi.ParseMultipart | api/upload.ts:10-43 | the result is the reference parse of the concatenated body; no boundary gives no file |
| UploadApi.Extension | api/upload.ts:61 | the extension is non-empty and dot-free |
| UploadApi.ExtensionOfUndotted | api/upload.ts:61 | a name without a dot is its own extension, and an empty one gets `mp4` |
| UploadApi.ExtensionOfDotted | api/upload.ts:61 | a name ending in `.ext` yields `ext`, or `mp4` when `ext` is empty |
| UploadApi.StorageKey | api/upload.ts:62 | the key starts with `videos/` and ends with a dot and the extension |
| UploadApi.KeyKeepsExtension | api/upload.ts:61-62 | reading the extension back from the key gives the upload's extension |
| UploadApi.BlobStore.constructor | api/upload.ts:1 | the store starts empty with the given public prefix |
| UploadApi.BlobStore.Put | api/upload.ts:64-67 | a successful put adds exactly that object and returns its public URL; a failed one adds nothing |
| UploadApi.Handle | api/upload.ts:45-78 | 405 for anything but POST before reading the body; 400 with nothing stored when no file is found; otherwise the file is stored under a `videos/` key and its URL returned, or 500 with the error message |
| Text.IndexOf | api/upload.ts:30 | `indexOf`: the least position of the pattern, and -1 exactly when it does not occur |
| Text.LastIndexOf | api/upload.ts:31 | `lastIndexOf`: the greatest position of the pattern, and -1 exactly when it does not occur |
| Text.Split | api/upload.ts:22 | `split` always gives at least one piece |
| Text.SplitPiecesFree | api/upload.ts:22 | no piece of a split holds the separator |
| Text.SplitWithout | api/upload.ts:61 | text without the separator splits into itself alone |
| Text.SplitLastOfSuffix | api/upload.ts:61 | split on one character, `base + c + ext` ends with the piece `ext` when `ext` holds no `c` |
| Text.JoinSplit | api/upload.ts:22 | joining the pieces of a split with the separator gives back the text |
| Text.ReplaceFirst | server/src/index.ts:82 | `replace` with a string pattern changes only its first occurrence; its meaning for the guard is `Text.ReplaceLeading`, `ExpressServer.BearerHeader` and `ExpressServer.BareTokenPasses` |
| Text.ReplaceLeading | server/src/index.ts:82 | removing a leading pattern leaves exactly the rest |
| Text.LowerChar | server/src/index.ts:48 | an upper-case ASCII letter becomes its lower-case letter and nothing else changes; the result is never upper case, and it is a letter exactly when the input is |
| Text.Lower | server/src/index.ts:48 | the result has no upper-case ASCII letter, and text without one is left as it is |
| Text.LowerHasNoUpper | server/src/index.ts:48 | lower-cased text holds no upper-case ASCII letter |
| Text.LowerIdempotent | server/src/index.ts:48 | lowering twice is lowering once |
| Text.LowerEqual | server/src/index.ts:48 | two texts lower to the same text exactly when they agree character by character up to ASCII case |
| Text.Decimal | server/src/index.ts:38 | `String(n)`: digits only, no leading zero |
| Text.DecimalRoundTrip | server/src/index.ts:38 | the decimal rendering reads back as the number |
| Text.Hex | client/src/hooks/useWallet.ts:24 | `toString(16)`: lower-case hex digits, no leading zero |
| Text.HexRoundTrip | client/src/hooks/useWallet.ts:24 | the hexadecimal rendering reads back as the number |

## Left out

- Postgres itself. The tables are in memory. A failed database is an input: the first query of a handler throws. A failure part-way through a handler (after an insert, before a later query) is not modelled.
- Postgres collation. `ORDER BY name` is modelled as code-unit lexicographic order (`CategoriesApi.NameLeq`).
- `GROUP BY`. The grouped count followed by the `reduce` is one counting loop, `CategoriesApi.CountByCategory`.
- Non-numeric ids. Ids are natural numbers, and an id in a query string is either a number or absent.
- The declared type of `category_id`. Rows carry it as a number, and the admin page's `Video` carries it as a string, as each declares it.
- Multer. Its 100 MB limit and the disk write are not modelled. A file the filter refuses reaches Express's error handler, which is modelled as a 500 response.
- `fs.existsSync` and `unlinkSync`. The uploads directory is a set of URLs, and a delete removes the file when it is in the set.
- The Express category and listing routes, `server/src/index.ts:92-142`. They are not part of this model.
- The R2 helper in `server/src/r2-upload.ts`. It is not part of this model; it is never called by the routes modelled here. Its delete helper sends a `PutObjectCommand` at line 37.
- Vercel Blob. It is the `BlobStore` object. Its URL scheme is a base prefix and its failures are inputs.
- The multipart round trip across whole bodies. It is proved for one part (`UploadApi.FilePartRoundTrip`) and for the `Content-Type` header (`UploadApi.BoundaryOfFormHeader`). It is not proved for a full body with `--boundary` delimiters (section 5.1.1 of RFC 2046).
- ethers and the chain RPC. The provider is an oracle value. The balance is the already normalised amount, as an exact real; the floating-point conversion of `formatUnits` is not modelled. The added chain is described as `Base` with Base's RPC and explorer, as the code says, though the hook names the chain Zora.
- Randomness. `Math.random` in the shuffle becomes the list of exchanges `sort` performs. Session tokens, upload timestamps and random suffixes are parameters.
- Clocks. The 500 ms settle timer and the 500 ms upload interval are events.
- The smooth `scrollTo` of the DOM and the scroll-snap styles.
- Media playback. The element records the last play or pause request; decoding is not modelled.
- The Zod URL check. It is the `isUrl` parameter of `AdminPanel.VideoFormErrors`.
- Other parts of the admin page:
  - toasts, alerts and the delete confirmation dialog;
  - React Query caching and invalidation;
  - the auth redirect;
  - the category mutation;
  - a successful upload response without a `url` field.
- The presentation of `WalletConnect` beyond its early return.
- Parts of the client that are not modelled:
  - `AdminLogin`, `AdminDashboard`;
  - `main.tsx`;
  - the type declarations.
- The try/catch blocks of the serverless handlers are reached by a POST without a body. Destructuring a `null` `req.body` throws, and the catch answers 500 (`AuthApi.Handle`, `VideosApi.Handle`, `CategoriesApi.Handle`). Query failures are the `failure` parameter. No other modelled path throws, and a failure of the response object itself is not modelled.
- VideosApi.Handle: the `details` of the 500 for a `null` body is the `TypeError` text that V8 gives (`VideosApi.NullBodyMessage`). Other engines word it differently.
- Text: strings are sequences of Unicode scalar values, while JavaScript counts UTF-16 code units. Lengths and indices differ on characters outside the Basic Multilingual Plane, and a lone surrogate cannot be represented.
- Text.LowerChar: lowers ASCII letters only, while `toLowerCase` also lowers letters such as `É`. No non-ASCII character lowers to `m`, `o`, `p` or `v`, so the upload filter decides the same.
- Text.Lower: lowers ASCII letters only, as `Text.LowerChar` does.
- Wallet.IsSpace: skips ASCII white space only. `parseInt` also skips U+00A0, U+FEFF, U+2028, U+2029 and the other space separators.
- Wallet.ParseInt: answers an exact integer, where `parseInt` answers a double that is rounded above 2^53.
- Wallet.ChainIdEncoding: matches the source only for ids up to 9007199254740991 (2^53 - 1). Above that, `parseInt` rounds: `9007199254740993` is sent as the digits of `9007199254740992`.
- Wallet.ChainIdParam: its own contract states only the `0x` prefix; its value is `Wallet.ChainIdEncoding` and `Wallet.DefaultChainIdParam`.
- ExpressServer.Basename: its value is stated for a plain name and for `dir/name` only, not for paths with trailing slashes.
- ExpressServer.Extname: its value is stated for `stem.ext`, dotless and leading-dot names only, not for every path.
- VideosApi.Listing: its own contract states only lengths; content and order are `VideosApi.ListingNewestFirst`.
- VideoFeed.Exchange: its own contract states only the length; that it permutes is `VideoFeed.ExchangePermutes`.
- VideoFeed.Shuffle: its own contract states only the length; that the result is a permutation is `VideoFeed.ShufflePermutes`.
- UploadApi.MapParts: its own contract states only the length; the value at each index is `UploadApi.MapPartsAt`.
- UploadApi.PartFiles: its own contract states only the length; the file of each part is `UploadApi.PartFilesAt`, and which file the scan picks by `UploadApi.FirstFileSpec`.
- Text.Split: its own contract states only that there is a piece; what the pieces are is `Text.SplitPiecesFree` and `Text.JoinSplit`.
- CategoriesApi.Insert: its own contract states the multiset only; that it keeps the order is `CategoriesApi.InsertSorted`.
- CategoriesApi.Listing: its own contract states only the length; counts and order are `CategoriesApi.ListingCountsAndOrder`.

Behaviour the code has, modelled as written and stated by the lemmas named:

- With `ADMIN_PASSWORD` unset, a login whose body has no `password` field succeeds in both back ends. See `ExpressServer.UnsetPasswordAcceptsMissingPassword` and `AuthApi.UnsetPasswordAcceptsMissingPassword`.
- With `SESSION_SECRET` unset, the header `Bearer undefined` passes `me` (`AuthApi.UnsetSecretAcceptsUndefined`).
- Logout in the serverless back end revokes nothing (`AuthApi.LogoutRevokesNothing`).
- The Express guard also accepts a bare token (`ExpressServer.BareTokenPasses`).
- The Express delete reports success for an unknown id, while the serverless one answers 404.
- The `contentStart === -1` test in `api/upload.ts` never fires (`UploadApi.PartFileCases`).
- The upper-case entries of the upload filter's list are unreachable (`ExpressServer.FileFilterLowerOnly`).
- A title equal to `all` cannot be selected by the title filter (`AdminPanel.TitleAllSelectsEverything`).

## Findings

| source | as written | input that shows it | evidently intended | confidence | as-written member | corrected member |
|---|---|---|---|---|---|---|
| client/src/App.tsx:9 | `App` and `WalletConnect` each call `useWallet()`, so each gets its own state. Connecting from the wallet screen grants access only in `WalletConnect`'s state: it then renders nothing, while `App` still picks the wallet screen | age confirmed, then a connect with account `0xa1`, a successful chain switch and a balance of 250 against a threshold of 100: the screen is blank | the holder reaches the feed | not executed | App.SeparateInstancesLeaveBlankScreen | App.SharedInstanceReachesFeed |
| Admin.tsx:257-266 | `clearInterval` runs only after `fetch` resolves. When the request rejects, `catch` and `finally` run but the interval keeps firing | a 1000-byte `video/mp4` file, a network error, then one interval firing: progress is 10 on an idle panel, and the timer is still live | the interval is cleared on every path | not executed | AdminPanel.LeakedTimerAfterNetworkError | AdminPanel.Uploader.FetchFailsClearing |
