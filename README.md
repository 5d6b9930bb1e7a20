# story-page offline core in Dafny

This project models the offline-capable core of the story-page web client and proves properties about that model:

- the IndexedDB draft store, `storyDB` with its `drafts` store;
- the sync pass that posts queued drafts to the story API and deletes the ones the API accepted;
- the service worker's cache storage, with its install, activate and fetch policy and its push, notification-click and message decisions;
- the `App` controller's draft view and its state fields;
- the base64url key decoder;
- the draft-list rendering helpers.

Browser calls are turned into inputs. The network, `Date.now()`, `navigator.onLine`, the stored token, permission prompts and every awaited platform step become parameters or oracle values. Each source file's state becomes a Dafny class whose methods carry `modifies` clauses. Pure choices become functions, and lemmas about those functions hold the properties.

| file | module | source |
|---|---|---|
| js_model.dfy | JsModel | JS values, truthiness, `??`, `||`, ASCII `toLowerCase`, code-point string order, `trim` |
| base64url.dfy | Base64Url | `urlBase64ToUint8Array` of src/scripts/index.js, `atob` (WHATWG forgiving-base64 decode over the section 4 alphabet of RFC 4648), a section 5 encoder |
| sw_register.dfy | SwRegister | src/scripts/utils/sw-register.js |
| draft_db.dfy | DraftDb | src/scripts/utils/db.js, key generator per section 2.11 of the W3C Indexed Database API |
| sync.dfy | SyncEngine | src/scripts/utils/sync.js |
| service_worker.dfy | ServiceWorker | src/public/service-worker.js |
| app.dfy | AppView | src/scripts/pages/app.js |
| draft_ui.dfy | DraftUi | src/scripts/utils/Draft-ui.js |

## Model

| member | source | states |
|---|---|---|
| JsModel.Coalesce | src/scripts/utils/Draft-ui.js:11 | `??` keeps every value that is not `null` or `undefined` (including `0`, `''` and `false`) and replaces `null` and `undefined` by the default |
| JsModel.Or | src/scripts/utils/Draft-ui.js:13 | `\|\|` keeps a truthy value and replaces every falsy one by the default |
| JsModel.CoalesceVersusOr | src/scripts/utils/Draft-ui.js:11-15 | `??` and `\|\|` differ exactly on the falsy values other than `null` and `undefined`, where `??` keeps the value and `\|\|` takes the default |
| JsModel.LowerIdempotent | src/scripts/pages/app.js:99 | lower-cased text has no ASCII capital left, and lower-casing twice is lower-casing once |
| JsModel.StrLessIrreflexive | src/scripts/pages/app.js:103-104 | the `<` the comparator uses on strings is irreflexive |
| JsModel.StrLessTransitive | src/scripts/pages/app.js:103-104 | the string `<` is transitive |
| JsModel.StrLessTotal | src/scripts/pages/app.js:103-104 | of two different strings, one is less than the other |
| JsModel.TrimEmptyIffBlank | src/scripts/pages/app.js:138 | `trim()` gives the empty string exactly when the input is blank (empty or only whitespace) |
| Base64Url.PaddingCount | src/scripts/index.js:11 | `(4 - len % 4) % 4` is at most 3, makes the length a multiple of 4, and is 0 exactly when the length already is |
| Base64Url.Padded | src/scripts/index.js:11-12 | the padded string starts with the input, is at most 3 characters longer, and has a length that is a multiple of 4 |
| Base64Url.ToStdAlphabetSpec | src/scripts/index.js:12-14 | `-` becomes `+`, `_` becomes `/`, every other character is kept, and no `-` or `_` is left |
| Base64Url.PaddedThenTranslated | src/scripts/index.js:11-14 | translating the padded string is translating the key and then appending `=` padding |
| Base64Url.Sextets | src/scripts/index.js:15 | `atob` reads a string exactly when every character is in the standard alphabet, and reads each one as its 6-bit value |
| Base64Url.Atob | src/scripts/index.js:15 | every character `atob` produces has a code below 256 |
| Base64Url.UrlBase64ToBytesCodes | src/scripts/index.js:15-16 | the decoder succeeds exactly when `atob` does; the output is as long as the decoded string, and byte i is the code of decoded character i |
| Base64Url.LengthOneModFourRejected | src/scripts/index.js:11-15 | a whitespace-free key whose length is 1 modulo 4 always makes `atob` throw |
| Base64Url.ThreeBytes | src/scripts/index.js:15 | decoding the four sextets of three bytes gives back those bytes |
| Base64Url.DecodeEncodeSextets | src/scripts/index.js:15 | decoding the sextets of any byte sequence gives back the sequence |
| Base64Url.AtobOfEncoding | src/scripts/index.js:11-15 | padding, translating and `atob` on the unpadded base64url encoding of bytes gives one character per byte |
| Base64Url.RoundTrip | src/scripts/index.js:10-17 | decoding the unpadded base64url encoding of any byte sequence returns that sequence |
| SwRegister.UrlBase64ToUint8Array | src/scripts/utils/sw-register.js:4-13 | `null` exactly for an empty key, a throw exactly when the key does not decode, and otherwise an array filled by the loop that equals the index.js decoding |
| SwRegister.SubscribeGate | src/scripts/utils/sw-register.js:19-54 | a push subscription is made iff the worker is supported and registers, `PushManager` exists, permission is `granted`, the key is non-empty and decodes, and subscribe resolves; it uses exactly the decoded key |
| SwRegister.NeverSubscribes | src/scripts/utils/sw-register.js:40-46 | with the configured key `''`, no attempt ever subscribes; with everything else in place the attempt stops at the missing key |
| SwRegister.Registrar.constructor | src/scripts/utils/sw-register.js:2 | the module starts with `initialized` false |
| SwRegister.Registrar.RegisterSW | src/scripts/utils/sw-register.js:15-17 | the flag is set on every call; a call after the first does nothing, and the first makes one attempt |
| SwRegister.TryRegister | src/scripts/utils/sw-register.js:19-57 | the steps after the guard give the outcome of one attempt, including each caught failure |
| SwRegister.FailedAttemptIsNotRetried | src/scripts/utils/sw-register.js:15-64 | a second load event does nothing, even after a failed first attempt |
| SwRegister.DisableNotifications | src/scripts/utils/sw-register.js:67-81 | `false` when unsupported, unregistered, without a push manager or on a rejected step; `true` exactly when no subscription is left to remove |
| SwRegister.GetSubscription | src/scripts/utils/sw-register.js:83-92 | the subscription exactly when every lookup succeeds and one exists, and then it is the registration's own subscription; otherwise `null` |
| SwRegister.DisableWithoutSubscription | src/scripts/utils/sw-register.js:67-92 | where getSubscription finds nothing, disabling succeeds exactly when the lookups succeeded |
| DraftDb.KeyLessIrreflexive | src/scripts/utils/db.js:56 | no key sorts before itself in the store's key order |
| DraftDb.KeyLessTransitive | src/scripts/utils/db.js:56 | the store's key order is transitive |
| DraftDb.KeyLessTotal | src/scripts/utils/db.js:56 | of two different keys, one sorts first |
| DraftDb.KeyOf | src/scripts/utils/db.js:71 | a value is a key exactly when it is a number or a string, and the key reads back as that value |
| DraftDb.KeyRoundTrip | src/scripts/utils/db.js:20 | a key written into `id` reads back as the same key |
| DraftDb.SortedKeys | src/scripts/utils/db.js:56 | every stored key appears once, in strictly ascending key order |
| DraftDb.ListingSpec | src/scripts/utils/db.js:56-58 | `getAll` lists every stored record exactly once, each under its own id, in ascending id order |
| DraftDb.DraftDB.constructor | src/scripts/utils/db.js:5 | a fresh page has no cached connection, an empty store and a generator at 1 |
| DraftDb.DraftDB.OpenDB | src/scripts/utils/db.js:10-31 | returns the cached handle unchanged once opened; otherwise opens version 1, creates `drafts` during an upgrade only if absent, and caches the connection only on success |
| DraftDb.DraftDB.AddDraft | src/scripts/utils/db.js:36-46 | resolves with the key; the store gains the caller's record under a key it did not hold, with `createdAt` set to the store time; an absent or `undefined` id gets a generated key; errors leave the store unchanged |
| DraftDb.UndefinedIdIsGenerated | src/scripts/utils/db.js:36-46 | a record whose `id` is `undefined` is added like one with no `id`: the generator's next key, written into the stored record |
| DraftDb.DraftDB.PutExplicit | src/scripts/utils/db.js:41-43 | a caller-supplied numeric key at or above the generator moves the generator past it |
| DraftDb.DraftDB.PutGenerated | src/scripts/utils/db.js:20-43 | a generated key is the generator's current number, which is used up |
| DraftDb.DraftDB.GetAllDrafts | src/scripts/utils/db.js:51-61 | resolves with the records in ascending key order, or rejects with the access error; the store is unchanged |
| DraftDb.DraftDB.DeleteDraft | src/scripts/utils/db.js:66-76 | removes exactly the record with that key, if any, and resolves `true`; a value that is not a key rejects |
| DraftDb.DraftDB.GetAllNotes | src/scripts/utils/db.js:88 | has the same contract as getAllDrafts |
| DraftDb.DraftDB.DeleteNote | src/scripts/utils/db.js:82 | has the same contract as deleteDraft |
| DraftDb.DraftDB.Reload | src/scripts/utils/db.js:5 | a page reload drops the cached connection and keeps what is on disk |
| DraftDb.StoredKeepsFields | src/scripts/utils/db.js:41 | the stored record keeps every caller field except `createdAt`, which is always the store time, and `id`, which is the key |
| DraftDb.DeleteAbsentSucceeds | src/scripts/utils/db.js:71-73 | deleting an absent key resolves `true` and changes nothing |
| DraftDb.GeneratedKeyIsFresh | src/scripts/utils/db.js:20-43 | a generated key is above every key issued before and every numeric key in the store, and the next one is larger |
| SyncEngine.Token | src/scripts/utils/sync.js:13 | the token is JS `\|\|` applied to the storage item (`null` when absent) and `''` |
| SyncEngine.RequestFor | src/scripts/utils/sync.js:15-22 | one POST to the configured base URL plus `/stories`, JSON, with `title` and `description` both the draft's text, and `Authorization: Bearer <token>` exactly when the token is non-empty |
| SyncEngine.Requests | src/scripts/utils/sync.js:11-22 | one request per snapshot draft, in snapshot order |
| SyncEngine.SyncOfflineData | src/scripts/utils/sync.js:6-33 | offline: nothing is read, sent or deleted. Online: a failed read rejects; otherwise one request goes out per draft in order, and the store becomes the snapshot minus the drafts whose POST came back ok |
| SyncEngine.PostAll | src/scripts/utils/sync.js:11-32 | the loop sends the requests in order and deletes exactly the ok'd drafts |
| SyncEngine.Settle | src/scripts/utils/sync.js:24-31 | an ok response deletes that draft; a non-ok response or a thrown error leaves the store as it was |
| SyncEngine.RequestsUpToAll | src/scripts/utils/sync.js:11-22 | the first n requests of the loop are the requests for the first n drafts |
| SyncEngine.ConfirmedSpec | src/scripts/utils/sync.js:24-25 | a key is deleted iff some draft among those posted so far carries it and was answered ok |
| SyncEngine.DeletedIffOk | src/scripts/utils/sync.js:24-31 | the i-th draft is gone after the pass iff its response was ok, and every remaining draft is unchanged |
| SyncEngine.DeletedAt | src/scripts/utils/sync.js:24-31 | the same for one position i |
| SyncEngine.ConfirmedInStore | src/scripts/utils/sync.js:25 | only keys that were in the snapshot are deleted |
| SyncEngine.AllOkConfirmsAll | src/scripts/utils/sync.js:11-25 | when every response is ok, every draft is deleted |
| SyncEngine.SecondPass | src/scripts/utils/sync.js:9-25 | a second pass sends one request per draft left by the first, so none after a fully successful first pass |
| SyncEngine.RemainingKeysStored | src/scripts/utils/sync.js:11-32 | what remains is a sub-store whose records still carry their own keys |
| SyncEngine.FailureKept | src/scripts/utils/sync.js:26-31 | a failed draft stays in the store, unchanged |
| SyncEngine.OnlyFailureRemains | src/scripts/utils/sync.js:24-31 | when only the draft at one position fails, the store afterwards holds exactly that draft |
| SyncEngine.MiddleFailureLeavesOnlyThatDraft | src/scripts/utils/sync.js:26-31 | ok, fail, ok over three drafts leaves only the second; the loop goes on after a failure |
| ServiceWorker.AddAllEntries | src/public/service-worker.js:22 | `addAll` succeeds iff every fetch gives a storable response, and then holds exactly those URLs with their responses |
| ServiceWorker.Opened | src/public/service-worker.js:22-48 | `caches.open` gives the existing cache, or an empty one |
| ServiceWorker.Without | src/public/service-worker.js:32 | deleting a cache name removes that name and nothing else |
| ServiceWorker.Evict | src/public/service-worker.js:30-33 | after visiting some names, the list keeps `story-app-cache-v3` and the unvisited names |
| ServiceWorker.EvictOnly | src/public/service-worker.js:30-33 | once every name is visited, only `story-app-cache-v3` is left, if it existed |
| ServiceWorker.DistinctWithout | src/public/service-worker.js:32 | deleting keeps the cache names distinct |
| ServiceWorker.Worker.constructor | src/public/service-worker.js:1-9 | the worker starts from given cache storage with no network requests made |
| ServiceWorker.Worker.Open | src/public/service-worker.js:22-48 | opening a missing cache creates an empty one at the end of the name list; opening an existing one changes nothing |
| ServiceWorker.Worker.Delete | src/public/service-worker.js:32 | removes that cache and its name only |
| ServiceWorker.Worker.Install | src/public/service-worker.js:19-25 | fetches the six static assets; on success `story-app-cache-v3` gains all six, and on any failure none |
| ServiceWorker.Worker.AddAll | src/public/service-worker.js:22 | the all-or-nothing `addAll` over given URLs |
| ServiceWorker.Worker.Activate | src/public/service-worker.js:27-37 | every cache except `story-app-cache-v3` is deleted, and that one is kept with its contents |
| ServiceWorker.Worker.DeleteVisited | src/public/service-worker.js:30-33 | visiting every name deletes all but `story-app-cache-v3` and keeps the contents of what stays |
| ServiceWorker.Worker.Visit | src/public/service-worker.js:32 | `key !== CACHE_NAME && caches.delete(key)` for one name |
| ServiceWorker.Worker.HandleFetch | src/public/service-worker.js:39-61 | non-GET is not intercepted. A hit is answered from the cache with no network request. A miss fetches; a response of any status is stored in `story-app-cache-v3` and returned. A network failure gives navigations the cached `/index.html` and others `undefined` |
| ServiceWorker.MatchSpec | src/public/service-worker.js:43-55 | `caches.match` answers from the first cache, in creation order, that holds the URL, and finds nothing iff no cache holds it |
| ServiceWorker.MissThenPutHits | src/public/service-worker.js:46-51 | after a miss stores the network response, the next match for that URL returns it |
| ServiceWorker.InstalledAssetsMatch | src/public/service-worker.js:2-45 | after a successful install every static asset is a cache hit |
| ServiceWorker.OnPush | src/public/service-worker.js:63-72 | a notification is always shown; title and body default to `Cerita Baru!` and `Ada cerita baru yang menunggumu!`, and both icons are `/icons/icon-192x192.png`; a malformed payload throws |
| ServiceWorker.OnNotificationClick | src/public/service-worker.js:74-82 | focuses the first client when there is one, otherwise opens `/` |
| ServiceWorker.OnMessage | src/public/service-worker.js:84-94 | only `type === 'push-mock'` shows a notification, with the given title and body; a mock without data throws |
| ServiceWorker.MockMatchesPush | src/public/service-worker.js:63-94 | a mock message shows what a push with the same title and body shows; an empty push shows the defaults |
| AppView.Filter | src/scripts/pages/app.js:98-100 | keeps exactly the drafts whose lower-cased text contains the lower-cased filter |
| AppView.Insert | src/scripts/pages/app.js:102-106 | inserting adds exactly that draft |
| AppView.Sort | src/scripts/pages/app.js:102-106 | the sort is a permutation of its input |
| AppView.InsertSorted | src/scripts/pages/app.js:102-106 | insertion keeps the list sorted |
| AppView.SortSorted | src/scripts/pages/app.js:102-106 | the output is ordered by lower-cased text, ascending when `sortAsc` and descending otherwise |
| AppView.SortStable | src/scripts/pages/app.js:102-106 | the sort is stable: the drafts of each lower-cased text appear in the same relative order as in its input, as the comparator returns 0 for them and `Array.prototype.sort` is stable |
| AppView.InsertWithKey | src/scripts/pages/app.js:102-106 | inserting a draft into a sorted list places it behind every draft of equal lower-cased text |
| AppView.ViewSpec | src/scripts/pages/app.js:96-106 | `_renderDrafts` lists exactly the cached drafts the filter keeps, as often as in the cache, sorted; it throws exactly when a draft without string text is read |
| AppView.EmptyFilterKeepsAll | src/scripts/pages/app.js:98 | an empty filter keeps every draft, in order |
| AppView.FilterConcat | src/scripts/pages/app.js:99 | the filter keeps the order of what it keeps |
| AppView.RemoveId | src/scripts/pages/app.js:117 | the cache after a delete click has no draft with that id and keeps all others |
| AppView.RemoveIdConcat | src/scripts/pages/app.js:117 | removal by id keeps the order of what it keeps |
| AppView.RemoveAbsentId | src/scripts/pages/app.js:117 | removing an id no draft has changes nothing |
| AppView.ListingLacksKey | src/scripts/pages/app.js:116-117 | a reloaded listing holds no draft whose id was deleted |
| AppView.RouteUrl | src/scripts/pages/app.js:191 | `hash.slice(1) \|\| '/'` is never empty, and is `/` for an empty hash or `#` |
| AppView.ResolveSpec | src/scripts/pages/app.js:191-192 | an empty hash, `#` and `#/` go to `routes['/']`; known routes resolve to themselves, and unknown routes fall back to `/` |
| AppView.SubmittedDraft | src/scripts/pages/app.js:140 | the submitted draft has the input text and the current time, and no `id` |
| AppView.SubmitRequest | src/scripts/pages/app.js:148-155 | the submit POST always sends `Bearer <token>`, with the input as title and description |
| AppView.App.constructor | src/scripts/pages/app.js:9-20 | empty cache, not rendering, and the login state recorded from the token |
| AppView.App.UpdateAuthLinks | src/scripts/pages/app.js:53-81 | nothing happens unless the login state changed; otherwise the recorded state and the shown links follow it, and the logout listener is attached once |
| AppView.App.Logout | src/scripts/pages/app.js:72-79 | the token goes, the links show the logged-out set, and the hash becomes `/login` |
| AppView.App.RenderDrafts | src/scripts/pages/app.js:91-124 | with no list nothing happens; the store is read only when the cache is empty; the list shows the view of the cache; the cache is never reordered |
| AppView.App.DeleteClick | src/scripts/pages/app.js:115-119 | the store loses that key, and the cache loses the drafts with that id and keeps the rest in order; a rejected delete changes nothing |
| AppView.App.ToggleSort | src/scripts/pages/app.js:177-181 | the sort order flips and the list is redrawn in it |
| AppView.App.RefreshDrafts | src/scripts/pages/app.js:143-144 | the cache becomes the store's listing |
| AppView.App.QueueDraft | src/scripts/pages/app.js:140-144 | the draft is stored and the cache reloaded; a rejected add changes neither |
| AppView.App.DeletePosted | src/scripts/pages/app.js:159-161 | the store loses the key and the cache is reloaded from it |
| AppView.App.Submit | src/scripts/pages/app.js:136-169 | blank input does nothing; otherwise the draft is stored before any network attempt and posted when online; the store keeps the draft even after an ok response (as written) |
| AppView.App.SubmitDraft | src/scripts/pages/app.js:140-168 | the steps from the draft object on, as written |
| AppView.App.SubmitIntended | src/scripts/pages/app.js:136-169 | the same handler, with the ok response deleting the stored draft: the store returns to what it was before the submit |
| AppView.App.SubmitDraftIntended | src/scripts/pages/app.js:140-168 | the steps from the draft object on, as intended |
| AppView.App.PostQueued | src/scripts/pages/app.js:146-166 | the online part: one POST when online; an ok response removes the just-stored draft; anything else leaves store and cache alone |
| AppView.App.RenderPage | src/scripts/pages/app.js:185-205 | a no-op while a render runs; otherwise the guard is cleared iff every step succeeded (as written) |
| AppView.App.RenderPageGuarded | src/scripts/pages/app.js:185-205 | the guard is cleared whether or not a step fails |
| AppView.App.RenderSteps | src/scripts/pages/app.js:189-202 | resolves the route, renders the page, checks the login state; on a page with a note form whose steps succeed, the cache becomes the store listing, the list shows it unfiltered in ascending order and `sortAsc` is true; without a form, or after a failed step, cache, list and `sortAsc` are unchanged |
| AppView.App.ReloadForm | src/scripts/pages/app.js:198-201 | the cache becomes the store listing and the list its unfiltered ascending view, with `sortAsc` true; a failed read leaves cache, list and `sortAsc` unchanged |
| AppView.SubmittedDraftIdRefused | src/scripts/pages/app.js:140-163 | the submitted draft's `id` is `undefined`, so `deleteDraft(draft.id)` rejects and the store keeps the posted draft |
| AppView.FailedRenderBlocksNavigation | src/scripts/pages/app.js:185-205 | after a render whose draft read fails, the next navigation does nothing |
| AppView.FailedRenderThenRetry | src/scripts/pages/app.js:185-205 | with the guard cleared on failure, the next navigation renders again |
| DraftUi.EscapeHasNoLt | src/scripts/utils/Draft-ui.js:13-15 | escaped text contains no `<` |
| DraftUi.EscapeConcat | src/scripts/utils/Draft-ui.js:13-15 | escaping works character by character |
| DraftUi.EscapeWithoutLt | src/scripts/utils/Draft-ui.js:13-15 | text without `<` is unchanged |
| DraftUi.EscapeIdempotent | src/scripts/utils/Draft-ui.js:13-15 | escaping twice is escaping once |
| DraftUi.EscapeLength | src/scripts/utils/Draft-ui.js:13-15 | each `<` adds three characters (`&lt;`) |
| DraftUi.Digits | src/scripts/utils/Draft-ui.js:11 | a numeral is a non-empty string of digits |
| DraftUi.DigitsRoundTrip | src/scripts/utils/Draft-ui.js:11 | the numeral of a natural number reads back as that number |
| DraftUi.EscapedOr | src/scripts/utils/Draft-ui.js:13-15 | `(v \|\| fallback).replace(...)` throws iff `v` is a truthy non-string; otherwise it escapes `v` or the fallback |
| DraftUi.RenderDraftItem | src/scripts/utils/Draft-ui.js:8-18 | throws iff the title or content is a truthy non-string. The title defaults to `Untitled` and the content to empty, both escaped with no `<`. The id is `''` for null and undefined. The timestamp is `createdAt` when it is truthy, otherwise the current time |
| DraftUi.NumericIdShown | src/scripts/utils/Draft-ui.js:11 | a numeric id is shown as a numeral that reads back as the id |
| DraftUi.Container.constructor | src/scripts/utils/Draft-ui.js:24 | a container with given children |
| DraftUi.ClearDrafts | src/scripts/utils/Draft-ui.js:24-27 | the container has no children afterwards; a null container is left alone |
| DraftUi.ShowDrafts | src/scripts/utils/Draft-ui.js:34-38 | the container holds exactly one item per draft, in input order, up to the first draft whose rendering throws; when every draft renders it holds exactly `Items`; a null container is a no-op |
| DraftUi.Items | src/scripts/utils/Draft-ui.js:37 | the rendered item of each draft, in order |
| DraftUi.AllItemsShown | src/scripts/utils/Draft-ui.js:34-38 | a container showing every draft holds exactly `Items` |
| DraftUi.EmptyDraftDefaults | src/scripts/utils/Draft-ui.js:11-15 | an empty draft shows `Untitled`, empty content, an empty id and the current time |
| DraftUi.StringFieldsRender | src/scripts/utils/Draft-ui.js:8-38 | drafts whose title and content are strings or falsy always render, and no shown title or content contains `<` |

## Left out

- Promises, event listeners, IndexedDB transactions and `console` output are left out. Each awaited step is one atomic step of a method, and a rejection is an `Err` or an outcome constructor.
- The `online` listener at src/scripts/utils/sync.js:35-38 is event wiring. One pass is `SyncEngine.SyncOfflineData`. Overlapping passes, several tabs and concurrent `online` events are not modelled.
- config.js is not part of this model. Its `BASE_URL` is the `baseUrl` parameter of the sync pass.
- The first install and activate listeners at src/public/service-worker.js:11-17, and the `skipWaiting` and `clients.claim` calls, only affect worker lifecycle timing. Both install listeners would run; the model has the one that fills the cache.
- `cache.put` refusing non-http schemes, `Vary` handling, opaque responses and response bodies being read once are reduced to the `Storable` predicate and a `Response(status, body)` value.
- The browser's `caches.match` request matching is keyed by URL only.
- Numbers are integers. IndexedDB keys are integers or strings: no fractions, `NaN`, dates, arrays or binary keys. The generator limit 2^53 is kept.
- `toLowerCase` folds ASCII letters only.
- Strings are sequences of Unicode code points. JavaScript strings are UTF-16 code units, so `<`, IndexedDB key order and `length` differ for characters outside the Basic Multilingual Plane: the model puts them after U+E000–U+FFFF and counts them once, JavaScript puts them before and counts them twice.
- `toLocaleString` date formatting at src/scripts/utils/Draft-ui.js:14 is not modelled. The item keeps the timestamp it would format.
- `renderDraftItem(null)` throws in the source when it reads `null.id`. The model takes a record, so that case is not represented.
- DOM building is reduced to the strings written into an item and the container's child sequence, and the list shows the drafts in order. That covers the drawer toggles of src/scripts/pages/app.js:33-51, `innerHTML` and the delete button's text.
- The `\|\| []` fallback at src/scripts/utils/db.js:58 is never reached, because `getAll` always resolves with an array. The listing is returned directly.
- Object property lookups are plain map lookups. A hash naming a property of `Object.prototype` (for example `#constructor`) would resolve to it in the source; `AppView.ResolveRoute` treats it as unknown.
- The `story-model.js` HTTP client, `notification.js`, the lowercase `draft-ui.js` wrapper, the webpack configuration and the rest of index.js (`subscribeUser`, the local-push button) are not part of this model.
- The model follows the code in these places:
  - install is all-or-nothing, because `addAll` is;
  - the push handler shows a notification with no permission check;
  - a failed non-navigation fetch is answered with `undefined`;
  - `caches.match` searches every cache, not only the current one.
- ServiceWorker.OnPush: the payload is a parsed JSON value or malformed; the cost of parsing is not modelled.
- DraftUi.ShowDrafts: one `now` stands for every item's `Date.now()`; the source reads the clock once per item, so drafts without `createdAt` may show slightly different times.
- DraftDb.DraftDB.OpenDB: a blocked open (another tab holding an older version) is not modelled; opening either succeeds or fails.

## Findings

| source | as written | input that shows it | evidently intended | confidence | as-written member | corrected member |
|---|---|---|---|---|---|---|
| src/scripts/pages/app.js:140-163 | the submit handler ignores the key `addDraft` resolves with. After an ok POST it calls `deleteDraft(draft.id)` with `undefined`, which rejects; the catch at line 163 swallows the rejection | any non-blank input submitted online with a 2xx response: the draft stays in the store and is posted again by the next sync pass | delete the draft under the key `addDraft` resolved with, so that a posted draft leaves the queue | not executed | AppView.App.Submit, AppView.SubmittedDraftIdRefused | AppView.App.SubmitIntended |
| src/scripts/pages/app.js:185-205 | `#isRendering` is set at line 187 and cleared only at line 204. A rejected `render`, `afterRender` or `getAllDrafts` leaves it set | a page with a note form whose draft read fails (storage unavailable): the render rejects, and every later `renderPage` returns at line 186 | clear the guard whether or not a step fails (`try`/`finally`) | not executed | AppView.App.RenderPage, AppView.FailedRenderBlocksNavigation | AppView.App.RenderPageGuarded, AppView.FailedRenderThenRetry |
