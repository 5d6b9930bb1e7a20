/** src/scripts/pages/app.js: the draft view (filter, sort and removal by
    id, all on copies of the cached drafts), the hash router, and the
    controller state of the `App` class: `#draftsCache`, the `#isRendering`
    guard, `#lastAuthState` and the submit flow that queues a draft and
    posts it. The page's DOM is reduced to what the controller reads or
    decides: which elements are present, what the note list shows, which
    set of navigation links is shown, the text of the note input and the
    location hash. */
module AppView {
  import opened JsModel
  import opened DraftDb
  import opened SyncEngine

  /** Why a handler or a render rejects. */
  datatype AppError = Db(error: DbError) | TypeError | PageFailed

  // ---------------------------------------------------------------------------
  // Filtering

  predicate HasText(d: Record)
  {
    Get(d, "text").Str?
  }

  predicate AllText(s: seq<Record>)
  {
    forall d :: d in s ==> HasText(d)
  }

  /** `d.text.toLowerCase()`. */
  function SortKey(d: Record): string
    requires HasText(d)
  {
    Lower(Get(d, "text").s)
  }

  predicate Matches(d: Record, filterText: string)
    requires HasText(d)
  {
    Includes(SortKey(d), Lower(filterText))
  }

  /** The drafts whose lower-cased text contains the lower-cased filter, in order. */
  function Filter(s: seq<Record>, filterText: string): (r: seq<Record>)
    requires AllText(s)
    ensures forall d :: d in r <==> d in s && Matches(d, filterText)
    ensures AllText(r)
    ensures |r| <= |s|
    decreases |s|
  {
    if s == [] then []
    else (if Matches(s[0], filterText) then [s[0]] else []) + Filter(s[1..], filterText)
  }

  /** The filter step of `_renderDrafts`: an empty filter keeps the copy as
      it is; otherwise reading the text of a draft without a string text
      throws. */
  function FilterStep(s: seq<Record>, filterText: string): Result<seq<Record>, AppError>
  {
    if filterText == "" then Ok(s)
    else if !AllText(s) then Err(TypeError)
    else Ok(Filter(s, filterText))
  }

  // ---------------------------------------------------------------------------
  // Sorting

  /** The comparator's strict order: by lower-cased text, reversed when descending. */
  predicate Before(a: string, b: string, asc: bool)
  {
    if asc then StrLess(a, b) else StrLess(b, a)
  }

  predicate SortedBy(s: seq<Record>, asc: bool)
    requires AllText(s)
  {
    forall i, j :: 0 <= i < j < |s| ==> !Before(SortKey(s[j]), SortKey(s[i]), asc)
  }

  /** Places `d` after every element whose key does not come after its own. */
  function Insert(d: Record, t: seq<Record>, asc: bool): (r: seq<Record>)
    requires HasText(d) && AllText(t)
    ensures multiset(r) == multiset(t) + multiset{d}
    ensures AllText(r)
    decreases |t|
  {
    if t == [] then [d]
    else if Before(SortKey(d), SortKey(t[0]), asc) then [d] + t
    else
      assert t == [t[0]] + t[1..];
      [t[0]] + Insert(d, t[1..], asc)
  }

  /** A stable insertion sort by lower-cased text. */
  function Sort(s: seq<Record>, asc: bool): (r: seq<Record>)
    requires AllText(s)
    ensures multiset(r) == multiset(s)
    ensures AllText(r)
    decreases |s|
  {
    if s == [] then []
    else
      var init := s[..|s| - 1];
      assert s == init + [s[|s| - 1]];
      Insert(s[|s| - 1], Sort(init, asc), asc)
  }

  /** The sort step of `_renderDrafts`: fewer than two drafts are never
      compared; otherwise a draft without a string text makes the
      comparator throw. */
  function SortStep(s: seq<Record>, asc: bool): Result<seq<Record>, AppError>
  {
    if |s| < 2 then Ok(s)
    else if !AllText(s) then Err(TypeError)
    else Ok(Sort(s, asc))
  }

  /** What `_renderDrafts(filterText, sortAsc)` lists for a cache: filter a
      copy, then sort it. */
  function View(cache: seq<Record>, filterText: string, asc: bool): Result<seq<Record>, AppError>
  {
    match FilterStep(cache, filterText)
    case Err(e) => Err(e)
    case Ok(kept) => SortStep(kept, asc)
  }

  lemma BeforeTransitive(a: string, b: string, c: string, asc: bool)
    requires Before(a, b, asc) && Before(b, c, asc)
    ensures Before(a, c, asc)
  {
    if asc {
      StrLessTransitive(a, b, c);
    } else {
      StrLessTransitive(c, b, a);
    }
  }

  lemma BeforeIrreflexive(a: string, asc: bool)
    ensures !Before(a, a, asc)
  {
    StrLessIrreflexive(a);
  }

  lemma {:induction false} InsertSorted(d: Record, t: seq<Record>, asc: bool)
    requires HasText(d) && AllText(t) && SortedBy(t, asc)
    ensures SortedBy(Insert(d, t, asc), asc)
    decreases |t|
  {
    if t == [] {
    } else if Before(SortKey(d), SortKey(t[0]), asc) {
      InsertFront(d, t, asc);
    } else {
      InsertSorted(d, t[1..], asc);
      InsertLater(d, t, asc);
    }
  }

  /** `d` goes in front of a sorted `t` whose head comes after it. */
  lemma InsertFront(d: Record, t: seq<Record>, asc: bool)
    requires HasText(d) && AllText(t) && SortedBy(t, asc)
    requires t != [] && Before(SortKey(d), SortKey(t[0]), asc)
    ensures SortedBy([d] + t, asc)
  {
    var r := [d] + t;
    forall j | 1 <= j < |r| ensures !Before(SortKey(r[j]), SortKey(d), asc) {
      var x := t[j - 1];
      assert r[j] == x;
      if j > 1 {
        assert !Before(SortKey(x), SortKey(t[0]), asc);
      } else {
        BeforeIrreflexive(SortKey(t[0]), asc);
      }
      if Before(SortKey(x), SortKey(d), asc) {
        BeforeTransitive(SortKey(x), SortKey(d), SortKey(t[0]), asc);
      }
    }
    forall i, j | 0 <= i < j < |r| ensures !Before(SortKey(r[j]), SortKey(r[i]), asc) {
      if i > 0 {
        assert r[i] == t[i - 1] && r[j] == t[j - 1];
      }
    }
  }

  /** Nothing inserted behind the head of a sorted `t` comes before that head. */
  lemma InsertBehindHead(d: Record, t: seq<Record>, asc: bool)
    requires HasText(d) && AllText(t) && SortedBy(t, asc)
    requires t != [] && !Before(SortKey(d), SortKey(t[0]), asc)
    ensures forall x :: x in Insert(d, t[1..], asc) ==> HasText(x) && !Before(SortKey(x), SortKey(t[0]), asc)
  {
    var rest := t[1..];
    var tail := Insert(d, rest, asc);
    forall x | x in tail ensures HasText(x) && !Before(SortKey(x), SortKey(t[0]), asc) {
      assert x in multiset(tail);
      if x != d {
        assert x in multiset(rest);
        var m :| 0 <= m < |rest| && rest[m] == x;
        assert t[m + 1] == x;
      }
    }
  }

  /** A head that no element of a sorted tail comes before keeps it sorted. */
  lemma ConsSorted(h: Record, tail: seq<Record>, asc: bool)
    requires HasText(h) && AllText(tail) && SortedBy(tail, asc)
    requires forall x :: x in tail ==> !Before(SortKey(x), SortKey(h), asc)
    ensures AllText([h] + tail) && SortedBy([h] + tail, asc)
  {
    var r := [h] + tail;
    forall i, j | 0 <= i < j < |r| ensures !Before(SortKey(r[j]), SortKey(r[i]), asc) {
      assert r[j] == tail[j - 1];
      if i > 0 {
        assert r[i] == tail[i - 1];
      }
    }
  }

  /** The head of a sorted `t` that does not come after `d` stays in front. */
  lemma InsertLater(d: Record, t: seq<Record>, asc: bool)
    requires HasText(d) && AllText(t) && SortedBy(t, asc)
    requires t != [] && !Before(SortKey(d), SortKey(t[0]), asc)
    requires SortedBy(Insert(d, t[1..], asc), asc)
    ensures SortedBy(Insert(d, t, asc), asc)
  {
    var tail := Insert(d, t[1..], asc);
    InsertBehindHead(d, t, asc);
    ConsSorted(t[0], tail, asc);
    assert Insert(d, t, asc) == [t[0]] + tail;
  }

  /** The sort orders by lower-cased text, ascending or descending. */
  lemma {:induction false} SortSorted(s: seq<Record>, asc: bool)
    requires AllText(s)
    ensures SortedBy(Sort(s, asc), asc)
    decreases |s|
  {
    if s != [] {
      var init := s[..|s| - 1];
      SortSorted(init, asc);
      InsertSorted(s[|s| - 1], Sort(init, asc), asc);
    }
  }

  // ---------------------------------------------------------------------------
  // Stability: drafts whose lower-cased texts are equal compare as 0 and keep
  // their relative order

  /** The drafts of `s` whose lower-cased text is `k`, in order. */
  function WithKey(s: seq<Record>, k: string): (r: seq<Record>)
    requires AllText(s)
    ensures |r| <= |s|
    decreases |s|
  {
    if s == [] then [] else KeyPart(s[0], k) + WithKey(s[1..], k)
  }

  lemma {:induction false} WithKeyNone(s: seq<Record>, k: string)
    requires AllText(s) && forall j :: 0 <= j < |s| ==> SortKey(s[j]) != k
    ensures WithKey(s, k) == []
    decreases |s|
  {
    if s != [] {
      WithKeyNone(s[1..], k);
    }
  }

  /** `[d]` when `d` has key `k`, otherwise nothing. */
  function KeyPart(d: Record, k: string): (r: seq<Record>)
    requires HasText(d)
    ensures r == [d] || r == []
    ensures d in r <==> SortKey(d) == k
  {
    if SortKey(d) == k then [d] else []
  }

  lemma {:induction false} WithKeyConcat(a: seq<Record>, b: seq<Record>, k: string)
    requires AllText(a) && AllText(b)
    ensures AllText(a + b)
    ensures WithKey(a + b, k) == WithKey(a, k) + WithKey(b, k)
    decreases |a|
  {
    if a != [] {
      var h := KeyPart(a[0], k);
      assert (a + b)[0] == a[0] && (a + b)[1..] == a[1..] + b;
      assert WithKey(a + b, k) == h + WithKey(a[1..] + b, k);
      WithKeyConcat(a[1..], b, k);
      assert WithKey(a, k) == h + WithKey(a[1..], k);
      ConcatAssoc(h, WithKey(a[1..], k), WithKey(b, k));
    } else {
      assert a + b == b;
    }
  }

  lemma ConcatAssoc(a: seq<Record>, b: seq<Record>, c: seq<Record>)
    ensures a + (b + c) == (a + b) + c
  {
  }

  lemma ConsWithKey(x: Record, t: seq<Record>, k: string)
    requires HasText(x) && AllText(t)
    ensures AllText([x] + t)
    ensures WithKey([x] + t, k) == KeyPart(x, k) + WithKey(t, k)
  {
    var r := [x] + t;
    assert r[0] == x && r[1..] == t;
  }

  /** No draft of a sorted `t` whose head comes after `d` has the key of `d`. */
  lemma FrontWithKey(d: Record, t: seq<Record>, asc: bool, k: string)
    requires HasText(d) && AllText(t) && SortedBy(t, asc)
    requires t != [] && Before(SortKey(d), SortKey(t[0]), asc)
    ensures AllText([d] + t)
    ensures WithKey([d] + t, k) == WithKey(t, k) + KeyPart(d, k)
  {
    ConsWithKey(d, t, k);
    if SortKey(d) == k {
      BeforeIrreflexive(k, asc);
      forall j | 0 <= j < |t| ensures SortKey(t[j]) != k {
        if j > 0 {
          assert !Before(SortKey(t[j]), SortKey(t[0]), asc);
        }
      }
      WithKeyNone(t, k);
    }
  }

  /** Inserting `d` into a sorted list puts it behind every draft of equal key. */
  lemma {:induction false} InsertWithKey(d: Record, t: seq<Record>, asc: bool, k: string)
    requires HasText(d) && AllText(t) && SortedBy(t, asc)
    ensures WithKey(Insert(d, t, asc), k) == WithKey(t, k) + KeyPart(d, k)
    decreases |t|
  {
    if t == [] {
      assert Insert(d, t, asc) == [d] + [];
      ConsWithKey(d, [], k);
    } else if Before(SortKey(d), SortKey(t[0]), asc) {
      assert Insert(d, t, asc) == [d] + t;
      FrontWithKey(d, t, asc, k);
    } else {
      var h, rest := t[0], t[1..];
      var tail := Insert(d, rest, asc);
      assert Insert(d, t, asc) == [h] + tail;
      assert [h] + rest == t;
      InsertWithKey(d, rest, asc, k);
      ConsWithKey(h, tail, k);
      ConsWithKey(h, rest, k);
      ConcatAssoc(KeyPart(h, k), WithKey(rest, k), KeyPart(d, k));
    }
  }

  /** The sort is stable: the drafts of each lower-cased text appear in their
      input order. */
  lemma {:induction false} SortStable(s: seq<Record>, asc: bool, k: string)
    requires AllText(s)
    ensures WithKey(Sort(s, asc), k) == WithKey(s, k)
    decreases |s|
  {
    if s != [] {
      var init, last := s[..|s| - 1], s[|s| - 1];
      assert s == init + [last];
      var sorted := Sort(init, asc);
      assert Sort(s, asc) == Insert(last, sorted, asc);
      SortSorted(init, asc);
      SortStable(init, asc, k);
      StableStep(init, last, sorted, asc, k);
    }
  }

  /** One step of the sort: inserting the last draft into the sorted rest. */
  lemma StableStep(init: seq<Record>, last: Record, sorted: seq<Record>, asc: bool, k: string)
    requires AllText(init) && HasText(last) && AllText(sorted) && SortedBy(sorted, asc)
    requires WithKey(sorted, k) == WithKey(init, k)
    ensures AllText(init + [last])
    ensures WithKey(Insert(last, sorted, asc), k) == WithKey(init + [last], k)
  {
    InsertWithKey(last, sorted, asc, k);
    WithKeyConcat(init, [last], k);
    ConsWithKey(last, [], k);
    assert [last] + [] == [last];
  }

  /** What `_renderDrafts` lists: exactly the cached drafts the filter keeps
      (all of them for an empty filter), each as often as in the cache, in
      order of lower-cased text. It throws exactly when some cached draft
      has no string text and the filter or the comparator reads it. */
  lemma ViewSpec(cache: seq<Record>, filterText: string, asc: bool)
    ensures View(cache, filterText, asc).Err? <==>
      !AllText(cache) && (filterText != "" || |cache| >= 2)
    ensures View(cache, filterText, asc).Ok? && filterText == "" ==>
      multiset(View(cache, filterText, asc).value) == multiset(cache)
    ensures View(cache, filterText, asc).Ok? && filterText != "" ==>
      AllText(cache) && multiset(View(cache, filterText, asc).value) == multiset(Filter(cache, filterText))
    ensures View(cache, filterText, asc).Ok? ==>
      forall d :: d in View(cache, filterText, asc).value <==>
        d in cache && (filterText == "" || (HasText(d) && Matches(d, filterText)))
    ensures View(cache, filterText, asc).Ok? && |View(cache, filterText, asc).value| >= 2 ==>
      AllText(View(cache, filterText, asc).value) && SortedBy(View(cache, filterText, asc).value, asc)
  {
    var f := FilterStep(cache, filterText);
    if f.Ok? {
      if filterText != "" {
        assert |Filter(cache, filterText)| <= |cache|;
      }
      if |f.value| >= 2 && AllText(f.value) {
        SortSorted(f.value, asc);
        var r := Sort(f.value, asc);
        forall d ensures d in r <==> d in f.value {
          assert d in r <==> d in multiset(r);
          assert d in f.value <==> d in multiset(f.value);
        }
      }
    }
  }

  /** An empty filter keeps every draft, whatever the texts. */
  lemma EmptyFilterKeepsAll(cache: seq<Record>)
    requires AllText(cache)
    ensures Filter(cache, "") == cache
  {
    EmptyFilterKeepsAllInduction(cache);
  }

  lemma {:induction false} EmptyFilterKeepsAllInduction(cache: seq<Record>)
    requires AllText(cache)
    ensures Filter(cache, "") == cache
    decreases |cache|
  {
    if cache != [] {
      assert SortKey(cache[0])[0..] == SortKey(cache[0]);
      assert Matches(cache[0], "");
      EmptyFilterKeepsAllInduction(cache[1..]);
      assert cache == [cache[0]] + cache[1..];
    }
  }

  /** Filtering a concatenation filters each part: the filter keeps order. */
  lemma {:induction false} FilterConcat(a: seq<Record>, b: seq<Record>, filterText: string)
    requires AllText(a) && AllText(b)
    ensures AllText(a + b)
    ensures Filter(a + b, filterText) == Filter(a, filterText) + Filter(b, filterText)
    decreases |a|
  {
    if a != [] {
      assert (a + b)[1..] == a[1..] + b;
      FilterConcat(a[1..], b, filterText);
    } else {
      assert a + b == b;
    }
  }

  // ---------------------------------------------------------------------------
  // Removal by id

  /** `cache.filter(d => d.id !== id)`. */
  function RemoveId(cache: seq<Record>, id: Value): (r: seq<Record>)
    ensures forall d :: d in r <==> d in cache && Get(d, "id") != id
    ensures |r| <= |cache|
    decreases |cache|
  {
    if cache == [] then []
    else Kept(cache[0], id) + RemoveId(cache[1..], id)
  }

  /** The part of one draft that the filter keeps. */
  function Kept(d: Record, id: Value): (r: seq<Record>)
    ensures r == [d] || r == []
    ensures d in r <==> Get(d, "id") != id
  {
    if Get(d, "id") != id then [d] else []
  }

  /** Removal keeps the order of what it keeps. */
  lemma {:induction false} RemoveIdConcat(a: seq<Record>, b: seq<Record>, id: Value)
    ensures RemoveId(a + b, id) == RemoveId(a, id) + RemoveId(b, id)
    decreases |a|
  {
    if a != [] {
      var h := Kept(a[0], id);
      assert (a + b)[0] == a[0] && (a + b)[1..] == a[1..] + b;
      assert RemoveId(a + b, id) == h + RemoveId(a[1..] + b, id);
      RemoveIdConcat(a[1..], b, id);
      assert RemoveId(a, id) == h + RemoveId(a[1..], id);
      assert h + (RemoveId(a[1..], id) + RemoveId(b, id)) == (h + RemoveId(a[1..], id)) + RemoveId(b, id);
    } else {
      assert a + b == b;
    }
  }

  /** Removing an id no draft has changes nothing. */
  lemma {:induction false} RemoveAbsentId(cache: seq<Record>, id: Value)
    requires forall d :: d in cache ==> Get(d, "id") != id
    ensures RemoveId(cache, id) == cache
    decreases |cache|
  {
    if cache != [] {
      RemoveAbsentId(cache[1..], id);
      assert cache == [cache[0]] + cache[1..];
    }
  }

  /** A store listing holds no record with the id of a key the store lacks. */
  lemma ListingLacksKey(m: map<Key, Record>, k: Key)
    requires KeysStored(m) && k !in m
    ensures forall d :: d in Listing(m) ==> Get(d, KeyPath) != KeyValue(k)
  {
    ListingSpec(m);
    forall d | d in Listing(m) ensures Get(d, KeyPath) != KeyValue(k) {
      var i :| 0 <= i < |Listing(m)| && Listing(m)[i] == d;
      var j := IdKey(d).value;
      assert j in m && m[j] == d;
      KeyRoundTrip(k);
    }
  }

  // ---------------------------------------------------------------------------
  // Routing

  /** `location.hash.slice(1) || '/'`. */
  function RouteUrl(hash: string): (url: string)
    ensures url != ""
    ensures |hash| <= 1 ==> url == "/"
    ensures |hash| > 1 ==> url == hash[1..]
  {
    var rest := if |hash| > 0 then hash[1..] else "";
    if rest == "" then "/" else rest
  }

  /** What a route's page does when rendered. */
  datatype Page = Page(renderOk: bool, afterRenderOk: bool, hasNoteForm: bool, hasNoteList: bool)

  /** `routes[url] || routes['/']`: `None` when neither is defined. */
  function ResolveRoute(hash: string, routes: map<string, Page>): Option<Page>
  {
    var url := RouteUrl(hash);
    if url in routes then Some(routes[url])
    else if "/" in routes then Some(routes["/"])
    else None
  }

  /** An empty hash, `#` and `#/` all lead to the home page; an unknown
      route falls back to it; a known route gets its own page. */
  lemma ResolveSpec(hash: string, routes: map<string, Page>)
    ensures ResolveRoute("", routes) == ResolveRoute("#", routes) == ResolveRoute("#/", routes)
    ensures ResolveRoute("", routes) == (if "/" in routes then Some(routes["/"]) else None)
    ensures |hash| > 1 && hash[1..] in routes ==> ResolveRoute(hash, routes) == Some(routes[hash[1..]])
    ensures RouteUrl(hash) !in routes ==> ResolveRoute(hash, routes) == ResolveRoute("", routes)
    ensures ResolveRoute(hash, routes).None? <==> RouteUrl(hash) !in routes && "/" !in routes
  {
    assert "#/"[1..] == "/";
  }

  // ---------------------------------------------------------------------------
  // The controller

  /** The endpoint the submit handler posts to. */
  const StoriesApi: string := "https://story-api.dicoding.dev/v1/stories"

  /** `{ text: input.value, createdAt: Date.now() }`: a draft without an `id`. */
  function SubmittedDraft(input: string, now: int): (d: Record)
    ensures Get(d, "text") == Str(input) && Get(d, CreatedAt) == Num(now)
    ensures KeyPath !in d
  {
    map["text" := Str(input), CreatedAt := Num(now)]
  }

  /** The POST of the submit handler: `Authorization` is sent even when
      the token is empty. */
  function SubmitRequest(input: string, token: Option<string>): (q: PostRequest)
    ensures q.url == StoriesApi && q.contentType == "application/json"
    ensures q.authorization == Some("Bearer " + Token(token))
    ensures q.title == q.description == Str(input)
  {
    PostRequest(StoriesApi, "application/json", Some("Bearer " + Token(token)), Str(input), Str(input))
  }

  /** `!!localStorage.getItem('token')`. */
  predicate LoggedIn(token: Option<string>)
  {
    Truthy(StorageItem(token))
  }

  /** The drafts `_renderDrafts` works from: the cache, or the store when the
      cache is empty. */
  function Source(cache: seq<Record>, stored: Result<seq<Record>, DbError>): Result<seq<Record>, DbError>
  {
    if cache != [] then Ok(cache) else stored
  }

  function RenderOutcome(cache: seq<Record>, stored: Result<seq<Record>, DbError>, filterText: string, asc: bool)
    : Result<seq<Record>, AppError>
  {
    match Source(cache, stored)
    case Err(e) => Err(Db(e))
    case Ok(drafts) => View(drafts, filterText, asc)
  }

  /** The page renders, runs `afterRender` and has the note form, so
      renderPage goes on to reload the drafts and set up the form. */
  predicate FormReloaded(page: Option<Page>)
  {
    page.Some? && page.value.renderOk && page.value.afterRenderOk && page.value.hasNoteForm
  }

  datatype SubmitOutcome =
    | BlankInput                                   // nothing stored, nothing sent
    | Rejected(error: AppError)                    // the handler rejects
    | Queued(key: Key, post: Option<PostRequest>)  // stored under key; the POST sent, if online

  class App {
    var draftsCache: seq<Record>
    var isRendering: bool
    var lastAuthState: Option<bool>
    var logoutListenerAttached: bool
    /** `localStorage.getItem('token')`. */
    var token: Option<string>
    /** The drafts the note list shows, in order. */
    var listed: seq<Record>
    /** `sortAsc` of the handlers the draft form was last set up with. */
    var sortAsc: bool
    /** Which navigation links are shown: the logged-in set, the logged-out
        set, or the page's initial markup. */
    var linksLoggedIn: Option<bool>
    /** `location.hash`. */
    var hash: string
    /** The value of the note input. */
    var input: string

    /** Everything but the drafts cache and the note list. */
    function Controls(): (bool, Option<bool>, bool, Option<string>, bool, Option<bool>, string, string)
      reads this
    {
      (isRendering, lastAuthState, logoutListenerAttached, token, sortAsc, linksLoggedIn, hash, input)
    }

    /** The field initialisers and the constructor up to its first
        `renderPage()`: the login state is recorded without updating the links. */
    constructor (token: Option<string>, hash: string)
      ensures draftsCache == [] && listed == [] && !isRendering && !logoutListenerAttached
      ensures lastAuthState == Some(LoggedIn(token)) && linksLoggedIn == None
      ensures this.token == token && this.hash == hash && sortAsc && input == ""
    {
      draftsCache := [];
      isRendering := false;
      logoutListenerAttached := false;
      lastAuthState := Some(LoggedIn(token));
      this.token := token;
      listed := [];
      sortAsc := true;
      linksLoggedIn := None;
      this.hash := hash;
      input := "";
    }

    /** _updateAuthLinks: nothing happens unless the login state differs from
        the one last recorded; then the links are switched and the logout
        listener is attached once, if the anchor exists. */
    method UpdateAuthLinks(anchorPresent: bool) returns (changed: bool)
      modifies this
      ensures changed <==> old(lastAuthState) != Some(LoggedIn(old(token)))
      ensures !changed ==> unchanged(this)
      ensures changed ==> (lastAuthState == Some(LoggedIn(token)) && linksLoggedIn == lastAuthState
        && logoutListenerAttached == (old(logoutListenerAttached) || anchorPresent)
        && draftsCache == old(draftsCache) && listed == old(listed) && isRendering == old(isRendering)
        && token == old(token) && sortAsc == old(sortAsc) && hash == old(hash) && input == old(input))
    {
      var isLoggedIn := LoggedIn(token);
      if lastAuthState == Some(isLoggedIn) {
        return false;
      }
      lastAuthState := Some(isLoggedIn);
      linksLoggedIn := Some(isLoggedIn);
      if anchorPresent && !logoutListenerAttached {
        logoutListenerAttached := true;
      }
      changed := true;
    }

    /** The logout click: the token goes, the recorded state is cleared so the
        links are switched to logged out, and the hash moves to the login page. */
    method Logout(anchorPresent: bool)
      requires logoutListenerAttached
      modifies this
      ensures token == None && lastAuthState == Some(false) && linksLoggedIn == Some(false)
      ensures hash == "#/login"
      ensures draftsCache == old(draftsCache) && listed == old(listed) && isRendering == old(isRendering)
    {
      token := None;
      lastAuthState := None;
      var changed := UpdateAuthLinks(anchorPresent);
      hash := "#/login";
    }

    /** _renderDrafts: without a note list nothing happens. The store is read
        only when the cache is empty, and the cache is never reordered; the
        list then shows the filtered, sorted copy. A throwing filter or
        comparator leaves the list as it was. */
    method RenderDrafts(db: DraftDB, filterText: string, asc: bool, listPresent: bool)
      returns (err: Option<AppError>)
      requires db.Valid()
      modifies this, db
      ensures db.Valid()
      ensures db.records == old(db.records) && db.current == old(db.current) && db.issued == old(db.issued)
      ensures old(db.handle).Some? ==> db.handle == old(db.handle) && db.hasStore == old(db.hasStore)
      ensures old(db.handle).None? && db.denied ==> unchanged(db)
      ensures Controls() == old(Controls())
      ensures !listPresent ==> err.None? && draftsCache == old(draftsCache) && listed == old(listed)
      ensures listPresent ==> (draftsCache ==
        if old(draftsCache) == [] && old(db.ListOutcome()).Ok? then old(db.ListOutcome()).value else old(draftsCache))
      ensures listPresent ==>
        var outcome := RenderOutcome(old(draftsCache), old(db.ListOutcome()), filterText, asc);
        (outcome.Ok? ==> err.None? && listed == outcome.value)
        && (outcome.Err? ==> err == Some(outcome.error) && listed == old(listed))
    {
      if !listPresent {
        return None;
      }
      if draftsCache == [] {
        var stored := db.GetAllDrafts();
        if stored.Err? {
          return Some(Db(stored.error));
        }
        draftsCache := stored.value;
      }
      var drafts := draftsCache;
      var shown := View(drafts, filterText, asc);
      if shown.Err? {
        return Some(shown.error);
      }
      listed := shown.value;
      err := None;
    }

    /** The delete button of a listed draft: delete it from the store, drop
        every cached draft with its id, and render again. The store's
        rejection ends the handler with the cache as it was. */
    method DeleteClick(db: DraftDB, id: Value, filterText: string, asc: bool, listPresent: bool)
      returns (err: Option<AppError>)
      requires db.Valid()
      modifies this, db
      ensures db.Valid()
      ensures Controls() == old(Controls())
      ensures err.None? <==> old(db.DeleteOutcome(id)).Ok?
      ensures err.Some? ==> (err == Some(Db(old(db.DeleteOutcome(id)).error))
        && draftsCache == old(draftsCache) && listed == old(listed) && db.records == old(db.records))
      ensures err.None? ==> db.records == old(db.records) - {KeyOf(id).value}
      ensures err.None? && RemoveId(old(draftsCache), id) != [] ==>
        draftsCache == RemoveId(old(draftsCache), id)
      ensures err.None? ==> forall d :: d in draftsCache ==> Get(d, KeyPath) != id
    {
      var deleted := db.DeleteDraft(id);
      if deleted.Err? {
        return Some(Db(deleted.error));
      }
      draftsCache := RemoveId(draftsCache, id);
      ListingLacksKey(db.records, KeyOf(id).value);
      var rendered := RenderDrafts(db, filterText, asc, listPresent);
      err := None;
    }

    /** The sort button: flip the order and render again. */
    method ToggleSort(db: DraftDB, searchValue: string, listPresent: bool) returns (err: Option<AppError>)
      requires db.Valid()
      modifies this, db
      ensures db.Valid() && db.records == old(db.records)
      ensures sortAsc == !old(sortAsc)
      ensures listPresent ==>
        var outcome := RenderOutcome(old(draftsCache), old(db.ListOutcome()), searchValue, !old(sortAsc));
        (outcome.Ok? ==> listed == outcome.value) && (outcome.Err? ==> listed == old(listed))
    {
      sortAsc := !sortAsc;
      err := RenderDrafts(db, searchValue, sortAsc, listPresent);
    }

    /** `this.#draftsCache = await getAllDrafts(); this._renderDrafts(...)`
        with the store open: the cache becomes the store's listing. */
    method RefreshDrafts(db: DraftDB, searchValue: string, listPresent: bool)
      requires db.Valid() && db.handle.Some? && db.hasStore
      modifies this, db
      ensures db.Valid() && db.handle == old(db.handle) && db.hasStore
      ensures db.records == old(db.records) && db.current == old(db.current) && db.issued == old(db.issued)
      ensures draftsCache == Listing(db.records)
      ensures Controls() == old(Controls())
    {
      var stored := db.GetAllDrafts();
      draftsCache := stored.value;
      var rendered := RenderDrafts(db, searchValue, sortAsc, listPresent);
    }

    /** `await addDraft(draft)`, then the cache is reloaded and rendered.
        A rejected add ends the handler before anything else happens. */
    method QueueDraft(db: DraftDB, draft: Record, now: int, searchValue: string, listPresent: bool)
      returns (r: Result<Key, DbError>)
      requires db.Valid()
      modifies this, db
      ensures db.Valid()
      ensures r == old(db.AddOutcome(draft)).0
      ensures r.Err? ==> db.records == old(db.records) && draftsCache == old(draftsCache)
      ensures r.Ok? ==> (r.value !in old(db.records)
        && db.records == old(db.records)[r.value := DraftDB.Stored(draft, now, r.value)]
        && db.handle.Some? && db.hasStore && draftsCache == Listing(db.records))
      ensures Controls() == old(Controls())
    {
      r := db.AddDraft(draft, now);
      if r.Ok? {
        RefreshDrafts(db, searchValue, listPresent);
      }
    }

    /** `await deleteDraft(key)` with the store open, then the cache is
        reloaded and rendered. */
    method DeletePosted(db: DraftDB, key: Key, searchValue: string, listPresent: bool)
      requires db.Valid() && db.handle.Some? && db.hasStore
      modifies this, db
      ensures db.Valid() && db.records == old(db.records) - {key}
      ensures draftsCache == Listing(db.records)
      ensures Controls() == old(Controls())
    {
      KeyRoundTrip(key);
      var deleted := db.DeleteDraft(KeyValue(key));
      RefreshDrafts(db, searchValue, listPresent);
    }

    /** The submit handler as written. Blank input does nothing. Otherwise
        the draft is stored before anything is sent, the cache is reloaded
        and rendered, and, online, the draft is posted. After an ok response
        it deletes `draft.id`, but the draft object never received the key
        `addDraft` resolved with, so the delete rejects, the rejection is
        caught, and the posted draft stays queued for the next sync pass. */
    method Submit(db: DraftDB, now: int, searchValue: string, online: bool, reply: Reply, listPresent: bool)
      returns (o: SubmitOutcome)
      requires db.Valid()
      modifies this, db
      ensures db.Valid()
      ensures o.BlankInput? <==> Blank(old(input))
      ensures o.BlankInput? ==> unchanged(this) && unchanged(db)
      ensures !o.BlankInput? ==>
        (o.Rejected? <==> old(db.AddOutcome(SubmittedDraft(input, now))).0.Err?)
      ensures o.Rejected? ==> db.records == old(db.records) && input == old(input)
      ensures o.Queued? ==>
        o.key == old(db.AddOutcome(SubmittedDraft(input, now))).0.value
        && db.records == old(db.records)[o.key := DraftDB.Stored(SubmittedDraft(old(input), now), now, o.key)]
        && draftsCache == Listing(db.records)
        && (o.post.Some? <==> online)
        && (online ==> o.post.value == SubmitRequest(old(input), token))
        && input == ""
      ensures isRendering == old(isRendering) && token == old(token) && hash == old(hash)
    {
      TrimEmptyIffBlank(input);
      if Trim(input) == "" {
        return BlankInput;
      }
      o := SubmitDraft(db, SubmittedDraft(input, now), now, searchValue, online, reply, listPresent);
    }

    /** The submit handler as written, from the draft object on. */
    method SubmitDraft(db: DraftDB, draft: Record, now: int, searchValue: string, online: bool, reply: Reply,
                       listPresent: bool)
      returns (o: SubmitOutcome)
      requires db.Valid() && KeyPath !in draft
      modifies this, db
      ensures db.Valid() && !o.BlankInput?
      ensures o.Rejected? <==> old(db.AddOutcome(draft)).0.Err?
      ensures o.Rejected? ==> db.records == old(db.records) && input == old(input)
      ensures o.Queued? ==>
        o.key == old(db.AddOutcome(draft)).0.value
        && db.records == old(db.records)[o.key := DraftDB.Stored(draft, now, o.key)]
        && draftsCache == Listing(db.records)
        && (o.post.Some? <==> online)
        && (online ==> o.post.value == SubmitRequest(old(input), token))
        && input == ""
      ensures isRendering == old(isRendering) && token == old(token) && hash == old(hash)
    {
      var added := QueueDraft(db, draft, now, searchValue, listPresent);
      if added.Err? {
        return Rejected(Db(added.error));
      }
      var post: Option<PostRequest> := None;
      if online {
        post := Some(SubmitRequest(input, token));
        DeleteUnkeyed(db, draft, reply);
      }
      input := "";
      o := Queued(added.value, post);
    }

    /** After an ok response, `deleteDraft(draft.id)` on a draft without an
        `id`: the delete rejects and the store keeps the draft. */
    static method DeleteUnkeyed(db: DraftDB, draft: Record, reply: Reply)
      requires db.Valid() && db.handle.Some? && db.hasStore && KeyPath !in draft
      modifies db
      ensures db.Valid() && db.records == old(db.records)
    {
      if IsOk(reply) {
        var deleted := db.DeleteDraft(Get(draft, KeyPath));
      }
    }

    /** The submit handler as evidently intended: after an ok response the
        draft is deleted by the key `addDraft` resolved with, so a posted
        draft leaves the queue and the cache. */
    method SubmitIntended(db: DraftDB, now: int, searchValue: string, online: bool, reply: Reply, listPresent: bool)
      returns (o: SubmitOutcome)
      requires db.Valid()
      modifies this, db
      ensures db.Valid()
      ensures o.BlankInput? <==> Blank(old(input))
      ensures o.BlankInput? ==> unchanged(this) && unchanged(db)
      ensures !o.BlankInput? ==>
        (o.Rejected? <==> old(db.AddOutcome(SubmittedDraft(input, now))).0.Err?)
      ensures o.Rejected? ==> db.records == old(db.records) && input == old(input)
      ensures o.Queued? && !(online && IsOk(reply)) ==>
        db.records == old(db.records)[o.key := DraftDB.Stored(SubmittedDraft(old(input), now), now, o.key)]
      ensures o.Queued? && online && IsOk(reply) ==> db.records == old(db.records) && o.key !in db.records
      ensures o.Queued? ==>
        o.key == old(db.AddOutcome(SubmittedDraft(input, now))).0.value
        && draftsCache == Listing(db.records)
        && (o.post.Some? <==> online)
        && (online ==> o.post.value == SubmitRequest(old(input), token))
        && input == ""
      ensures isRendering == old(isRendering) && token == old(token) && hash == old(hash)
    {
      TrimEmptyIffBlank(input);
      if Trim(input) == "" {
        return BlankInput;
      }
      o := SubmitDraftIntended(db, SubmittedDraft(input, now), now, searchValue, online, reply, listPresent);
    }

    /** The intended submit handler, from the draft object on. */
    method SubmitDraftIntended(db: DraftDB, draft: Record, now: int, searchValue: string, online: bool,
                               reply: Reply, listPresent: bool)
      returns (o: SubmitOutcome)
      requires db.Valid()
      modifies this, db
      ensures db.Valid() && !o.BlankInput?
      ensures o.Rejected? <==> old(db.AddOutcome(draft)).0.Err?
      ensures o.Rejected? ==> db.records == old(db.records) && input == old(input)
      ensures o.Queued? && !(online && IsOk(reply)) ==>
        db.records == old(db.records)[o.key := DraftDB.Stored(draft, now, o.key)]
      ensures o.Queued? && online && IsOk(reply) ==> db.records == old(db.records) && o.key !in db.records
      ensures o.Queued? ==>
        o.key == old(db.AddOutcome(draft)).0.value
        && draftsCache == Listing(db.records)
        && (o.post.Some? <==> online)
        && (online ==> o.post.value == SubmitRequest(old(input), token))
        && input == ""
      ensures isRendering == old(isRendering) && token == old(token) && hash == old(hash)
    {
      ghost var before := db.records;
      var added := QueueDraft(db, draft, now, searchValue, listPresent);
      if added.Err? {
        return Rejected(Db(added.error));
      }
      var key := added.value;
      var post := PostQueued(db, before, key, DraftDB.Stored(draft, now, key), searchValue, online, reply,
                             listPresent);
      input := "";
      o := Queued(key, post);
    }

    /** The intended online part: the draft just stored under `key` is posted
        and, after an ok response, deleted by that key. */
    method PostQueued(db: DraftDB, ghost before: map<Key, Record>, key: Key, stored: Record, searchValue: string,
                      online: bool, reply: Reply, listPresent: bool)
      returns (post: Option<PostRequest>)
      requires db.Valid() && db.handle.Some? && db.hasStore
      requires key !in before && db.records == before[key := stored]
      modifies this, db
      ensures db.Valid()
      ensures post.Some? <==> online
      ensures online ==> post.value == SubmitRequest(input, token)
      ensures online && IsOk(reply) ==> db.records == before && draftsCache == Listing(db.records)
      ensures !(online && IsOk(reply)) ==> db.records == old(db.records) && draftsCache == old(draftsCache)
      ensures Controls() == old(Controls())
    {
      post := None;
      if online {
        post := Some(SubmitRequest(input, token));
        if IsOk(reply) {
          StoreThenRemove(before, key, stored);
          DeletePosted(db, key, searchValue, listPresent);
        }
      }
    }

    /** renderPage as written. While a render is in progress it does nothing.
        Otherwise the guard is set, the page for the hash is rendered, the
        auth links are updated and, on a page with the note form, the drafts
        are reloaded, listed and the form is set up; the guard is cleared
        only at the very end, so a step that throws leaves it set. */
    method RenderPage(db: DraftDB, routes: map<string, Page>, anchorPresent: bool)
      returns (err: Option<AppError>)
      requires db.Valid()
      modifies this, db
      ensures db.Valid() && db.records == old(db.records)
      ensures old(isRendering) ==> err.None? && unchanged(this) && unchanged(db)
      ensures !old(isRendering) ==> (isRendering <==> err.Some?)
      ensures !old(isRendering) && ResolveRoute(old(hash), routes).None? ==> err == Some(TypeError)
      ensures (!old(isRendering) && ResolveRoute(old(hash), routes).Some?
        && !ResolveRoute(old(hash), routes).value.renderOk) ==> err == Some(PageFailed)
      ensures !old(isRendering) && err.None? ==> lastAuthState == Some(LoggedIn(token))
      ensures old(db.handle).None? && db.denied ==> unchanged(db)
      ensures (!old(isRendering) && ResolveRoute(old(hash), routes) == Some(Page(true, true, true, true))
        && old(db.ListOutcome()).Err?) ==> err == Some(Db(old(db.ListOutcome()).error))
      ensures hash == old(hash)
    {
      if isRendering {
        return None;
      }
      isRendering := true;
      err := RenderSteps(db, routes, anchorPresent);
      if err.None? {
        isRendering := false;
      }
    }

    /** renderPage as evidently intended: the guard is cleared whether or not
        a step throws, so a failed render does not block every later one. */
    method RenderPageGuarded(db: DraftDB, routes: map<string, Page>, anchorPresent: bool)
      returns (err: Option<AppError>)
      requires db.Valid()
      modifies this, db
      ensures db.Valid() && db.records == old(db.records)
      ensures old(isRendering) ==> err.None? && unchanged(this) && unchanged(db)
      ensures !old(isRendering) ==> !isRendering
      ensures !old(isRendering) && ResolveRoute(old(hash), routes).None? ==> err == Some(TypeError)
      ensures !old(isRendering) && err.None? ==> lastAuthState == Some(LoggedIn(token))
      ensures old(db.handle).None? && db.denied ==> unchanged(db)
      ensures (!old(isRendering) && ResolveRoute(old(hash), routes) == Some(Page(true, true, true, true))
        && old(db.ListOutcome()).Err?) ==> err == Some(Db(old(db.ListOutcome()).error))
      ensures hash == old(hash)
    {
      if isRendering {
        return None;
      }
      isRendering := true;
      err := RenderSteps(db, routes, anchorPresent);
      isRendering := false;
    }

    /** The body of renderPage between setting and clearing the guard. */
    method RenderSteps(db: DraftDB, routes: map<string, Page>, anchorPresent: bool)
      returns (err: Option<AppError>)
      requires db.Valid()
      modifies this, db
      ensures db.Valid() && db.records == old(db.records)
      ensures isRendering == old(isRendering) && hash == old(hash) && token == old(token)
      ensures ResolveRoute(hash, routes).None? ==> err == Some(TypeError)
      ensures ResolveRoute(hash, routes).Some? && !ResolveRoute(hash, routes).value.renderOk ==>
        err == Some(PageFailed)
      ensures err.None? ==> lastAuthState == Some(LoggedIn(token))
      ensures old(db.handle).None? && db.denied ==> unchanged(db)
      ensures ResolveRoute(hash, routes) == Some(Page(true, true, true, true)) && old(db.ListOutcome()).Err? ==>
        err == Some(Db(old(db.ListOutcome()).error))
      ensures err.Some? ==> sortAsc == old(sortAsc)
      ensures FormReloaded(ResolveRoute(hash, routes)) && err.None? ==> draftsCache == Listing(db.records) && sortAsc
      ensures FormReloaded(ResolveRoute(hash, routes)) && err.None? && ResolveRoute(hash, routes).value.hasNoteList ==>
        View(Listing(db.records), "", true).Ok? && listed == View(Listing(db.records), "", true).value
      ensures FormReloaded(ResolveRoute(hash, routes)) && !ResolveRoute(hash, routes).value.hasNoteList ==>
        listed == old(listed)
      ensures !FormReloaded(ResolveRoute(hash, routes)) ==>
        draftsCache == old(draftsCache) && listed == old(listed) && sortAsc == old(sortAsc)
    {
      var page := ResolveRoute(hash, routes);
      if page.None? {
        return Some(TypeError);
      }
      if !page.value.renderOk {
        return Some(PageFailed);
      }
      var changed := UpdateAuthLinks(anchorPresent);
      if !page.value.afterRenderOk {
        return Some(PageFailed);
      }
      if page.value.hasNoteForm {
        err := ReloadForm(db, page.value.hasNoteList);
        return;
      }
      err := None;
    }

    /** The tail of renderPage on a page with the note form: the cache is
        reloaded from the store, listed unfiltered in ascending order, and
        the form is set up again with `sortAsc` true. */
    method ReloadForm(db: DraftDB, listPresent: bool) returns (err: Option<AppError>)
      requires db.Valid()
      modifies this, db
      ensures db.Valid() && db.records == old(db.records)
      ensures old(db.handle).None? && db.denied ==> unchanged(db)
      ensures (isRendering, lastAuthState, logoutListenerAttached, token, linksLoggedIn, hash, input)
        == old((isRendering, lastAuthState, logoutListenerAttached, token, linksLoggedIn, hash, input))
      ensures old(db.ListOutcome()).Err? ==>
        err == Some(Db(old(db.ListOutcome()).error)) && draftsCache == old(draftsCache) && listed == old(listed)
      ensures err.Some? ==> sortAsc == old(sortAsc)
      ensures err.None? ==> draftsCache == Listing(db.records) && sortAsc
      ensures err.None? && listPresent ==>
        View(Listing(db.records), "", true).Ok? && listed == View(Listing(db.records), "", true).value
      ensures !listPresent ==> listed == old(listed)
    {
      var stored := db.GetAllDrafts();
      if stored.Err? {
        return Some(Db(stored.error));
      }
      draftsCache := stored.value;
      err := RenderDrafts(db, "", true, listPresent);
      if err.Some? {
        return err;
      }
      sortAsc := true;
    }
  }

  /** Storing under a fresh key and deleting that key restores the store. */
  lemma StoreThenRemove(m: map<Key, Record>, k: Key, v: Record)
    requires k !in m
    ensures m[k := v] - {k} == m
  {
    assert (m[k := v] - {k}).Keys == m.Keys;
  }

  /** The submitted draft has no `id`, so deleting `draft.id` deletes the
      key `undefined`, which the store refuses whatever its state. */
  lemma SubmittedDraftIdRefused(db: DraftDB, input: string, now: int)
    ensures Get(SubmittedDraft(input, now), KeyPath) == Undefined
    ensures db.DeleteOutcome(Get(SubmittedDraft(input, now), KeyPath)).Err?
    ensures db.AccessError().None? ==>
      db.DeleteOutcome(Get(SubmittedDraft(input, now), KeyPath)) == Err(DataError)
  {
  }

  /** Two navigations, the first onto a page whose drafts cannot be read
      (storage denied): as written, the second navigation renders nothing,
      whatever its route. */
  method FailedRenderBlocksNavigation(routes: map<string, Page>, token: Option<string>, anchorPresent: bool)
    returns (first: Option<AppError>, second: Option<AppError>, stuck: bool)
    requires ResolveRoute("#/", routes) == Some(Page(true, true, true, true))
    ensures first == Some(Db(StorageUnavailable))
    ensures second.None? && stuck
  {
    var db := new DraftDB(true, 0, false);
    var app := new App(token, "#/");
    first := app.RenderPage(db, routes, anchorPresent);
    second := app.RenderPage(db, routes, anchorPresent);
    stuck := app.isRendering;
  }

  /** The same two navigations with the guard cleared on failure: the
      second one renders again. */
  method FailedRenderThenRetry(routes: map<string, Page>, token: Option<string>, anchorPresent: bool)
    returns (first: Option<AppError>, second: Option<AppError>, stuck: bool)
    requires ResolveRoute("#/", routes) == Some(Page(true, true, true, true))
    ensures first == Some(Db(StorageUnavailable))
    ensures second == Some(Db(StorageUnavailable)) && !stuck
  {
    var db := new DraftDB(true, 0, false);
    var app := new App(token, "#/");
    first := app.RenderPageGuarded(db, routes, anchorPresent);
    second := app.RenderPageGuarded(db, routes, anchorPresent);
    stuck := app.isRendering;
  }
}
