/** src/public/service-worker.js: the cache storage the worker fills on
    install, prunes on activate and reads and writes on fetch, and the pure
    decisions of the push, notificationclick and message handlers.

    Cache storage is an object holding the cache names in creation order
    (the order `caches.keys()` lists them and `caches.match` searches them)
    and a map from cache name to a map from request URL to response. The
    network is an oracle `network(url)`: a response, or `None` when `fetch`
    rejects. Every URL the worker asks the network for is logged in
    `requested`, so "no network request" is a statement about that log. */
module ServiceWorker {
  import opened JsModel

  const CacheName: string := "story-app-cache-v3"

  const StaticAssets: seq<string> :=
    ["/", "/index.html", "/app.bundle.js", "/manifest.json",
     "/icons/icon-192x192.png", "/icons/icon-512x512.png"]

  const IndexPage: string := "/index.html"

  datatype Response = Response(status: int, body: string)

  /** The parts of a `Request` the worker looks at. */
  datatype Request = Request(verb: string, url: string, navigate: bool)

  /** What the fetch handler does with an event: leave it to the browser, or
      answer it with a response or with `undefined`. */
  datatype FetchAnswer = NotIntercepted | Answer(response: Option<Response>)

  type Caches = map<string, map<string, Response>>

  // ---------------------------------------------------------------------------
  // Platform rules the worker relies on

  /** `caches.match(url)`: the entry of the first cache, in creation order,
      that holds the URL. */
  function MatchIn(names: seq<string>, caches: Caches, url: string): Option<Response>
    decreases |names|
  {
    if names == [] then None
    else if names[0] in caches && url in caches[names[0]] then Some(caches[names[0]][url])
    else MatchIn(names[1..], caches, url)
  }

  /** `cache.put` refuses a partial (206) response; everything else is stored. */
  predicate Storable(r: Response)
  {
    r.status != 206
  }

  /** What `cache.addAll(urls)` stores: every URL with its response when every
      fetch resolved with an ok status other than 206, and nothing otherwise. */
  function AddAllEntries(urls: seq<string>, network: string -> Option<Response>): (r: Option<map<string, Response>>)
    ensures r.Some? <==> forall i :: 0 <= i < |urls| ==> AddAllAccepts(network(urls[i]))
    ensures r.Some? ==> r.value.Keys == set u | u in urls
    ensures r.Some? ==> forall u :: u in r.value ==> Some(r.value[u]) == network(u)
    decreases |urls|
  {
    if urls == [] then Some(map[])
    else if !AddAllAccepts(network(urls[0])) then None
    else match AddAllEntries(urls[1..], network)
      case None => None
      case Some(rest) => Some(rest[urls[0] := network(urls[0]).value])
  }

  predicate AddAllAccepts(r: Option<Response>)
  {
    r.Some? && 200 <= r.value.status <= 299 && r.value.status != 206
  }

  /** The entries of cache `name`, empty when `caches.open` creates it. */
  function Opened(caches: Caches, name: string): (r: map<string, Response>)
    ensures name in caches ==> r == caches[name]
    ensures name !in caches ==> r == map[]
  {
    if name in caches then caches[name] else map[]
  }

  /** Opening `k` changes no other cache, so a later update of `k` looks the
      same from before the opening. */
  lemma SameUpdate(pre: Caches, mid: Caches, k: string, v: map<string, Response>)
    requires mid.Keys == pre.Keys + {k}
    requires forall j :: j in pre && j != k ==> mid[j] == pre[j]
    ensures mid[k := v] == pre[k := v]
  {
    assert mid[k := v].Keys == pre[k := v].Keys;
  }

  /** The seq `s` without `x`. */
  function Without(s: seq<string>, x: string): (r: seq<string>)
    ensures forall y :: y in r <==> y in s && y != x
    decreases |s|
  {
    if s == [] then []
    else if s[0] == x then Without(s[1..], x)
    else [s[0]] + Without(s[1..], x)
  }

  /** The names activate keeps after visiting `gone`: the current cache and
      every name it has not yet visited, in their original order. */
  function Evict(s: seq<string>, gone: set<string>): (r: seq<string>)
    ensures forall y :: y in r <==> y in s && (y == CacheName || y !in gone)
    decreases |s|
  {
    if s == [] then []
    else if s[0] != CacheName && s[0] in gone then Evict(s[1..], gone)
    else [s[0]] + Evict(s[1..], gone)
  }

  predicate Distinct(s: seq<string>)
  {
    forall i, j :: 0 <= i < j < |s| ==> s[i] != s[j]
  }

  // ---------------------------------------------------------------------------
  // The worker

  class Worker {
    var names: seq<string>
    var caches: Caches
    /** URLs the worker has asked the network for, in order. */
    var requested: seq<string>

    ghost predicate Valid()
      reads this
    {
      Distinct(names) && (forall n :: n in caches <==> n in names)
    }

    /** An origin's cache storage as the worker finds it. */
    constructor (names: seq<string>, caches: Caches)
      requires Distinct(names) && (forall n :: n in caches <==> n in names)
      ensures Valid()
      ensures this.names == names && this.caches == caches && requested == []
    {
      this.names := names;
      this.caches := caches;
      requested := [];
    }

    function Match(url: string): Option<Response>
      reads this
    {
      MatchIn(names, caches, url)
    }

    /** `caches.open(name)`: creates an empty cache at the end of the order
        unless one of that name exists. */
    method Open(name: string)
      requires Valid()
      modifies this
      ensures Valid()
      ensures name in caches
      ensures old(name in caches) ==> names == old(names) && caches == old(caches)
      ensures old(name !in caches) ==> names == old(names) + [name] && caches == old(caches)[name := map[]]
      ensures requested == old(requested)
    {
      if name !in caches {
        names := names + [name];
        caches := caches[name := map[]];
      }
    }

    /** `caches.delete(name)`. */
    method Delete(name: string)
      requires Valid()
      modifies this
      ensures Valid()
      ensures names == Without(old(names), name) && caches == old(caches) - {name}
      ensures requested == old(requested)
    {
      DistinctWithout(names, name);
      names := Without(names, name);
      caches := caches - {name};
    }

    /** The install handler: open `CACHE_NAME`, then `addAll(STATIC_ASSETS)`.
        The cache is created either way; the six assets are stored together
        or, when any of their fetches fails, not at all. */
    method Install(network: string -> Option<Response>) returns (ok: bool)
      requires Valid()
      modifies this
      ensures Valid()
      ensures requested == old(requested) + StaticAssets
      ensures names == if CacheName in old(caches) then old(names) else old(names) + [CacheName]
      ensures ok <==> AddAllEntries(StaticAssets, network).Some?
      ensures caches == old(caches)[CacheName :=
        if ok then Opened(old(caches), CacheName) + AddAllEntries(StaticAssets, network).value
        else Opened(old(caches), CacheName)]
    {
      ghost var pre := caches;
      Open(CacheName);
      ghost var mid := caches;
      assert mid[CacheName] == Opened(pre, CacheName);
      ok := AddAll(CacheName, StaticAssets, network);
      SameUpdate(pre, mid, CacheName, caches[CacheName]);
    }

    /** `cache.addAll(urls)` on the open cache `name`: every URL is fetched;
        the entries are stored together, or none is. */
    method AddAll(name: string, urls: seq<string>, network: string -> Option<Response>) returns (ok: bool)
      requires Valid() && name in caches
      modifies this
      ensures Valid()
      ensures names == old(names) && requested == old(requested) + urls
      ensures ok <==> AddAllEntries(urls, network).Some?
      ensures caches == old(caches)[name :=
        if ok then old(caches)[name] + AddAllEntries(urls, network).value else old(caches)[name]]
    {
      requested := requested + urls;
      var entries := AddAllEntries(urls, network);
      ok := entries.Some?;
      caches := caches[name := if ok then caches[name] + entries.value else caches[name]];
    }

    /** The activate handler: every cache `caches.keys()` lists is deleted
        unless its name is `CACHE_NAME`. */
    method Activate()
      requires Valid()
      modifies this
      ensures Valid()
      ensures names == if CacheName in old(caches) then [CacheName] else []
      ensures caches == if CacheName in old(caches) then map[CacheName := old(caches)[CacheName]] else map[]
      ensures requested == old(requested)
    {
      var keys := names;
      DeleteVisited(keys);
      assert CacheName in keys <==> CacheName in old(caches);
      if CacheName in old(caches) {
        assert caches.Keys == {CacheName};
      } else {
        assert caches.Keys == {};
      }
    }

    /** The loop of activate over the names `caches.keys()` listed: each one
        other than `CACHE_NAME` is deleted, the rest is left as it was. */
    method DeleteVisited(keys: seq<string>)
      requires Valid() && names == keys
      modifies this
      ensures Valid()
      ensures names == if CacheName in keys then [CacheName] else []
      ensures forall n :: n in caches ==> caches[n] == old(caches)[n]
      ensures requested == old(requested)
    {
      ghost var gone: set<string> := {};
      var i := 0;
      EvictNothing(keys);
      while i < |keys|
        invariant 0 <= i <= |keys|
        invariant forall j :: 0 <= j < i ==> keys[j] in gone
        invariant Valid() && names == Evict(keys, gone)
        invariant forall n :: n in caches ==> caches[n] == old(caches)[n]
        invariant requested == old(requested)
      {
        Visit(keys, gone, keys[i]);
        gone := gone + {keys[i]};
        i := i + 1;
      }
      EvictOnly(keys, gone);
    }

    /** One turn of the activate loop: `key` is deleted unless it is `CACHE_NAME`. */
    method Visit(keys: seq<string>, ghost gone: set<string>, key: string)
      requires Valid() && names == Evict(keys, gone)
      modifies this
      ensures Valid() && names == Evict(keys, gone + {key})
      ensures forall n :: n in caches ==> caches[n] == old(caches)[n]
      ensures requested == old(requested)
    {
      if key != CacheName {
        EvictOneMore(keys, gone, key);
        Delete(key);
      } else {
        EvictCurrent(keys, gone);
      }
    }

    /** The fetch handler. Non-GET requests are left alone. Otherwise a cached
        response is the answer, with no network request. On a miss the
        network is asked; its response, whatever the status, is stored in
        `CACHE_NAME` (the platform refuses only a 206) and is the answer. If
        the network fails, a navigation is answered with the cached
        `/index.html`, possibly absent, and anything else with `undefined`. */
    method HandleFetch(req: Request, network: string -> Option<Response>) returns (a: FetchAnswer)
      requires Valid()
      modifies this
      ensures Valid()
      ensures req.verb != "GET" ==> a == NotIntercepted && unchanged(this)
      ensures req.verb == "GET" && old(Match(req.url)).Some? ==>
        a == Answer(old(Match(req.url))) && unchanged(this)
      ensures req.verb == "GET" && old(Match(req.url)).None? ==>
        requested == old(requested) + [req.url]
      ensures req.verb == "GET" && old(Match(req.url)).None? && network(req.url).Some? ==>
        (var resp := network(req.url).value;
         var before := if CacheName in old(caches) then old(caches)[CacheName] else map[];
         a == Answer(Some(resp))
         && names == (if CacheName in old(caches) then old(names) else old(names) + [CacheName])
         && caches == old(caches)[CacheName := if Storable(resp) then before[req.url := resp] else before])
      ensures req.verb == "GET" && old(Match(req.url)).None? && network(req.url).None? ==>
        names == old(names) && caches == old(caches)
        && a == Answer(if req.navigate then old(Match(IndexPage)) else None)
    {
      if req.verb != "GET" {
        return NotIntercepted;
      }
      var cached := Match(req.url);
      if cached.Some? {
        return Answer(cached);
      }
      requested := requested + [req.url];
      var fetched := network(req.url);
      if fetched.None? {
        if req.navigate {
          var fallback := Match(IndexPage);
          return Answer(fallback);
        }
        return Answer(None);
      }
      var resp := fetched.value;
      Open(CacheName);
      if Storable(resp) {
        caches := caches[CacheName := caches[CacheName][req.url := resp]];
      }
      a := Answer(Some(resp));
    }
  }

  // ---------------------------------------------------------------------------
  // Lemmas about cache storage

  lemma {:induction false} DistinctWithout(s: seq<string>, x: string)
    requires Distinct(s)
    ensures Distinct(Without(s, x))
    decreases |s|
  {
    if s != [] {
      DistinctWithout(s[1..], x);
      if s[0] != x {
        var w := Without(s[1..], x);
        forall i, j | 0 <= i < j < |[s[0]] + w| ensures ([s[0]] + w)[i] != ([s[0]] + w)[j] {
          if i == 0 {
            assert ([s[0]] + w)[j] in s[1..];
            assert s[0] !in s[1..];
          }
        }
      }
    }
  }

  lemma {:induction false} EvictNothing(s: seq<string>)
    ensures Evict(s, {}) == s
    decreases |s|
  {
    if s != [] {
      EvictNothing(s[1..]);
    }
  }

  /** Deleting one more visited name from the kept names is visiting it. */
  lemma {:induction false} EvictOneMore(s: seq<string>, gone: set<string>, k: string)
    requires k != CacheName
    ensures Without(Evict(s, gone), k) == Evict(s, gone + {k})
    decreases |s|
  {
    if s != [] {
      EvictOneMore(s[1..], gone, k);
      if s[0] != CacheName && s[0] in gone {
      } else if s[0] == k {
        assert Evict(s, gone) == [s[0]] + Evict(s[1..], gone);
      } else {
        assert Evict(s, gone) == [s[0]] + Evict(s[1..], gone);
      }
    }
  }

  /** Visiting `CACHE_NAME` keeps every name. */
  lemma {:induction false} EvictCurrent(s: seq<string>, gone: set<string>)
    ensures Evict(s, gone) == Evict(s, gone + {CacheName})
    decreases |s|
  {
    if s != [] {
      EvictCurrent(s[1..], gone);
    }
  }

  /** Once every name has been visited, only `CACHE_NAME` is left, once. */
  lemma {:induction false} EvictOnly(s: seq<string>, all: set<string>)
    requires Distinct(s)
    requires forall y :: y in s ==> y in all
    ensures Evict(s, all) == if CacheName in s then [CacheName] else []
    decreases |s|
  {
    if s != [] {
      EvictOnly(s[1..], all);
      if s[0] == CacheName {
        assert CacheName !in s[1..] by {
          forall j | 0 < j < |s| ensures s[j] != CacheName {
            assert s[0] != s[j];
          }
        }
      }
    }
  }

  /** The first cache holding a URL answers for it, and nothing is found
      when no cache holds it. */
  lemma {:induction false} MatchSpec(names: seq<string>, caches: Caches, url: string)
    ensures MatchIn(names, caches, url).None? <==>
      forall i :: 0 <= i < |names| ==> !(names[i] in caches && url in caches[names[i]])
    ensures MatchIn(names, caches, url).Some? ==>
      exists i :: 0 <= i < |names| && names[i] in caches && url in caches[names[i]]
        && MatchIn(names, caches, url).value == caches[names[i]][url]
        && forall j :: 0 <= j < i ==> !(names[j] in caches && url in caches[names[j]])
    decreases |names|
  {
    if names != [] {
      MatchSpec(names[1..], caches, url);
      if !(names[0] in caches && url in caches[names[0]]) {
        if MatchIn(names, caches, url).Some? {
          var i :| 0 <= i < |names[1..]| && names[1..][i] in caches && url in caches[names[1..][i]]
            && MatchIn(names, caches, url).value == caches[names[1..][i]][url]
            && forall j :: 0 <= j < i ==> !(names[1..][j] in caches && url in caches[names[1..][j]]);
          assert names[i + 1] == names[1..][i];
          forall j | 0 <= j < i + 1 ensures !(names[j] in caches && url in caches[names[j]]) {
            if j > 0 { assert names[j] == names[1..][j - 1]; }
          }
        } else {
          forall i | 0 <= i < |names| ensures !(names[i] in caches && url in caches[names[i]]) {
            if i > 0 { assert names[i] == names[1..][i - 1]; }
          }
        }
      }
    }
  }

  /** After a miss, storing the network response in a listed cache makes the
      next lookup of that URL a hit with that very response. */
  lemma MissThenPutHits(names: seq<string>, caches: Caches, name: string, url: string, resp: Response)
    requires MatchIn(names, caches, url).None?
    requires name in names && name in caches
    ensures MatchIn(names, caches[name := caches[name][url := resp]], url) == Some(resp)
  {
    var after := caches[name := caches[name][url := resp]];
    MatchSpec(names, caches, url);
    MatchSpec(names, after, url);
    var i :| 0 <= i < |names| && names[i] == name;
    var r := MatchIn(names, after, url);
    assert r.Some?;
    var k :| 0 <= k < |names| && names[k] in after && url in after[names[k]]
      && r.value == after[names[k]][url]
      && forall j :: 0 <= j < k ==> !(names[j] in after && url in after[names[j]]);
    assert names[k] == name;
  }

  /** After an install that succeeded, every static asset is found by
      `caches.match`, whatever cache answers first. */
  lemma InstalledAssetsMatch(names: seq<string>, caches: Caches, network: string -> Option<Response>)
    requires CacheName in names && CacheName in caches
    requires AddAllEntries(StaticAssets, network).Some?
    requires AddAllEntries(StaticAssets, network).value.Keys <= caches[CacheName].Keys
    ensures forall u :: u in StaticAssets ==> MatchIn(names, caches, u).Some?
  {
    forall u | u in StaticAssets ensures MatchIn(names, caches, u).Some? {
      MatchSpec(names, caches, u);
      var i :| 0 <= i < |names| && names[i] == CacheName;
      assert u in caches[names[i]];
    }
  }

  // ---------------------------------------------------------------------------
  // push, notificationclick and message

  /** A structured value as `json()` or `postMessage` delivers it. */
  datatype Json = JPrim(v: Value) | JObj(fields: map<string, Json>)

  /** Property read on a JSON value: a primitive has no such property. */
  function Prop(j: Json, name: string): Json
  {
    if j.JObj? && name in j.fields then j.fields[name] else JPrim(Undefined)
  }

  predicate JTruthy(j: Json)
  {
    j.JObj? || Truthy(j.v)
  }

  const DefaultTitle: string := "Cerita Baru!"
  const DefaultBody: string := "Ada cerita baru yang menunggumu!"
  const IconPath: string := "/icons/icon-192x192.png"
  const ClickTarget: string := "/"
  const MockType: string := "push-mock"

  datatype Notification = Notification(title: Json, body: Json, icon: string, badge: string)

  /** The payload of a push event: none, text `json()` cannot parse, or a value. */
  datatype PushData = NoPayload | Malformed | Parsed(value: Json)

  /** What a handler does: show a notification, do nothing, or throw. */
  datatype Shown = Show(notification: Notification) | Nothing | Throws

  /** The push handler: a title and a body are always shown, the defaults
      standing in for a missing or falsy field. A payload that is not JSON
      makes the handler throw. */
  function OnPush(data: PushData): (r: Shown)
    ensures r.Throws? <==> data.Malformed?
    ensures !r.Nothing?
    ensures r.Show? ==> JTruthy(r.notification.title) && JTruthy(r.notification.body)
    ensures r.Show? ==> r.notification.icon == IconPath && r.notification.badge == IconPath
    ensures data.NoPayload? ==> r == Show(Notification(JPrim(Str(DefaultTitle)), JPrim(Str(DefaultBody)), IconPath, IconPath))
    ensures data.Parsed? && JTruthy(Prop(data.value, "title")) ==> r.notification.title == Prop(data.value, "title")
    ensures data.Parsed? && !JTruthy(Prop(data.value, "title")) ==> r.notification.title == JPrim(Str(DefaultTitle))
    ensures data.Parsed? && JTruthy(Prop(data.value, "body")) ==> r.notification.body == Prop(data.value, "body")
    ensures data.Parsed? && !JTruthy(Prop(data.value, "body")) ==> r.notification.body == JPrim(Str(DefaultBody))
  {
    if data.Malformed? then Throws
    else
      var payload := if data.Parsed? && JTruthy(data.value) then data.value else JObj(map[]);
      var title := if JTruthy(Prop(payload, "title")) then Prop(payload, "title") else JPrim(Str(DefaultTitle));
      var body := if JTruthy(Prop(payload, "body")) then Prop(payload, "body") else JPrim(Str(DefaultBody));
      Show(Notification(title, body, IconPath, IconPath))
  }

  /** What a notification click leads to: the first window client is
      focused, or a new window opens at `/`. The notification is closed
      in both cases. */
  datatype ClickAction = Focus(client: nat) | OpenWindow(url: string)

  function OnNotificationClick(clientCount: nat): (a: ClickAction)
    ensures a.Focus? <==> clientCount > 0
    ensures a.Focus? ==> a.client == 0
    ensures a.OpenWindow? ==> a.url == ClickTarget
  {
    if clientCount > 0 then Focus(0) else OpenWindow(ClickTarget)
  }

  /** The message handler: only a message whose `type` is exactly
      `push-mock` shows a notification, with the `title` and `body` of its
      `data` field as they are (no defaults); reading them from a missing
      `data` throws. */
  function OnMessage(data: Json): (r: Shown)
    ensures r.Show? || r.Throws? <==> Prop(data, "type") == JPrim(Str(MockType))
    ensures r.Throws? <==> (Prop(data, "type") == JPrim(Str(MockType))
      && Prop(data, "data").JPrim? && (Prop(data, "data").v.Undefined? || Prop(data, "data").v.Null?))
    ensures r.Show? ==> r.notification == Notification(
      Prop(Prop(data, "data"), "title"), Prop(Prop(data, "data"), "body"), IconPath, IconPath)
  {
    if Prop(data, "type") != JPrim(Str(MockType)) then Nothing
    else
      var inner := Prop(data, "data");
      if inner.JPrim? && (inner.v.Undefined? || inner.v.Null?) then Throws
      else Show(Notification(Prop(inner, "title"), Prop(inner, "body"), IconPath, IconPath))
  }

  /** A push and a mock message with the same title and body show the same
      notification when both fields are truthy; only the push fills in
      defaults. */
  lemma MockMatchesPush(title: Json, body: Json)
    requires JTruthy(title) && JTruthy(body)
    ensures OnMessage(JObj(map["type" := JPrim(Str(MockType)),
                               "data" := JObj(map["title" := title, "body" := body])]))
         == OnPush(Parsed(JObj(map["title" := title, "body" := body])))
    ensures OnMessage(JObj(map["type" := JPrim(Str(MockType)), "data" := JObj(map[])]))
         == Show(Notification(JPrim(Undefined), JPrim(Undefined), IconPath, IconPath))
    ensures OnPush(Parsed(JObj(map[])))
         == Show(Notification(JPrim(Str(DefaultTitle)), JPrim(Str(DefaultBody)), IconPath, IconPath))
  {
  }
}
