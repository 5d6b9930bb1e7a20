/** src/scripts/utils/sync.js: one pass of `syncOfflineData`. The drafts are
    read once; each is posted in turn, and a draft is deleted exactly when
    its post came back with a 2xx status. A failed post, a rejected fetch or
    a failed delete is caught and the loop goes on with the next draft.
    The network is an oracle: `replies(i)` is what awaiting the i-th
    `fetch` of the pass gives. */
module SyncEngine {
  import opened JsModel
  import opened DraftDb

  /** The path appended to the configured base URL. */
  const StoriesPath: string := "/stories"

  /** What awaiting one `fetch` gives: a response with its status, or a rejection. */
  datatype Reply = Response(status: int) | NetworkError

  /** `response.ok`. */
  predicate IsOk(reply: Reply)
  {
    reply.Response? && 200 <= reply.status <= 299
  }

  /** The POST the pass sends for one draft. `authorization` is absent when
      the token is empty; an `undefined` title or description is dropped by
      `JSON.stringify`, which the model keeps as the value `Undefined`. */
  datatype PostRequest = PostRequest(
    url: string,
    contentType: string,
    authorization: Option<string>,
    title: Value,
    description: Value)

  /** `localStorage.getItem('token') || ''`: a missing item reads as empty. */
  function Token(stored: Option<string>): (t: string)
    ensures Str(t) == Or(StorageItem(stored), Str(""))
  {
    match stored
    case None => ""
    case Some(s) => s
  }

  function RequestFor(note: Record, token: string, baseUrl: string): (q: PostRequest)
    ensures q.url == baseUrl + StoriesPath && q.contentType == "application/json"
    ensures q.authorization.Some? <==> token != ""
    ensures q.authorization.Some? ==> q.authorization.value == "Bearer " + token
    ensures q.title == q.description == Get(note, "text")
  {
    PostRequest(baseUrl + StoriesPath, "application/json",
      if token != "" then Some("Bearer " + token) else None,
      Get(note, "text"), Get(note, "text"))
  }

  /** The requests of a pass over `notes`, in order. */
  function Requests(notes: seq<Record>, token: string, baseUrl: string): (qs: seq<PostRequest>)
    ensures |qs| == |notes|
    ensures forall i :: 0 <= i < |notes| ==> qs[i] == RequestFor(notes[i], token, baseUrl)
  {
    seq(|notes|, i requires 0 <= i < |notes| => RequestFor(notes[i], token, baseUrl))
  }

  /** The keys whose post among the first `n` of `notes` was answered 2xx:
      the keys the pass deletes. */
  function Confirmed(notes: seq<Record>, replies: nat -> Reply, n: nat): set<Key>
    requires n <= |notes|
    decreases n
  {
    if n == 0 then {}
    else Confirmed(notes, replies, n - 1) + Confirms(notes[n - 1], replies(n - 1))
  }

  /** The key one answered post confirms, if any. */
  function Confirms(note: Record, reply: Reply): set<Key>
  {
    if IsOk(reply) && IdKey(note).Some? then {IdKey(note).value} else {}
  }

  /** What the store holds after a pass that started from `m`. */
  function Remaining(m: map<Key, Record>, replies: nat -> Reply): map<Key, Record>
  {
    m - Confirmed(Listing(m), replies, |m|)
  }

  /** syncOfflineData. Offline, nothing is read or written. Online, the
      drafts are read (a failure to read rejects the pass), every draft is
      posted once, and the store afterwards is the store before minus the
      drafts whose post was answered 2xx. The returned sequence is the
      requests sent, in order. */
  method SyncOfflineData(db: DraftDB, online: bool, storedToken: Option<string>, baseUrl: string,
                         replies: nat -> Reply)
    returns (r: Result<seq<PostRequest>, DbError>)
    requires db.Valid()
    modifies db
    ensures db.Valid()
    ensures !online ==> r == Ok([]) && unchanged(db)
    ensures online && old(db.ListOutcome()).Err? ==>
      r == Err(old(db.ListOutcome()).error) && db.records == old(db.records)
    ensures online && old(db.ListOutcome()).Ok? ==>
      r == Ok(Requests(old(db.ListOutcome()).value, Token(storedToken), baseUrl))
      && db.records == old(db.records) - Confirmed(old(db.ListOutcome()).value, replies, |old(db.records)|)
    ensures db.current == old(db.current) && db.issued == old(db.issued)
  {
    if !online {
      return Ok([]);
    }
    var notes := db.GetAllNotes();
    if notes.Err? {
      return Err(notes.error);
    }
    var sent := PostAll(db, notes.value, storedToken, baseUrl, replies);
    r := Ok(sent);
  }

  /** The loop of syncOfflineData over the drafts read at its start, with
      the connection open and the store present. */
  method PostAll(db: DraftDB, offlineNotes: seq<Record>, storedToken: Option<string>, baseUrl: string,
                 replies: nat -> Reply)
    returns (sent: seq<PostRequest>)
    requires db.Valid() && db.handle.Some? && db.hasStore
    modifies db
    ensures db.Valid()
    ensures sent == Requests(offlineNotes, Token(storedToken), baseUrl)
    ensures db.records == old(db.records) - Confirmed(offlineNotes, replies, |offlineNotes|)
    ensures db.current == old(db.current) && db.issued == old(db.issued)
  {
    ghost var start := db.records;
    sent := [];
    var i := 0;
    while i < |offlineNotes|
      invariant 0 <= i <= |offlineNotes|
      invariant db.Valid() && db.handle.Some? && db.hasStore
      invariant sent == RequestsUpTo(offlineNotes, i, Token(storedToken), baseUrl)
      invariant db.records == start - Confirmed(offlineNotes, replies, i)
      invariant db.current == old(db.current) && db.issued == old(db.issued)
    {
      var note := offlineNotes[i];
      var token := Token(storedToken);
      sent := sent + [RequestFor(note, token, baseUrl)];
      var reply := replies(i);
      Settle(db, note, reply);
      MinusTwice(start, Confirmed(offlineNotes, replies, i), Confirms(note, reply));
      i := i + 1;
    }
    RequestsUpToAll(offlineNotes, i, Token(storedToken), baseUrl);
  }

  /** The requests for the first `n` notes, built one at a time as the loop does. */
  function RequestsUpTo(notes: seq<Record>, n: nat, token: string, baseUrl: string): seq<PostRequest>
    requires n <= |notes|
    decreases n
  {
    if n == 0 then [] else RequestsUpTo(notes, n - 1, token, baseUrl) + [RequestFor(notes[n - 1], token, baseUrl)]
  }

  lemma {:induction false} RequestsUpToAll(notes: seq<Record>, n: nat, token: string, baseUrl: string)
    requires n <= |notes|
    ensures |RequestsUpTo(notes, n, token, baseUrl)| == n
    ensures forall j :: 0 <= j < n ==> RequestsUpTo(notes, n, token, baseUrl)[j] == RequestFor(notes[j], token, baseUrl)
    ensures n == |notes| ==> RequestsUpTo(notes, n, token, baseUrl) == Requests(notes, token, baseUrl)
    decreases n
  {
    if n > 0 {
      RequestsUpToAll(notes, n - 1, token, baseUrl);
    }
  }

  /** The body of the loop after the post: a 2xx reply deletes the draft by
      its id; any other reply, and a failed delete, leave the store alone. */
  method Settle(db: DraftDB, note: Record, reply: Reply)
    requires db.Valid() && db.handle.Some? && db.hasStore
    modifies db
    ensures db.Valid() && db.handle.Some? && db.hasStore
    ensures db.records == old(db.records) - Confirms(note, reply)
    ensures db.current == old(db.current) && db.issued == old(db.issued)
  {
    if IsOk(reply) {
      var deleted := db.DeleteNote(Get(note, KeyPath));
    }
  }

  /** Removing two key sets one after the other removes their union. */
  lemma MinusTwice(m: map<Key, Record>, a: set<Key>, b: set<Key>)
    ensures (m - a) - b == m - (a + b)
  {
  }

  // ---------------------------------------------------------------------------
  // Properties of a pass

  /** A key is confirmed exactly when one of the first `n` notes carries it
      and its post was answered 2xx. */
  lemma {:induction false} ConfirmedSpec(notes: seq<Record>, replies: nat -> Reply, n: nat, k: Key)
    requires n <= |notes|
    ensures k in Confirmed(notes, replies, n) <==>
      exists i :: 0 <= i < n && IsOk(replies(i)) && IdKey(notes[i]) == Some(k)
    decreases n
  {
    if n > 0 {
      ConfirmedSpec(notes, replies, n - 1, k);
      if IsOk(replies(n - 1)) && IdKey(notes[n - 1]) == Some(k) {
        assert k in Confirmed(notes, replies, n);
      }
    }
  }

  /** Over the listing of a store, the draft at position i is gone after the
      pass exactly when its own post succeeded: a failure for one draft
      neither deletes it nor keeps any other draft. */
  lemma DeletedIffOk(m: map<Key, Record>, replies: nat -> Reply)
    requires KeysStored(m)
    ensures forall i :: 0 <= i < |Listing(m)| ==>
      (IdKey(Listing(m)[i]).value in Remaining(m, replies) <==> !IsOk(replies(i)))
    ensures forall k :: k in Remaining(m, replies) ==> k in m && Remaining(m, replies)[k] == m[k]
  {
    forall i | 0 <= i < |Listing(m)|
      ensures IdKey(Listing(m)[i]).Some?
      ensures IdKey(Listing(m)[i]).value in Remaining(m, replies) <==> !IsOk(replies(i))
    {
      DeletedAt(m, replies, i);
    }
  }

  /** The draft at position `i` of the listing is left exactly when its post failed. */
  lemma DeletedAt(m: map<Key, Record>, replies: nat -> Reply, i: nat)
    requires KeysStored(m) && i < |Listing(m)|
    ensures IdKey(Listing(m)[i]).Some?
    ensures IdKey(Listing(m)[i]).value in Remaining(m, replies) <==> !IsOk(replies(i))
  {
    var notes := Listing(m);
    var ks := SortedKeys(m.Keys);
    ListingAt(m, i);
    var k := ks[i];
    ConfirmedSpec(notes, replies, |m|, k);
    if !IsOk(replies(i)) && k in Confirmed(notes, replies, |m|) {
      var j :| 0 <= j < |m| && IsOk(replies(j)) && IdKey(notes[j]) == Some(k);
      ListingAt(m, j);
      if j < i {
        assert KeyLess(ks[j], ks[i]);
      } else {
        assert KeyLess(ks[i], ks[j]);
      }
      KeyLessIrreflexive(k);
    }
  }

  /** Every key a pass over a listing confirms is a key of the store. */
  lemma ConfirmedInStore(m: map<Key, Record>, replies: nat -> Reply)
    requires KeysStored(m)
    ensures Confirmed(Listing(m), replies, |m|) <= m.Keys
  {
    var notes := Listing(m);
    ListingSpec(m);
    forall k | k in Confirmed(notes, replies, |m|) ensures k in m.Keys {
      ConfirmedSpec(notes, replies, |m|, k);
    }
  }

  /** When every post of a pass succeeds, every key of the store is confirmed. */
  lemma AllOkConfirmsAll(m: map<Key, Record>, replies: nat -> Reply)
    requires KeysStored(m)
    requires forall i :: 0 <= i < |m| ==> IsOk(replies(i))
    ensures m.Keys <= Confirmed(Listing(m), replies, |m|)
  {
    var notes := Listing(m);
    ListingSpec(m);
    forall k | k in m ensures k in Confirmed(notes, replies, |m|) {
      var i :| 0 <= i < |notes| && IdKey(notes[i]) == Some(k);
      assert IsOk(replies(i));
      ConfirmedSpec(notes, replies, |m|, k);
    }
  }

  lemma MinusCardinality(m: map<Key, Record>, c: set<Key>)
    requires c <= m.Keys
    ensures |m - c| == |m| - |c|
  {
    assert (m - c).Keys == m.Keys - c;
    assert m.Keys == (m.Keys - c) + c;
  }

  /** The next pass posts each remaining draft once: as many requests as
      drafts were left, and none at all after a pass whose posts all
      succeeded. */
  lemma SecondPass(m: map<Key, Record>, replies: nat -> Reply, token: string, baseUrl: string)
    requires KeysStored(m)
    ensures |Requests(Listing(Remaining(m, replies)), token, baseUrl)| == |Remaining(m, replies)|
    ensures |Remaining(m, replies)| == |m| - |Confirmed(Listing(m), replies, |m|)|
    ensures (forall i :: 0 <= i < |m| ==> IsOk(replies(i))) ==> Remaining(m, replies) == map[]
  {
    ConfirmedInStore(m, replies);
    MinusCardinality(m, Confirmed(Listing(m), replies, |m|));
    if forall i :: 0 <= i < |m| ==> IsOk(replies(i)) {
      AllOkConfirmsAll(m, replies);
      assert Remaining(m, replies).Keys == {};
    }
  }

  /** A pass keeps what every stored draft needs to be listed again: each
      remaining record still carries its own key. */
  lemma RemainingKeysStored(m: map<Key, Record>, replies: nat -> Reply)
    requires KeysStored(m)
    ensures KeysStored(Remaining(m, replies))
    ensures Remaining(m, replies).Keys <= m.Keys
  {
  }

  /** When every post but the one at position `p` succeeds, exactly the
      draft at `p` is left, unchanged. */
  lemma OnlyFailureRemains(m: map<Key, Record>, replies: nat -> Reply, p: nat)
    requires KeysStored(m) && p < |m| && !IsOk(replies(p))
    requires forall i :: 0 <= i < |m| && i != p ==> IsOk(replies(i))
    ensures IdKey(Listing(m)[p]).Some?
    ensures Remaining(m, replies) == map[IdKey(Listing(m)[p]).value := Listing(m)[p]]
  {
    FailureKept(m, replies, p);
    OthersGone(m, replies, p);
    Singleton(Remaining(m, replies), IdKey(Listing(m)[p]).value, Listing(m)[p]);
  }

  /** A map whose only key is `k` is the one-entry map for `k`. */
  lemma Singleton(r: map<Key, Record>, k: Key, v: Record)
    requires k in r && r[k] == v
    requires forall x :: x in r ==> x == k
    ensures r == map[k := v]
  {
    assert r.Keys == {k};
  }

  /** Three queued drafts whose second post fails: after the pass only the
      second draft is left, unchanged. */
  lemma MiddleFailureLeavesOnlyThatDraft(m: map<Key, Record>, replies: nat -> Reply)
    requires KeysStored(m) && |m| == 3
    requires IsOk(replies(0)) && !IsOk(replies(1)) && IsOk(replies(2))
    ensures Remaining(m, replies) == map[IdKey(Listing(m)[1]).value := Listing(m)[1]]
  {
    OnlyFailureRemains(m, replies, 1);
  }

  lemma FailureKept(m: map<Key, Record>, replies: nat -> Reply, p: nat)
    requires KeysStored(m) && p < |m| && !IsOk(replies(p))
    ensures IdKey(Listing(m)[p]).Some?
    ensures IdKey(Listing(m)[p]).value in Remaining(m, replies)
    ensures Remaining(m, replies)[IdKey(Listing(m)[p]).value] == Listing(m)[p]
  {
    DeletedIffOk(m, replies);
    ListingSpec(m);
  }

  lemma OthersGone(m: map<Key, Record>, replies: nat -> Reply, p: nat)
    requires KeysStored(m) && p < |m|
    requires forall i :: 0 <= i < |m| && i != p ==> IsOk(replies(i))
    ensures IdKey(Listing(m)[p]).Some?
    ensures forall k :: k in Remaining(m, replies) ==> k == IdKey(Listing(m)[p]).value
  {
    ListingAt(m, p);
    forall k | k in Remaining(m, replies) ensures k == IdKey(Listing(m)[p]).value {
      var i := RemainingPosition(m, replies, k);
    }
  }

  /** A key left after a pass is listed at a position whose post failed. */
  lemma RemainingPosition(m: map<Key, Record>, replies: nat -> Reply, k: Key) returns (i: nat)
    requires KeysStored(m) && k in Remaining(m, replies)
    ensures i < |Listing(m)| && IdKey(Listing(m)[i]) == Some(k) && !IsOk(replies(i))
  {
    var notes := Listing(m);
    ListingCovers(m);
    i :| 0 <= i < |notes| && IdKey(notes[i]) == Some(k);
    ConfirmedSpec(notes, replies, |m|, k);
  }
}
