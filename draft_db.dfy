/** src/scripts/utils/db.js: the IndexedDB database `storyDB` (version 1)
    with one object store `drafts`, key path `id`, auto-increment.

    The platform state the functions act on is a class: the on-disk version,
    whether the store exists, the records by key, the key generator's current
    number (section 2.11 of the W3C Indexed Database API), and the module's
    cached connection `dbInstance`. Each exported function first awaits
    `openDB()`; a rejection anywhere is an `Err` result. */
module DraftDb {
  import opened JsModel

  const DbName: string := "storyDB"
  const DbVersion: nat := 1
  const StoreName: string := "drafts"
  const KeyPath: string := "id"
  const CreatedAt: string := "createdAt"

  /** 2^53: a key generator whose current number exceeds this can no longer generate. */
  const MaxGeneratorKey: int := 9007199254740992

  // ---------------------------------------------------------------------------
  // Keys and their order

  /** A valid IndexedDB key, as far as this store sees them: a number (here an
      integer) or a string. */
  datatype Key = Number(n: int) | Text(s: string)

  /** IndexedDB key comparison: numbers before strings, numbers by value,
      strings by `StrLess` (by code point; IndexedDB compares code units). */
  predicate KeyLess(a: Key, b: Key)
  {
    match a
    case Number(x) => (match b case Number(y) => x < y case Text(_) => true)
    case Text(x) => (match b case Number(_) => false case Text(y) => StrLess(x, y))
  }

  lemma KeyLessIrreflexive(a: Key)
    ensures !KeyLess(a, a)
  {
    if a.Text? { StrLessIrreflexive(a.s); }
  }

  lemma KeyLessTransitive(a: Key, b: Key, c: Key)
    requires KeyLess(a, b) && KeyLess(b, c)
    ensures KeyLess(a, c)
  {
    if a.Text? { StrLessTransitive(a.s, b.s, c.s); }
  }

  lemma KeyLessTotal(a: Key, b: Key)
    requires a != b
    ensures KeyLess(a, b) || KeyLess(b, a)
  {
    if a.Text? && b.Text? { StrLessTotal(a.s, b.s); }
  }

  /** "Convert a value to a key": only numbers and strings are keys here. */
  function KeyOf(v: Value): (r: Option<Key>)
    ensures r.Some? <==> v.Num? || v.Str?
    ensures r.Some? ==> KeyValue(r.value) == v
  {
    match v
    case Num(n) => Some(Number(n))
    case Str(s) => Some(Text(s))
    case _ => None
  }

  /** The value a key is stored as in the record's `id` property. */
  function KeyValue(k: Key): (v: Value)
  {
    match k
    case Number(n) => Num(n)
    case Text(s) => Str(s)
  }

  /** A key written into a record reads back as the same key. */
  lemma KeyRoundTrip(k: Key)
    ensures KeyOf(KeyValue(k)) == Some(k)
  {
  }

  predicate IsLeast(k: Key, s: set<Key>)
  {
    k in s && forall j | j in s && j != k :: KeyLess(k, j)
  }

  lemma {:induction false} LeastExists(s: set<Key>)
    requires s != {}
    ensures exists k :: IsLeast(k, s)
    decreases |s|
  {
    var x :| x in s;
    if s - {x} == {} {
      assert s == {x};
      assert IsLeast(x, s);
    } else {
      LeastExists(s - {x});
      var m :| IsLeast(m, s - {x});
      if KeyLess(x, m) {
        forall j | j in s && j != x ensures KeyLess(x, j) {
          if j != m { KeyLessTransitive(x, m, j); }
        }
        assert IsLeast(x, s);
      } else {
        KeyLessTotal(x, m);
        assert IsLeast(m, s);
      }
    }
  }

  lemma LeastUnique(s: set<Key>)
    ensures forall a, b :: IsLeast(a, s) && IsLeast(b, s) ==> a == b
  {
    forall a, b | IsLeast(a, s) && IsLeast(b, s) ensures a == b {
      if a != b {
        KeyLessTransitive(a, b, a);
        KeyLessIrreflexive(a);
      }
    }
  }

  /** The keys of a set in ascending key order. */
  function SortedKeys(s: set<Key>): (r: seq<Key>)
    ensures |r| == |s|
    ensures forall k :: k in s <==> k in r
    ensures forall i, j :: 0 <= i < j < |r| ==> KeyLess(r[i], r[j])
    decreases |s|
  {
    if s == {} then []
    else
      LeastExists(s);
      LeastUnique(s);
      var k :| IsLeast(k, s);
      [k] + SortedKeys(s - {k})
  }

  /** The records of a store in ascending key order: what `getAll()` returns. */
  function Listing(m: map<Key, Record>): (r: seq<Record>)
    ensures |r| == |m|
  {
    var ks := SortedKeys(m.Keys);
    seq(|ks|, i requires 0 <= i < |ks| => m[ks[i]])
  }

  /** The id of a stored record, read back as a key. */
  function IdKey(r: Record): Option<Key>
  {
    KeyOf(Get(r, KeyPath))
  }

  ghost predicate KeysStored(m: map<Key, Record>)
  {
    forall k :: k in m ==> Get(m[k], KeyPath) == KeyValue(k)
  }

  /** The i-th record of a listing is the record stored under the i-th key. */
  lemma ListingAt(m: map<Key, Record>, i: nat)
    requires KeysStored(m)
    requires i < |Listing(m)|
    ensures var k := SortedKeys(m.Keys)[i];
      k in m && Listing(m)[i] == m[k] && IdKey(Listing(m)[i]) == Some(k)
  {
    var ks := SortedKeys(m.Keys);
    assert ks[i] in m.Keys;
    KeyRoundTrip(ks[i]);
  }

  /** Each listed record is stored under its own id, and the ids ascend. */
  lemma ListingIds(m: map<Key, Record>)
    requires KeysStored(m)
    ensures forall i :: 0 <= i < |Listing(m)| ==> IdKey(Listing(m)[i]) == Some(SortedKeys(m.Keys)[i])
    ensures forall i :: 0 <= i < |Listing(m)| ==>
      SortedKeys(m.Keys)[i] in m && m[SortedKeys(m.Keys)[i]] == Listing(m)[i]
  {
    forall i | 0 <= i < |Listing(m)|
      ensures IdKey(Listing(m)[i]) == Some(SortedKeys(m.Keys)[i])
      ensures SortedKeys(m.Keys)[i] in m && m[SortedKeys(m.Keys)[i]] == Listing(m)[i]
    {
      ListingAt(m, i);
    }
  }

  /** Every stored key has a record in the listing. */
  lemma ListingCovers(m: map<Key, Record>)
    requires KeysStored(m)
    ensures forall k :: k in m ==> exists i :: 0 <= i < |Listing(m)| && IdKey(Listing(m)[i]) == Some(k)
  {
    var ks := SortedKeys(m.Keys);
    forall k | k in m ensures exists i :: 0 <= i < |Listing(m)| && IdKey(Listing(m)[i]) == Some(k) {
      var i :| 0 <= i < |ks| && ks[i] == k;
      ListingAt(m, i);
    }
  }

  /** When every record carries its own key, the listing holds every record
      exactly once, in strictly ascending key order. */
  lemma ListingSpec(m: map<Key, Record>)
    requires KeysStored(m)
    ensures forall i :: 0 <= i < |Listing(m)| ==>
      IdKey(Listing(m)[i]).Some? && IdKey(Listing(m)[i]).value in m
      && m[IdKey(Listing(m)[i]).value] == Listing(m)[i]
    ensures forall k :: k in m ==> exists i :: 0 <= i < |Listing(m)| && IdKey(Listing(m)[i]) == Some(k)
    ensures forall i, j :: 0 <= i < j < |Listing(m)| ==>
      KeyLess(IdKey(Listing(m)[i]).value, IdKey(Listing(m)[j]).value)
  {
    ListingIds(m);
    ListingCovers(m);
  }

  // ---------------------------------------------------------------------------
  // The database

  datatype DbError =
    | StorageUnavailable   // the platform refuses access
    | VersionError         // the database on disk is newer than version 1
    | NotFoundError        // `drafts` does not exist, so `transaction()` throws
    | DataError            // the value given as a key is not a key
    | ConstraintError      // the key exists already, or the generator is exhausted

  /** The record carries its own key: evaluating the key path `id` on it
      succeeds. It fails when the property is absent or `undefined`, and the
      key generator then supplies the key. */
  predicate InlineKey(data: Record)
  {
    !Get(data, KeyPath).Undefined?
  }

  /** A connection handed out by `indexedDB.open`. */
  datatype Handle = Handle(serial: nat)

  class DraftDB {
    /** The platform denies storage access (private mode, blocked site data). */
    const denied: bool
    /** Version of `storyDB` on disk; 0 while the database does not exist. */
    var version: nat
    /** The object store `drafts` exists. */
    var hasStore: bool
    var records: map<Key, Record>
    /** The key generator's current number. */
    var current: int
    /** Every key the generator has handed out so far. */
    ghost var issued: set<int>
    /** The module-level `dbInstance`. */
    var handle: Option<Handle>
    /** How many connections the platform has opened. */
    var connections: nat

    ghost predicate Valid()
      reads this
    {
      && (version == 0 ==> !hasStore)
      && (!hasStore ==> records == map[] && current == 1)
      && 1 <= current <= MaxGeneratorKey + 1
      && (forall g :: g in issued ==> g < current)
      && KeysStored(records)
      && (forall k :: k in records && k.Number? ==> k.n < current || current == MaxGeneratorKey + 1)
      && (handle.Some? ==> version == DbVersion && handle.value.serial < connections)
    }

    /** A database as the browser may hold it before the page first loads; the
        store starts empty. */
    constructor (denied: bool, version: nat, hasStore: bool)
      requires version == 0 ==> !hasStore
      ensures Valid()
      ensures this.denied == denied && this.version == version && this.hasStore == hasStore
      ensures records == map[] && current == 1 && issued == {} && handle == None && connections == 0
    {
      this.denied := denied;
      this.version := version;
      this.hasStore := hasStore;
      records := map[];
      current := 1;
      issued := {};
      handle := None;
      connections := 0;
    }

    /** The error with which `openDB()` followed by `db.transaction('drafts')`
        fails in the current state, if any. */
    function AccessError(): Option<DbError>
      reads this
    {
      if handle.None? && denied then Some(StorageUnavailable)
      else if handle.None? && version > DbVersion then Some(VersionError)
      else if !hasStore && !(handle.None? && version < DbVersion) then Some(NotFoundError)
      else None
    }

    /** openDB: the cached connection when there is one; otherwise open version 1,
        running the upgrade (create `drafts` unless present) when the database
        is older, and cache the connection only on success. */
    method OpenDB() returns (r: Result<Handle, DbError>)
      requires Valid()
      modifies this
      ensures Valid()
      ensures records == old(records) && current == old(current) && issued == old(issued)
      ensures old(handle).Some? ==> r == Ok(old(handle).value) && unchanged(this)
      ensures old(handle).None? && (denied || old(version) > DbVersion) ==>
        r == Err(if denied then StorageUnavailable else VersionError) && unchanged(this)
      ensures old(handle).None? && !denied && old(version) <= DbVersion ==>
        && r == Ok(Handle(old(connections)))
        && handle == Some(r.value)
        && connections == old(connections) + 1
        && version == DbVersion
        && hasStore == (old(hasStore) || old(version) < DbVersion)
    {
      if handle.Some? {
        return Ok(handle.value);
      }
      if denied {
        return Err(StorageUnavailable);
      }
      if version > DbVersion {
        return Err(VersionError);
      }
      if version < DbVersion {
        // onupgradeneeded
        if !hasStore {
          hasStore := true;
        }
        version := DbVersion;
      }
      var h := Handle(connections);
      connections := connections + 1;
      handle := Some(h);
      r := Ok(h);
    }

    /** The record `addDraft(data)` stores under key `k` at time `now`: the
        caller's fields, `createdAt` replaced by `now`, the key in `id`. */
    static function Stored(data: Record, now: int, k: Key): Record
    {
      data[CreatedAt := Num(now)][KeyPath := KeyValue(k)]
    }

    /** The outcome of `addDraft(data)` in the current state, and the key
        generator's next current number. */
    function AddOutcome(data: Record): (Result<Key, DbError>, int)
      reads this
    {
      if AccessError().Some? then (Err(AccessError().value), current)
      else if InlineKey(data) then
        match KeyOf(Get(data, KeyPath))
        case None => (Err(DataError), current)
        case Some(k) =>
          if k in records then (Err(ConstraintError), current)
          else if k.Number? && k.n >= current then
            (Ok(k), (if k.n < MaxGeneratorKey then k.n else MaxGeneratorKey) + 1)
          else (Ok(k), current)
      else if current > MaxGeneratorKey then (Err(ConstraintError), current)
      else (Ok(Number(current)), current + 1)
    }

    /** addDraft: stores `{...data, createdAt: Date.now()}` and resolves with its key. */
    method AddDraft(data: Record, now: int) returns (r: Result<Key, DbError>)
      requires Valid()
      modifies this
      ensures Valid()
      ensures r == old(AddOutcome(data)).0 && current == old(AddOutcome(data)).1
      ensures r.Ok? ==> r.value !in old(records) && records == old(records)[r.value := Stored(data, now, r.value)]
      ensures r.Err? ==> records == old(records)
      ensures current >= old(current)
      ensures issued == old(issued) + (if r.Ok? && !InlineKey(data) then {r.value.n} else {})
      ensures r.Ok? ==> handle.Some? && hasStore
      ensures old(handle).Some? ==> handle == old(handle) && hasStore == old(hasStore)
    {
      var h := OpenDB();
      if h.Err? {
        return Err(h.error);
      }
      if !hasStore {
        return Err(NotFoundError);
      }
      if InlineKey(data) {
        var key := KeyOf(Get(data, KeyPath));
        if key.None? {
          return Err(DataError);
        }
        var k := key.value;
        if k in records {
          return Err(ConstraintError);
        }
        PutExplicit(data, now, k);
        r := Ok(k);
      } else {
        if current > MaxGeneratorKey {
          return Err(ConstraintError);
        }
        r := PutGenerated(data, now);
      }
    }

    /** `put` under the key the record carries; a number at or above the
        generator's current number moves the generator past it. */
    method PutExplicit(data: Record, now: int, k: Key)
      requires Valid() && handle.Some? && hasStore
      requires InlineKey(data) && KeyOf(Get(data, KeyPath)) == Some(k) && k !in records
      modifies this
      ensures Valid()
      ensures records == old(records)[k := Stored(data, now, k)]
      ensures current == if k.Number? && k.n >= old(current)
                         then (if k.n < MaxGeneratorKey then k.n else MaxGeneratorKey) + 1
                         else old(current)
      ensures issued == old(issued) && handle == old(handle) && hasStore == old(hasStore)
    {
      var rec := data[CreatedAt := Num(now)];
      assert rec == Stored(data, now, k);
      records := records[k := rec];
      if k.Number? && k.n >= current {
        current := (if k.n < MaxGeneratorKey then k.n else MaxGeneratorKey) + 1;
      }
    }

    /** `put` under the generator's current number, which is then used up. */
    method PutGenerated(data: Record, now: int) returns (r: Result<Key, DbError>)
      requires Valid() && handle.Some? && hasStore
      requires !InlineKey(data) && current <= MaxGeneratorKey
      modifies this
      ensures Valid()
      ensures r == Ok(Number(old(current)))
      ensures records == old(records)[Number(old(current)) := Stored(data, now, Number(old(current)))]
      ensures current == old(current) + 1 && issued == old(issued) + {old(current)}
      ensures handle == old(handle) && hasStore == old(hasStore)
    {
      var k := Number(current);
      var rec := data[CreatedAt := Num(now)];
      records := records[k := rec[KeyPath := Num(current)]];
      issued := issued + {current};
      current := current + 1;
      r := Ok(k);
    }

    /** What `getAllDrafts()` resolves with, or the error it rejects with. */
    function ListOutcome(): Result<seq<Record>, DbError>
      reads this
    {
      if AccessError().Some? then Err(AccessError().value) else Ok(Listing(records))
    }

    /** getAllDrafts: every stored record, in ascending key order. */
    method GetAllDrafts() returns (r: Result<seq<Record>, DbError>)
      requires Valid()
      modifies this
      ensures Valid()
      ensures r == old(ListOutcome())
      ensures records == old(records) && current == old(current) && issued == old(issued)
      ensures r.Ok? ==> handle.Some? && hasStore
      ensures old(handle).Some? ==> handle == old(handle) && hasStore == old(hasStore)
      ensures old(handle).None? && denied ==> unchanged(this)
    {
      var h := OpenDB();
      if h.Err? {
        return Err(h.error);
      }
      if !hasStore {
        return Err(NotFoundError);
      }
      r := Ok(Listing(records));
    }

    /** What `deleteDraft(id)` resolves with, or the error it rejects with. */
    function DeleteOutcome(id: Value): Result<bool, DbError>
      reads this
    {
      if AccessError().Some? then Err(AccessError().value)
      else if KeyOf(id).None? then Err(DataError)
      else Ok(true)
    }

    /** deleteDraft: removes the record with that key, if any, and resolves `true`. */
    method DeleteDraft(id: Value) returns (r: Result<bool, DbError>)
      requires Valid()
      modifies this
      ensures Valid()
      ensures r == old(DeleteOutcome(id))
      ensures records == if r.Ok? then old(records) - {KeyOf(id).value} else old(records)
      ensures current == old(current) && issued == old(issued)
      ensures old(handle).Some? ==> handle == old(handle) && hasStore == old(hasStore)
    {
      var h := OpenDB();
      if h.Err? {
        return Err(h.error);
      }
      if !hasStore {
        return Err(NotFoundError);
      }
      var key := KeyOf(id);
      if key.None? {
        return Err(DataError);
      }
      records := records - {key.value};
      r := Ok(true);
    }

    /** getAllNotes, exported as another name for getAllDrafts. */
    method GetAllNotes() returns (r: Result<seq<Record>, DbError>)
      requires Valid()
      modifies this
      ensures Valid()
      ensures r == old(ListOutcome())
      ensures records == old(records) && current == old(current) && issued == old(issued)
      ensures r.Ok? ==> handle.Some? && hasStore
      ensures old(handle).Some? ==> handle == old(handle) && hasStore == old(hasStore)
      ensures old(handle).None? && denied ==> unchanged(this)
    {
      r := GetAllDrafts();
    }

    /** deleteNote, exported as another name for deleteDraft. */
    method DeleteNote(id: Value) returns (r: Result<bool, DbError>)
      requires Valid()
      modifies this
      ensures Valid()
      ensures r == old(DeleteOutcome(id))
      ensures records == if r.Ok? then old(records) - {KeyOf(id).value} else old(records)
      ensures current == old(current) && issued == old(issued)
      ensures old(handle).Some? ==> handle == old(handle) && hasStore == old(hasStore)
    {
      r := DeleteDraft(id);
    }

    /** A page reload: the module starts again without a cached connection;
        what is on disk stays. */
    method Reload()
      requires Valid()
      modifies this
      ensures Valid()
      ensures handle == None
      ensures records == old(records) && current == old(current) && issued == old(issued)
      ensures version == old(version) && hasStore == old(hasStore) && connections == old(connections)
    {
      handle := None;
    }
  }

  // ---------------------------------------------------------------------------
  // Properties of the specification functions

  /** addDraft keeps every caller field except `createdAt`, which is always the
      store time, and `id`, which is the key. */
  lemma StoredKeepsFields(data: Record, now: int, k: Key)
    ensures Get(DraftDB.Stored(data, now, k), CreatedAt) == Num(now)
    ensures IdKey(DraftDB.Stored(data, now, k)) == Some(k)
    ensures forall f :: f in data && f != CreatedAt && f != KeyPath ==> DraftDB.Stored(data, now, k)[f] == data[f]
    ensures DraftDB.Stored(data, now, k).Keys == data.Keys + {CreatedAt, KeyPath}
  {
  }

  /** Deleting a key that is absent succeeds as well, and changes nothing. */
  lemma DeleteAbsentSucceeds(db: DraftDB, k: Key)
    requires db.AccessError().None? && k !in db.records
    ensures db.DeleteOutcome(KeyValue(k)) == Ok(true)
    ensures db.records - {k} == db.records
  {
  }

  /** A generated key is the generator's current number: above every key the
      generator handed out before and every numeric key in the store, so it is
      never reused, and the next one is larger still. */
  lemma GeneratedKeyIsFresh(db: DraftDB, data: Record)
    requires db.Valid()
    requires !InlineKey(data) && db.AddOutcome(data).0.Ok?
    ensures var k := db.AddOutcome(data).0.value;
      && k == Number(db.current)
      && (forall g :: g in db.issued ==> g < k.n)
      && k !in db.records
      && (forall j :: j in db.records && j.Number? ==> j.n < k.n)
      && db.AddOutcome(data).1 == k.n + 1
  {
  }

  /** A record whose `id` is `undefined` is added like one without `id`:
      under a generated key, which the stored record then carries. */
  lemma UndefinedIdIsGenerated(db: DraftDB, data: Record, now: int)
    requires db.AccessError().None? && db.current <= MaxGeneratorKey
    ensures db.AddOutcome(data[KeyPath := Undefined]) == db.AddOutcome(data - {KeyPath})
    ensures db.AddOutcome(data[KeyPath := Undefined]) == (Ok(Number(db.current)), db.current + 1)
    ensures Get(DraftDB.Stored(data[KeyPath := Undefined], now, Number(db.current)), KeyPath) == Num(db.current)
  {
  }
}
