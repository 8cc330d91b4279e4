/** The typed stores of the database, each over one bucket of the shared handle (database/database.go). */
module Buckets {
  import opened Types
  import opened SharedBolt

  /** How values are written to a bucket and read back. */
  datatype Codec<!T> = Codec(encode: T -> Option<Bytes>, decode: Bytes -> Option<T>)

  /** What can be written is read back unchanged. */
  ghost predicate Lossless<T(!new)>(c: Codec<T>) {
    forall v: T :: c.encode(v).Some? ==> c.decode(c.encode(v).value) == Some(v)
  }

  /** On legal keys the key strings are different and never empty. */
  ghost predicate GoodKeys<K(!new)>(key: K -> string, legal: K -> bool) {
    && (forall a: K, b: K :: legal(a) && legal(b) && key(a) == key(b) ==> a == b)
    && (forall a: K :: legal(a) ==> key(a) != "")
  }

  /** A bucket holds exactly the map `m` on legal keys. */
  ghost predicate Holds<K(!new), T>(bucket: map<string, Bytes>, key: K -> string, c: Codec<T>, legal: K -> bool,
          m: map<K, T>) {
    && (forall k: K :: legal(k) ==> (k in m <==> key(k) in bucket))
    && (forall k: K :: legal(k) && k in m ==> c.decode(bucket[key(k)]) == Some(m[k]))
  }

  class TypedStore<K(!new), T(!new)> {
    const store: Store
    const key: K -> string
    const codec: Codec<T>

    constructor (store: Store, key: K -> string, codec: Codec<T>)
      ensures this.store == store && this.key == key && this.codec == codec
    {
      this.store := store;
      this.key := key;
      this.codec := codec;
    }

    ghost predicate Open()
      reads store.db
    {
      store.db.open && store.bucketName in store.db.file
    }

    ghost function Bucket(): map<string, Bytes>
      requires Open()
      reads store.db
    {
      store.db.file[store.bucketName]
    }

    method Set(k: K, v: T, txOk: bool) returns (err: bool)
      requires Open()
      modifies store.db`file
      ensures Open() && err == (key(k) == "" || codec.encode(v) == None || !txOk)
      ensures Bucket() == if err then old(Bucket()) else old(Bucket())[key(k) := codec.encode(v).value]
      ensures forall b :: b != store.bucketName ==> Content(store.db.file, b) == Content(old(store.db.file), b)
    {
      var r := store.Set(key(k), codec.encode(v), txOk);
      return r == Error;
    }

    method Get(k: K, txOk: bool) returns (value: Option<T>, err: bool)
      requires Open()
      ensures if key(k) == "" then err && value == None
              else if !txOk || key(k) !in Bucket() then !err && value == None
              else value == codec.decode(Bucket()[key(k)]) && (err <==> value == None)
    {
      var r := store.Get(key(k), txOk);
      match r
      case Found(data) => value := codec.decode(data); err := value == None;
      case NotFound => value, err := None, false;
      case _ => value, err := None, true;
    }

    method Delete(k: K, txOk: bool) returns (err: bool)
      requires Open()
      modifies store.db`file
      ensures Open() && err == (key(k) == "" || !txOk)
      ensures Bucket() == if err then old(Bucket()) else old(Bucket()) - {key(k)}
      ensures forall b :: b != store.bucketName ==> Content(store.db.file, b) == Content(old(store.db.file), b)
    {
      var r := store.Delete(key(k), txOk);
      return r == Error;
    }
  }

  /** A typed store is a map: setting, deleting and reading a legal key do to the map it holds what they say, and to
      no other key. */
  lemma TypedStoreIsMap<K(!new), T(!new)>(bucket: map<string, Bytes>, key: K -> string, c: Codec<T>,
          legal: K -> bool, m: map<K, T>, k: K, v: T)
    requires GoodKeys(key, legal) && Lossless(c) && Holds(bucket, key, c, legal, m) && legal(k)
    ensures c.encode(v).Some? ==> Holds(bucket[key(k) := c.encode(v).value], key, c, legal, m[k := v])
    ensures Holds(bucket - {key(k)}, key, c, legal, m - {k})
    ensures key(k) in bucket <==> k in m
    ensures k in m ==> c.decode(bucket[key(k)]) == Some(m[k])
  {
    forall k': K | legal(k') && key(k') == key(k)
      ensures k' == k
    {
    }
  }

  /** Two legal keys with one key string break it: what is set under one is found under the other. */
  lemma SharedKeyBreaksMap<K(!new), T(!new)>(key: K -> string, c: Codec<T>, legal: K -> bool, a: K, b: K, v: T)
    requires legal(a) && legal(b) && a != b && key(a) == key(b) && c.encode(v).Some?
    ensures Holds(map[], key, c, legal, map[]) && !Holds(map[key(a) := c.encode(v).value], key, c, legal, map[a := v])
  {
    var m: map<K, T> := map[a := v];
    assert b !in m;
  }

  function RepoKey(r: Repo): string {
    RepoString(r)
  }

  predicate NoSlash(r: Repo) {
    '/' !in r.owner
  }

  /** Repositories are good keys exactly when no two of them split one string at different slashes. */
  lemma GoodRepoKeysIff(legal: Repo -> bool)
    ensures GoodKeys(RepoKey, legal) <==> forall a: Repo, b: Repo :: legal(a) && legal(b) ==> !SplitsLater(a, b)
  {
    forall a: Repo, b: Repo
      ensures RepoKey(a) == RepoKey(b) <==> a == b || SplitsLater(a, b) || SplitsLater(b, a)
      ensures RepoKey(a) != "" && !SplitsLater(a, a)
    {
      RepoKeysInjective(a, b);
      if SplitsLater(a, a) {
        SplitsShareKey(a, a);
      }
    }
  }

  /** Repositories whose owner has no slash are good keys; arbitrary repositories are not. */
  lemma RepoKeysAreGood()
    ensures GoodKeys(RepoKey, NoSlash)
    ensures !GoodKeys(RepoKey, (r: Repo) => true)
  {
    GoodRepoKeysIff(NoSlash);
    forall a: Repo, b: Repo | NoSlash(a)
      ensures !SplitsLater(a, b)
    {
      SlashesOf(a, b);
    }
    RepoKeysCollide();
    var a: Repo, b: Repo :| a != b && RepoString(a) == RepoString(b);
    assert RepoKey(a) == RepoKey(b);
  }

  // ---------------------------------------------------------------- opening and closing the database

  const BUCKETS: seq<string> := ["pages-data", "pages-meta", "repo-pages", "users"]

  predicate Opened(db: SharedState, stores: seq<Store>, n: nat)
    requires n <= |BUCKETS|
    reads db
  {
    && |stores| == n && db.open && db.buckets == (set i | 0 <= i < n :: BUCKETS[i])
    && forall i :: 0 <= i < n ==> stores[i].db == db && stores[i].bucketName == BUCKETS[i] && BUCKETS[i] in db.file
  }

  /** Open the four stores one after the other. It succeeds exactly when all transactions do, and keeps what earlier
      runs have stored. */
  method OpenAll(db: SharedState, txOk: seq<bool>) returns (stores: Option<seq<Store>>)
    requires db.View() == Shared(true, {}, db.file) && |txOk| == |BUCKETS|
    modifies db`buckets, db`file
    ensures stores == None <==> false in txOk
    ensures stores.Some? ==> Opened(db, stores.value, |BUCKETS|)
    ensures forall b :: Content(db.file, b) == Content(old(db.file), b)
  {
    var ready: seq<Store> := [];
    for n := 0 to |BUCKETS|
      invariant Opened(db, ready, n) && false !in txOk[..n]
      invariant forall b :: Content(db.file, b) == Content(old(db.file), b)
    {
      NewBucket(n);
      var store := db.NewStore(BUCKETS[n], txOk[n]);
      assert txOk[..n + 1] == txOk[..n] + [txOk[n]];
      if store == null {
        assert txOk[n] in txOk;
        return None;
      }
      ready := ready + [store];
    }
    assert txOk[..|BUCKETS|] == txOk;
    return Some(ready);
  }

  lemma NewBucket(n: nat)
    requires n < |BUCKETS|
    ensures BucketName(BUCKETS[n]) == BUCKETS[n] && BUCKETS[n] !in (set i | 0 <= i < n :: BUCKETS[i])
    ensures (set i | 0 <= i < n + 1 :: BUCKETS[i]) == (set i | 0 <= i < n :: BUCKETS[i]) + {BUCKETS[n]}
  {
    assert BUCKETS[0][6] == 'd' && BUCKETS[1][6] == 'm' && BUCKETS[2][0] == 'r' && BUCKETS[3][0] == 'u';
  }

  /** Closing the four stores releases the handle, and not before the last one is closed; if releasing it fails it
      stays open without any store. */
  method CloseAll(db: SharedState, stores: seq<Store>, closeOk: bool) returns (err: bool)
    requires Opened(db, stores, |BUCKETS|)
    modifies db`buckets, db`open
    ensures db.open == err == !closeOk && db.buckets == {}
  {
    err := false;
    for k := 0 to |BUCKETS|
      invariant db.buckets == (set i | 0 <= i < |BUCKETS| - k :: BUCKETS[i])
      invariant db.open == (k < |BUCKETS| || !closeOk) && err == (k == |BUCKETS| && !closeOk)
    {
      var n := |BUCKETS| - 1 - k;
      NewBucket(n);
      err := stores[n].Close(closeOk);
      assert n > 0 ==> BUCKETS[0] in db.buckets;
    }
  }
}
