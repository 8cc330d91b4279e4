/** Several logical stores over one bbolt handle (database/sharedbbolt/sharedBbolt.go). */
module SharedBolt {
  import opened Types

  /** The handle is open or released; `buckets` are the names in use; `file` is the database file itself. */
  datatype Shared = Shared(open: bool, buckets: set<string>, file: map<string, map<string, Bytes>>)

  datatype Response = Found(value: Bytes) | NotFound | Ok | Error

  const DEFAULT_BUCKET := "default"

  function BucketName(name: string): string {
    if name == "" then DEFAULT_BUCKET else name
  }

  // ---------------------------------------------------------------- what the operations do to the shared state

  /** A read: the transaction may fail, which counts as absence. */
  function Lookup(s: Shared, bucket: string, key: string, txOk: bool): Response
    requires s.open ==> bucket in s.file
  {
    if key == "" || !s.open then Error
    else if txOk && key in s.file[bucket] then Found(s.file[bucket][key])
    else NotFound
  }

  function Put(s: Shared, bucket: string, key: string, value: Bytes): Shared
    requires bucket in s.file
  {
    s.(file := s.file[bucket := s.file[bucket][key := value]])
  }

  function Remove(s: Shared, bucket: string, key: string): Shared
    requires bucket in s.file
  {
    s.(file := s.file[bucket := s.file[bucket] - {key}])
  }

  /** Forget the name; the handle is released when no name is left, unless that fails. */
  function Release(s: Shared, bucket: string, closeOk: bool): Shared {
    var buckets := s.buckets - {bucket};
    s.(buckets := buckets, open := s.open && (buckets != {} || !closeOk))
  }

  function Register(s: Shared, bucket: string): Shared {
    s.(buckets := s.buckets + {bucket}, file := if bucket in s.file then s.file else s.file[bucket := map[]])
  }

  // ---------------------------------------------------------------- the code

  class SharedState {
    var open: bool
    var buckets: set<string>
    var file: map<string, map<string, Bytes>>

    function View(): Shared
      reads this
    {
      Shared(open, buckets, file)
    }

    constructor (file: map<string, map<string, Bytes>>)
      ensures View() == Shared(true, {}, file)
    {
      open := true;
      buckets := {};
      this.file := file;
    }

    /** The lower read reports success for absent keys too; only the value tells them apart. */
    method Get(bucketName: string, key: string, txOk: bool) returns (found: bool, value: Option<Bytes>, err: bool)
      requires open ==> bucketName in file
      ensures err == !open
      ensures found == (open && txOk)
      ensures value == if open && txOk && key in file[bucketName] then Some(file[bucketName][key]) else None
    {
      value := None;
      if !open {
        return false, None, true;
      }
      if !txOk {
        return false, None, false;
      }
      if key in file[bucketName] {
        value := Some(file[bucketName][key]);
      }
      return true, value, false;
    }

    method Set(bucketName: string, key: string, value: Bytes, txOk: bool) returns (err: bool)
      requires open ==> bucketName in file
      modifies this`file
      ensures err == !(open && txOk)
      ensures View() == if err then old(View()) else Put(old(View()), bucketName, key, value)
    {
      if !open || !txOk {
        return true;
      }
      file := file[bucketName := file[bucketName][key := value]];
      return false;
    }

    method Delete(bucketName: string, key: string, txOk: bool) returns (err: bool)
      requires open ==> bucketName in file
      modifies this`file
      ensures err == !(open && txOk)
      ensures View() == if err then old(View()) else Remove(old(View()), bucketName, key)
    {
      if !open || !txOk {
        return true;
      }
      file := file[bucketName := file[bucketName] - {key}];
      return false;
    }

    method Close(bucketName: string, closeOk: bool) returns (err: bool)
      modifies this`buckets, this`open
      ensures View() == Release(old(View()), bucketName, closeOk)
      ensures err <==> old(open) && old(buckets) <= {bucketName} && !closeOk
    {
      buckets := buckets - {bucketName};
      if |buckets| != 0 {
        return false;
      }
      if !open {
        return false;
      }
      if !closeOk {
        return true;
      }
      open := false;
      return false;
    }

    method NewStore(name: string, txOk: bool) returns (store: Store?)
      modifies this`buckets, this`file
      ensures store != null <==> old(open) && BucketName(name) !in old(buckets) && txOk
      ensures store != null ==> store.db == this && store.bucketName == BucketName(name)
      ensures View() == if store != null then Register(old(View()), BucketName(name)) else old(View())
    {
      var bucket := name;
      if bucket == "" {
        bucket := DEFAULT_BUCKET;
      }
      if !open {
        return null;
      }
      if bucket in buckets {
        return null;
      }
      if !txOk {
        return null;
      }
      if bucket !in file {
        file := file[bucket := map[]];
      }
      buckets := buckets + {bucket};
      store := new Store(this, bucket);
    }
  }

  class Store {
    const db: SharedState
    const bucketName: string

    constructor (db: SharedState, bucketName: string)
      ensures this.db == db && this.bucketName == bucketName
    {
      this.db := db;
      this.bucketName := bucketName;
    }

    /** `v` is the encoded value; None when the value is nil or its codec cannot write it. */
    method Set(k: string, v: Option<Bytes>, txOk: bool) returns (r: Response)
      requires db.open ==> bucketName in db.file
      modifies db`file
      ensures r == if k != "" && v.Some? && db.open && txOk then Ok else Error
      ensures db.View() == if r == Ok then Put(old(db.View()), bucketName, k, v.value) else old(db.View())
    {
      if k == "" {
        return Error;
      }
      if v == None {
        return Error;
      }
      var err := db.Set(bucketName, k, v.value, txOk);
      return if err then Error else Ok;
    }

    method Get(k: string, txOk: bool) returns (r: Response)
      requires db.open ==> bucketName in db.file
      ensures r == Lookup(db.View(), bucketName, k, txOk)
    {
      if k == "" {
        return Error;
      }
      var found, data, err := db.Get(bucketName, k, txOk);
      if err {
        return Error;
      }
      if !found {
        return NotFound;
      }
      if data == None {
        return NotFound;
      }
      return Found(data.value);
    }

    method Delete(k: string, txOk: bool) returns (r: Response)
      requires db.open ==> bucketName in db.file
      modifies db`file
      ensures r == if k != "" && db.open && txOk then Ok else Error
      ensures db.View() == if r == Ok then Remove(old(db.View()), bucketName, k) else old(db.View())
    {
      if k == "" {
        return Error;
      }
      var err := db.Delete(bucketName, k, txOk);
      return if err then Error else Ok;
    }

    method Close(closeOk: bool) returns (err: bool)
      modifies db`buckets, db`open
      ensures db.View() == Release(old(db.View()), bucketName, closeOk)
      ensures err <==> old(db.open) && old(db.buckets) <= {bucketName} && !closeOk
    {
      err := db.Close(bucketName, closeOk);
    }
  }

  // ---------------------------------------------------------------- sequences of operations on many stores

  /** A store handed out earlier: its bucket, and whether it has not been closed. */
  datatype Handle = Handle(bucket: string, live: bool)

  datatype World = World(shared: Shared, handles: seq<Handle>)

  /** `ok` says whether the transaction, or releasing the handle, succeeds if it comes to that. */
  datatype Op =
    | NewStore(name: string, ok: bool)
    | Set(id: nat, k: string, v: Bytes, ok: bool)
    | Get(id: nat, k: string, ok: bool)
    | Delete(id: nat, k: string, ok: bool)
    | Close(id: nat, ok: bool)

  /** The handle an operation is on exists. */
  predicate OnHandle(w: World, op: Op) {
    op.NewStore? || op.id < |w.handles|
  }

  /** The buckets of all stores exist in an open file. */
  predicate Backed(w: World) {
    w.shared.open ==> forall i :: 0 <= i < |w.handles| ==> w.handles[i].bucket in w.shared.file
  }

  /** The methods above on the store with number `op.id`. */
  function Step(w: World, op: Op): (World, Response)
    requires OnHandle(w, op) && Backed(w)
  {
    match op
    case NewStore(name, ok) => (
      var bucket := BucketName(name);
      if w.shared.open && bucket !in w.shared.buckets && ok then
        (World(Register(w.shared, bucket), w.handles + [Handle(bucket, true)]), Ok)
      else (w, Error))
    case Set(id, k, v, ok) => (
      if k != "" && w.shared.open && ok then (w.(shared := Put(w.shared, w.handles[id].bucket, k, v)), Ok)
      else (w, Error))
    case Get(id, k, ok) => (w, Lookup(w.shared, w.handles[id].bucket, k, ok))
    case Delete(id, k, ok) => (
      if k != "" && w.shared.open && ok then (w.(shared := Remove(w.shared, w.handles[id].bucket, k)), Ok)
      else (w, Error))
    case Close(id, ok) =>
      (World(Release(w.shared, w.handles[id].bucket, ok), w.handles[id := w.handles[id].(live := false)]),
       if w.shared.open && w.shared.buckets <= {w.handles[id].bucket} && !ok then Error else Ok)
  }

  ghost function WorldOf(db: SharedState, stores: seq<Store>, live: seq<bool>): World
    requires |live| == |stores|
    reads db
  {
    World(db.View(), seq(|stores|, i requires 0 <= i < |stores| => Handle(stores[i].bucketName, live[i])))
  }

  /** Carry out one operation on real objects; `live` says which stores are open. */
  method Perform(db: SharedState, stores: seq<Store>, ghost live: seq<bool>, op: Op)
    returns (stores': seq<Store>, ghost live': seq<bool>, r: Response)
    requires |live| == |stores| && forall i :: 0 <= i < |stores| ==> stores[i].db == db
    requires Backed(WorldOf(db, stores, live)) && OnHandle(WorldOf(db, stores, live), op)
    modifies db
    ensures |live'| == |stores'| && forall i :: 0 <= i < |stores'| ==> stores'[i].db == db
    ensures (WorldOf(db, stores', live'), r) == Step(old(WorldOf(db, stores, live)), op)
  {
    ghost var before := WorldOf(db, stores, live);
    stores', live', r := stores, live, Ok;
    match op {
      case NewStore(name, ok) =>
        var store := db.NewStore(name, ok);
        if store == null {
          r := Error;
        } else {
          stores', live' := stores + [store], live + [true];
        }
      case Set(id, k, v, ok) =>
        assert before.handles[id].bucket == stores[id].bucketName;
        r := stores[id].Set(k, Some(v), ok);
      case Get(id, k, ok) =>
        assert before.handles[id].bucket == stores[id].bucketName;
        r := stores[id].Get(k, ok);
      case Delete(id, k, ok) =>
        assert before.handles[id].bucket == stores[id].bucketName;
        r := stores[id].Delete(k, ok);
      case Close(id, ok) =>
        assert before.handles[id].bucket == stores[id].bucketName;
        var err := stores[id].Close(ok);
        r, live' := if err then Error else Ok, live[id := false];
    }
    assert WorldOf(db, stores', live').handles == Step(before, op).0.handles;
  }

  /** Exactly the live stores' buckets are registered, each by one live store; the handle is open while any is live. */
  ghost predicate Exclusive(w: World) {
    && Backed(w)
    && (forall b :: b in w.shared.buckets <==> exists i :: 0 <= i < |w.handles| && w.handles[i] == Handle(b, true))
    && (forall i, j :: 0 <= i < j < |w.handles| && w.handles[i].live && w.handles[j].live ==>
                         w.handles[i].bucket != w.handles[j].bucket)
    && (w.shared.buckets != {} ==> w.shared.open)
  }

  // ---------------------------------------------------------------- the specification: independent maps

  /** Every store has a map of its own; `saved` holds what closed stores left behind. */
  datatype Independent = Independent(open: bool, names: seq<string>, live: seq<bool>, maps: seq<map<string, Bytes>>,
                                     saved: map<string, map<string, Bytes>>)

  predicate Alive(a: Independent, id: nat) {
    id < |a.names| == |a.live| == |a.maps| && a.live[id]
  }

  ghost predicate InUse(a: Independent, name: string) {
    exists i: nat :: Alive(a, i) && a.names[i] == name
  }

  predicate Known(a: Independent, id: nat) {
    id < |a.names| == |a.live| == |a.maps|
  }

  /** Whose map an operation on store `id` works on: its own while it is open, and after that the map of an open store
      of the same name. */
  ghost function Holder(a: Independent, id: nat): (holder: Option<nat>)
    requires Known(a, id)
    ensures holder.Some? ==> Alive(a, holder.value) && a.names[holder.value] == a.names[id]
    ensures holder == None <==> !InUse(a, a.names[id])
    ensures Alive(a, id) ==> holder == Some(id)
  {
    if Alive(a, id) then Some(id)
    else if InUse(a, a.names[id]) then
      var j: nat :| Alive(a, j) && a.names[j] == a.names[id];
      Some(j)
    else None
  }

  /** The sequence of operations so far made the stores; the next one may be anything but closing a closed store of
      whose name another store is open. */
  ghost predicate Allowed(a: Independent, op: Op) {
    op.NewStore? || (Known(a, op.id) && (op.Close? ==> Alive(a, op.id) || !InUse(a, a.names[op.id])))
  }

  /** Operations on a live store touch that store's map only. */
  ghost function OwnStep(a: Independent, op: Op): (Independent, Response)
    requires !op.NewStore? && Alive(a, op.id)
  {
    match op
    case Set(id, k, v, ok) => if k == "" || !ok then (a, Error) else (a.(maps := a.maps[id := a.maps[id][k := v]]), Ok)
    case Get(id, k, ok) => (
      if k == "" then (a, Error) else if ok && k in a.maps[id] then (a, Found(a.maps[id][k])) else (a, NotFound))
    case Delete(id, k, ok) => if k == "" || !ok then (a, Error) else (a.(maps := a.maps[id := a.maps[id] - {k}]), Ok)
    case Close(id, ok) => Closed(a.(live := a.live[id := false], saved := a.saved[a.names[id] := a.maps[id]]), ok)
  }

  /** After the last store the handle is released, unless that fails. */
  ghost function Closed(a: Independent, ok: bool): (Independent, Response) {
    var last := !exists i: nat :: Alive(a, i);
    (a.(open := a.open && !(last && ok)), if a.open && last && !ok then Error else Ok)
  }

  /** Operations on a closed store of whose name no store is open touch what was left under that name. */
  ghost function LeftStep(a: Independent, op: Op): (Independent, Response)
    requires !op.NewStore? && Known(a, op.id)
  {
    var name := a.names[op.id];
    var left := Content(a.saved, name);
    match op
    case Set(_, k, v, ok) =>
      if k == "" || !a.open || !ok then (a, Error) else (a.(saved := a.saved[name := left[k := v]]), Ok)
    case Get(_, k, ok) => (
      if k == "" || !a.open then (a, Error) else if ok && k in left then (a, Found(left[k])) else (a, NotFound))
    case Delete(_, k, ok) =>
      if k == "" || !a.open || !ok then (a, Error) else (a.(saved := a.saved[name := left - {k}]), Ok)
    case Close(_, ok) => Closed(a, ok)
  }

  /** The same operation on another store. */
  function On(op: Op, id: nat): (op': Op)
    requires !op.NewStore?
    ensures !op'.NewStore? && op'.id == id
  {
    match op
    case Set(_, k, v, ok) => Set(id, k, v, ok)
    case Get(_, k, ok) => Get(id, k, ok)
    case Delete(_, k, ok) => Delete(id, k, ok)
    case Close(_, ok) => Close(id, ok)
  }

  ghost function SpecStep(a: Independent, op: Op): (Independent, Response)
    requires Allowed(a, op)
  {
    match op
    case NewStore(name, ok) => (
      var bucket := BucketName(name);
      if a.open && !InUse(a, bucket) && ok then
        (a.(names := a.names + [bucket], live := a.live + [true],
            maps := a.maps + [Content(a.saved, bucket)]), Ok)
      else (a, Error))
    case _ => match Holder(a, op.id) case Some(j) => OwnStep(a, On(op, j)) case None => LeftStep(a, op)
  }

  ghost predicate SameHandles(w: World, a: Independent) {
    && |w.handles| == |a.names| == |a.live| == |a.maps| && w.shared.open == a.open
    && forall i :: 0 <= i < |w.handles| ==> w.handles[i] == Handle(a.names[i], a.live[i])
  }

  ghost predicate SameMaps(w: World, a: Independent)
    requires SameHandles(w, a)
  {
    forall i :: 0 <= i < |w.handles| && a.live[i] ==>
                  w.shared.open && a.names[i] in w.shared.file && w.shared.file[a.names[i]] == a.maps[i]
  }

  /** Buckets nobody has open hold what their last store left, an absent bucket being an empty one. */
  ghost predicate SameSaved(w: World, a: Independent) {
    forall b :: b !in w.shared.buckets ==> Content(w.shared.file, b) == Content(a.saved, b)
  }

  function Content(m: map<string, map<string, Bytes>>, b: string): map<string, Bytes> {
    if b in m then m[b] else map[]
  }

  ghost predicate Simulates(w: World, a: Independent) {
    Exclusive(w) && SameHandles(w, a) && SameMaps(w, a) && SameSaved(w, a)
  }

  /** Closing an open store takes its bucket, and only its bucket, off the register. */
  lemma CloseExclusive(w: World, id: nat, ok: bool)
    requires Exclusive(w) && id < |w.handles| && w.handles[id].live
    ensures Exclusive(Step(w, Close(id, ok)).0)
  {
    var w' := Step(w, Close(id, ok)).0;
    forall b
      ensures b in w'.shared.buckets <==> exists i :: 0 <= i < |w'.handles| && w'.handles[i] == Handle(b, true)
    {
      if b in w'.shared.buckets {
        var i :| 0 <= i < |w.handles| && w.handles[i] == Handle(b, true);
        assert w'.handles[i] == Handle(b, true);
      }
      if i :| 0 <= i < |w'.handles| && w'.handles[i] == Handle(b, true) {
        assert w.handles[i] == Handle(b, true);
      }
    }
  }

  /** Some store is open exactly when some bucket is registered. */
  lemma SomeoneOpen(w: World, a: Independent)
    requires Exclusive(w) && |w.handles| == |a.names| == |a.live| == |a.maps|
    requires forall i :: 0 <= i < |w.handles| ==> w.handles[i] == Handle(a.names[i], a.live[i])
    ensures w.shared.buckets != {} <==> exists i: nat :: Alive(a, i)
  {
    if b :| b in w.shared.buckets {
      var i: nat :| i < |w.handles| && w.handles[i] == Handle(b, true);
      assert Alive(a, i);
    }
    if i: nat :| Alive(a, i) {
      assert w.handles[i] == Handle(a.names[i], true);
      assert a.names[i] in w.shared.buckets;
    }
  }

  lemma CloseHandles(w: World, a: Independent, id: nat, ok: bool)
    requires Exclusive(w) && SameHandles(w, a) && Alive(a, id) && Exclusive(Step(w, Close(id, ok)).0)
    ensures SameHandles(Step(w, Close(id, ok)).0, OwnStep(a, Close(id, ok)).0)
    ensures Step(w, Close(id, ok)).1 == OwnStep(a, Close(id, ok)).1
  {
    var (w', a') := (Step(w, Close(id, ok)).0, OwnStep(a, Close(id, ok)).0);
    assert w.handles[id] == Handle(a.names[id], true);
    assert a.names[id] in w.shared.buckets;
    SomeoneOpen(w', a.(live := a.live[id := false], saved := a.saved[a.names[id] := a.maps[id]]));
  }

  lemma CloseMaps(w: World, a: Independent, id: nat, ok: bool)
    requires Simulates(w, a) && Alive(a, id)
    requires Exclusive(Step(w, Close(id, ok)).0) && SameHandles(Step(w, Close(id, ok)).0, OwnStep(a, Close(id, ok)).0)
    ensures SameMaps(Step(w, Close(id, ok)).0, OwnStep(a, Close(id, ok)).0)
  {
    var (w', a') := (Step(w, Close(id, ok)).0, OwnStep(a, Close(id, ok)).0);
    forall i | 0 <= i < |w'.handles| && a'.live[i]
      ensures w'.shared.open
    {
      assert w'.handles[i] == Handle(a'.names[i], true);
      assert a'.names[i] in w'.shared.buckets;
    }
  }

  lemma CloseSaved(w: World, a: Independent, id: nat, ok: bool)
    requires Simulates(w, a) && Alive(a, id)
    ensures SameSaved(Step(w, Close(id, ok)).0, OwnStep(a, Close(id, ok)).0)
  {
    assert w.handles[id] == Handle(a.names[id], true);
  }

  lemma CloseSimulates(w: World, a: Independent, id: nat, ok: bool)
    requires Simulates(w, a) && Alive(a, id)
    ensures Simulates(Step(w, Close(id, ok)).0, OwnStep(a, Close(id, ok)).0)
    ensures Step(w, Close(id, ok)).1 == OwnStep(a, Close(id, ok)).1
  {
    assert w.handles[id] == Handle(a.names[id], true);
    CloseExclusive(w, id, ok);
    CloseHandles(w, a, id, ok);
    CloseMaps(w, a, id, ok);
    CloseSaved(w, a, id, ok);
  }

  /** A name is refused exactly while a store of that name is open. */
  lemma InUseIsRegistered(w: World, a: Independent, bucket: string)
    requires Exclusive(w) && SameHandles(w, a)
    ensures InUse(a, bucket) <==> bucket in w.shared.buckets
  {
    if i: nat :| Alive(a, i) && a.names[i] == bucket {
      assert w.handles[i] == Handle(bucket, true);
    }
    if bucket in w.shared.buckets {
      var i: nat :| i < |w.handles| && w.handles[i] == Handle(bucket, true);
      assert Alive(a, i) && a.names[i] == bucket;
    }
  }

  lemma NewStoreExclusive(w: World, name: string, ok: bool)
    requires Exclusive(w) && w.shared.open && BucketName(name) !in w.shared.buckets && ok
    ensures Exclusive(Step(w, NewStore(name, ok)).0)
  {
    var w' := Step(w, NewStore(name, ok)).0;
    assert forall i :: 0 <= i < |w.handles| ==> w'.handles[i] == w.handles[i];
    forall b
      ensures b in w'.shared.buckets <==> exists i :: 0 <= i < |w'.handles| && w'.handles[i] == Handle(b, true)
    {
      if b in w.shared.buckets {
        var i :| 0 <= i < |w.handles| && w.handles[i] == Handle(b, true);
        assert w'.handles[i] == Handle(b, true);
      } else if b in w'.shared.buckets {
        assert w'.handles[|w.handles|] == Handle(b, true);
      }
    }
  }

  lemma NewStoreMaps(w: World, a: Independent, name: string, ok: bool)
    requires Simulates(w, a) && w.shared.open && BucketName(name) !in w.shared.buckets && !InUse(a, BucketName(name))
             && ok
    ensures SameHandles(Step(w, NewStore(name, ok)).0, SpecStep(a, NewStore(name, ok)).0)
    ensures SameMaps(Step(w, NewStore(name, ok)).0, SpecStep(a, NewStore(name, ok)).0)
    ensures SameSaved(Step(w, NewStore(name, ok)).0, SpecStep(a, NewStore(name, ok)).0)
  {
  }

  lemma NewStoreSimulates(w: World, a: Independent, name: string, ok: bool)
    requires Simulates(w, a)
    ensures Simulates(Step(w, NewStore(name, ok)).0, SpecStep(a, NewStore(name, ok)).0)
    ensures Step(w, NewStore(name, ok)).1 == SpecStep(a, NewStore(name, ok)).1
  {
    InUseIsRegistered(w, a, BucketName(name));
    if w.shared.open && BucketName(name) !in w.shared.buckets && ok {
      NewStoreExclusive(w, name, ok);
      NewStoreMaps(w, a, name, ok);
    }
  }

  /** What a live store's bucket is known to hold. */
  lemma LiveBucket(w: World, a: Independent, id: nat)
    requires Simulates(w, a) && Alive(a, id)
    ensures id < |w.handles| && w.handles[id] == Handle(a.names[id], true) && a.names[id] in w.shared.buckets
    ensures w.shared.open && a.names[id] in w.shared.file && w.shared.file[a.names[id]] == a.maps[id]
  {
    assert w.handles[id] == Handle(a.names[id], true);
  }

  lemma SetSimulates(w: World, a: Independent, id: nat, k: string, v: Bytes, ok: bool)
    requires Simulates(w, a) && Alive(a, id) && OnHandle(w, Set(id, k, v, ok))
    ensures Simulates(Step(w, Set(id, k, v, ok)).0, OwnStep(a, Set(id, k, v, ok)).0)
    ensures Step(w, Set(id, k, v, ok)).1 == OwnStep(a, Set(id, k, v, ok)).1
  {
    LiveBucket(w, a, id);
  }

  lemma DeleteSimulates(w: World, a: Independent, id: nat, k: string, ok: bool)
    requires Simulates(w, a) && Alive(a, id) && OnHandle(w, Delete(id, k, ok))
    ensures Simulates(Step(w, Delete(id, k, ok)).0, OwnStep(a, Delete(id, k, ok)).0)
    ensures Step(w, Delete(id, k, ok)).1 == OwnStep(a, Delete(id, k, ok)).1
  {
    LiveBucket(w, a, id);
  }

  /** An operation on an open store. */
  lemma OwnSimulates(w: World, a: Independent, op: Op)
    requires Simulates(w, a) && !op.NewStore? && Alive(a, op.id)
    ensures OnHandle(w, op)
    ensures Simulates(Step(w, op).0, OwnStep(a, op).0) && Step(w, op).1 == OwnStep(a, op).1
  {
    LiveBucket(w, a, op.id);
    match op
    case Close(id, ok) => CloseSimulates(w, a, id, ok);
    case Get(id, _, _) =>
    case Set(id, k, v, ok) => SetSimulates(w, a, id, k, v, ok);
    case Delete(id, k, ok) => DeleteSimulates(w, a, id, k, ok);
  }

  /** What was left under the name of a closed store is in its bucket. */
  lemma LeftBucket(w: World, a: Independent, id: nat)
    requires Simulates(w, a) && Known(a, id) && !InUse(a, a.names[id])
    ensures w.handles[id] == Handle(a.names[id], false) && a.names[id] !in w.shared.buckets
    ensures w.shared.open ==>
              a.names[id] in w.shared.file && w.shared.file[a.names[id]] == Content(a.saved, a.names[id])
  {
    InUseIsRegistered(w, a, a.names[id]);
    assert !Alive(a, id);
    assert w.shared.open ==> w.handles[id].bucket in w.shared.file;
    assert Content(w.shared.file, a.names[id]) == Content(a.saved, a.names[id]);
  }

  lemma LeftWriteSimulates(w: World, a: Independent, op: Op)
    requires Simulates(w, a) && (op.Set? || op.Delete?) && Known(a, op.id) && !InUse(a, a.names[op.id])
    ensures Simulates(Step(w, op).0, LeftStep(a, op).0) && Step(w, op).1 == LeftStep(a, op).1
  {
    LeftBucket(w, a, op.id);
    if op.k != "" && w.shared.open && op.ok {
      var (w', a') := (Step(w, op).0, LeftStep(a, op).0);
      forall i | 0 <= i < |w.handles| && a.live[i]
        ensures a.names[i] != a.names[op.id]
      {
        assert Alive(a, i);
      }
      assert SameSaved(w', a');
    }
  }

  lemma LeftCloseSimulates(w: World, a: Independent, id: nat, ok: bool)
    requires Simulates(w, a) && Known(a, id) && !InUse(a, a.names[id])
    ensures Simulates(Step(w, Close(id, ok)).0, LeftStep(a, Close(id, ok)).0)
            && Step(w, Close(id, ok)).1 == LeftStep(a, Close(id, ok)).1
  {
    LeftBucket(w, a, id);
    SomeoneOpen(w, a);
    var w' := Step(w, Close(id, ok)).0;
    assert w'.shared.buckets == w.shared.buckets;
    assert w'.handles == w.handles;
    forall i | 0 <= i < |w.handles| && a.live[i]
      ensures w'.shared.open
    {
      assert Alive(a, i);
    }
  }

  /** An operation on a closed store of whose name no store is open. */
  lemma LeftSimulates(w: World, a: Independent, op: Op)
    requires Simulates(w, a) && !op.NewStore? && Known(a, op.id) && !InUse(a, a.names[op.id])
    ensures OnHandle(w, op)
    ensures Simulates(Step(w, op).0, LeftStep(a, op).0) && Step(w, op).1 == LeftStep(a, op).1
  {
    match op
    case Close(id, ok) => LeftCloseSimulates(w, a, id, ok);
    case Get(id, _, _) => LeftBucket(w, a, id);
    case _ => LeftWriteSimulates(w, a, op);
  }

  /** One operation: same answer as the independent maps, which stay in step. */
  lemma StepSimulates(w: World, a: Independent, op: Op)
    requires Simulates(w, a) && Allowed(a, op)
    ensures OnHandle(w, op)
    ensures Simulates(Step(w, op).0, SpecStep(a, op).0) && Step(w, op).1 == SpecStep(a, op).1
  {
    if op.NewStore? {
      NewStoreSimulates(w, a, op.name, op.ok);
    } else if InUse(a, a.names[op.id]) {
      var j := Holder(a, op.id).value;
      OwnSimulates(w, a, On(op, j));
      if j != op.id {
        assert w.handles[op.id].bucket == w.handles[j].bucket;
        assert Step(w, op) == Step(w, On(op, j));
      }
    } else {
      LeftSimulates(w, a, op);
    }
  }

  /** No store is closed again after its bucket has been reopened; everything else is allowed. */
  ghost predicate Disciplined(a: Independent, ops: seq<Op>)
    decreases ops
  {
    ops == [] || (Allowed(a, ops[0]) && Disciplined(SpecStep(a, ops[0]).0, ops[1..]))
  }

  ghost function SpecResponses(a: Independent, ops: seq<Op>): seq<Response>
    requires Disciplined(a, ops)
    decreases ops
  {
    if ops == [] then [] else [SpecStep(a, ops[0]).1] + SpecResponses(SpecStep(a, ops[0]).0, ops[1..])
  }

  function Responses(w: World, ops: seq<Op>): seq<Response>
    decreases ops
  {
    if ops == [] || !OnHandle(w, ops[0]) || !Backed(w) then []
    else [Step(w, ops[0]).1] + Responses(Step(w, ops[0]).0, ops[1..])
  }

  function After(w: World, ops: seq<Op>): World
    decreases ops
  {
    if ops == [] || !OnHandle(w, ops[0]) || !Backed(w) then w else After(Step(w, ops[0]).0, ops[1..])
  }

  lemma {:induction false} RefinesFrom(w: World, a: Independent, ops: seq<Op>)
    requires Simulates(w, a) && Disciplined(a, ops)
    ensures Responses(w, ops) == SpecResponses(a, ops)
    ensures Exclusive(After(w, ops))
    decreases ops
  {
    if ops != [] {
      StepSimulates(w, a, ops[0]);
      RefinesFrom(Step(w, ops[0]).0, SpecStep(a, ops[0]).0, ops[1..]);
    }
  }

  const NEW_WORLD: World := World(Shared(true, {}, map[]), [])
  const NEW_SPEC: Independent := Independent(true, [], [], [], map[])

  /** The shared store refines independent maps: over every sequence of operations on a new database in which no store
      is closed again after its bucket has been reopened, all answers are those of one map per store, no two open
      stores share a bucket, and the handle is open while any store is. */
  lemma SharedRefinesIndependent(ops: seq<Op>)
    requires Disciplined(NEW_SPEC, ops)
    ensures Responses(NEW_WORLD, ops) == SpecResponses(NEW_SPEC, ops) && |SpecResponses(NEW_SPEC, ops)| == |ops|
    ensures Exclusive(After(NEW_WORLD, ops))
  {
    RefinesFrom(NEW_WORLD, NEW_SPEC, ops);
    OneResponseEach(NEW_SPEC, ops);
  }

  lemma {:induction false} OneResponseEach(a: Independent, ops: seq<Op>)
    requires Disciplined(a, ops)
    ensures |SpecResponses(a, ops)| == |ops|
    decreases ops
  {
    if ops != [] {
      OneResponseEach(SpecStep(a, ops[0]).0, ops[1..]);
    }
  }

  /** In the specification a store's map is changed only by operations on it, or on a closed store of the same name. */
  lemma StoresAreIndependent(a: Independent, op: Op, id: nat)
    requires Alive(a, id) && Allowed(a, op) && (op.NewStore? || op.Get? || Holder(a, op.id) != Some(id))
    ensures Alive(SpecStep(a, op).0, id) && SpecStep(a, op).0.maps[id] == a.maps[id]
  {
  }

  // ---------------------------------------------------------------- using a store after closing it

  /** The operation would change nothing in the bucket. */
  predicate Idle(w: World, op: Op)
    requires op.Set? || op.Delete?
    requires op.id < |w.handles| && Backed(w)
  {
    || op.k == "" || !w.shared.open || !op.ok
    || (op.Set? && op.k in w.shared.file[w.handles[op.id].bucket]
        && w.shared.file[w.handles[op.id].bucket][op.k] == op.v)
    || (op.Delete? && op.k !in w.shared.file[w.handles[op.id].bucket])
  }

  /** Every open store reads after the operation what it read before. */
  ghost predicate Unnoticed(w: World, op: Op)
    requires OnHandle(w, op) && Backed(w)
  {
    forall j, k :: 0 <= j < |w.handles| && w.handles[j].live ==>
                     Lookup(Step(w, op).0.shared, w.handles[j].bucket, k, true) ==
                     Lookup(w.shared, w.handles[j].bucket, k, true)
  }

  /** Writing to a closed store goes unnoticed exactly when no open store has taken its bucket, or it would change
      nothing there. */
  lemma StrayWriteUnnoticedIff(w: World, op: Op)
    requires Exclusive(w) && (op.Set? || op.Delete?) && op.id < |w.handles| && !w.handles[op.id].live
    ensures Unnoticed(w, op) <==>
            Idle(w, op) || forall j :: 0 <= j < |w.handles| ==> w.handles[j] != Handle(w.handles[op.id].bucket, true)
  {
    var bucket := w.handles[op.id].bucket;
    var w' := Step(w, op).0;
    if j :| 0 <= j < |w.handles| && w.handles[j] == Handle(bucket, true) {
      if !Idle(w, op) {
        assert Lookup(w'.shared, w.handles[j].bucket, op.k, true) != Lookup(w.shared, w.handles[j].bucket, op.k, true);
      }
    }
  }

  /** Closing keeps exclusive use of buckets exactly when the store is open, or no open store has taken its bucket. */
  lemma CloseKeepsExclusiveIff(w: World, id: nat, ok: bool)
    requires Exclusive(w) && id < |w.handles|
    ensures Exclusive(Step(w, Close(id, ok)).0) <==>
            || w.handles[id].live
            || forall j :: 0 <= j < |w.handles| ==> w.handles[j] != Handle(w.handles[id].bucket, true)
  {
    var w' := Step(w, Close(id, ok)).0;
    var bucket := w.handles[id].bucket;
    if w.handles[id].live || forall j :: 0 <= j < |w.handles| ==> w.handles[j] != Handle(bucket, true) {
      forall b
        ensures b in w'.shared.buckets <==> exists i :: 0 <= i < |w'.handles| && w'.handles[i] == Handle(b, true)
      {
        if b in w'.shared.buckets {
          var i :| 0 <= i < |w.handles| && w.handles[i] == Handle(b, true);
          assert w'.handles[i] == Handle(b, true);
        }
        if i :| 0 <= i < |w'.handles| && w'.handles[i] == Handle(b, true) {
          assert w.handles[i] == Handle(b, true);
        }
      }
    } else {
      var j :| 0 <= j < |w.handles| && w.handles[j] == Handle(bucket, true);
      assert w'.handles[j] == Handle(bucket, true);
    }
  }

  /** No two open stores share a bucket, from here to the end of the sequence. */
  ghost predicate StaysExclusive(w: World, ops: seq<Op>)
    decreases ops
  {
    Exclusive(w) && (ops == [] || (OnHandle(w, ops[0]) && StaysExclusive(Step(w, ops[0]).0, ops[1..])))
  }

  lemma {:induction false} StaysExclusiveFrom(w: World, a: Independent, ops: seq<Op>)
    requires Simulates(w, a)
    ensures StaysExclusive(w, ops) <==> Disciplined(a, ops)
    decreases ops
  {
    if ops != [] {
      if Allowed(a, ops[0]) {
        StepSimulates(w, a, ops[0]);
        StaysExclusiveFrom(Step(w, ops[0]).0, SpecStep(a, ops[0]).0, ops[1..]);
      } else if OnHandle(w, ops[0]) {
        StrayClose(w, a, ops[0]);
      }
    }
  }

  lemma StrayClose(w: World, a: Independent, op: Op)
    requires Simulates(w, a) && OnHandle(w, op) && !Allowed(a, op)
    ensures !Exclusive(Step(w, op).0)
  {
    var j: nat :| Alive(a, j) && a.names[j] == a.names[op.id];
    assert w.handles[op.id] == Handle(a.names[op.id], a.live[op.id]);
    assert w.handles[j] == Handle(a.names[op.id], true);
    CloseKeepsExclusiveIff(w, op.id, op.ok);
  }

  /** The discipline is exactly what keeps open stores apart: over a sequence of operations on a new database no two of
      them ever share a bucket if and only if no store is closed again after its bucket has been reopened. */
  lemma StaysExclusiveIff(ops: seq<Op>)
    ensures StaysExclusive(NEW_WORLD, ops) <==> Disciplined(NEW_SPEC, ops)
  {
    StaysExclusiveFrom(NEW_WORLD, NEW_SPEC, ops);
  }

  /** Closing a store twice after its bucket has been reopened lets a third store share the bucket of the second. */
  lemma DoubleCloseShares()
    ensures var w := After(NEW_WORLD, [NewStore("a", true), NewStore("b", true), Close(0, true), NewStore("a", true),
                                       Close(0, true), NewStore("a", true)]);
            |w.handles| == 4 && w.handles[2] == w.handles[3] == Handle("a", true)
  {
    var w2 := Step(Step(NEW_WORLD, NewStore("a", true)).0, NewStore("b", true)).0;
    assert w2 == World(Shared(true, {"a", "b"}, map["a" := map[], "b" := map[]]),
                       [Handle("a", true), Handle("b", true)]);
    var w3 := Step(w2, Close(0, true)).0;
    assert "b" in w3.shared.buckets && "a" !in w3.shared.buckets;
    var w4 := Step(w3, NewStore("a", true)).0;
    var w5 := Step(w4, Close(0, true)).0;
    assert "b" in w5.shared.buckets && "a" !in w5.shared.buckets;
  }
}
