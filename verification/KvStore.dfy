/** The key-value store: a table of fixed-size slots that behaves as a bounded map. */
module KvStore {
  import opened Bytes

  // ---- C strings in fixed buffers ------------------------------------------------------------

  /** The bytes before the first NUL, all of them if there is none. */
  function CStr(buffer: seq<Byte>): (s: seq<Byte>)
    ensures 0 !in s
  {
    if buffer == [] || buffer[0] == 0 then [] else [buffer[0]] + CStr(buffer[1..])
  }

  /** `strlen` stops at the first NUL. */
  lemma {:induction false} CStrPrefix(buffer: seq<Byte>)
    ensures CStr(buffer) <= buffer
    ensures |CStr(buffer)| < |buffer| ==> buffer[|CStr(buffer)|] == 0
  {
    if buffer != [] && buffer[0] != 0 {
      CStrPrefix(buffer[1..]);
    }
  }

  function Zeros(n: nat): (z: seq<Byte>)
    ensures |z| == n && forall i | 0 <= i < n :: z[i] == 0
  {
    seq(n, i => 0)
  }

  /** A string at the front of a NUL-filled buffer. */
  function Fill(s: seq<Byte>, size: nat): (b: seq<Byte>)
    requires |s| <= size
    ensures |b| == size
  {
    s + Zeros(size - |s|)
  }

  /** What `strncpy(dst, src, size - 1); dst[size - 1] = 0` leaves in a buffer of `size` bytes. */
  function StrNCpy(src: seq<Byte>, size: nat): (b: seq<Byte>)
    requires size > 0
    ensures |b| == size
  {
    if |src| < size then Fill(src, size) else src[..size - 1] + [0]
  }

  /** A NUL-free string followed by a NUL reads back as itself, whatever comes after. */
  lemma {:induction false} CStrOf(s: seq<Byte>, rest: seq<Byte>)
    requires 0 !in s && (rest == [] || rest[0] == 0)
    ensures CStr(s + rest) == s
  {
    if s == [] {
      assert s + rest == rest;
    } else {
      assert (s + rest)[1..] == s[1..] + rest;
      CStrOf(s[1..], rest);
    }
  }

  lemma CStrFill(s: seq<Byte>, size: nat)
    requires 0 !in s && |s| <= size
    ensures CStr(Fill(s, size)) == s
  {
    CStrOf(s, Zeros(size - |s|));
  }

  /** A truncated copy still reads as a string: the first size - 1 bytes. */
  lemma StrNCpyReads(src: seq<Byte>, size: nat)
    requires 0 !in src && size > 0
    ensures CStr(StrNCpy(src, size)) == if |src| < size then src else src[..size - 1]
  {
    if |src| < size {
      CStrFill(src, size);
    } else {
      CStrOf(src[..size - 1], [0]);
    }
  }

  // ---- The slot table ------------------------------------------------------------------------

  datatype Limits = Limits(items: nat, keySize: nat, valueSize: nat)

  datatype Entry = Entry(key: seq<Byte>, value: seq<Byte>, active: bool)

  function Blank(l: Limits): Entry {
    Entry(Zeros(l.keySize), Zeros(l.valueSize), false)
  }

  function Filled(l: Limits, key: seq<Byte>, value: seq<Byte>): Entry
    requires |key| < l.keySize && |value| < l.valueSize
  {
    Entry(Fill(key, l.keySize), Fill(value, l.valueSize), true)
  }

  /** An inactive slot is zeroed; an active one holds a non-empty key and a value, NUL-padded. */
  predicate SlotOk(l: Limits, e: Entry) {
    if e.active then
      var key, value := CStr(e.key), CStr(e.value);
      0 < |key| < l.keySize && |value| < l.valueSize && e == Filled(l, key, value)
    else e == Blank(l)
  }

  predicate Holds(e: Entry, key: seq<Byte>) {
    e.active && CStr(e.key) == key
  }

  /** Slots are well-formed and no key is in two of them. */
  ghost predicate TableOk(l: Limits, db: seq<Entry>) {
    && (forall i | 0 <= i < |db| :: SlotOk(l, db[i]))
    && (forall i, j | 0 <= i < j < |db| && db[i].active && db[j].active :: CStr(db[i].key) != CStr(db[j].key))
  }

  type Table = map<seq<Byte>, seq<Byte>>

  /** The map the active slots stand for. */
  function ToMap(db: seq<Entry>): Table {
    if db == [] then map[]
    else
      var n := |db| - 1;
      if db[n].active then ToMap(db[..n])[CStr(db[n].key) := CStr(db[n].value)] else ToMap(db[..n])
  }

  lemma {:induction false} MapHas(l: Limits, db: seq<Entry>, i: nat)
    requires TableOk(l, db) && i < |db| && db[i].active
    ensures CStr(db[i].key) in ToMap(db) && ToMap(db)[CStr(db[i].key)] == CStr(db[i].value)
  {
    var n := |db| - 1;
    if i < n {
      MapHas(l, db[..n], i);
    }
  }

  lemma {:induction false} MapOnly(l: Limits, db: seq<Entry>, key: seq<Byte>) returns (i: nat)
    requires TableOk(l, db) && key in ToMap(db)
    ensures i < |db| && Holds(db[i], key)
  {
    var n := |db| - 1;
    if Holds(db[n], key) {
      i := n;
    } else {
      i := MapOnly(l, db[..n], key);
    }
  }

  lemma LastKeyNew(l: Limits, db: seq<Entry>)
    requires TableOk(l, db) && db != [] && db[|db| - 1].active
    ensures CStr(db[|db| - 1].key) !in ToMap(db[..|db| - 1])
  {
    var n := |db| - 1;
    if CStr(db[n].key) in ToMap(db[..n]) {
      var i := MapOnly(l, db[..n], CStr(db[n].key));
    }
  }

  /** The map has as many keys as there are active slots, so it is full when no slot is free. */
  lemma {:induction false} MapSize(l: Limits, db: seq<Entry>)
    requires TableOk(l, db)
    ensures |ToMap(db)| <= |db|
    ensures |ToMap(db)| == |db| <==> forall i | 0 <= i < |db| :: db[i].active
  {
    if db != [] {
      var n := |db| - 1;
      MapSize(l, db[..n]);
      if db[n].active {
        LastKeyNew(l, db);
      }
      assert forall i | 0 <= i < n :: db[..n][i].active <==> db[i].active;
    }
  }

  lemma MapAbsent(l: Limits, db: seq<Entry>, key: seq<Byte>)
    requires TableOk(l, db)
    ensures key !in ToMap(db) <==> forall i | 0 <= i < |db| :: !Holds(db[i], key)
  {
    if key in ToMap(db) {
      var i := MapOnly(l, db, key);
    }
    forall i | 0 <= i < |db| && Holds(db[i], key)
      ensures key in ToMap(db)
    {
      MapHas(l, db, i);
    }
  }

  /** The slot's pair, if it has one, is in the map. */
  predicate PairIn(e: Entry, m: Table) {
    e.active ==> CStr(e.key) in m && m[CStr(e.key)] == CStr(e.value)
  }

  predicate SomeSlotHolds(db: seq<Entry>, key: seq<Byte>) {
    exists i :: 0 <= i < |db| && Holds(db[i], key)
  }

  lemma MapWithin(l: Limits, db: seq<Entry>, m: Table, key: seq<Byte>)
    requires TableOk(l, db) && key in ToMap(db)
    requires forall i | 0 <= i < |db| :: PairIn(db[i], m)
    ensures key in m && m[key] == ToMap(db)[key]
  {
    var i := MapOnly(l, db, key);
    MapHas(l, db, i);
  }

  lemma MapReaches(l: Limits, db: seq<Entry>, key: seq<Byte>)
    requires TableOk(l, db) && SomeSlotHolds(db, key)
    ensures key in ToMap(db)
  {
    var i :| 0 <= i < |db| && Holds(db[i], key);
    MapHas(l, db, i);
  }

  lemma MapBelow(l: Limits, db: seq<Entry>, m: Table)
    requires TableOk(l, db) && (forall i | 0 <= i < |db| :: PairIn(db[i], m))
    ensures forall key | key in ToMap(db) :: key in m && m[key] == ToMap(db)[key]
  {
    forall key | key in ToMap(db)
      ensures key in m && m[key] == ToMap(db)[key]
    {
      MapWithin(l, db, m, key);
    }
  }

  lemma MapAbove(l: Limits, db: seq<Entry>, m: Table)
    requires TableOk(l, db) && (forall key | key in m :: SomeSlotHolds(db, key))
    ensures forall key | key in m :: key in ToMap(db)
  {
    forall key | key in m
      ensures key in ToMap(db)
    {
      MapReaches(l, db, key);
    }
  }

  /** A table whose slots hold exactly the pairs of a map stands for that map. */
  lemma SameMap(l: Limits, db: seq<Entry>, m: Table)
    requires TableOk(l, db)
    requires forall i | 0 <= i < |db| :: PairIn(db[i], m)
    requires forall key | key in m :: SomeSlotHolds(db, key)
    ensures ToMap(db) == m
  {
    MapBelow(l, db, m);
    MapAbove(l, db, m);
  }

  lemma FilledOk(l: Limits, key: seq<Byte>, value: seq<Byte>)
    requires 0 < |key| < l.keySize && |value| < l.valueSize && 0 !in key && 0 !in value
    ensures SlotOk(l, Filled(l, key, value)) && Holds(Filled(l, key, value), key)
    ensures CStr(Filled(l, key, value).value) == value
  {
    CStrFill(key, l.keySize);
    CStrFill(value, l.valueSize);
  }

  /** Writing a slot that is free or already holds the key is a map update. */
  lemma WriteSlot(l: Limits, db: seq<Entry>, i: nat, key: seq<Byte>, value: seq<Byte>)
    requires TableOk(l, db) && i < |db|
    requires 0 < |key| < l.keySize && |value| < l.valueSize && 0 !in key && 0 !in value
    requires Holds(db[i], key) || (!db[i].active && key !in ToMap(db))
    ensures TableOk(l, db[i := Filled(l, key, value)])
    ensures ToMap(db[i := Filled(l, key, value)]) == ToMap(db)[key := value]
  {
    var after := db[i := Filled(l, key, value)];
    FilledOk(l, key, value);
    MapAbsent(l, db, key);
    forall j | 0 <= j < |db| && j != i
      ensures !Holds(db[j], key)
    {
    }
    var target := ToMap(db)[key := value];
    forall j | 0 <= j < |db|
      ensures PairIn(after[j], target)
    {
      if j != i && after[j].active {
        MapHas(l, db, j);
      }
    }
    forall k | k in target
      ensures SomeSlotHolds(after, k)
    {
      if k == key {
        assert Holds(after[i], k);
      } else {
        var j := MapOnly(l, db, k);
        assert Holds(after[j], k);
      }
    }
    SameMap(l, after, target);
  }

  /** Zeroing the slot that holds a key removes it from the map. */
  lemma ClearSlot(l: Limits, db: seq<Entry>, i: nat, key: seq<Byte>)
    requires TableOk(l, db) && i < |db| && Holds(db[i], key)
    ensures TableOk(l, db[i := Blank(l)])
    ensures ToMap(db[i := Blank(l)]) == ToMap(db) - {key}
  {
    var after := db[i := Blank(l)];
    var target := ToMap(db) - {key};
    forall j | 0 <= j < |db|
      ensures PairIn(after[j], target)
    {
      if after[j].active {
        MapHas(l, db, j);
      }
    }
    forall k | k in target
      ensures SomeSlotHolds(after, k)
    {
      var j := MapOnly(l, db, k);
      assert Holds(after[j], k);
    }
    SameMap(l, after, target);
  }

  // ---- Operations on the map -----------------------------------------------------------------

  predicate Acceptable(l: Limits, key: seq<Byte>, value: seq<Byte>) {
    0 < |key| < l.keySize && |value| < l.valueSize
  }

  /** `kv_store_set` succeeds for acceptable strings unless a new key finds the map full. */
  predicate SetSucceeds(l: Limits, m: Table, key: seq<Byte>, value: seq<Byte>) {
    Acceptable(l, key, value) && (key in m || |m| < l.items)
  }

  function SetMap(l: Limits, m: Table, key: seq<Byte>, value: seq<Byte>): Table {
    if SetSucceeds(l, m, key, value) then m[key := value] else m
  }

  /** The static table `db` and the functions over it. */
  class Store {
    const l: Limits
    const db: array<Entry>

    /** `kv_store_init` on a fresh table. */
    constructor (l: Limits)
      ensures this.l == l && fresh(db) && Valid() && Map() == map[]
    {
      this.l := l;
      db := new Entry[l.items](i => Blank(l));
      new;
      SameMap(l, db[..], map[]);
    }

    ghost predicate Valid()
      reads this, db
    {
      db.Length == l.items && TableOk(l, db[..])
    }

    ghost function Map(): Table
      reads this, db
    {
      ToMap(db[..])
    }

    /** The search loop of all three operations: the slot that holds the key, or the table size. */
    method Find(key: seq<Byte>) returns (i: nat)
      requires Valid()
      ensures i <= db.Length
      ensures i < db.Length ==> Holds(db[i], key) && key in Map() && Map()[key] == CStr(db[i].value)
      ensures i == db.Length ==> key !in Map()
    {
      i := 0;
      while i < db.Length
        invariant 0 <= i <= db.Length
        invariant forall j | 0 <= j < i :: !Holds(db[j], key)
      {
        if db[i].active && CStr(db[i].key) == key {
          MapHas(l, db[..], i);
          return;
        }
        i := i + 1;
      }
      MapAbsent(l, db[..], key);
    }

    /** The search for a free slot: the first inactive slot, or the table size when the map is full. */
    method FindFree() returns (i: nat)
      requires Valid()
      ensures i <= db.Length
      ensures i < db.Length ==> !db[i].active && |Map()| < l.items
      ensures i == db.Length ==> |Map()| == l.items
      ensures forall j | 0 <= j < i :: db[j].active
    {
      MapSize(l, db[..]);
      i := 0;
      while i < db.Length
        invariant 0 <= i <= db.Length
        invariant forall j | 0 <= j < i :: db[j].active
      {
        if !db[i].active {
          assert !db[..][i].active;
          return;
        }
        i := i + 1;
      }
    }

    method Set(key: seq<Byte>, value: seq<Byte>) returns (rc: int)
      requires Valid() && 0 !in key && 0 !in value
      modifies db
      ensures Valid()
      ensures rc == if SetSucceeds(l, old(Map()), key, value) then 0 else -1
      ensures Map() == SetMap(l, old(Map()), key, value)
      ensures rc == 0 <==> 0 < |key| < l.keySize && |value| < l.valueSize
                           && (key in old(Map()) || |old(Map())| < l.items)
      ensures Map() == if rc == 0 then old(Map())[key := value] else old(Map())
    {
      if |key| == 0 || |key| >= l.keySize || |value| >= l.valueSize {
        return -1;
      }
      ghost var before := db[..];
      var i := Find(key);
      if i < db.Length {
        WriteSlot(l, before, i, key, value);
        db[i] := db[i].(value := StrNCpy(value, l.valueSize));
        assert db[..] == before[i := Filled(l, key, value)];
        return 0;
      }
      i := FindFree();
      if i < db.Length {
        WriteSlot(l, before, i, key, value);
        db[i] := Entry(StrNCpy(key, l.keySize), StrNCpy(value, l.valueSize), true);
        assert db[..] == before[i := Filled(l, key, value)];
        return 0;
      }
      return -1;
    }

    /** `kv_store_get` into a caller's buffer of at least `maxLen` bytes; a short buffer truncates. */
    method Get(key: seq<Byte>, valueOut: array<Byte>, maxLen: nat) returns (rc: int)
      requires Valid() && 0 < maxLen <= valueOut.Length
      modifies valueOut
      ensures rc == if key in Map() then 0 else -1
      ensures valueOut[..] == if key in Map() then StrNCpy(Map()[key], maxLen) + old(valueOut[maxLen..])
                              else old(valueOut[..])
    {
      var i := Find(key);
      if i == db.Length {
        return -1;
      }
      var copy := StrNCpy(CStr(db[i].value), maxLen);
      forall k | 0 <= k < maxLen {
        valueOut[k] := copy[k];
      }
      assert valueOut[..] == copy + old(valueOut[maxLen..]);
      return 0;
    }

    method Del(key: seq<Byte>) returns (rc: int)
      requires Valid()
      modifies db
      ensures Valid()
      ensures rc == if key in old(Map()) then 0 else -1
      ensures Map() == old(Map()) - {key}
    {
      ghost var before := db[..];
      var i := Find(key);
      if i == db.Length {
        assert Map() - {key} == Map();
        return -1;
      }
      ClearSlot(l, before, i, key);
      db[i] := Entry(Zeros(l.keySize), Zeros(l.valueSize), false);
      assert db[..] == before[i := Blank(l)];
      return 0;
    }
  }

  /** With the full value size a stored value is returned whole. */
  lemma FullBufferReadsBack(l: Limits, value: seq<Byte>)
    requires 0 !in value && |value| < l.valueSize
    ensures CStr(StrNCpy(value, l.valueSize)) == value
  {
    CStrFill(value, l.valueSize);
  }

  /** Stored values are NUL-free and short enough for one answer. */
  ghost predicate Stored(l: Limits, m: Table) {
    forall key | key in m :: 0 !in m[key] && |m[key]| < l.valueSize
  }

  lemma StoredMap(l: Limits, db: seq<Entry>)
    requires TableOk(l, db)
    ensures Stored(l, ToMap(db))
  {
    forall key | key in ToMap(db)
      ensures 0 !in ToMap(db)[key] && |ToMap(db)[key]| < l.valueSize
    {
      var i := MapOnly(l, db, key);
      MapHas(l, db, i);
    }
  }

  // ---- Operation sequences -------------------------------------------------------------------

  datatype Op = SetOp(key: seq<Byte>, value: seq<Byte>) | DelOp(key: seq<Byte>)

  function Do(l: Limits, m: Table, op: Op): Table {
    match op
    case SetOp(key, value) => SetMap(l, m, key, value)
    case DelOp(key) => m - {key}
  }

  /** The map after the first n operations on an empty store. */
  function History(l: Limits, ops: seq<Op>, n: nat): Table
    requires n <= |ops|
  {
    if n == 0 then map[] else Do(l, History(l, ops, n - 1), ops[n - 1])
  }

  /** Operation i succeeded in setting or deleting this key. */
  predicate Writes(l: Limits, ops: seq<Op>, i: nat, key: seq<Byte>)
    requires i < |ops|
  {
    ops[i].key == key &&
    match ops[i]
    case SetOp(_, value) => SetSucceeds(l, History(l, ops, i), key, value)
    case DelOp(_) => true
  }

  datatype Lookup = Missing | Present(value: seq<Byte>)

  function Get(m: Table, key: seq<Byte>): Lookup {
    if key in m then Present(m[key]) else Missing
  }

  /** What the latest of the first n operations that wrote the key left behind. */
  function LastWrite(l: Limits, ops: seq<Op>, n: nat, key: seq<Byte>): Lookup
    requires n <= |ops|
  {
    if n == 0 then Missing
    else if !Writes(l, ops, n - 1, key) then LastWrite(l, ops, n - 1, key)
    else
      match ops[n - 1]
      case SetOp(_, value) => Present(value)
      case DelOp(_) => Missing
  }

  /** A lookup returns exactly the value of the last successful set since any delete. */
  lemma {:induction false} LookupIsLastWrite(l: Limits, ops: seq<Op>, n: nat, key: seq<Byte>)
    requires n <= |ops|
    ensures Get(History(l, ops, n), key) == LastWrite(l, ops, n, key)
  {
    if n > 0 {
      LookupIsLastWrite(l, ops, n - 1, key);
    }
  }

  predicate MapOk(l: Limits, m: Table) {
    |m| <= l.items && forall key | key in m :: Acceptable(l, key, m[key])
  }

  lemma SetBounded(l: Limits, m: Table, key: seq<Byte>, value: seq<Byte>)
    requires MapOk(l, m)
    ensures MapOk(l, SetMap(l, m, key, value))
  {
    if key in m {
      assert m[key := value].Keys == m.Keys;
      assert |m[key := value]| == |m[key := value].Keys| == |m.Keys| == |m|;
    }
  }

  lemma DelBounded(l: Limits, m: Table, key: seq<Byte>)
    requires MapOk(l, m)
    ensures MapOk(l, m - {key})
  {
    if key in m {
      assert m == (m - {key})[key := m[key]];
    } else {
      assert m - {key} == m;
    }
  }

  /** In every history the map stays within its size and holds only acceptable pairs. */
  lemma {:induction false} HistoryBounded(l: Limits, ops: seq<Op>, n: nat)
    requires n <= |ops|
    ensures MapOk(l, History(l, ops, n))
  {
    if n > 0 {
      HistoryBounded(l, ops, n - 1);
      match ops[n - 1]
      case SetOp(key, value) => SetBounded(l, History(l, ops, n - 1), key, value);
      case DelOp(key) => DelBounded(l, History(l, ops, n - 1), key);
    }
  }

  /** So does the map of every table. */
  lemma TableMapOk(l: Limits, db: seq<Entry>)
    requires TableOk(l, db) && |db| == l.items
    ensures MapOk(l, ToMap(db))
  {
    MapSize(l, db);
    forall key | key in ToMap(db)
      ensures Acceptable(l, key, ToMap(db)[key])
    {
      var i := MapOnly(l, db, key);
      MapHas(l, db, i);
    }
  }

  /** Runs a list of operations on a table that starts empty. */
  method RunOps(store: Store, ops: seq<Op>)
    requires store.Valid() && store.Map() == map[]
    requires forall op | op in ops :: 0 !in op.key && (op.SetOp? ==> 0 !in op.value)
    modifies store.db
    ensures store.Valid() && store.Map() == History(store.l, ops, |ops|)
  {
    for i := 0 to |ops|
      invariant store.Valid() && store.Map() == History(store.l, ops, i)
    {
      match ops[i] {
        case SetOp(key, value) =>
          assert ops[i] in ops;
          var rc := store.Set(key, value);
        case DelOp(key) =>
          var rc := store.Del(key);
      }
    }
  }

  /** `kv_store_get` with a buffer for a whole value. */
  method LookUp(store: Store, key: seq<Byte>) returns (r: Lookup)
    requires store.Valid() && store.l.valueSize > 0
    ensures r == Get(store.Map(), key)
  {
    var valueOut := new Byte[store.l.valueSize](i => 0);
    StoredMap(store.l, store.db[..]);
    var rc := store.Get(key, valueOut, store.l.valueSize);
    if rc != 0 {
      return Missing;
    }
    ghost var value := store.Map()[key];
    assert valueOut[..] == StrNCpy(value, store.l.valueSize);
    FullBufferReadsBack(store.l, value);
    return Present(CStr(valueOut[..]));
  }

  /** After any list of operations the table answers a lookup with the last value set since any delete. */
  method RunAndLookUp(store: Store, ops: seq<Op>, key: seq<Byte>) returns (r: Lookup)
    requires store.Valid() && store.Map() == map[] && store.l.valueSize > 0
    requires forall op | op in ops :: 0 !in op.key && (op.SetOp? ==> 0 !in op.value)
    modifies store.db
    ensures store.Valid() && r == LastWrite(store.l, ops, |ops|, key)
    ensures MapOk(store.l, store.Map())
  {
    RunOps(store, ops);
    LookupIsLastWrite(store.l, ops, |ops|, key);
    HistoryBounded(store.l, ops, |ops|);
    r := LookUp(store, key);
  }
}
