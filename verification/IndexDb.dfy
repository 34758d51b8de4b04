/** The indexed transaction store with its lookaside cache (database/indexdb.go,
    database/ctx_list.go). */
module IndexDb {
  import opened Options
  import opened Transactions
  import opened Words

  /** The stored form, with primary key and price. */
  datatype Row = Row(
    pk: nat, ctxId: Hash, txHash: Hash, blockHash: Hash, value: int, charge: int, from: string, to: string,
    origin: uint8, purpose: uint8, payload: seq<uint8>, price: real, v: int, r: int, s: int)

  function Price(tx: CrossTransaction): real {
    if tx.value == 0 then 0xFFFF_FFFF_FFFF_FFFF as real else tx.charge as real / tx.value as real
  }

  function NewIndexed(tx: CrossTransaction): Row {
    Row(0, tx.ctxId, tx.txHash, tx.blockHash, tx.value, tx.charge, tx.from, tx.to, tx.origin, tx.purpose,
        tx.payload, Price(tx), tx.v, tx.r, tx.s)
  }

  function ToCross(row: Row): CrossTransaction {
    CrossTransaction(row.ctxId, row.txHash, row.blockHash, row.value, row.charge, row.from, row.to, row.origin,
                     row.purpose, row.payload, row.v, row.r, row.s)
  }

  // ---------- The table, as the storage library keeps it ----------

  /** Rows by primary key, the unique index on CtxId, and the next key. */
  datatype Table = Table(rows: map<nat, Row>, index: map<Hash, nat>, next: nat)

  const EMPTY := Table(map[], map[], 1)

  ghost predicate WellFormed(t: Table) {
    && t.next > 0
    && (forall k | k in t.rows :: 0 < k < t.next && t.rows[k].pk == k)
    && (forall k | k in t.rows :: t.rows[k].ctxId in t.index && t.index[t.rows[k].ctxId] == k)
    && (forall id | id in t.index :: t.index[id] in t.rows && t.rows[t.index[id]].ctxId == id)
  }

  function One(t: Table, id: Hash): Option<Row> {
    if id in t.index && t.index[id] in t.rows then Some(t.rows[t.index[id]]) else None
  }

  /** Lookup on the plain index of another field: the first match by key. */
  function OneByTxHash(t: Table, h: Hash, from: nat): Option<Row>
    decreases t.next - from
  {
    if from >= t.next then None
    else if from in t.rows && t.rows[from].txHash == h then Some(t.rows[from])
    else OneByTxHash(t, h, from + 1)
  }

  /** Save of a row without key: fails if the CtxId is taken. */
  function Save(t: Table, row: Row): Option<Table> {
    if row.ctxId in t.index then None
    else Some(Table(t.rows[t.next := row.(pk := t.next)], t.index[row.ctxId := t.next], t.next + 1))
  }

  /** Update replaces the row with the same key: fails if there is none, or if
      another row has the CtxId. */
  function Update(t: Table, row: Row): Option<Table> {
    if row.pk == 0 || row.pk !in t.rows then None
    else if row.ctxId in t.index && t.index[row.ctxId] != row.pk then None
    else Some(t.(rows := t.rows[row.pk := row],
                 index := (t.index - {t.rows[row.pk].ctxId})[row.ctxId := row.pk]))
  }

  function Delete(t: Table, row: Row): Table {
    t.(rows := t.rows - {row.pk}, index := t.index - {row.ctxId})
  }

  // ---------- The cache ----------

  datatype Field = CtxIdIndex | TxHashIndex

  datatype CacheKey = CacheKey(field: Field, value: Hash)

  type Cache = map<CacheKey, Row>

  function ById(id: Hash): CacheKey {
    CacheKey(CtxIdIndex, id)
  }

  /** Every entry under a CtxId decodes to the stored row with that CtxId. */
  ghost predicate Coherent(t: Table, c: Cache) {
    forall id :: ById(id) in c ==> One(t, id).Some? && ToCross(c[ById(id)]) == ToCross(One(t, id).value)
  }

  // ---------- Operations ----------

  datatype Store = Store(table: Table, cache: Cache, cached: bool)

  function Forget(st: Store, keys: set<CacheKey>): Store {
    if st.cached then st.(cache := st.cache - keys) else st
  }

  function Remember(st: Store, key: CacheKey, row: Row): Store {
    if st.cached then st.(cache := st.cache[key := row]) else st
  }

  /** One turn of the loop of Writes, on the table of the transaction; None is an
      error of the table. The second removal names the transaction hash under the
      index of CtxId. */
  function WriteOne(st: Store, tx: CrossTransaction, canReplace: bool): Option<Store> {
    var forgotten := Forget(st, {ById(tx.ctxId), ById(tx.txHash)});
    match One(st.table, tx.ctxId)
    case None =>
      (match Save(st.table, NewIndexed(tx))
       case None => None
       case Some(t) => Some(forgotten.(table := t)))
    case Some(prev) =>
      if !canReplace then Some(st)
      else match Update(st.table, NewIndexed(tx).(pk := prev.pk))
        case None => None
        case Some(t) => Some(forgotten.(table := t))
  }

  function WriteLoop(st: Store, list: seq<CrossTransaction>, canReplace: bool): (Store, bool)
    decreases |list|
  {
    if list == [] then (st, true)
    else match WriteOne(st, list[0], canReplace)
      case None => (st, false)
      case Some(st1) => WriteLoop(st1, list[1..], canReplace)
  }

  /** The end of a transaction: on an error the table rolls back; what was taken
      out of the cache stays out. */
  function Finished(st: Store, r: (Store, bool)): (Store, bool) {
    (if r.1 then r.0 else r.0.(table := st.table), r.1)
  }

  function DoWrites(st: Store, list: seq<CrossTransaction>, canReplace: bool): (Store, bool) {
    Finished(st, WriteLoop(st, list, canReplace))
  }

  function DoWrite(st: Store, tx: CrossTransaction): (Store, bool) {
    var (st', ok) := DoWrites(st, [tx], true);
    (if ok then Remember(st', ById(tx.ctxId), NewIndexed(tx)) else st', ok)
  }

  /** The result of Read without a cache. */
  function Lookup(t: Table, id: Hash): Option<CrossTransaction> {
    match One(t, id)
    case None => None
    case Some(row) => Some(ToCross(row))
  }

  function DoRead(st: Store, id: Hash): (Store, Option<CrossTransaction>) {
    if st.cached && ById(id) in st.cache then (st, Some(ToCross(st.cache[ById(id)])))
    else match One(st.table, id)
      case None => (st, None)
      case Some(row) => (Remember(st, ById(id), row), Some(ToCross(row)))
  }

  function DoOneByTxHash(st: Store, h: Hash): (Store, Option<CrossTransaction>) {
    var key := CacheKey(TxHashIndex, h);
    if st.cached && key in st.cache then (st, Some(ToCross(st.cache[key])))
    else match OneByTxHash(st.table, h, 1)
      case None => (st, None)
      case Some(row) => (Remember(st, key, row), Some(ToCross(row)))
  }

  type Updater = Row -> Row

  /** The loop of Updates on the table of the transaction. */
  function UpdateLoop(st: Store, ids: seq<Hash>, fs: seq<Updater>): (Store, bool)
    requires |ids| == |fs|
    decreases |ids|
  {
    if ids == [] then (st, true)
    else match One(st.table, ids[0])
      case None => (st, false)
      case Some(row) =>
        var row' := fs[0](row);
        match Update(st.table, row')
        case None => (st, false)
        case Some(t) =>
          UpdateLoop(Forget(st, {ById(ids[0]), CacheKey(TxHashIndex, row'.txHash)}).(table := t), ids[1..], fs[1..])
  }

  function DoUpdates(st: Store, ids: seq<Hash>, fs: seq<Updater>): (Store, bool) {
    if |ids| != |fs| then (st, false) else Finished(st, UpdateLoop(st, ids, fs))
  }

  function DeleteOne(st: Store, id: Hash): Store {
    match One(st.table, id)
    case None => st
    case Some(row) =>
      Forget(st, {ById(id), CacheKey(TxHashIndex, row.txHash)}).(table := Delete(st.table, row))
  }

  function DoDeletes(st: Store, ids: seq<Hash>): Store
    decreases |ids|
  {
    if ids == [] then st else DoDeletes(DeleteOne(st, ids[0]), ids[1..])
  }

  /** The replacement policy may drop any entries at any time. */
  function DoEvict(st: Store, lost: set<CacheKey>): Store {
    st.(cache := st.cache - lost)
  }

  // ---------- Invariants ----------

  ghost predicate Valid(st: Store) {
    WellFormed(st.table) && (st.cached ==> Coherent(st.table, st.cache))
  }

  /** Storing and reading back a transaction gives the same transaction, and the
      fields that rows are found by are its own. */
  lemma IndexedRoundTrip(tx: CrossTransaction, k: nat)
    ensures ToCross(NewIndexed(tx).(pk := k)) == tx
    ensures var row := NewIndexed(tx);
            && row.ctxId == tx.ctxId && row.txHash == tx.txHash && row.from == tx.from && row.to == tx.to
            && row.charge == tx.charge && row.value == tx.value && row.origin == tx.origin && row.purpose == tx.purpose
  {
  }

  /** Stored prices order transactions by the ratio of charge to value. */
  lemma PriceComparesRatios(a: CrossTransaction, b: CrossTransaction)
    requires a.value > 0 && b.value > 0
    ensures NewIndexed(a).price <= NewIndexed(b).price <==> a.charge * b.value <= b.charge * a.value
  {
    var x, y, m, n := a.charge as real, b.charge as real, a.value as real, b.value as real;
    RatiosCompare(x, m, y, n);
    assert (a.charge * b.value) as real == x * n && (b.charge * a.value) as real == y * m;
  }

  lemma RatiosCompare(x: real, m: real, y: real, n: real)
    requires m > 0.0 && n > 0.0
    ensures x / m <= y / n <==> x * n <= y * m
  {
    var p, q := x / m, y / n;
    assert x == p * m && y == q * n;
    assert x * n == p * (m * n) && y * m == q * (m * n);
    assert m * n > 0.0;
    if p <= q { assert p * (m * n) <= q * (m * n); } else { assert p * (m * n) > q * (m * n); }
  }

  /** A transaction without value has the highest price of all whose price fits in
      64 bits. */
  lemma NoValueIsDearest(a: CrossTransaction, b: CrossTransaction)
    requires a.value == 0 && b.value > 0
    ensures NewIndexed(b).price <= NewIndexed(a).price <==> b.charge <= (U64 - 1) * b.value
  {
    RatiosCompare(b.charge as real, b.value as real, (U64 - 1) as real, 1.0);
    assert ((U64 - 1) * b.value) as real == (U64 - 1) as real * (b.value as real);
  }

  lemma SaveKeeps(t: Table, row: Row)
    requires WellFormed(t) && Save(t, row).Some?
    ensures WellFormed(Save(t, row).value)
    ensures forall id :: One(Save(t, row).value, id) == if id == row.ctxId then Some(row.(pk := t.next)) else One(t, id)
  {
  }

  lemma UpdateKeeps(t: Table, row: Row)
    requires WellFormed(t) && Update(t, row).Some?
    ensures WellFormed(Update(t, row).value)
    ensures forall id :: One(Update(t, row).value, id) ==
              if id == row.ctxId then Some(row) else if id == t.rows[row.pk].ctxId then None else One(t, id)
  {
  }

  lemma DeleteKeeps(t: Table, row: Row)
    requires WellFormed(t) && One(t, row.ctxId) == Some(row)
    ensures WellFormed(Delete(t, row))
    ensures forall id :: One(Delete(t, row), id) == if id == row.ctxId then None else One(t, id)
  {
  }

  /** What a write does to the table: it inserts, replaces under the same key, or
      leaves the row alone; no other row is affected, and it does not fail. */
  lemma WriteOneEffect(st: Store, tx: CrossTransaction, canReplace: bool)
    requires WellFormed(st.table)
    ensures WriteOne(st, tx, canReplace).Some?
    ensures var t := WriteOne(st, tx, canReplace).value.table;
            && WellFormed(t)
            && (forall id :: id != tx.ctxId ==> One(t, id) == One(st.table, id))
            && One(t, tx.ctxId).Some?
            && (One(st.table, tx.ctxId).None? || canReplace ==> ToCross(One(t, tx.ctxId).value) == tx)
            && (One(st.table, tx.ctxId).Some? && !canReplace ==> One(t, tx.ctxId) == One(st.table, tx.ctxId))
            && (One(st.table, tx.ctxId).Some? ==> One(t, tx.ctxId).value.pk == One(st.table, tx.ctxId).value.pk)
  {
    match One(st.table, tx.ctxId)
    case None => SaveKeeps(st.table, NewIndexed(tx));
    case Some(prev) =>
      if canReplace { UpdateKeeps(st.table, NewIndexed(tx).(pk := prev.pk)); }
  }

  lemma WriteOneKeeps(st: Store, tx: CrossTransaction, canReplace: bool)
    requires Valid(st)
    ensures var r := WriteOne(st, tx, canReplace); r.Some? && Valid(r.value) && r.value.cached == st.cached
  {
    WriteOneEffect(st, tx, canReplace);
    var st' := WriteOne(st, tx, canReplace).value;
    if st.cached {
      forall id | ById(id) in st'.cache
        ensures One(st'.table, id).Some? && ToCross(st'.cache[ById(id)]) == ToCross(One(st'.table, id).value)
      {
        assert ById(id) in st.cache;
      }
    }
  }

  lemma {:induction false} WritesKeep(st: Store, list: seq<CrossTransaction>, canReplace: bool)
    requires Valid(st)
    ensures var (st', ok) := WriteLoop(st, list, canReplace);
            ok && Valid(st') && st'.cached == st.cached && DoWrites(st, list, canReplace) == (st', true)
    decreases |list|
  {
    if list != [] {
      WriteOneKeeps(st, list[0], canReplace);
      hide Valid, WriteOne;
      WritesKeep(WriteOne(st, list[0], canReplace).value, list[1..], canReplace);
    }
  }

  /** The last transaction of a list with the given identifier. */
  function LastOf(list: seq<CrossTransaction>, id: Hash): Option<CrossTransaction> {
    if list == [] then None
    else match LastOf(list[1..], id)
      case Some(tx) => Some(tx)
      case None => if list[0].ctxId == id then Some(list[0]) else None
  }

  function FirstOf(list: seq<CrossTransaction>, id: Hash): Option<CrossTransaction> {
    if list == [] then None else if list[0].ctxId == id then Some(list[0]) else FirstOf(list[1..], id)
  }

  /** Writes succeeds, and then a lookup gives the last written transaction if rows
      may be replaced, else the stored one or the first written; keys are kept. */
  lemma {:induction false} WritesEffect(st: Store, list: seq<CrossTransaction>, canReplace: bool, id: Hash)
    requires WellFormed(st.table)
    ensures var t := WriteLoop(st, list, canReplace).0.table;
            && DoWrites(st, list, canReplace) == (WriteLoop(st, list, canReplace).0, true)
            && WellFormed(t)
            && Lookup(t, id) ==
                 (if canReplace then (if LastOf(list, id).Some? then LastOf(list, id) else Lookup(st.table, id))
                  else if Lookup(st.table, id).Some? then Lookup(st.table, id) else FirstOf(list, id))
            && (One(st.table, id).Some? ==> One(t, id).Some? && One(t, id).value.pk == One(st.table, id).value.pk)
    decreases |list|
  {
    if list != [] {
      WriteOneEffect(st, list[0], canReplace);
      WritesEffect(WriteOne(st, list[0], canReplace).value, list[1..], canReplace, id);
    }
  }

  lemma WriteKeeps(st: Store, tx: CrossTransaction)
    requires Valid(st)
    ensures var (st', ok) := DoWrite(st, tx); ok && Valid(st') && Lookup(st'.table, tx.ctxId) == Some(tx)
  {
    WritesKeep(st, [tx], true);
    WritesEffect(st, [tx], true, tx.ctxId);
    assert LastOf([tx], tx.ctxId) == Some(tx);
  }

  lemma ReadKeeps(st: Store, id: Hash)
    requires Valid(st)
    ensures Valid(DoRead(st, id).0) && DoRead(st, id).0.table == st.table
    ensures DoRead(st, id).1 == Lookup(st.table, id)
  {
  }

  /** An updater that on a stored row clears the key, or keeps it, or keeps the
      CtxId. */
  ghost predicate Keeps(f: Updater) {
    forall row: Row | row.pk > 0 :: f(row).pk == 0 || f(row).pk == row.pk || f(row).ctxId == row.ctxId
  }

  lemma UpdateStepKeeps(st: Store, id: Hash, f: Updater)
    requires Valid(st) && Keeps(f) && One(st.table, id).Some?
    requires var row' := f(One(st.table, id).value); Update(st.table, row').Some?
    ensures var row' := f(One(st.table, id).value);
            Valid(Forget(st, {ById(id), CacheKey(TxHashIndex, row'.txHash)}).(table := Update(st.table, row').value))
  {
    var row := One(st.table, id).value;
    UpdateKeeps(st.table, f(row));
    assert row.pk > 0;
    assert f(row).pk == row.pk || f(row).ctxId == row.ctxId;
  }

  lemma {:induction false} UpdateLoopKeeps(st: Store, ids: seq<Hash>, fs: seq<Updater>, t0: Table)
    requires |ids| == |fs| && Valid(st) && forall f :: f in fs ==> Keeps(f)
    requires WellFormed(t0) && (st.cached ==> Coherent(t0, st.cache))
    ensures var (st', ok) := UpdateLoop(st, ids, fs);
            Valid(st') && (st'.cached ==> Coherent(t0, st'.cache))
    decreases |ids|
  {
    if ids != [] && One(st.table, ids[0]).Some? {
      var row' := fs[0](One(st.table, ids[0]).value);
      if Update(st.table, row').Some? {
        assert fs[0] in fs;
        UpdateStepKeeps(st, ids[0], fs[0]);
        UpdateLoopKeeps(Forget(st, {ById(ids[0]), CacheKey(TxHashIndex, row'.txHash)})
                          .(table := Update(st.table, row').value), ids[1..], fs[1..], t0);
      }
    }
  }

  /** Updates, completed or rolled back, keep the cache coherent. */
  lemma UpdatesKeep(st: Store, ids: seq<Hash>, fs: seq<Updater>)
    requires Valid(st) && forall f :: f in fs ==> Keeps(f)
    ensures Valid(DoUpdates(st, ids, fs).0)
    ensures !DoUpdates(st, ids, fs).1 ==> DoUpdates(st, ids, fs).0.table == st.table
  {
    if |ids| == |fs| {
      UpdateLoopKeeps(st, ids, fs, st.table);
    }
  }

  /** No weaker condition will do: an updater keeps every valid store valid exactly
      when it is of this kind. */
  lemma UpdaterKeepsIff(f: Updater)
    ensures (forall st: Store, id: Hash | Valid(st) :: Valid(DoUpdates(st, [id], [f]).0)) <==> Keeps(f)
  {
    if Keeps(f) {
      forall st: Store, id: Hash | Valid(st) ensures Valid(DoUpdates(st, [id], [f]).0) {
        UpdatesKeep(st, [id], [f]);
      }
    } else {
      var row: Row :| row.pk > 0 && !(f(row).pk == 0 || f(row).pk == row.pk || f(row).ctxId == row.ctxId);
      MovingUpdaterGoesStale(f, row);
      assert !Valid(DoUpdates(Overwritten(row, f(row)), [row.ctxId], [f]).0);
    }
  }

  /** A CtxId other than the two given. */
  function Third(x: Hash, y: Hash): (z: Hash)
    ensures z != x && z != y
  {
    if x != 0 && y != 0 then 0 else if x != 1 && y != 1 then 1 else 2
  }

  /** A store with a row, and at the key its updated form has another row, cached. */
  function Overwritten(row: Row, row': Row): Store {
    var other := row.(pk := row'.pk, ctxId := Third(row.ctxId, row'.ctxId));
    Store(Table(map[row.pk := row, row'.pk := other], map[row.ctxId := row.pk, other.ctxId := row'.pk],
                row.pk + row'.pk + 1),
          map[ById(other.ctxId) := other], true)
  }

  /** An updater that moves a row to another key and another CtxId overwrites the
      row stored there behind its cache entry. */
  lemma MovingUpdaterGoesStale(f: Updater, row: Row)
    requires row.pk > 0 && f(row).pk != 0 && f(row).pk != row.pk && f(row).ctxId != row.ctxId
    ensures var st := Overwritten(row, f(row));
            Valid(st) && DoUpdates(st, [row.ctxId], [f]).1 && !Valid(DoUpdates(st, [row.ctxId], [f]).0)
  {
    var row' := f(row);
    var st := Overwritten(row, row');
    var key := ById(Third(row.ctxId, row'.ctxId));
    assert One(st.table, row.ctxId) == Some(row) && Update(st.table, row').Some?;
    var t := Update(st.table, row').value;
    var st1 := Forget(st, {ById(row.ctxId), CacheKey(TxHashIndex, row'.txHash)}).(table := t);
    assert UpdateLoop(st, [row.ctxId], [f]) == UpdateLoop(st1, [row.ctxId][1..], [f][1..]) == (st1, true);
    assert key in st1.cache && One(t, key.value).None?;
  }

  // ---------- What Updates does ----------

  /** An updater that changes neither the key nor the CtxId. */
  ghost predicate InPlace(f: Updater) {
    forall row: Row :: f(row).pk == row.pk && f(row).ctxId == row.ctxId
  }

  /** All updaters meant for one CtxId, applied in turn. */
  function Updated(row: Row, id: Hash, ids: seq<Hash>, fs: seq<Updater>): Row
    requires |ids| == |fs|
    decreases |ids|
  {
    if ids == [] then row else Updated(if ids[0] == id then fs[0](row) else row, id, ids[1..], fs[1..])
  }

  lemma UpdateStepEffect(st: Store, id: Hash, f: Updater)
    requires WellFormed(st.table) && InPlace(f) && One(st.table, id).Some?
    ensures var row := One(st.table, id).value;
            var r := Update(st.table, f(row));
            && r.Some? && WellFormed(r.value)
            && forall other :: One(r.value, other) == if other == id then Some(f(row)) else One(st.table, other)
  {
    var row := One(st.table, id).value;
    assert f(row).pk == row.pk && f(row).ctxId == row.ctxId == id;
    UpdateKeeps(st.table, f(row));
  }

  lemma {:induction false} UpdateLoopEffect(st: Store, ids: seq<Hash>, fs: seq<Updater>, id: Hash)
    requires |ids| == |fs| && WellFormed(st.table) && forall f :: f in fs ==> InPlace(f)
    ensures var (st', ok) := UpdateLoop(st, ids, fs);
            && (ok <==> forall i :: 0 <= i < |ids| ==> One(st.table, ids[i]).Some?)
            && (ok ==> One(st'.table, id) ==
                         match One(st.table, id)
                         case None => None
                         case Some(row) => Some(Updated(row, id, ids, fs)))
    decreases |ids|
  {
    if ids != [] && One(st.table, ids[0]).Some? {
      assert fs[0] in fs && forall f :: f in fs[1..] ==> f in fs;
      UpdateStepEffect(st, ids[0], fs[0]);
      var row' := fs[0](One(st.table, ids[0]).value);
      var st1 := Forget(st, {ById(ids[0]), CacheKey(TxHashIndex, row'.txHash)}).(table := Update(st.table, row').value);
      hide WellFormed, One, Update, Forget;
      UpdateLoopEffect(st1, ids[1..], fs[1..], id);
      assert forall i :: 0 < i < |ids| ==> ids[i] == ids[1..][i - 1];
      assert forall i :: 0 <= i < |ids| - 1 ==> ids[1..][i] == ids[i + 1];
    }
  }

  /** Updates that stay in place succeed exactly when there is an updater for each
      identifier and every identifier is stored; then each row has gone through the
      updaters given for it, in their order, and the others are as before. */
  lemma UpdatesEffectIff(st: Store, ids: seq<Hash>, fs: seq<Updater>, id: Hash)
    requires WellFormed(st.table) && forall f :: f in fs ==> InPlace(f)
    ensures var (st', ok) := DoUpdates(st, ids, fs);
            && (ok <==> |ids| == |fs| && forall i :: 0 <= i < |ids| ==> One(st.table, ids[i]).Some?)
            && (ok ==> One(st'.table, id) ==
                         match One(st.table, id)
                         case None => None
                         case Some(row) => Some(Updated(row, id, ids, fs)))
  {
    hide WellFormed, One, Update;
    if |ids| == |fs| { UpdateLoopEffect(st, ids, fs, id); }
  }

  lemma DeleteOneKeeps(st: Store, id: Hash)
    requires Valid(st)
    ensures Valid(DeleteOne(st, id))
    ensures forall other :: One(DeleteOne(st, id).table, other) == if other == id then None else One(st.table, other)
  {
    if One(st.table, id).Some? { DeleteKeeps(st.table, One(st.table, id).value); }
  }

  /** Deletes removes exactly the named transactions. */
  lemma {:induction false} DeletesKeep(st: Store, ids: seq<Hash>)
    requires Valid(st)
    ensures Valid(DoDeletes(st, ids))
    ensures forall other :: One(DoDeletes(st, ids).table, other) == if other in ids then None else One(st.table, other)
    decreases |ids|
  {
    if ids != [] {
      DeleteOneKeeps(st, ids[0]);
      hide Valid, DeleteOne;
      DeletesKeep(DeleteOne(st, ids[0]), ids[1..]);
      assert forall other :: other in ids <==> other == ids[0] || other in ids[1..];
    }
  }

  // ---------- Runs ----------

  datatype Op =
    | Write(tx: CrossTransaction)
    | Writes(list: seq<CrossTransaction>, canReplace: bool)
    | Read(id: Hash)
    | ReadByTxHash(h: Hash)
    | Updates(ids: seq<Hash>, fs: seq<Updater>)
    | Deletes(gone: seq<Hash>)
    | Evict(lost: set<CacheKey>)

  function Do(st: Store, op: Op): Store {
    match op
    case Write(tx) => DoWrite(st, tx).0
    case Writes(list, canReplace) => DoWrites(st, list, canReplace).0
    case Read(id) => DoRead(st, id).0
    case ReadByTxHash(h) => DoOneByTxHash(st, h).0
    case Updates(ids, fs) => DoUpdates(st, ids, fs).0
    case Deletes(gone) => DoDeletes(st, gone)
    case Evict(lost) => DoEvict(st, lost)
  }

  ghost predicate Admissible(op: Op) {
    op.Updates? ==> forall f :: f in op.fs ==> Keeps(f)
  }

  function After(st: Store, ops: seq<Op>): Store
    decreases |ops|
  {
    if ops == [] then st else After(Do(st, ops[0]), ops[1..])
  }

  lemma DoKeeps(st: Store, op: Op)
    requires Valid(st) && Admissible(op)
    ensures Valid(Do(st, op))
  {
    match op
    case Write(tx) => WriteKeeps(st, tx);
    case Writes(list, canReplace) => WritesKeep(st, list, canReplace);
    case Read(id) => ReadKeeps(st, id);
    case ReadByTxHash(h) =>
    case Updates(ids, fs) => UpdatesKeep(st, ids, fs);
    case Deletes(gone) => DeletesKeep(st, gone);
    case Evict(lost) =>
  }

  lemma {:induction false} RunKeeps(st: Store, ops: seq<Op>)
    requires Valid(st) && forall op :: op in ops ==> Admissible(op)
    ensures Valid(After(st, ops))
    decreases |ops|
  {
    hide Valid, Do, Admissible;
    if ops != [] {
      assert ops[0] in ops;
      DoKeeps(st, ops[0]);
      RunKeeps(Do(st, ops[0]), ops[1..]);
    }
  }

  /** After any run of writes, reads, updates, deletions and evictions from an
      empty store, cached or not, a read gives what the table holds, and no two
      rows have the same CtxId. */
  lemma CachedReadIsTableRead(cached: bool, ops: seq<Op>, id: Hash)
    requires forall op :: op in ops ==> Admissible(op)
    ensures var st := After(Store(EMPTY, map[], cached), ops);
            && DoRead(st, id).1 == Lookup(st.table, id)
            && (forall k, m | k in st.table.rows && m in st.table.rows && k != m ::
                  st.table.rows[k].ctxId != st.table.rows[m].ctxId)
  {
    var st0 := Store(EMPTY, map[], cached);
    RunKeeps(st0, ops);
    ReadKeeps(After(st0, ops), id);
  }

  // ---------- Entries by transaction hash ----------

  function ByTxHash(h: Hash): CacheKey {
    CacheKey(TxHashIndex, h)
  }

  /** The entry under a transaction hash, if any, decodes to the first row that has it. */
  ghost predicate HashFits(st: Store, h: Hash) {
    ByTxHash(h) in st.cache ==>
      OneByTxHash(st.table, h, 1).Some? && ToCross(st.cache[ByTxHash(h)]) == ToCross(OneByTxHash(st.table, h, 1).value)
  }

  ghost predicate HashCoherent(st: Store) {
    forall h :: HashFits(st, h)
  }

  /** Row k is the first with this hash, from key `from` on. */
  ghost predicate FirstWith(t: Table, h: Hash, from: nat, k: nat) {
    && from <= k < t.next && k in t.rows && t.rows[k].txHash == h
    && forall m :: from <= m < k && m in t.rows ==> t.rows[m].txHash != h
  }

  lemma {:induction false} FirstIsFound(t: Table, h: Hash, from: nat, k: nat)
    requires FirstWith(t, h, from, k)
    ensures OneByTxHash(t, h, from) == Some(t.rows[k])
    decreases k - from
  {
    if from < k { FirstIsFound(t, h, from + 1, k); }
  }

  lemma {:induction false} FoundIsFirst(t: Table, h: Hash, from: nat)
    requires WellFormed(t)
    ensures OneByTxHash(t, h, from).Some? ==>
              var row := OneByTxHash(t, h, from).value; FirstWith(t, h, from, row.pk) && t.rows[row.pk] == row
    ensures OneByTxHash(t, h, from).None? ==> forall m | from <= m && m in t.rows :: t.rows[m].txHash != h
    decreases t.next - from
  {
    if from < t.next && !(from in t.rows && t.rows[from].txHash == h) {
      FoundIsFirst(t, h, from + 1);
    }
  }

  /** The cache entry of hash h shows row k. */
  ghost predicate Shows(st: Store, h: Hash, k: nat) {
    ByTxHash(h) in st.cache && OneByTxHash(st.table, h, 1).Some? && OneByTxHash(st.table, h, 1).value.pk == k
  }

  /** The cache entry of hash h shows a row after row k. */
  ghost predicate ShowsLater(st: Store, h: Hash, k: nat) {
    ByTxHash(h) in st.cache && OneByTxHash(st.table, h, 1).Some? && OneByTxHash(st.table, h, 1).value.pk > k
  }

  /** Replacing row k changes the first rows of two hashes at most. */
  lemma ReplacedLookup(t: Table, row: Row, h: Hash)
    requires WellFormed(t) && row.pk in t.rows && Update(t, row).Some?
    ensures var t', k, before := Update(t, row).value, row.pk, OneByTxHash(t, h, 1);
            OneByTxHash(t', h, 1) ==
              if h == row.txHash && (before.None? || before.value.pk >= k) then Some(row)
              else if before.Some? && before.value.pk == k then OneByTxHash(t', h, k + 1)
              else before
  {
    var t', before := Update(t, row).value, OneByTxHash(t, h, 1);
    FoundIsFirst(t, h, 1);
    UpdateKeeps(t, row);
    assert t'.next == t.next && t'.rows == t.rows[row.pk := row] && 0 < row.pk < t.next;
    hide Update, OneByTxHash, WellFormed;
    if before.None? {
      if h == row.txHash { NewFirst(t, t', row, h); } else { NoneStays(t, t', row, h); }
    } else {
      SomeStays(t, t', row, h, before.value.pk);
    }
  }

  lemma NewFirst(t: Table, t': Table, row: Row, h: Hash)
    requires t'.next == t.next && t'.rows == t.rows[row.pk := row] && 0 < row.pk < t.next && h == row.txHash
    requires forall m | 1 <= m < row.pk && m in t.rows :: t.rows[m].txHash != h
    ensures OneByTxHash(t', h, 1) == Some(row)
  {
    hide OneByTxHash;
    FirstIsFound(t', h, 1, row.pk);
  }

  lemma SomeStays(t: Table, t': Table, row: Row, h: Hash, first: nat)
    requires t'.next == t.next && t'.rows == t.rows[row.pk := row] && 0 < row.pk < t.next
    requires FirstWith(t, h, 1, first)
    ensures OneByTxHash(t', h, 1) ==
              if h == row.txHash && first >= row.pk then Some(row)
              else if first == row.pk then OneByTxHash(t', h, row.pk + 1)
              else Some(t.rows[first])
  {
    hide OneByTxHash;
    if h == row.txHash && first >= row.pk {
      NewFirst(t, t', row, h);
    } else if first == row.pk {
      SkipTo(t', h, 1, row.pk + 1);
    } else {
      FirstIsFound(t', h, 1, first);
    }
  }

  lemma NoneStays(t: Table, t': Table, row: Row, h: Hash)
    requires WellFormed(t') && t'.rows == t.rows[row.pk := row] && h != row.txHash
    requires forall m | 1 <= m && m in t.rows :: t.rows[m].txHash != h
    ensures OneByTxHash(t', h, 1) == None
  {
    FoundIsFirst(t', h, 1);
    hide OneByTxHash;
  }

  lemma {:induction false} SkipTo(t: Table, h: Hash, from: nat, until: nat)
    requires from <= until && forall m | from <= m < until && m in t.rows :: t.rows[m].txHash != h
    ensures OneByTxHash(t, h, from) == OneByTxHash(t, h, until)
    decreases until - from
  {
    if from < until { SkipTo(t, h, from + 1, until); }
  }

  /** A write keeps the entries by transaction hash coherent exactly when it
      replaces nothing, or writes the transaction that is there already, or
      neither the entry of the old hash shows the replaced row nor the entry of the
      new one a later row. */
  lemma WriteKeepsHashesIff(st: Store, tx: CrossTransaction, canReplace: bool)
    requires Valid(st) && st.cached && HashCoherent(st)
    ensures var prev, r := One(st.table, tx.ctxId), WriteOne(st, tx, canReplace);
            r.Some? && (HashCoherent(r.value) <==>
              || prev.None? || !canReplace || ToCross(prev.value) == tx
              || (!Shows(st, prev.value.txHash, prev.value.pk) && !ShowsLater(st, tx.txHash, prev.value.pk)))
  {
    if One(st.table, tx.ctxId).None? {
      InsertKeepsHashes(st, tx, canReplace);
    } else if canReplace {
      ReplacingKeepsHashesIff(st, tx);
    }
  }

  lemma InsertKeepsHashes(st: Store, tx: CrossTransaction, canReplace: bool)
    requires Valid(st) && st.cached && HashCoherent(st) && One(st.table, tx.ctxId).None?
    ensures var r := WriteOne(st, tx, canReplace); r.Some? && HashCoherent(r.value)
  {
    WriteOneEffect(st, tx, canReplace);
    var st' := WriteOne(st, tx, canReplace).value;
    forall h ensures HashFits(st', h) {
      assert HashFits(st, h);
      if ByTxHash(h) in st.cache {
        FoundIsFirst(st.table, h, 1);
        FirstIsFound(st'.table, h, 1, OneByTxHash(st.table, h, 1).value.pk);
      }
    }
  }

  /** So a read by transaction hash followed by any replacement of the row it found
      leaves a stale entry: Writes removes the hash under the wrong index. */
  lemma ReadThenReplaceGoesStale(st: Store, tx: CrossTransaction, prev: Row)
    requires Valid(st) && st.cached && HashCoherent(st)
    requires One(st.table, tx.ctxId) == Some(prev) == OneByTxHash(st.table, prev.txHash, 1) && ToCross(prev) != tx
    ensures var r := WriteOne(DoOneByTxHash(st, prev.txHash).0, tx, true); r.Some? && !HashCoherent(r.value)
  {
    var st1 := DoOneByTxHash(st, prev.txHash).0;
    assert st1.table == st.table && st1.cached && ByTxHash(prev.txHash) in st1.cache;
    forall h ensures HashFits(st1, h) { assert HashFits(st, h); }
    WriteKeepsHashesIff(st1, tx, true);
  }

  lemma ReplacingKeepsHashesIff(st: Store, tx: CrossTransaction)
    requires Valid(st) && st.cached && HashCoherent(st) && One(st.table, tx.ctxId).Some?
    ensures var prev := One(st.table, tx.ctxId).value;
            var r := WriteOne(st, tx, true);
            r.Some? && (HashCoherent(r.value) <==>
              ToCross(prev) == tx || (!Shows(st, prev.txHash, prev.pk) && !ShowsLater(st, tx.txHash, prev.pk)))
  {
    var prev := One(st.table, tx.ctxId).value;
    var row := NewIndexed(tx).(pk := prev.pk);
    WriteOneEffect(st, tx, true);
    var st' := WriteOne(st, tx, true).value;
    assert st'.table == Update(st.table, row).value;
    forall h ensures HashFits(st', h) <==> ToCross(prev) == tx || !Misses(st, tx, prev, h) {
      assert HashFits(st, h);
      EntryAfterReplacement(st, st', tx, prev, h);
    }
    hide WriteOne, One, Update, WellFormed, HashFits, Shows, ShowsLater, ToCross, NewIndexed, Coherent;
    assert Misses(st, tx, prev, prev.txHash) || Misses(st, tx, prev, tx.txHash) <==>
           Shows(st, prev.txHash, prev.pk) || ShowsLater(st, tx.txHash, prev.pk);
  }

  /** The entry of hash h is concerned by the replacement and not removed. */
  ghost predicate Misses(st: Store, tx: CrossTransaction, prev: Row, h: Hash) {
    (h == prev.txHash && Shows(st, h, prev.pk)) || (h == tx.txHash && ShowsLater(st, h, prev.pk))
  }

  lemma EntryAfterReplacement(st: Store, st': Store, tx: CrossTransaction, prev: Row, h: Hash)
    requires WellFormed(st.table) && HashFits(st, h) && One(st.table, tx.ctxId) == Some(prev)
    requires Update(st.table, NewIndexed(tx).(pk := prev.pk)) == Some(st'.table)
    requires ByTxHash(h) in st'.cache <==> ByTxHash(h) in st.cache
    requires ByTxHash(h) in st.cache ==> st'.cache[ByTxHash(h)] == st.cache[ByTxHash(h)]
    ensures HashFits(st', h) <==> ToCross(prev) == tx || !Misses(st, tx, prev, h)
  {
    var row := NewIndexed(tx).(pk := prev.pk);
    if ByTxHash(h) in st.cache {
      ReplacedLookup(st.table, row, h);
      FoundIsFirst(st.table, h, 1);
      UpdateKeeps(st.table, row);
      FoundIsFirst(st'.table, h, prev.pk + 1);
      assert ToCross(row) == tx && prev == st.table.rows[prev.pk] && prev.ctxId == tx.ctxId;
      assert st'.table.rows == st.table.rows[prev.pk := row];
      OtherRowsDiffer(st.table, prev.pk);
      hide OneByTxHash, One, Update, NewIndexed, WellFormed;
    }
  }

  lemma OtherRowsDiffer(t: Table, k: nat)
    requires WellFormed(t) && k in t.rows
    ensures forall m | m in t.rows && m != k :: t.rows[m].ctxId != t.rows[k].ctxId
  {
  }

  /** Updating a row under its key keeps the entries by transaction hash exactly when
      it keeps the hash, or the entry of the old one does not show the row. */
  lemma UpdateKeepsHashesIff(st: Store, id: Hash, row': Row)
    requires Valid(st) && st.cached && HashCoherent(st) && One(st.table, id).Some?
    requires row'.pk == One(st.table, id).value.pk && Update(st.table, row').Some?
    ensures var row := One(st.table, id).value;
            var st' := Forget(st, {ById(id), CacheKey(TxHashIndex, row'.txHash)}).(table := Update(st.table, row').value);
            HashCoherent(st') <==> row.txHash == row'.txHash || !Shows(st, row.txHash, row.pk)
  {
    var row := One(st.table, id).value;
    var st' := Forget(st, {ById(id), CacheKey(TxHashIndex, row'.txHash)}).(table := Update(st.table, row').value);
    forall h ensures HashFits(st', h) <==> h == row'.txHash || !(h == row.txHash && Shows(st, h, row.pk)) {
      assert HashFits(st, h);
      EntryAfterUpdate(st, st', row, row', h);
    }
    hide One, Update, WellFormed, HashFits, Shows, Coherent, Forget;
  }

  lemma EntryAfterUpdate(st: Store, st': Store, row: Row, row': Row, h: Hash)
    requires WellFormed(st.table) && HashFits(st, h) && row.pk in st.table.rows && st.table.rows[row.pk] == row
    requires row'.pk == row.pk && Update(st.table, row') == Some(st'.table)
    requires ByTxHash(h) in st'.cache <==> ByTxHash(h) in st.cache && h != row'.txHash
    requires ByTxHash(h) in st'.cache ==> st'.cache[ByTxHash(h)] == st.cache[ByTxHash(h)]
    ensures HashFits(st', h) <==> h == row'.txHash || !(h == row.txHash && Shows(st, h, row.pk))
  {
    if ByTxHash(h) in st'.cache {
      ReplacedLookup(st.table, row', h);
      FoundIsFirst(st.table, h, 1);
      UpdateKeeps(st.table, row');
      FoundIsFirst(st'.table, h, row.pk + 1);
      assert st'.table.rows == st.table.rows[row.pk := row'];
      OtherRowsDiffer(st.table, row.pk);
      hide OneByTxHash, One, Update, WellFormed;
    }
  }

  /** A deletion always keeps them. */
  lemma DeleteKeepsHashes(st: Store, id: Hash)
    requires Valid(st) && st.cached && HashCoherent(st)
    ensures HashCoherent(DeleteOne(st, id))
  {
    if One(st.table, id).Some? {
      var row, st' := One(st.table, id).value, DeleteOne(st, id);
      DeleteKeeps(st.table, row);
      forall h ensures HashFits(st', h) {
        assert HashFits(st, h);
        if ByTxHash(h) in st'.cache {
          FoundIsFirst(st.table, h, 1);
          FirstIsFound(st'.table, h, 1, OneByTxHash(st.table, h, 1).value.pk);
        }
      }
    }
  }

  // ---------- Runs that keep them ----------

  /** A write after which no entry by transaction hash is wrong. */
  ghost predicate KeepsHashes(st: Store, tx: CrossTransaction, canReplace: bool) {
    var prev := One(st.table, tx.ctxId);
    || prev.None? || !canReplace || ToCross(prev.value) == tx
    || (!Shows(st, prev.value.txHash, prev.value.pk) && !ShowsLater(st, tx.txHash, prev.value.pk))
  }

  ghost predicate WritesKeepHashes(st: Store, list: seq<CrossTransaction>, canReplace: bool)
    decreases |list|
  {
    list != [] ==>
      && KeepsHashes(st, list[0], canReplace)
      && (WriteOne(st, list[0], canReplace).Some? ==>
            WritesKeepHashes(WriteOne(st, list[0], canReplace).value, list[1..], canReplace))
  }

  /** An updater that keeps the key and the transaction hash. */
  ghost predicate KeepsHash(f: Updater) {
    forall row: Row :: f(row).pk == row.pk && f(row).txHash == row.txHash
  }

  ghost predicate Calm(st: Store, op: Op) {
    match op
    case Write(tx) => WritesKeepHashes(st, [tx], true)
    case Writes(list, canReplace) => WritesKeepHashes(st, list, canReplace)
    case Updates(_, fs) => forall f :: f in fs ==> KeepsHash(f)
    case _ => true
  }

  ghost predicate CalmRun(st: Store, ops: seq<Op>)
    decreases |ops|
  {
    ops != [] ==> Calm(st, ops[0]) && CalmRun(Do(st, ops[0]), ops[1..])
  }

  /** Both kinds of cache entries are right. */
  ghost predicate AllValid(st: Store) {
    Valid(st) && (st.cached ==> HashCoherent(st))
  }

  lemma {:induction false} WritesKeepAll(st: Store, list: seq<CrossTransaction>, canReplace: bool)
    requires AllValid(st) && WritesKeepHashes(st, list, canReplace)
    ensures AllValid(WriteLoop(st, list, canReplace).0)
    decreases |list|
  {
    if list != [] {
      WriteOneKeeps(st, list[0], canReplace);
      if st.cached { WriteKeepsHashesIff(st, list[0], canReplace); }
      hide Valid, HashCoherent, WriteOne, KeepsHashes;
      WritesKeepAll(WriteOne(st, list[0], canReplace).value, list[1..], canReplace);
    }
  }

  /** Taking entries out of the cache does no harm, whatever the table. */
  lemma FewerEntries(t: Table, st: Store, st': Store)
    requires st'.cached == st.cached && (st.cached ==> HashCoherent(st.(table := t)))
    requires forall key :: key in st'.cache ==> key in st.cache && st'.cache[key] == st.cache[key]
    ensures st'.cached ==> HashCoherent(st'.(table := t))
  {
    if st.cached {
      forall h ensures HashFits(st'.(table := t), h) { assert HashFits(st.(table := t), h); }
    }
  }

  lemma {:induction false} UpdateLoopKeepsHashes(st: Store, ids: seq<Hash>, fs: seq<Updater>, t0: Table)
    requires |ids| == |fs| && AllValid(st) && forall f :: f in fs ==> KeepsHash(f)
    requires st.cached ==> HashCoherent(st.(table := t0))
    ensures var st' := UpdateLoop(st, ids, fs).0;
            && st'.cached == st.cached && (st'.cached ==> HashCoherent(st') && HashCoherent(st'.(table := t0)))
    decreases |ids|
  {
    if ids != [] && One(st.table, ids[0]).Some? {
      var row := One(st.table, ids[0]).value;
      var row' := fs[0](row);
      if Update(st.table, row').Some? {
        assert fs[0] in fs && forall f :: f in fs[1..] ==> f in fs;
        assert row'.pk == row.pk && row'.txHash == row.txHash;
        var st1 := Forget(st, {ById(ids[0]), CacheKey(TxHashIndex, row'.txHash)}).(table := Update(st.table, row').value);
        UpdateInPlaceKeeps(st, ids[0], row');
        if st.cached { UpdateKeepsHashesIff(st, ids[0], row'); }
        FewerEntries(t0, st, st1);
        hide HashCoherent, Update, One, Valid;
        UpdateLoopKeepsHashes(st1, ids[1..], fs[1..], t0);
      }
    }
  }

  lemma UpdateInPlaceKeeps(st: Store, id: Hash, row': Row)
    requires Valid(st) && One(st.table, id).Some? && row'.pk == One(st.table, id).value.pk && Update(st.table, row').Some?
    ensures Valid(Forget(st, {ById(id), CacheKey(TxHashIndex, row'.txHash)}).(table := Update(st.table, row').value))
  {
    UpdateKeeps(st.table, row');
  }

  lemma {:induction false} DeletesKeepAll(st: Store, ids: seq<Hash>)
    requires AllValid(st)
    ensures AllValid(DoDeletes(st, ids))
    decreases |ids|
  {
    if ids != [] {
      DeleteOneKeeps(st, ids[0]);
      if st.cached { DeleteKeepsHashes(st, ids[0]); }
      hide Valid, HashCoherent;
      assert DeleteOne(st, ids[0]).cached == st.cached;
      hide DeleteOne;
      DeletesKeepAll(DeleteOne(st, ids[0]), ids[1..]);
    }
  }

  lemma RememberKeepsHashes(st: Store, id: Hash, row: Row)
    requires st.cached ==> HashCoherent(st)
    ensures Remember(st, ById(id), row).cached ==> HashCoherent(Remember(st, ById(id), row))
  {
    if st.cached {
      forall h ensures HashFits(Remember(st, ById(id), row), h) { assert HashFits(st, h); }
    }
  }

  lemma ReadByHashKeeps(st: Store, h: Hash)
    requires st.cached ==> HashCoherent(st)
    ensures var st' := DoOneByTxHash(st, h).0; st'.cached ==> HashCoherent(st')
  {
    if st.cached {
      forall k ensures HashFits(DoOneByTxHash(st, h).0, k) { assert HashFits(st, k); }
    }
  }

  lemma CalmKeepsAll(st: Store, op: Op)
    requires AllValid(st) && Admissible(op) && Calm(st, op)
    ensures AllValid(Do(st, op))
  {
    DoKeeps(st, op);
    hide Valid, HashCoherent, WritesKeepHashes;
    match op
    case Write(tx) =>
      WritesKeep(st, [tx], true);
      WritesKeepAll(st, [tx], true);
      RememberKeepsHashes(WriteLoop(st, [tx], true).0, tx.ctxId, NewIndexed(tx));
    case Writes(list, canReplace) =>
      WritesKeep(st, list, canReplace);
      WritesKeepAll(st, list, canReplace);
    case Read(id) => if One(st.table, id).Some? { RememberKeepsHashes(st, id, One(st.table, id).value); }
    case ReadByTxHash(h) => ReadByHashKeeps(st, h);
    case Updates(ids, fs) =>
      if |ids| == |fs| {
        assert st.(table := st.table) == st;
        UpdateLoopKeepsHashes(st, ids, fs, st.table);
      }
    case Deletes(gone) => DeletesKeepAll(st, gone);
    case Evict(lost) =>
      assert st.(table := st.table) == st && DoEvict(st, lost).(table := st.table) == DoEvict(st, lost);
      FewerEntries(st.table, st, DoEvict(st, lost));
  }

  lemma {:induction false} CalmRunKeepsAll(st: Store, ops: seq<Op>)
    requires AllValid(st) && CalmRun(st, ops) && forall op :: op in ops ==> Admissible(op)
    ensures AllValid(After(st, ops))
    decreases |ops|
  {
    hide AllValid, Do, Admissible, Calm;
    if ops != [] {
      assert ops[0] in ops;
      CalmKeepsAll(st, ops[0]);
      CalmRunKeepsAll(Do(st, ops[0]), ops[1..]);
    }
  }

  /** After any run of operations and evictions whose writes each meet the condition
      above and whose updaters keep the transaction hash, a read by transaction hash,
      cached or not, gives the first row that has it. */
  lemma HashReadIsTableRead(cached: bool, ops: seq<Op>, h: Hash)
    requires CalmRun(Store(EMPTY, map[], cached), ops) && forall op :: op in ops ==> Admissible(op)
    ensures var st := After(Store(EMPTY, map[], cached), ops);
            DoOneByTxHash(st, h).1 ==
              match OneByTxHash(st.table, h, 1)
              case None => None
              case Some(row) => Some(ToCross(row))
  {
    var st0 := Store(EMPTY, map[], cached);
    CalmRunKeepsAll(st0, ops);
    var st := After(st0, ops);
    assert st.cached ==> HashFits(st, h);
  }

  // ---------- The store as an object ----------

  class IndexDB {
    var table: Table
    var cache: Cache
    const cached: bool

    ghost function Abs(): Store
      reads this
    {
      Store(table, cache, cached)
    }

    constructor (cached: bool)
      ensures Abs() == Store(EMPTY, map[], cached) && Valid(Abs())
    {
      table, cache := EMPTY, map[];
      this.cached := cached;
    }

    /** The rows change when the transaction commits; the cache at once. */
    method Writes(list: seq<CrossTransaction>, canReplace: bool) returns (ok: bool)
      modifies this
      ensures (Abs(), ok) == DoWrites(old(Abs()), list, canReplace)
    {
      var tx := table;
      var i := 0;
      while i < |list|
        invariant 0 <= i <= |list| && table == old(table)
        invariant WriteLoop(old(Abs()), list, canReplace) == WriteLoop(Store(tx, cache, cached), list[i..], canReplace)
      {
        var ctx := list[i];
        assert list[i..][0] == ctx && list[i..][1..] == list[i + 1..];
        ghost var next := WriteOne(Store(tx, cache, cached), ctx, canReplace);
        i := i + 1;
        var row := NewIndexed(ctx);
        var prev := One(tx, ctx.ctxId);
        if prev.None? {
          var saved := Save(tx, row);
          if saved.None? { return false; }
          tx := saved.value;
        } else if canReplace {
          row := row.(pk := prev.value.pk);
          var saved := Update(tx, row);
          if saved.None? { return false; }
          tx := saved.value;
        } else {
          assert next == Some(Store(tx, cache, cached));
          continue;
        }
        if cached {
          assert cache - {ById(ctx.ctxId)} - {ById(ctx.txHash)} == cache - {ById(ctx.ctxId), ById(ctx.txHash)};
          cache := cache - {ById(ctx.ctxId)};
          cache := cache - {ById(ctx.txHash)};
        }
        assert next == Some(Store(tx, cache, cached));
      }
      table := tx;
      return true;
    }

    method Write(ctx: CrossTransaction) returns (ok: bool)
      modifies this
      ensures (Abs(), ok) == DoWrite(old(Abs()), ctx)
      ensures old(Valid(Abs())) ==> ok && Valid(Abs()) && Lookup(table, ctx.ctxId) == Some(ctx)
    {
      if Valid(Abs()) { WriteKeeps(Abs(), ctx); }
      ok := Writes([ctx], true);
      if ok && cached {
        cache := cache[ById(ctx.ctxId) := NewIndexed(ctx)];
      }
    }

    method Read(id: Hash) returns (r: Option<CrossTransaction>)
      requires Valid(Abs())
      modifies this
      ensures (Abs(), r) == DoRead(old(Abs()), id)
      ensures Valid(Abs()) && table == old(table) && r == Lookup(table, id)
    {
      ReadKeeps(Abs(), id);
      if cached && ById(id) in cache {
        return Some(ToCross(cache[ById(id)]));
      }
      var row := One(table, id);
      if row.None? { return None; }
      if cached {
        cache := cache[ById(id) := row.value];
      }
      return Some(ToCross(row.value));
    }

    method Updates(ids: seq<Hash>, fs: seq<Updater>) returns (ok: bool)
      modifies this
      ensures (Abs(), ok) == DoUpdates(old(Abs()), ids, fs)
    {
      if |ids| != |fs| { return false; }
      var tx := table;
      var i := 0;
      while i < |ids|
        invariant 0 <= i <= |ids| && table == old(table)
        invariant UpdateLoop(old(Abs()), ids, fs) == UpdateLoop(Store(tx, cache, cached), ids[i..], fs[i..])
      {
        assert ids[i..][0] == ids[i] && ids[i..][1..] == ids[i + 1..];
        assert fs[i..][0] == fs[i] && fs[i..][1..] == fs[i + 1..];
        var row := One(tx, ids[i]);
        if row.None? { return false; }
        var row' := fs[i](row.value);
        var t := Update(tx, row');
        if t.None? { return false; }
        ghost var next := Forget(Store(tx, cache, cached), {ById(ids[i]), CacheKey(TxHashIndex, row'.txHash)})
                            .(table := t.value);
        tx := t.value;
        if cached {
          cache := cache - {ById(ids[i])};
          cache := cache - {CacheKey(TxHashIndex, row'.txHash)};
        }
        assert Store(tx, cache, cached) == next;
        i := i + 1;
      }
      table := tx;
      return true;
    }

    method Deletes(ids: seq<Hash>)
      modifies this
      ensures Abs() == DoDeletes(old(Abs()), ids)
    {
      var tx := table;
      var i := 0;
      while i < |ids|
        invariant 0 <= i <= |ids|
        invariant DoDeletes(old(Abs()), ids) == DoDeletes(Store(tx, cache, cached), ids[i..])
      {
        assert ids[i..][0] == ids[i] && ids[i..][1..] == ids[i + 1..];
        ghost var next := DeleteOne(Store(tx, cache, cached), ids[i]);
        var row := One(tx, ids[i]);
        if row.Some? {
          if cached {
            cache := cache - {ById(ids[i])};
            cache := cache - {CacheKey(TxHashIndex, row.value.txHash)};
          }
          tx := Delete(tx, row.value);
        }
        assert Store(tx, cache, cached) == next;
        i := i + 1;
      }
      table := tx;
    }
  }
}
