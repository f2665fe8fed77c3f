/**
 * The map and the deleted keys that Rows.DBTX keeps are those of a KVTX (storage/disk.go): every step
 * on the one is a step on the other, with the same answer, down to the pages of the pending tree.
 */
module RowStores {
  import opened Bytes
  import opened Histories
  import opened Stores
  import opened Transactions
  import opened Codecs
  import opened Rows

  /** What the transaction stores for a row's other columns, and for an index entry. */
  ghost predicate Encodes(dec: bytes -> Option<seq<Value>>, val: bytes, cell: Cell) {
    match cell
    case Columns(cols) => dec(val) == Some(cols)
    case EmptyString => val == []
  }

  /** The same keys, and values that encode the columns. */
  ghost predicate Mirrors(dec: bytes -> Option<seq<Value>>, m: map<bytes, bytes>, kv: Contents) {
    m.Keys == kv.Keys && forall k :: k in kv ==> Encodes(dec, m[k], kv[k])
  }

  /** The row layer's map and deleted keys stand for the transaction's. */
  ghost predicate Backed(dec: bytes -> Option<seq<Value>>, k: KVTX, tx: DBTX)
    reads k, k.snapshot, k.pending, tx
  {
    Mirrors(dec, k.Contents(), tx.kv) && k.delSet == tx.delSet
  }

  lemma MirrorsSet(dec: bytes -> Option<seq<Value>>, m: map<bytes, bytes>, kv: Contents, key: bytes, val: bytes, cell: Cell)
    requires Mirrors(dec, m, kv) && Encodes(dec, val, cell)
    ensures Mirrors(dec, m[key := val], kv[key := cell])
  {
    hide Encodes;
  }

  lemma MirrorsDel(dec: bytes -> Option<seq<Value>>, m: map<bytes, bytes>, kv: Contents, key: bytes)
    requires Mirrors(dec, m, kv)
    ensures Mirrors(dec, m - {key}, kv - {key})
  {
    hide Encodes;
  }

  /** A deleted key is not in the overlay; so Del's answer, on the transaction, is the row layer's. */
  lemma SameAnswer(s: map<bytes, bytes>, p: map<bytes, bytes>, del: set<bytes>, key: bytes)
    ensures key !in del <==> key in Overlay(s, p, del) || (key !in s && key !in del)
    ensures Overlay(s, p, del).Keys !! del
  {
  }

  /** Set, with what encodes the columns. */
  method SetBoth(dec: bytes -> Option<seq<Value>>, k: KVTX, tx: DBTX, key: bytes, val: bytes, cell: Cell)
    requires k.Valid() && Backed(dec, k, tx) && Encodes(dec, val, cell)
    requires Legal(k.pending.tree, Insert(key, val)) && Room(k.pending.nPages, HeightOf(k.pending.tree), 0)
    modifies k, k.pending, tx
    ensures k.Valid() && Backed(dec, k, tx) && k.snapshot == old(k.snapshot) && k.pending == old(k.pending)
    ensures tx.kv == old(tx.kv)[key := cell] && tx.rows == old(tx.rows) && tx.delSet == old(tx.delSet) - {key}
  {
    hide Mirrors, Legal, Encodes, UserDict, Overlay, Good, Emptied, Agree, KidRep;
    MirrorsSet(dec, k.Contents(), tx.kv, key, val, cell);
    tx.KvSet(key, cell);
    k.Set(key, val);
  }

  /** Del, with one answer. */
  method DelBoth(dec: bytes -> Option<seq<Value>>, k: KVTX, tx: DBTX, key: bytes) returns (ok: bool, found: bool)
    requires k.Valid() && Backed(dec, k, tx) && key != [] && tx.kv.Keys !! tx.delSet
    requires key in k.writeSet ==> Legal(k.pending.tree, Delete(key)) && Room(k.pending.nPages, HeightOf(k.pending.tree), 0)
    modifies k, k.pending, tx
    ensures k.Valid() && Backed(dec, k, tx) && k.snapshot == old(k.snapshot) && k.pending == old(k.pending)
    ensures tx.kv == old(tx.kv) - {key} && tx.rows == old(tx.rows) && tx.delSet == old(tx.delSet) + {key}
    ensures ok == found
  {
    hide Mirrors, Legal, UserDict, Overlay, Good, Emptied, Agree, KidRep;
    MirrorsDel(dec, k.Contents(), tx.kv, key);
    SameAnswer(UserDict(k.snapshot.tree), UserDict(k.pending.tree), k.delSet, key);
    ok := tx.KvDel(key);
    found := k.Del(key);
  }

  /** Get: none where the row layer has none, and otherwise what encodes the columns. */
  method GetBoth(dec: bytes -> Option<seq<Value>>, k: KVTX, tx: DBTX, key: bytes) returns (r: Option<bytes>)
    requires k.Valid() && Backed(dec, k, tx) && key != [] && !Emptied(k.pending.tree)
    modifies k`readSet
    ensures k.Valid() && Backed(dec, k, tx)
    ensures (r.Some? <==> key in tx.kv) && (r.Some? ==> Encodes(dec, r.value, tx.kv[key]))
  {
    hide Encodes, UserDict, Overlay, Good, Agree, KidRep;
    r := k.Get(key);
  }

  /** Begin: a transaction on a tree that mirrors the rows' map. */
  method BeginBoth(dec: bytes -> Option<seq<Value>>, db: KV, k: KVTX, tx: DBTX)
    requires db.tree.Valid() && Good(db.tree.tree) && !Emptied(db.tree.tree) && Mirrors(dec, UserDict(db.tree.tree), tx.kv) && tx.delSet == {}
    modifies k
    ensures k.Valid() && Backed(dec, k, tx)
  {
    hide Mirrors, UserDict, Overlay, Good, Emptied;
    db.Begin(k);
  }
}
