/**
 * The part of the key-value store that the adapter relies on: point reads,
 * a scan of the keys under a prefix in key order, and an atomic commit whose
 * checks ("this key is absent") guard a list of writes that apply all or none.
 * Versionstamps other than "absent" and the store's own expiry are not modelled:
 * `expireIn` is kept beside the value as inert data.
 */
module DenoKv {
  import opened Wrappers
  import opened JsValues
  import opened KeyOrder

  /** The three kinds of key the adapter uses: `["sessions", id]`,
      `["sessions_by_user", userId, id]` and `["users", id]`. */
  datatype Key =
    | Primary(id: string)
    | ByUser(userId: string, id: string)
    | User(id: string)

  /** What the store holds under a key: the value and the expiry it was set with. */
  datatype Item = Item(value: Record, expireIn: Option<int>)

  /** One entry of a scan: the key and the value found there. */
  datatype KvEntry = KvEntry(key: Key, value: Record)

  /** One write of an atomic operation. */
  datatype Mutation =
    | Set(key: Key, value: Record, expireIn: Option<int>)
    | Delete(key: Key)

  type Store = map<Key, Item>

  function Apply(d: Store, m: Mutation): (r: Store)
    ensures m.Set? ==> r == d[m.key := Item(m.value, m.expireIn)]
    ensures m.Delete? ==> r == d - {m.key}
  {
    match m
    case Set(k, v, e) => d[k := Item(v, e)]
    case Delete(k) => d - {k}
  }

  /** The writes of a commit, applied in the order they were added. */
  function ApplyAll(d: Store, ms: seq<Mutation>): Store
    decreases |ms|
  {
    if ms == [] then d else ApplyAll(Apply(d, ms[0]), ms[1..])
  }

  /** A commit of two writes applies the first, then the second. */
  lemma ApplyTwo(d: Store, m1: Mutation, m2: Mutation)
    ensures ApplyAll(d, [m1, m2]) == Apply(Apply(d, m1), m2)
  {
    assert [m1, m2][1..] == [m2];
    assert [m2][1..] == [];
    calc {
      ApplyAll(d, [m1, m2]);
      ApplyAll(Apply(d, m1), [m2]);
      ApplyAll(Apply(Apply(d, m1), m2), []);
    }
  }

  /** The ids of the index keys under the prefix `["sessions_by_user", u]`. */
  function IndexIds(d: Store, u: string): set<string>
  {
    set k | k in d && k.ByUser? && k.userId == u :: k.id
  }

  function ScanIds(scan: seq<KvEntry>): set<string>
  {
    set e | e in scan :: e.key.id
  }

  function ScanIdSeq(scan: seq<KvEntry>): seq<string>
  {
    seq(|scan|, i requires 0 <= i < |scan| => scan[i].key.id)
  }

  /** `scan` lists every index entry of user `u` in `d` once, in key order,
      each with the value stored at its key. */
  ghost predicate IsScan(d: Store, u: string, scan: seq<KvEntry>)
  {
    && (forall i :: 0 <= i < |scan| ==>
          scan[i].key == ByUser(u, scan[i].key.id)
          && scan[i].key in d && d[scan[i].key].value == scan[i].value)
    && Increasing(ScanIdSeq(scan))
    && ScanIds(scan) == IndexIds(d, u)
  }

  /** The state of a scan that has listed `scan` and has `remaining` still to list. */
  ghost predicate ScanSoFar(d: Store, u: string, scan: seq<KvEntry>, remaining: set<string>)
  {
    && (forall i :: 0 <= i < |scan| ==>
          scan[i].key == ByUser(u, scan[i].key.id)
          && scan[i].key in d && d[scan[i].key].value == scan[i].value)
    && Increasing(ScanIdSeq(scan))
    && ScanIds(scan) + remaining == IndexIds(d, u)
    && (forall i, x :: 0 <= i < |scan| && x in remaining ==> Less(scan[i].key.id, x))
  }

  /** Listing the least remaining id keeps the scan in key order. */
  lemma ScanStep(d: Store, u: string, scan: seq<KvEntry>, remaining: set<string>, m: string)
    requires ScanSoFar(d, u, scan, remaining)
    requires m in remaining && forall x :: x in remaining && x != m ==> Less(m, x)
    ensures ByUser(u, m) in d
    ensures ScanSoFar(d, u, scan + [KvEntry(ByUser(u, m), d[ByUser(u, m)].value)], remaining - {m})
  {
    assert m in IndexIds(d, u);
    var next := KvEntry(ByUser(u, m), d[ByUser(u, m)].value);
    var scan' := scan + [next];
    assert ScanIds(scan') == ScanIds(scan) + {m};
    assert ScanIdSeq(scan') == ScanIdSeq(scan) + [m];
  }

  class Kv {
    var data: Store

    constructor (initial: Store)
      ensures data == initial
    {
      data := initial;
    }

    /** `kv.get(key)`, keeping only the value (`null` when the key is absent). */
    method Get(key: Key) returns (value: Option<Record>)
      ensures value.Some? <==> key in data
      ensures value.Some? ==> value.value == data[key].value
    {
      if key in data {
        value := Some(data[key].value);
      } else {
        value := None;
      }
    }

    /** `kv.list({ prefix: ["sessions_by_user", u] })`, read to the end. */
    method ListByUser(u: string) returns (scan: seq<KvEntry>)
      ensures IsScan(data, u, scan)
    {
      var remaining := IndexIds(data, u);
      scan := [];
      while remaining != {}
        invariant ScanSoFar(data, u, scan, remaining)
        decreases remaining
      {
        LeastExists(remaining);
        var m :| m in remaining && forall x | x in remaining && x != m :: Less(m, x);
        ScanStep(data, u, scan, remaining, m);
        scan := scan + [KvEntry(ByUser(u, m), data[ByUser(u, m)].value)];
        remaining := remaining - {m};
      }
    }

    /** `kv.atomic().check(...)...set(...).delete(...).commit()`, where every
        check asks for the key to be absent. */
    method Commit(checks: seq<Key>, mutations: seq<Mutation>) returns (ok: bool)
      modifies this
      ensures ok <==> forall k :: k in checks ==> k !in old(data)
      ensures data == if ok then ApplyAll(old(data), mutations) else old(data)
    {
      ok := forall k | k in checks :: k !in data;
      if ok {
        data := ApplyAll(data, mutations);
      }
    }
  }
}
