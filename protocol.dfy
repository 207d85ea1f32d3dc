/**
 * The consistency scheme of the adapter: every session lives under a primary key
 * `["sessions", id]` and under an index key `["sessions_by_user", userId, id]`
 * holding the same item.  The functions below give the store after each
 * mutating operation of the adapter, and the lemmas say what these operations
 * promise and that each keeps the primary records and the index in sync.
 */
module Protocol {
  import opened Wrappers
  import opened JsValues
  import opened Records
  import opened DenoKv
  import opened KeyOrder

  /** The owner recorded in a stored session. */
  function UserIdOf(v: Record): string
    requires IsSessionRecord(v)
  {
    v["userId"].s
  }

  /** The primary record of `id` is a session record for `id`, and its owner's
      index key holds the same item. */
  ghost predicate PairedAt(d: Store, id: string)
  {
    && Primary(id) in d
    && IsSessionRecord(d[Primary(id)].value)
    && d[Primary(id)].value["id"] == Str(id)
    && ByUser(UserIdOf(d[Primary(id)].value), id) in d
    && d[ByUser(UserIdOf(d[Primary(id)].value), id)] == d[Primary(id)]
  }

  /** Primary records and index records are in sync: a primary exists exactly
      when an index entry exists, both hold the same item, and the user part of
      the index key is the owner recorded in the value. */
  ghost predicate InSync(d: Store)
  {
    && (forall id :: Primary(id) in d ==> PairedAt(d, id))
    && (forall u, id :: ByUser(u, id) in d ==>
          PairedAt(d, id) && UserIdOf(d[Primary(id)].value) == u)
  }

  /** Every user record has the `User` shape (users are written elsewhere). */
  ghost predicate UsersTyped(d: Store)
  {
    forall id :: User(id) in d ==> IsUserRecord(d[User(id)].value)
  }

  ghost predicate Consistent(d: Store)
  {
    InSync(d) && UsersTyped(d)
  }

  /** The ids that have a primary record. */
  function PrimaryIds(d: Store): set<string>
  {
    set k | k in d && k.Primary? :: k.id
  }

  /** The ids that have an index entry, under any user. */
  function IndexedIds(d: Store): set<string>
  {
    set k | k in d && k.ByUser? :: k.id
  }

  /** In a store in sync, primary records and index entries name the same
      sessions, and no session is indexed under two users. */
  lemma InSyncJoinsIds(d: Store)
    requires InSync(d)
    ensures PrimaryIds(d) == IndexedIds(d)
    ensures forall u, v, id :: ByUser(u, id) in d && ByUser(v, id) in d ==> u == v
  {
    forall id | id in PrimaryIds(d)
      ensures id in IndexedIds(d)
    {
      assert PairedAt(d, id);
      assert ByUser(UserIdOf(d[Primary(id)].value), id) in d;
    }
  }

  /** The adapter can start from an empty store. */
  lemma EmptyIsConsistent()
    ensures Consistent(map[])
  {
  }

  /** The store after `setSession(s)` at time `now`: a create guarded by both
      keys being absent; a failed guard writes nothing and reports nothing. */
  function Created(d: Store, s: DatabaseSession, now: int): (r: Store)
    ensures Primary(s.id) in d || ByUser(s.userId, s.id) in d ==> r == d
    ensures Primary(s.id) !in d && ByUser(s.userId, s.id) !in d ==>
      && Primary(s.id) in r && ByUser(s.userId, s.id) in r
      && r[Primary(s.id)] == r[ByUser(s.userId, s.id)]
      && r[Primary(s.id)].value == StoredSession(s)
      && r[Primary(s.id)].expireIn == Some(s.expiresAt - now)
      && r.Keys == d.Keys + {Primary(s.id), ByUser(s.userId, s.id)}
      && (forall k :: k in d ==> r[k] == d[k])
  {
    var p, b := Primary(s.id), ByUser(s.userId, s.id);
    if p in d || b in d then d
    else
      var item := Item(StoredSession(s), Some(s.expiresAt - now));
      d[p := item][b := item]
  }

  /** The store after `updateSessionExpiration(id, expiresAt)` at time `now`:
      nothing when the primary is absent, otherwise the stored value with the
      new expiry written to the primary and to the index key of its owner. */
  function Renewed(d: Store, id: string, expiresAt: int, now: int): (r: Store)
    requires InSync(d)
    ensures Primary(id) !in d ==> r == d
    ensures Primary(id) in d ==>
      var u := UserIdOf(d[Primary(id)].value);
      && r.Keys == d.Keys
      && r[Primary(id)] == r[ByUser(u, id)]
      && r[Primary(id)].value == Renew(d[Primary(id)].value, expiresAt)
      && r[Primary(id)].expireIn == Some(expiresAt - now)
      && (forall k :: k in d && k != Primary(id) && k != ByUser(u, id) ==> r[k] == d[k])
  {
    if Primary(id) !in d then d
    else
      var v := Renew(d[Primary(id)].value, expiresAt);
      var item := Item(v, Some(expiresAt - now));
      d[Primary(id) := item][ByUser(UserIdOf(v), id) := item]
  }

  /** The store after `deleteSession(id)`: the primary and the index key of its owner removed. */
  function Deleted(d: Store, id: string): (r: Store)
    requires InSync(d)
    ensures Primary(id) !in d ==> r == d
    ensures Primary(id) in d ==>
      r.Keys == d.Keys - {Primary(id), ByUser(UserIdOf(d[Primary(id)].value), id)}
    ensures forall k :: k in r ==> r[k] == d[k]
  {
    if Primary(id) !in d then d
    else d - {Primary(id), ByUser(UserIdOf(d[Primary(id)].value), id)}
  }

  /** The primary and index keys of the sessions `ids` of user `u`. */
  function PairKeys(u: string, ids: set<string>): set<Key>
  {
    (set id | id in ids :: Primary(id)) + (set id | id in ids :: ByUser(u, id))
  }

  /** The store after `deleteUserSessions(u)`: every session listed under `u`
      removed, primary and index alike. */
  function DeletedAll(d: Store, u: string): (r: Store)
    ensures forall id :: ByUser(u, id) !in r
    ensures forall id :: id in IndexIds(d, u) ==> Primary(id) !in r
    ensures forall k :: k in r ==> k in d && r[k] == d[k]
    ensures forall k :: k in d && k !in PairKeys(u, IndexIds(d, u)) ==> k in r
  {
    d - PairKeys(u, IndexIds(d, u))
  }

  /** `setSession` keeps primary records and index in sync. */
  lemma CreatedKeepsConsistent(d: Store, s: DatabaseSession, now: int)
    requires Consistent(d)
    ensures Consistent(Created(d, s, now))
  {
  }

  /** `updateSessionExpiration` keeps primary records and index in sync. */
  lemma RenewedKeepsConsistent(d: Store, id: string, expiresAt: int, now: int)
    requires Consistent(d)
    ensures Consistent(Renewed(d, id, expiresAt, now))
  {
  }

  /** `deleteSession` keeps primary records and index in sync. */
  lemma DeletedKeepsConsistent(d: Store, id: string)
    requires Consistent(d)
    ensures Consistent(Deleted(d, id))
  {
  }

  /** `deleteUserSessions` keeps primary records and index in sync. */
  lemma DeletedAllKeepsConsistent(d: Store, u: string)
    requires Consistent(d)
    ensures Consistent(DeletedAll(d, u))
  {
  }

  /** Deleting a session twice leaves the store as deleting it once. */
  lemma DeletedIsIdempotent(d: Store, id: string)
    requires Consistent(d)
    ensures InSync(Deleted(d, id))
    ensures Deleted(Deleted(d, id), id) == Deleted(d, id)
  {
  }

  /** Deleting a user's sessions twice leaves the store as doing it once. */
  lemma DeletedAllIsIdempotent(d: Store, u: string)
    ensures DeletedAll(DeletedAll(d, u), u) == DeletedAll(d, u)
  {
  }

  /** One step of `deleteUserSessions`: with the first `i` entries of a scan of
      `u` deleted, the entry at `i` is still a full pair owned by `u`, and
      deleting the session its value names deletes exactly that pair. */
  lemma ScanDeleteStep(d0: Store, u: string, scan: seq<KvEntry>, i: nat, d: Store)
    requires Consistent(d0) && IsScan(d0, u, scan) && i < |scan|
    requires d == d0 - PairKeys(u, ScanIds(scan[..i]))
    ensures IsSessionRecord(scan[i].value)
    ensures scan[i].value["id"] == Str(scan[i].key.id) && scan[i].value["userId"] == Str(u)
    ensures Primary(scan[i].key.id) in d && UserIdOf(d[Primary(scan[i].key.id)].value) == u
    ensures d - {Primary(scan[i].key.id), ByUser(u, scan[i].key.id)}
         == d0 - PairKeys(u, ScanIds(scan[..i + 1]))
  {
    var id := scan[i].key.id;
    assert ByUser(u, id) in d0;
    assert PairedAt(d0, id);
    forall j | 0 <= j < i
      ensures scan[j].key.id != id
    {
      assert Less(ScanIdSeq(scan)[j], ScanIdSeq(scan)[i]);
      LessIrreflexive(id);
    }
    assert id !in ScanIds(scan[..i]);
    assert scan[..i + 1] == scan[..i] + [scan[i]];
    assert ScanIds(scan[..i + 1]) == ScanIds(scan[..i]) + {id};
    var prefix := ScanIds(scan[..i]);
    assert PairKeys(u, prefix + {id}) == PairKeys(u, prefix) + {Primary(id), ByUser(u, id)};
    assert Primary(id) in d;
  }

  /** Removing the pairs of any of a user's listed sessions keeps the store consistent. */
  lemma PrefixDeletedKeepsConsistent(d: Store, u: string, ids: set<string>)
    requires Consistent(d) && ids <= IndexIds(d, u)
    ensures Consistent(d - PairKeys(u, ids))
  {
  }

  /** After a successful create, both copies read back as the session written,
      except that its attributes come back nested under `attributes`. */
  lemma CreatedReadsBack(d: Store, s: DatabaseSession, now: int)
    requires Primary(s.id) !in d && ByUser(s.userId, s.id) !in d
    ensures var r := Created(d, s, now);
      var back := DatabaseSession(s.id, s.userId, s.expiresAt, map["attributes" := Obj(s.attributes)]);
      && TransformIntoDatabaseSession(r[Primary(s.id)].value) == back
      && TransformIntoDatabaseSession(r[ByUser(s.userId, s.id)].value) == back
  {
  }

  /** Deleting a session just created gives back the store it was created in. */
  lemma DeletedUndoesCreated(d: Store, s: DatabaseSession, now: int)
    requires Consistent(d) && Primary(s.id) !in d && ByUser(s.userId, s.id) !in d
    ensures InSync(Created(d, s, now))
    ensures Deleted(Created(d, s, now), s.id) == d
  {
  }

  /** After a renewal both copies read back as before with the new expiry. */
  lemma RenewedReadsBack(d: Store, id: string, expiresAt: int, now: int)
    requires InSync(d) && Primary(id) in d
    ensures var r := Renewed(d, id, expiresAt, now);
      var before := TransformIntoDatabaseSession(d[Primary(id)].value);
      && ByUser(before.userId, id) in r
      && TransformIntoDatabaseSession(r[Primary(id)].value) == before.(expiresAt := expiresAt)
      && TransformIntoDatabaseSession(r[ByUser(before.userId, id)].value) == before.(expiresAt := expiresAt)
  {
  }

  /** The session `s1` of user `u1` used in the lemma below. */
  function ScenarioSession(now: int): DatabaseSession
  {
    DatabaseSession("s1", "u1", now + 3600000, map["ip" := Str("1.2.3.4")])
  }

  /** A session created, renewed and deleted on an empty store: it is listed
      under its user after the create, both copies carry the new expiry after
      the renewal, and nothing of it is left after the delete. */
  lemma CreateRenewDeleteScenario(now: int)
    ensures var d1 := Created(map[], ScenarioSession(now), now);
      && InSync(d1) && IndexIds(d1, "u1") == {"s1"}
      && TransformIntoDatabaseSession(d1[Primary("s1")].value).expiresAt == now + 3600000
    ensures var d2 := Renewed(Created(map[], ScenarioSession(now), now), "s1", now + 7200000, now);
      && InSync(d2) && Primary("s1") in d2 && ByUser("u1", "s1") in d2
      && TransformIntoDatabaseSession(d2[Primary("s1")].value).expiresAt == now + 7200000
      && TransformIntoDatabaseSession(d2[ByUser("u1", "s1")].value).expiresAt == now + 7200000
    ensures var d3 := Deleted(Renewed(Created(map[], ScenarioSession(now), now), "s1", now + 7200000, now), "s1");
      Primary("s1") !in d3 && IndexIds(d3, "u1") == {}
  {
  }
}
