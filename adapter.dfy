/**
 * `DenoKVAdapter` of mod.ts: the session store of the authentication framework,
 * kept in a key-value store as primary records plus a by-user index.  Each
 * operation is one sequential step; the current time is a parameter.
 */
module Adapter {
  import opened Wrappers
  import opened JsValues
  import opened Records
  import opened DenoKv
  import opened Protocol

  class DenoKVAdapter {
    const kv: Kv

    /** The object invariant: sessions and index in sync, user records well formed. */
    ghost predicate Valid()
      reads kv
    {
      Consistent(kv.data)
    }

    constructor (kv: Kv)
      requires Consistent(kv.data)
      ensures this.kv == kv && Valid()
    {
      this.kv := kv;
    }

    /** Both lookups read the same state here, since the model runs them one after the other. */
    method GetSessionAndUser(sessionId: string) returns (session: Option<DatabaseSession>, user: Option<DatabaseUser>)
      requires Valid()
      ensures session.Some? <==> Primary(sessionId) in kv.data
      ensures session.Some? ==>
        session.value.id == sessionId
        && session.value == TransformIntoDatabaseSession(kv.data[Primary(sessionId)].value)
      ensures user.Some? <==> session.Some? && User(session.value.userId) in kv.data
      ensures user.Some? ==> user.value == TransformIntoDatabaseUser(kv.data[User(session.value.userId)].value)
    {
      session := GetSession(sessionId);
      user := GetUserFromSessionId(sessionId);
    }

    /** Every session of `userId`, read from the index in key order. */
    method GetUserSessions(userId: string) returns (sessions: seq<DatabaseSession>)
      requires Valid()
      ensures KeyOrder.Increasing(seq(|sessions|, i requires 0 <= i < |sessions| => sessions[i].id))
      ensures (set s | s in sessions :: s.id) == IndexIds(kv.data, userId)
      ensures forall i :: 0 <= i < |sessions| ==>
        && sessions[i].userId == userId
        && ByUser(userId, sessions[i].id) in kv.data
        && sessions[i] == TransformIntoDatabaseSession(kv.data[ByUser(userId, sessions[i].id)].value)
    {
      var scan := kv.ListByUser(userId);
      var values: seq<Record> := [];
      for i := 0 to |scan|
        invariant |values| == i
        invariant forall j :: 0 <= j < i ==> values[j] == scan[j].value
      {
        values := values + [scan[i].value];
      }
      forall j | 0 <= j < |scan|
        ensures IsSessionRecord(values[j]) && values[j]["id"] == Str(scan[j].key.id)
        ensures UserIdOf(values[j]) == userId
      {
        assert ByUser(userId, scan[j].key.id) in kv.data;
        assert PairedAt(kv.data, scan[j].key.id);
      }
      sessions := seq(|values|, i requires 0 <= i < |values| && IsSessionRecord(values[i]) =>
                                  TransformIntoDatabaseSession(values[i]));
      assert seq(|sessions|, i requires 0 <= i < |sessions| => sessions[i].id) == ScanIdSeq(scan);
      assert (set s | s in sessions :: s.id) == ScanIds(scan) by {
        forall x | x in ScanIds(scan) ensures x in (set s | s in sessions :: s.id) {
          var e :| e in scan && e.key.id == x;
          var j :| 0 <= j < |scan| && scan[j] == e;
          assert sessions[j].id == x;
        }
      }
    }

    method SetSession(session: DatabaseSession, now: int)
      requires Valid()
      modifies kv
      ensures Valid()
      ensures kv.data == Created(old(kv.data), session, now)
    {
      var primaryKey := Primary(session.id);
      var byUserKey := ByUser(session.userId, session.id);
      var expireIn := session.expiresAt - now;
      var value := StoredSession(session);
      ghost var d := kv.data;
      // the outcome of the commit is not looked at: a create that finds either key taken does nothing
      ApplyTwo(d, Set(primaryKey, value, Some(expireIn)), Set(byUserKey, value, Some(expireIn)));
      var committed := kv.Commit([primaryKey, byUserKey],
                                 [Set(primaryKey, value, Some(expireIn)), Set(byUserKey, value, Some(expireIn))]);
      CreatedKeepsConsistent(d, session, now);
    }

    method UpdateSessionExpiration(sessionId: string, expiresAt: int, now: int)
      requires Valid()
      modifies kv
      ensures Valid()
      ensures kv.data == Renewed(old(kv.data), sessionId, expiresAt, now)
    {
      ghost var d := kv.data;
      var res := kv.Get(Primary(sessionId));
      if res.Some? {
        assert PairedAt(d, sessionId);
        var session := Renew(res.value, expiresAt);
        var expireIn := expiresAt - now;
        var first, second := Set(Primary(sessionId), session, Some(expireIn)),
                             Set(ByUser(UserIdOf(session), sessionId), session, Some(expireIn));
        ApplyTwo(d, first, second);
        var committed := kv.Commit([], [first, second]);
      }
      RenewedKeepsConsistent(d, sessionId, expiresAt, now);
    }

    method DeleteSession(sessionId: string)
      requires Valid()
      modifies kv
      ensures Valid()
      ensures kv.data == Deleted(old(kv.data), sessionId)
    {
      ghost var d := kv.data;
      var res := kv.Get(Primary(sessionId));
      if res.Some? {
        assert PairedAt(d, sessionId);
        var first, second := Delete(Primary(sessionId)), Delete(ByUser(UserIdOf(res.value), sessionId));
        ApplyTwo(d, first, second);
        var committed := kv.Commit([], [first, second]);
        assert kv.data == d - {Primary(sessionId), ByUser(UserIdOf(res.value), sessionId)};
      }
      DeletedKeepsConsistent(d, sessionId);
    }

    /** One two-key delete per entry of the scan, in scan order. */
    method DeleteUserSessions(userId: string)
      requires Valid()
      modifies kv
      ensures Valid()
      ensures kv.data == DeletedAll(old(kv.data), userId)
    {
      ghost var d0 := kv.data;
      var scan := kv.ListByUser(userId);
      for i := 0 to |scan|
        invariant kv.data == d0 - PairKeys(userId, ScanIds(scan[..i]))
      {
        ScanDeleteStep(d0, userId, scan, i, kv.data);
        var value := scan[i].value;
        var id := value["id"].s;
        var owner := value["userId"].s;
        ghost var d := kv.data;
        var first, second := Delete(Primary(id)), Delete(ByUser(owner, id));
        ApplyTwo(d, first, second);
        var committed := kv.Commit([], [first, second]);
        assert kv.data == d - {Primary(id), ByUser(owner, id)};
      }
      assert scan[..|scan|] == scan;
      DeletedAllKeepsConsistent(d0, userId);
    }

    /** Expired sessions are removed by the store's own key expiry, so this does nothing. */
    method DeleteExpiredSessions()
      requires Valid()
      ensures Valid()
    {
    }

    method GetSession(sessionId: string) returns (session: Option<DatabaseSession>)
      requires Valid()
      ensures session.Some? <==> Primary(sessionId) in kv.data
      ensures session.Some? ==>
        && session.value.id == sessionId
        && session.value == TransformIntoDatabaseSession(kv.data[Primary(sessionId)].value)
        && ByUser(session.value.userId, sessionId) in kv.data
        && session.value == TransformIntoDatabaseSession(kv.data[ByUser(session.value.userId, sessionId)].value)
    {
      var result := kv.Get(Primary(sessionId));
      if result.None? {
        return None;
      }
      assert PairedAt(kv.data, sessionId);
      session := Some(TransformIntoDatabaseSession(result.value));
    }

    method GetUserFromSessionId(sessionId: string) returns (user: Option<DatabaseUser>)
      requires Valid()
      ensures user.Some? <==>
        Primary(sessionId) in kv.data && User(UserIdOf(kv.data[Primary(sessionId)].value)) in kv.data
      ensures user.Some? ==>
        user.value == TransformIntoDatabaseUser(kv.data[User(UserIdOf(kv.data[Primary(sessionId)].value))].value)
    {
      var session := kv.Get(Primary(sessionId));
      if session.None? {
        return None;
      }
      assert PairedAt(kv.data, sessionId);
      var result := kv.Get(User(session.value["userId"].s));
      if result.None? {
        return None;
      }
      user := Some(TransformIntoDatabaseUser(result.value));
    }
  }
}
