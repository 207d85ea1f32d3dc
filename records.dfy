/**
 * The session and user shapes the authentication framework exchanges with the
 * adapter, and the pure helpers of mod.ts that convert stored records into them.
 */
module Records {
  import opened JsValues

  /** A session as the framework hands it over and gets it back. */
  datatype DatabaseSession = DatabaseSession(id: string, userId: string, expiresAt: int, attributes: Record)

  /** A user as the framework gets it back. */
  datatype DatabaseUser = DatabaseUser(id: string, attributes: Record)

  /** The fields that `transformIntoDatabaseSession` takes out by name. */
  const SessionFields: set<string> := {"id", "userId", "expiresAt"}

  /** A stored record of the `Session` shape: string `id` and `userId`, number `expiresAt`. */
  predicate IsSessionRecord(raw: Record)
  {
    && "id" in raw && raw["id"].Str?
    && "userId" in raw && raw["userId"].Str?
    && "expiresAt" in raw && raw["expiresAt"].Num?
  }

  /** A stored record of the `User` shape: a string `id`. */
  predicate IsUserRecord(raw: Record)
  {
    "id" in raw && raw["id"].Str?
  }

  /** `transformIntoDatabaseSession`: takes out `id`, `userId` and `expiresAt`
      and gathers every other field into `attributes`. */
  function TransformIntoDatabaseSession(raw: Record): (s: DatabaseSession)
    requires IsSessionRecord(raw)
    ensures raw["id"] == Str(s.id) && raw["userId"] == Str(s.userId) && raw["expiresAt"] == Num(s.expiresAt)
    ensures forall k :: k in s.attributes <==> k in raw && k !in SessionFields
    ensures forall k :: k in s.attributes ==> s.attributes[k] == raw[k]
  {
    DatabaseSession(raw["id"].s, raw["userId"].s, raw["expiresAt"].n, raw - SessionFields)
  }

  /** `transformIntoDatabaseUser`: takes out `id` and gathers every other field into `attributes`. */
  function TransformIntoDatabaseUser(raw: Record): (u: DatabaseUser)
    requires IsUserRecord(raw)
    ensures raw["id"] == Str(u.id)
    ensures forall k :: k in u.attributes <==> k in raw && k != "id"
    ensures forall k :: k in u.attributes ==> u.attributes[k] == raw[k]
  {
    DatabaseUser(raw["id"].s, raw - {"id"})
  }

  /** The object `{ ...attributes, id, userId, expiresAt }`: the record a session
      is read back from when its attributes sit beside the three named fields, which win
      over attributes of the same name. */
  function SessionAsRecord(s: DatabaseSession): Record
  {
    s.attributes["id" := Str(s.id)]["userId" := Str(s.userId)]["expiresAt" := Num(s.expiresAt)]
  }

  /** The object `{ ...attributes, id }`. */
  function UserAsRecord(u: DatabaseUser): Record
  {
    u.attributes["id" := Str(u.id)]
  }

  /** The value `setSession` stores: `{ ...session, expiresAt: session.expiresAt.getTime() }`.
      The spread copies the `attributes` field itself, so the attributes end up
      nested one level down. */
  function StoredSession(s: DatabaseSession): (raw: Record)
    ensures IsSessionRecord(raw)
  {
    map["id" := Str(s.id), "userId" := Str(s.userId), "expiresAt" := Num(s.expiresAt),
        "attributes" := Obj(s.attributes)]
  }

  /** `{ ...stored, expiresAt: expiresAt.getTime() }`, the renewed value of `updateSessionExpiration`. */
  function Renew(raw: Record, expiresAt: int): (r: Record)
    requires IsSessionRecord(raw)
    ensures IsSessionRecord(r)
  {
    raw["expiresAt" := Num(expiresAt)]
  }

  /** Splitting a stored session and putting it back together gives the same record:
      the split loses no field. */
  lemma SessionSplitIsLossless(raw: Record)
    requires IsSessionRecord(raw)
    ensures SessionAsRecord(TransformIntoDatabaseSession(raw)) == raw
  {
  }

  /** A session whose attributes do not use the three field names is recovered
      from `{ ...attributes, id, userId, expiresAt }`. */
  lemma SessionSplitInvertsRebuild(s: DatabaseSession)
    requires s.attributes.Keys !! SessionFields
    ensures IsSessionRecord(SessionAsRecord(s))
    ensures TransformIntoDatabaseSession(SessionAsRecord(s)) == s
  {
  }

  lemma UserSplitIsLossless(raw: Record)
    requires IsUserRecord(raw)
    ensures UserAsRecord(TransformIntoDatabaseUser(raw)) == raw
  {
  }

  lemma UserSplitInvertsRebuild(u: DatabaseUser)
    requires "id" !in u.attributes
    ensures IsUserRecord(UserAsRecord(u))
    ensures TransformIntoDatabaseUser(UserAsRecord(u)) == u
  {
  }

  /** Reading back what `setSession` stored gives the same id, user and expiry,
      and attributes that hold a single field `attributes` with the original ones inside. */
  lemma ReadBackNestsAttributes(s: DatabaseSession)
    ensures TransformIntoDatabaseSession(StoredSession(s))
         == DatabaseSession(s.id, s.userId, s.expiresAt, map["attributes" := Obj(s.attributes)])
  {
  }

  /** A value never holds itself under a field. */
  lemma NotOwnField(v: Value, k: string)
    ensures v.Obj? && k in v.fields ==> v.fields[k] != v
  {
  }

  /** So the attributes read back are never the attributes written. */
  lemma AttributesDoNotRoundTrip(s: DatabaseSession)
    ensures TransformIntoDatabaseSession(StoredSession(s)).attributes != s.attributes
  {
    ReadBackNestsAttributes(s);
    if map["attributes" := Obj(s.attributes)] == s.attributes {
      NotOwnField(Obj(s.attributes), "attributes");
      assert false;
    }
  }

  /** Renewal changes the expiry of the session read back and nothing else. */
  lemma RenewChangesOnlyExpiry(raw: Record, expiresAt: int)
    requires IsSessionRecord(raw)
    ensures TransformIntoDatabaseSession(Renew(raw, expiresAt))
         == TransformIntoDatabaseSession(raw).(expiresAt := expiresAt)
  {
  }
}
