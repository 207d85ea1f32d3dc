# Deno KV session adapter for Lucia, modelled in Dafny

This project models `DenoKVAdapter` (mod.ts), the session store that the Lucia
authentication framework uses on top of Deno KV. Each session is kept twice:

- a **primary** record under `["sessions", id]`;
- a **by-user index** record under `["sessions_by_user", userId, id]`, holding a copy of the same value.

Every write touches both keys in one atomic commit. Creating a session is
guarded by "both keys absent" checks. Renewing or deleting a session reads the
primary record and then writes both keys without a guard. Deleting all of a
user's sessions scans the index under the user's prefix and deletes one pair
per entry it finds. The central property proved is that primary records and
the index stay in sync (`Protocol.InSync`): a primary exists exactly when its
index entry exists, both hold the same item, and the user part of the index key
is the owner named in the value. Every mutating operation keeps this true.

Files:

- `wrappers.dfy`: `Option`, standing for `null` results.
- `js_values.dfy`: the JavaScript values that are stored. A `Record` is a plain object.
- `key_order.dfy`: the order in which the store lists string key parts. It compares code points, which is the same as comparing UTF-8 bytes, and a proper prefix comes first. The file proves that this is a strict total order and that every finite set has a least element.
- `deno_kv.dfy`: the store interface the adapter uses, as a class `Kv` holding a `map<Key, Item>`. It offers a point read (`Get`), a prefix scan read to the end (`ListByUser`, in key order), and an all-or-nothing commit (`Commit`) guarded by "key absent" checks.
- `records.dfy`: the pure helpers `transformIntoDatabaseSession` and `transformIntoDatabaseUser`, the value `setSession` stores, and the value `updateSessionExpiration` writes back.
- `protocol.dfy`: the sync invariant, and one function per mutating operation giving the store after it. The lemmas state what each operation promises.
- `adapter.dfy`: the class `DenoKVAdapter`. Its methods call the `Kv` object and are proved against the functions of `protocol.dfy`. Its object invariant is `Valid()`.

The current time (`Date.now()`) is a parameter `now` of `SetSession` and
`UpdateSessionExpiration`. The TTL `expireIn = expiresAt - now` is kept beside
each stored value as inert data. Dates are integer millisecond counts.

Two behaviours of the code are modelled as written:

- A create on a taken id is silent: the code ignores the commit's outcome (mod.ts:40-49), so the store is left unchanged and `SetSession` reports nothing.
- Attributes do not round-trip: the spread at mod.ts:43 copies the `attributes` field itself into the stored value. The read at mod.ts:116 then gathers every field other than `id`, `userId` and `expiresAt` into the attributes. So a session reads back with attributes `{ attributes: <original attributes> }`. `Records.ReadBackNestsAttributes` proves this, and `Records.AttributesDoNotRoundTrip` proves that the read-back attributes never equal the ones written.

## Model

| member | source | states |
|---|---|---|
| `Records.TransformIntoDatabaseSession` | mod.ts:115-123 | `id`, `userId` and `expiresAt` are taken from the record's fields. The attributes hold exactly the other fields, with their values unchanged. |
| `Records.SessionSplitIsLossless` | mod.ts:115-123 | Putting a split session back together as `{ ...attributes, id, userId, expiresAt }` gives back the stored record, so no field is lost. |
| `Records.SessionSplitInvertsRebuild` | mod.ts:115-123 | A session whose attributes avoid the three field names is recovered exactly from `{ ...attributes, id, userId, expiresAt }`. |
| `Records.TransformIntoDatabaseUser` | mod.ts:125-131 | `id` is taken from the record. The attributes hold exactly the other fields, unchanged. |
| `Records.UserSplitIsLossless` | mod.ts:125-131 | Rebuilding `{ ...attributes, id }` from a split user gives back the stored record. |
| `Records.UserSplitInvertsRebuild` | mod.ts:125-131 | A user whose attributes have no `id` field is recovered exactly from `{ ...attributes, id }`. |
| `Records.StoredSession` | mod.ts:43-46 | The value `setSession` stores has the `Session` shape: string `id` and `userId`, and a number `expiresAt`. |
| `Records.ReadBackNestsAttributes` | mod.ts:43-46 | Reading back a stored session gives the same id, owner and expiry. The attributes come back as a single field `attributes` holding the originals. |
| `Records.AttributesDoNotRoundTrip` | mod.ts:115-123 | For every session, the attributes read back differ from the attributes written. |
| `Records.Renew` | mod.ts:58 | The renewed value keeps the `Session` shape. |
| `Records.RenewChangesOnlyExpiry` | mod.ts:58 | The renewed value reads back as the old session with only `expiresAt` replaced. |
| `Protocol.InSync` | mod.ts:36-89 | The sync invariant: a primary `["sessions", id]` exists exactly when an index entry for `id` exists. Both hold the same item, the value is a session record naming `id`, and the user part of the index key is the value's `userId`. |
| `Protocol.InSyncJoinsIds` | mod.ts:36-89 | In a store that is in sync, the ids with a primary record are exactly the ids with an index entry, and each id has its index entry under one user only. |
| `Protocol.EmptyIsConsistent` | mod.ts:9-13 | An empty store is in sync and its user records are well formed, so the adapter can start from it. |
| `Protocol.Created` | mod.ts:36-49 | If either key is taken, the store is unchanged and nothing is reported. Otherwise both keys get the same item: the stored session with `expireIn = expiresAt - now`. No other key is added or changed. |
| `Protocol.CreatedKeepsConsistent` | mod.ts:36-49 | Creating a session keeps primary and index in sync. |
| `Protocol.CreatedReadsBack` | mod.ts:36-49 | After a successful create, the primary and the index copy both read back as the session written, with its attributes nested. |
| `Protocol.Renewed` | mod.ts:52-67 | With no primary record the store is unchanged. Otherwise the primary and `["sessions_by_user", storedUserId, id]` both get the stored value with the new `expiresAt` and the new `expireIn`. No other key changes and no key is added. |
| `Protocol.RenewedKeepsConsistent` | mod.ts:52-67 | Renewing keeps primary and index in sync. |
| `Protocol.RenewedReadsBack` | mod.ts:52-67 | After a renewal, both copies read back as before with only the new expiry. |
| `Protocol.Deleted` | mod.ts:69-77 | With no primary record the store is unchanged. Otherwise exactly the primary key and the index key of the stored owner are removed. Every remaining key keeps its item. |
| `Protocol.DeletedKeepsConsistent` | mod.ts:69-77 | Deleting a session keeps primary and index in sync. |
| `Protocol.DeletedIsIdempotent` | mod.ts:69-77 | Deleting a session twice gives the same store as deleting it once. |
| `Protocol.DeletedUndoesCreated` | mod.ts:36-77 | Deleting a session right after creating it gives back the store it was created in. |
| `Protocol.DeletedAll` | mod.ts:79-89 | Afterwards no index key of the user remains. The only keys removed are the primary and index keys of the sessions listed under the user. Every other key keeps its item. |
| `Protocol.DeletedAllKeepsConsistent` | mod.ts:79-89 | Deleting all of a user's sessions keeps primary and index in sync. |
| `Protocol.DeletedAllIsIdempotent` | mod.ts:79-89 | Deleting a user's sessions twice gives the same store as doing it once. |
| `Protocol.PrefixDeletedKeepsConsistent` | mod.ts:83-88 | Removing the pairs of any subset of a user's listed sessions keeps the store in sync. So the store is in sync between the per-entry commits too. |
| `Protocol.ScanDeleteStep` | mod.ts:83-88 | At each step of the bulk delete, the scanned entry's value names its own id and the scanned user. Its pair is still present, and the two-key delete removes exactly that pair. |
| `Protocol.CreateRenewDeleteScenario` | mod.ts:36-77 | On an empty store, after creating `s1` for `u1` it is the only session listed under `u1`. After renewing it, both copies carry the new expiry. After deleting it, neither the primary nor any index entry of `u1` is left. |
| `DenoKv.Kv.Get` | mod.ts:56 | A point read returns the stored value exactly when the key is present. |
| `DenoKv.Kv.ListByUser` | mod.ts:26-28 | The scan under `["sessions_by_user", u]` lists every index entry of `u` once, with its stored value, in strictly increasing key order. |
| `DenoKv.Kv.Commit` | mod.ts:40-49 | The commit succeeds exactly when every checked key is absent. On success all writes are applied in order. On failure nothing is written. |
| `Adapter.DenoKVAdapter.constructor` | mod.ts:9-13 | The adapter wraps the given store, which must already be in sync. |
| `Adapter.DenoKVAdapter.GetSessionAndUser` | mod.ts:15-23 | If the primary is absent, the result is `(null, null)`. If the primary exists but `["users", userId]` does not, the result is `(session, null)`. If both exist, both are returned transformed. The session's id is the id asked for. |
| `Adapter.DenoKVAdapter.GetUserSessions` | mod.ts:25-34 | Returns exactly the sessions indexed under the user, each once and in key order. Each is the transformed index value and belongs to that user. The store is not changed. |
| `Adapter.DenoKVAdapter.SetSession` | mod.ts:36-50 | The new store is `Created(old store, session, now)`, and the invariant is kept. |
| `Adapter.DenoKVAdapter.UpdateSessionExpiration` | mod.ts:52-67 | The new store is `Renewed(old store, id, expiresAt, now)`, and the invariant is kept. |
| `Adapter.DenoKVAdapter.DeleteSession` | mod.ts:69-77 | The new store is `Deleted(old store, id)`, and the invariant is kept. |
| `Adapter.DenoKVAdapter.DeleteUserSessions` | mod.ts:79-89 | After one two-key commit per scanned entry, the new store is `DeletedAll(old store, userId)`, and the invariant is kept. |
| `Adapter.DenoKVAdapter.DeleteExpiredSessions` | mod.ts:91-93 | Does nothing: the method has no modifies clause, and the invariant still holds. |
| `Adapter.DenoKVAdapter.GetSession` | mod.ts:95-99 | Returns `null` exactly when the primary is absent. Otherwise it returns the transformed primary, whose id is the one asked for. The index entry of its owner reads back as the same session. |
| `Adapter.DenoKVAdapter.GetUserFromSessionId` | mod.ts:101-112 | Returns a user exactly when the primary exists and the user record of its stored `userId` exists. The user is that record, transformed. |

## Left out

- The Deno KV engine is modelled only through the contracts of `Kv`. Its key-to-bytes encoding, versionstamps other than the "absent" check, and its storage are not modelled.
- Passive TTL expiry is not modelled. `expireIn` is stored and never acted on, time does not pass, and a negative `expireIn` is stored like any other.
- `Date.now()` is the parameter `now`. `Date` values are integer millisecond counts. JavaScript numbers are taken to be integers.
- Concurrency is left out: racing callers, the `Promise.all` in `getSessionAndUser` (both reads see the same state here), and writes that land during the scan of `deleteUserSessions`. Each operation is one sequential step.
- The scan's async iteration and batching are not modelled. `kv.list` is the snapshot `ListByUser` returns, read to the end before the loop starts.
- Store failures (I/O errors, rejected commits of the unguarded writes) are not modelled. The unguarded commits always succeed here.
- `DenoKVAdapter.constructor`: requires the store to be in sync and user records to have a string `id`. The code trusts its TypeScript types for the user records. The sync requirement holds for any store written only through the adapter, starting from an empty one: the empty store is consistent (`Protocol.EmptyIsConsistent`) and every mutating method keeps consistency.
- Strings are sequences of Unicode scalar values. JavaScript strings with lone surrogates are not modelled.
