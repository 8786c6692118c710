# Durable state of the WhatsApp–Matrix bridge, modelled in Dafny

The bridge keeps three in-memory collections of live wrapper objects:

- users, indexed by Matrix ID and, once logged in, by WhatsApp JID;
- portals, indexed by portal key and, once a room exists, by room ID;
- puppets, indexed by JID and, when a real Matrix account is linked, by custom MXID.

Each collection is saved to disk as a snapshot and loaded back at startup. Loading merges records into the indexes without replacing a wrapper that already exists, because other parts of the bridge hold references to it. A periodic save loop writes every collection whose dirty flag is set, clears the flags, and writes the Matrix sync resume cursor when it has moved. Portal keys also have small constructors and a printable form.

The project has five modules:

- `Wrappers`: `Option` and `Result`.
- `Types`: the identifier types, Go's `uint64` as a bounded newtype, and errors.
- `Database`: the persisted records and the portal-key functions.
- `Reconcile`: a generic, value-level definition of what a load does to one index (`Step` for one record, `Merge` for a sequence). It also defines what a snapshot of an index is (`IsSnapshot`), and holds the lemmas about both.
- `Bridge`: the imperative model.
  - The wrapper classes `User`, `Portal` and `Puppet` each have the record field that a load reassigns.
  - The `Bridge` class has the six maps, the three dirty flags and the cursor.
  - Each collection has a ghost `Index` value. The `UsersValid`, `PortalsValid` and `PuppetsValid` predicates say that this value is what the two maps and the wrappers they point to hold.
  - Every load method is proved to change that value exactly as `Merge` says. Every save method is proved to produce an `IsSnapshot` of it.

File and codec work becomes method parameters:

- what `load` read, or its error;
- how `save` or the cursor write went;
- what reading the cursor file gave: contents, missing, or another error.

A missing snapshot file is a successful load of an empty sequence (`load` returns nil in that case, db.go:33-35).

## Model

| member | source | states |
|---|---|---|
| Database.PortalKey.String | database/portal.go:47-52 | the printed key starts with the JID, and it is the JID alone exactly when the receiver equals the JID |
| Database.GroupPortalKey | database/portal.go:30-35 | JID and receiver are both the given JID, and the key prints as that JID |
| Database.NewPortalKey | database/portal.go:37-45 | the JID is kept; a JID ending in "@g.us" forces receiver == JID, any other JID keeps the given receiver |
| Database.NewPortalKeyOfGroup | database/portal.go:30-45 | for a group JID, NewPortalKey equals GroupPortalKey whatever the receiver, and prints as the JID |
| Database.NewPortalKeyIdempotent | database/portal.go:37-45 | rebuilding a key from its own JID and receiver gives the same key |
| Database.ParseString | database/portal.go:47-52 | the printed form determines the key whenever the JID contains no '-' (splitting at the first '-' recovers JID and receiver); dashed group JIDs are outside this, see StringCollision |
| Database.PortalKeyExamples | database/portal.go:30-45 | examples of the group-JID rule: "123@g.us" overrides the receiver, "123@net" keeps "456", GroupPortalKey("123@g.us") has both parts "123@g.us" |
| Database.StringCollision | database/portal.go:47-52 | the printed form is not injective: the group key of "1-2@g.us" prints like PortalKey("1", "2@g.us"), and splitting at the first '-' reads back the latter |
| Reconcile.MergeKeys | db.go:153-164 | after a merge the primary keys are the old keys plus the keys of the loaded records |
| Reconcile.MergeUnloaded | db.go:153-164 | a primary key that does not occur in the loaded data keeps its record |
| Reconcile.MergeLastWins | db.go:154-163 | a loaded key ends up holding the last loaded record with that key, whether its wrapper existed or the first occurrence created it |
| Reconcile.MergePrimary | db.go:153-164 | the three primary-map facts together: key set, unloaded keys unchanged, last occurrence wins |
| Reconcile.LastExists | db.go:153-164 | every loaded key has a last occurrence, so MergeLastWins covers every loaded key |
| Reconcile.MergeSecondaryKey | db.go:159-163 | a key is in the secondary map after a merge iff it was before or a record that created a wrapper carries it as a non-empty secondary key |
| Reconcile.MergeSecondaryKeys | db.go:159-163 | the same for all keys at once |
| Reconcile.MergeSecondaryKeptAt | db.go:155-163 | a secondary key carried by no creating record keeps its old entry |
| Reconcile.MergeSecondaryKept | db.go:155-163 | the same for all such keys |
| Reconcile.MergeSecondaryLastAt | db.go:159-163 | the last creating record with a given secondary key leaves that key pointing at its own primary key |
| Reconcile.MergeSecondaryLast | db.go:159-163 | the same for every such record |
| Reconcile.LastInsertExists | db.go:159-163 | every secondary key carried by some creating record has a last such record |
| Reconcile.MergeSecondaryValue | db.go:155-163 | each key of the merged secondary map points at the primary key of the last creating record carrying it, or, when none carries it, keeps its old entry |
| Reconcile.MergeSecondary | db.go:155-163 | the secondary map after a merge in full: its key set, the entries kept, and for every inserted key the last creating record that owns it |
| Reconcile.StaleSecondary | db.go:154-158 | reloading a record into an existing wrapper keeps every secondary entry pointing at it, whatever secondary key the new record carries |
| Bridge.StaleUserJID | db.go:154-158 | a user indexed under JID "j1" and reloaded with an empty JID still has the "j1" entry |
| Reconcile.MergeExistingKeepsSecondary | db.go:154-158 | when every loaded key already has a wrapper, the secondary map and the primary key set do not change (the `continue` path) |
| Reconcile.StepKeepsWellFormed | db.go:153-164 | one loaded record keeps every record under its own key and every secondary entry pointing at an indexed wrapper |
| Reconcile.MergeKeepsWellFormed | db.go:153-164 | a whole merge keeps the index well formed in the same sense |
| Reconcile.PartialSnapshotStep | db.go:218-221 | appending the record of a key not yet copied extends a snapshot in progress, with that key removed from the keys still to go |
| Reconcile.PartialSnapshotDone | db.go:216-221 | a copy that has visited every key and has the map's length is a snapshot |
| Reconcile.SnapshotCounts | db.go:216-221 | a snapshot holds each record of the primary map exactly once (multiset count 1) and nothing else |
| Reconcile.ReloadSnapshot | db.go:153-164 | loading a snapshot into empty indexes gives back exactly the primary map it was taken from |
| Reconcile.ReloadKeys | db.go:153-164 | loading a snapshot into empty indexes gives the snapshot's key set |
| Reconcile.ReloadRecord | db.go:153-164 | loading a snapshot into empty indexes gives each key its record |
| Reconcile.ReloadOwnSnapshot | db.go:153-164 | re-loading an index's own snapshot into it changes nothing: no new wrapper, same secondary map, same records |
| Bridge.TickPlan | db.go:95-122 | a tick writes a collection iff its flag was set and the cursor iff it moved, each target at most once, in the order users, portals, puppets, cursor |
| Bridge.ReadCursor | db.go:71-82 | file contents become the cursor; a missing file or a read error gives ""; an error is returned exactly on a read error, and it is that error |
| Bridge.Bridge.LoadNextBatch | db.go:71-82 | the cursor and the returned error are those ReadCursor gives for the read outcome |
| Bridge.Bridge.SaveNextBatch | db.go:84-86 | writes the current cursor and returns the write's outcome |
| Bridge.Bridge.SaveChanged | db.go:95-115 | the collections saved are exactly the dirty ones, in the fixed order, whatever earlier saves returned; each write is a snapshot of its index |
| Bridge.Bridge.SaveTick | db.go:95-122 | all three flags are false afterwards even when a save failed; the writes follow TickPlan of the flags at the start and of prevNextBatch != cursor; each is a snapshot of its index or the current cursor; the returned prevNextBatch is the current cursor even if the write failed |
| Bridge.Bridge.LoadUsers | db.go:147-167 | on a load error nothing changes and that error is returned; otherwise the user index becomes Merge of the old one with the loaded records, existing wrappers stay the same objects under their keys, and every wrapper not there before is fresh |
| Bridge.Bridge.MergeUser | db.go:153-164 | one loop iteration: the index becomes Step of the old index and the record; old wrappers are kept and new ones are fresh |
| Bridge.Bridge.UpdateUser | db.go:154-158 | the existing wrapper gets the loaded record in place; neither map changes and the index becomes Step |
| Bridge.Bridge.AddUser | db.go:159-163 | a fresh wrapper is added under the Matrix ID and nothing else in that map changes; the JID map gains it iff the JID is non-empty (through Step) |
| Bridge.Bridge.SaveUsers | db.go:213-228 | the copy is a snapshot of the user index's primary map (length, each record once, keys consistent); the save's outcome is returned |
| Bridge.Bridge.LoadPortals | db.go:169-189 | as LoadUsers, for portals keyed by PortalKey with the room ID as secondary key |
| Bridge.Bridge.MergePortal | db.go:175-186 | as MergeUser, for portals |
| Bridge.Bridge.UpdatePortal | db.go:176-180 | as UpdateUser, for portals |
| Bridge.Bridge.AddPortal | db.go:181-185 | as AddUser, for portals |
| Bridge.Bridge.SavePortals | db.go:230-245 | as SaveUsers, for portals |
| Bridge.Bridge.LoadPuppets | db.go:191-211 | as LoadUsers, for puppets keyed by JID with the custom MXID as secondary key |
| Bridge.Bridge.MergePuppet | db.go:197-208 | as MergeUser, for puppets |
| Bridge.Bridge.UpdatePuppet | db.go:198-202 | as UpdateUser, for puppets |
| Bridge.Bridge.AddPuppet | db.go:203-207 | as AddUser, for puppets |
| Bridge.Bridge.SavePuppets | db.go:247-262 | as SaveUsers, for puppets |

## Left out

- The `load` and `save` bodies (db.go:31-69), which are gzip, gob and file open/close/rename. What they return is a parameter; compression, serialisation and atomic rename are not modelled.
- `ioutil.ReadFile` and `ioutil.WriteFile` (db.go:72, 85) are outcomes passed in (`ReadOutcome`, an optional error).
- The ticker, the channels, `select` and the stop signal of `SaveLoop` (db.go:88-94, 123-126). `SaveTick` is one pass of the tick body, and the caller threads `prevNextBatch` through. The loop receives from `tick.C` twice per iteration (db.go:92-94), so the tick body runs on every second tick; no timing is modelled.
- The collection locks (db.go:152, 165 and the other `*Lock` calls) and all concurrency. Each method runs alone.
- Logging (`bridge.Log.*`).
- The message stubs `SaveMessage`, `DeleteMessage`, `GetMessageByMXID` and `GetMessageByJID` (db.go:129-145), which have no behaviour.
- `NewUser`, `NewPortal` and `NewPuppet` are not shown in the source; they are modelled as the constructors of `User`, `Portal` and `Puppet`, each a fresh wrapper embedding the record and nothing else.
- database/puppet.go is not part of this model. The puppet record keeps only its JID and custom MXID.
- `Portal.LastMessage` (database/portal.go:63), because the message type is not part of this model.
- The go-whatsapp `Session` structure is an opaque byte sequence.
- Records are values. The Go slices hold pointers to records, but nothing in the core compares or mutates them through those pointers.
- Go's map iteration order is unspecified, so the order of a snapshot is left open. Each save method picks the next key with `:|` from the keys not yet copied, and its contract says only that the result lists each record once (`IsSnapshot`).
- Bridge.Bridge.SaveUsers, Bridge.Bridge.SavePortals and Bridge.Bridge.SavePuppets build the copy as a sequence that grows by one record per visited key, where the source writes into a preallocated slice through a running index; the contract gives the copy the same length and contents as that slice.
- Bridge.Bridge.SaveTick clears the three flags after the three saves, while the source clears each one right after its own save. Without concurrency the end state is the same.
- Bridge.Bridge.AddUser, Bridge.Bridge.AddPortal and Bridge.Bridge.AddPuppet overwrite an existing secondary entry with the new wrapper, as the Go map assignment does. That entry's old owner loses it (`MergeSecondaryLast`).
- A record reloaded into an existing wrapper with a changed or empty secondary key leaves the secondary map as it was (`MergeExistingKeepsSecondary`, `StaleSecondary`, `StaleUserJID`): the old key stays and the new one is not entered, so a secondary entry can outlive the field it was derived from. This is what the `continue` in the source does, and the model keeps it. When a collection is loaded into empty indexes, the path is taken only by a key that occurs twice in the loaded data.
