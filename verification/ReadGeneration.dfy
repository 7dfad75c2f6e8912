/**
 The read generation: one counter, handed out with every read, that guards edits, deletes,
 provider bindings, conflict resolutions and sync commits. The database is a value changed by
 whole transactions whose last step is a fence; the runtime adds the counter. Payload digests
 stand for the payloads themselves.
 */
module ReadGeneration {
  import opened Basics
  import Text

  const ConflictReadLimit := 1000

  // ----- Durable state -----

  /** Field values and the lifecycle status are held as their JSON text. */
  datatype Asset = Asset(version: nat, deleted: bool, status: string, fields: map<string, string>)

  const ArchivedStatus := "\"archived\""

  datatype Operation = Edit(fields: map<string, string>) | Delete
  datatype Delivery = Pending | Sending | Acknowledged | Rejected | Conflicted
  datatype Outgoing = Outgoing(entity: string, operation: Operation, device: string, delivery: Delivery)

  datatype Observation = Observation(connection: string, resource: string, digest: string, generation: nat)
  datatype Binding = Binding(observed: Observation, verified: bool, sequence: nat)

  datatype Candidate = Candidate(
    id: string, entity: string, path: string, remoteValue: string, localHash: string,
    revision: nat, version: nat, open: bool)

  datatype Choice = AcceptRemote | KeepLocal
  datatype Receipt = Receipt(
    candidateId: string, setVersion: nat, candidateVersion: nat, revision: nat, hash: string, choice: Choice)

  datatype Database = Database(
    assets: map<string, Asset>, sequence: nat, outbox: map<string, Outgoing>,
    connection: Option<string>, observations: map<string, Observation>, bindings: map<string, Binding>,
    conflicts: seq<Candidate>, receipts: map<string, Receipt>,
    applied: nat, caughtUp: bool, recovery: bool, activity: nat)

  /** The hash of a value, left arbitrary. */
  datatype Host = Host(valueHash: string -> string)

  datatype Error =
    | InvalidInput | MutationStale | MutationConflict | AssetNotFound | AssetDeleted
    | BindingUnavailable | SequenceExhausted | StorageRejected | FenceRejected

  datatype Outcome = Committed | Replayed | Done | Failed(error: Error)

  // ----- What reads show -----

  function WithDelivery(outbox: map<string, Outgoing>, states: set<Delivery>): set<string> {
    set id | id in outbox && outbox[id].delivery in states
  }

  function OpenCount(conflicts: seq<Candidate>): nat {
    if conflicts == [] then 0
    else OpenCount(conflicts[..|conflicts| - 1]) + if conflicts[|conflicts| - 1].open then 1 else 0
  }

  function FirstConflicts(conflicts: seq<Candidate>): seq<Candidate> {
    if |conflicts| <= ConflictReadLimit then conflicts else conflicts[..ConflictReadLimit]
  }

  /** Everything the stamped reads show: library and detail, connection, observation, bindings, conflicts, snapshot. */
  datatype View = View(
    assets: map<string, Asset>, connection: Option<string>, observations: map<string, Observation>,
    bindings: map<string, Binding>,
    conflicts: seq<Candidate>, openConflicts: nat, pending: nat, rejected: nat,
    recovery: bool, applied: nat, activity: nat)

  function Seen(db: Database): View {
    View(db.assets, db.connection, db.observations, db.bindings, FirstConflicts(db.conflicts), OpenCount(db.conflicts),
         |WithDelivery(db.outbox, {Pending, Sending})|, |WithDelivery(db.outbox, {Rejected})|,
         db.recovery, db.applied, db.activity)
  }

  // ----- Database transactions -----

  /** An edit or delete, made once for its mutation id. */
  function Mutate(db: Database, id: string, entity: string, version: nat, operation: Operation, device: string,
                  allowNew: bool, replayGuard: Option<Error>, guard: Option<Error>): (Outcome, Database)
  {
    if id in db.outbox then
      var row := db.outbox[id];
      if row.entity != entity || row.operation != operation || row.device != device then (Failed(MutationConflict), db)
      else if replayGuard.Some? then (Failed(replayGuard.value), db)
      else (Replayed, db)
    else if !allowNew then (Failed(MutationStale), db)
    else if entity !in db.assets then (Failed(AssetNotFound), db)
    else if db.assets[entity].deleted then (Failed(AssetDeleted), db)
    else if db.assets[entity].version != version then (Failed(MutationStale), db)
    else if guard.Some? then (Failed(guard.value), db)
    else
      var was := db.assets[entity];
      var asset := if operation.Edit? then was.(version := db.sequence + 1, fields := operation.fields)
                   else was.(version := db.sequence + 1, deleted := true, status := ArchivedStatus);
      (Committed, db.(assets := db.assets[entity := asset], sequence := db.sequence + 1,
                      outbox := db.outbox[id := Outgoing(entity, operation, device, Pending)]))
  }

  /** Binds an asset to its latest committed observation, which the caller does not name. */
  function BindLatest(db: Database, entity: string, allowNew: bool, capacity: bool, fence: bool): (Outcome, Database) {
    if entity !in db.observations || entity !in db.assets || db.assets[entity].deleted then
      (Failed(BindingUnavailable), db)
    else
      var latest := db.observations[entity];
      var bound := Binding(latest, true, db.sequence + 1);
      var next := db.(bindings := db.bindings[entity := bound], sequence := db.sequence + 1);
      if entity in db.bindings && (db.bindings[entity].observed.connection != latest.connection
                                   || db.bindings[entity].observed.resource != latest.resource
                                   || latest.generation < db.bindings[entity].observed.generation) then
        (Failed(MutationConflict), db)
      else if entity in db.bindings && db.bindings[entity].observed == latest && db.bindings[entity].verified then
        (if fence then Replayed else Failed(FenceRejected), db)
      else if !allowNew then (Failed(MutationStale), db)
      else if !capacity then (Failed(SequenceExhausted), db)
      else if !fence then (Failed(FenceRejected), db)
      else (Committed, next)
  }

  function Find(conflicts: seq<Candidate>, id: string): (i: nat)
    ensures i <= |conflicts|
    ensures i < |conflicts| ==> conflicts[i].id == id
    ensures forall j :: 0 <= j < i ==> conflicts[j].id != id
  {
    if conflicts == [] || conflicts[0].id == id then 0 else 1 + Find(conflicts[1..], id)
  }

  const ProductFields := {"note", "portfolioId", "tags", "targetPrice"}

  function FieldValue(a: Asset, path: string): string {
    if path == "lifecycleStatus" then a.status else if path in a.fields then a.fields[path] else "null"
  }

  /** The values of all product fields, as an upsert carries them. */
  function Projection(a: Asset): map<string, string> {
    map path | path in ProductFields :: FieldValue(a, path)
  }

  predicate Free(db: Database, entity: string) {
    forall id :: id in db.outbox && db.outbox[id].entity == entity ==> !db.outbox[id].delivery.Sending?
  }

  /** The candidate is open and everything the caller saw of it still holds. */
  predicate Current(h: Host, db: Database, i: nat, r: Receipt)
    requires i < |db.conflicts| && db.conflicts[i].entity in db.assets
  {
    var c := db.conflicts[i];
    c.open && c.version == r.candidateVersion && c.revision == r.revision
    && h.valueHash(FieldValue(db.assets[c.entity], c.path)) == r.hash && c.localHash == r.hash
    && db.applied == r.setVersion && db.caughtUp && Free(db, c.entity)
  }

  /** The asset with a candidate's remote value, under the version it had; a remote deletion archives it. */
  function Accepted(a: Asset, c: Candidate): Asset {
    if c.path == "lifecycleStatus" then a.(deleted := true, status := ArchivedStatus)
    else a.(fields := a.fields[c.path := c.remoteValue])
  }

  function Resolved(db: Database, resolutionId: string, r: Receipt, i: nat, device: string): Database
    requires i < |db.conflicts| && db.conflicts[i].entity in db.assets
  {
    var c := db.conflicts[i];
    var closed := db.(conflicts := db.conflicts[i := c.(open := false)], receipts := db.receipts[resolutionId := r]);
    if r.choice.AcceptRemote? then
      closed.(assets := db.assets[c.entity := Accepted(db.assets[c.entity], c)])
    else
      closed.(sequence := db.sequence + 1,
              outbox := db.outbox["resolution-" + resolutionId :=
                Outgoing(c.entity, Edit(Projection(db.assets[c.entity])), device, Pending)])
  }

  /** Resolves one candidate, once for its resolution id. */
  function ResolveOne(h: Host, db: Database, resolutionId: string, r: Receipt, device: string, guard: Option<Error>)
    : (Outcome, Database)
  {
    if resolutionId in db.receipts then
      if db.receipts[resolutionId] != r then (Failed(MutationConflict), db)
      else if guard.Some? then (Failed(guard.value), db)
      else (Replayed, db)
    else
      var i := Find(db.conflicts, r.candidateId);
      if i == |db.conflicts| || db.conflicts[i].entity !in db.assets then (Failed(AssetNotFound), db)
      else if db.conflicts[i].path !in ProductFields + {"lifecycleStatus"} then (Failed(InvalidInput), db)
      else if !Current(h, db, i, r) then (Failed(MutationStale), db)
      else if r.choice.KeepLocal? && db.conflicts[i].path == "lifecycleStatus" then (Failed(MutationConflict), db)
      else if r.choice.KeepLocal? && "resolution-" + resolutionId in db.outbox then (Failed(StorageRejected), db)
      else if guard.Some? then (Failed(guard.value), db)
      else (Committed, Resolved(db, resolutionId, r, i, device))
  }

  // ----- What a local commit leaves behind -----

  /** Only one entry of a map may differ, and it is there afterwards. */
  ghost predicate OnlyAt<V>(a: map<string, V>, b: map<string, V>, key: string) {
    b.Keys == a.Keys + {key} && forall k :: k in a && k != key ==> b[k] == a[k]
  }

  lemma UpdatedOnly<V>(a: map<string, V>, key: string, v: V)
    ensures OnlyAt(a, a[key := v], key)
  {}

  /** The asset after an edit or a delete, seen field by field. */
  ghost predicate Takes(was: Asset, now: Asset, operation: Operation) {
    if operation.Edit? then
      now.fields == operation.fields && now.deleted == was.deleted && now.status == was.status
    else
      now.fields == was.fields && now.deleted && now.status == ArchivedStatus
  }

  /**
   A new edit or delete commits exactly for a live asset at the version its caller named. It
   leaves that asset with the requested content under the next sequence number, one pending
   outgoing mutation under its fresh id, and everything else alone.
   */
  lemma MutationCommits(db: Database, id: string, entity: string, version: nat, operation: Operation, device: string,
                        allowNew: bool, replayGuard: Option<Error>, guard: Option<Error>)
    ensures var (o, after) := Mutate(db, id, entity, version, operation, device, allowNew, replayGuard, guard);
      (o.Committed? <==> id !in db.outbox && allowNew && guard.None? && entity in db.assets
                         && !db.assets[entity].deleted && db.assets[entity].version == version)
      && (!o.Committed? ==> after == db)
      && (o.Committed? ==>
            OnlyAt(db.assets, after.assets, entity) && OnlyAt(db.outbox, after.outbox, id)
            && after.assets[entity].version == after.sequence == db.sequence + 1
            && Takes(db.assets[entity], after.assets[entity], operation)
            && after.outbox[id] == Outgoing(entity, operation, device, Pending)
            && after == db.(assets := after.assets, outbox := after.outbox, sequence := after.sequence))
  {}

  /** The binding, if any, is of the observation's connection and resource and not of a later credential. */
  ghost predicate Succeeds(db: Database, entity: string)
    requires entity in db.observations
  {
    entity in db.bindings ==>
      db.bindings[entity].observed.connection == db.observations[entity].connection
      && db.bindings[entity].observed.resource == db.observations[entity].resource
      && db.bindings[entity].observed.generation <= db.observations[entity].generation
  }

  ghost predicate BoundToLatest(db: Database, entity: string)
    requires entity in db.observations
  {
    entity in db.bindings && db.bindings[entity].observed == db.observations[entity] && db.bindings[entity].verified
  }

  /**
   A live asset with an observation that succeeds its binding is bound to that observation;
   where it already is, that is a replay. Nothing else is bound or replayed.
   */
  lemma BindingIsLatest(db: Database, entity: string, allowNew: bool, capacity: bool, fence: bool)
    ensures var (o, after) := BindLatest(db, entity, allowNew, capacity, fence);
      (o.Committed? || o.Replayed? ==>
         fence && entity in db.observations && entity in db.assets && !db.assets[entity].deleted
         && Succeeds(db, entity))
      && (entity in db.observations && entity in db.assets && !db.assets[entity].deleted && Succeeds(db, entity) ==>
            (o.Replayed? <==> fence && BoundToLatest(db, entity))
            && (o.Committed? <==> fence && !BoundToLatest(db, entity) && allowNew && capacity))
      && (!o.Committed? ==> after == db)
      && (o.Committed? ==>
            OnlyAt(db.bindings, after.bindings, entity)
            && after.bindings[entity] == Binding(db.observations[entity], true, db.sequence + 1)
            && after == db.(bindings := after.bindings, sequence := db.sequence + 1))
  {}

  /** Keeping the local value queues one upsert of the whole asset, in which the path reads as its caller saw it. */
  ghost predicate KeepsLocal(h: Host, db: Database, after: Database, c: Candidate, id: string, hash: string,
                             device: string)
    requires c.entity in db.assets
  {
    after.assets == db.assets && after.sequence == db.sequence + 1 && OnlyAt(db.outbox, after.outbox, id)
    && after.outbox[id].entity == c.entity && after.outbox[id].device == device && after.outbox[id].delivery.Pending?
    && after.outbox[id].operation.Edit?
    && var sent := after.outbox[id].operation.fields;
       sent.Keys == {"note", "portfolioId", "tags", "targetPrice"}
       && c.path in sent && h.valueHash(sent[c.path]) == hash
       && forall path :: path in sent ==> sent[path] == FieldValue(db.assets[c.entity], path)
  }

  /** Accepting the remote value queues nothing and changes one path of one asset; a remote deletion archives it. */
  ghost predicate TakesRemote(db: Database, after: Database, c: Candidate)
    requires c.entity in db.assets
  {
    after.outbox == db.outbox && after.sequence == db.sequence && OnlyAt(db.assets, after.assets, c.entity)
    && var was, now := db.assets[c.entity], after.assets[c.entity];
       now.version == was.version
       && (if c.path == "lifecycleStatus" then now.deleted && now.status == "\"archived\"" && now.fields == was.fields
           else now.deleted == was.deleted && FieldValue(now, c.path) == c.remoteValue
                && forall path :: path != c.path ==> FieldValue(now, path) == FieldValue(was, path))
  }

  /** What a resolution leaves: its candidate closed and no other, its receipt, and the choice carried out. */
  ghost predicate ResolutionFrame(h: Host, db: Database, after: Database, i: nat, resolutionId: string, r: Receipt,
                                  device: string)
    requires i < |db.conflicts| && db.conflicts[i].entity in db.assets
  {
    after.conflicts == db.conflicts[i := db.conflicts[i].(open := false)]
    && OnlyAt(db.receipts, after.receipts, resolutionId) && after.receipts[resolutionId] == r
    && (r.choice.KeepLocal? ==>
          KeepsLocal(h, db, after, db.conflicts[i], "resolution-" + resolutionId, r.hash, device))
    && (r.choice.AcceptRemote? ==> TakesRemote(db, after, db.conflicts[i]))
    && after == db.(conflicts := after.conflicts, receipts := after.receipts, outbox := after.outbox,
                    assets := after.assets, sequence := after.sequence)
  }

  lemma QueuedUpsert(h: Host, db: Database, after: Database, c: Candidate, id: string, hash: string, device: string)
    requires c.entity in db.assets && c.path in ProductFields
    requires h.valueHash(FieldValue(db.assets[c.entity], c.path)) == hash
    requires after.assets == db.assets && after.sequence == db.sequence + 1
    requires after.outbox == db.outbox[id := Outgoing(c.entity, Edit(Projection(db.assets[c.entity])), device, Pending)]
    ensures KeepsLocal(h, db, after, c, id, hash, device)
  {
    var sent := after.outbox[id].operation.fields;
    assert sent.Keys == ProductFields;
  }

  lemma RemoteTaken(db: Database, after: Database, c: Candidate)
    requires c.entity in db.assets && after.assets == db.assets[c.entity := Accepted(db.assets[c.entity], c)]
    requires after.outbox == db.outbox && after.sequence == db.sequence
    ensures TakesRemote(db, after, c)
  {
    UpdatedOnly(db.assets, c.entity, Accepted(db.assets[c.entity], c));
  }

  /**
   The candidate is open, the caller named its version, its revision, the present value and the
   present revision of the workspace, the reader has caught up, nothing of the asset is in
   flight, and a local value is kept only where that is not a deletion and under a fresh id.
   */
  ghost predicate Resolvable(h: Host, db: Database, i: nat, resolutionId: string, r: Receipt) {
    i < |db.conflicts| && db.conflicts[i].id == r.candidateId && resolutionId !in db.receipts
    && var c := db.conflicts[i];
       c.open && c.entity in db.assets && c.path in {"note", "portfolioId", "tags", "targetPrice", "lifecycleStatus"}
       && c.version == r.candidateVersion && c.revision == r.revision && c.localHash == r.hash
       && h.valueHash(FieldValue(db.assets[c.entity], c.path)) == r.hash
       && db.applied == r.setVersion && db.caughtUp
       && (forall id :: id in db.outbox && db.outbox[id].entity == c.entity ==> db.outbox[id].delivery != Sending)
       && (r.choice.KeepLocal? ==>
             c.path != "lifecycleStatus" && "resolution-" + resolutionId !in db.outbox)
  }

  lemma ResolvedFrame(h: Host, db: Database, resolutionId: string, r: Receipt, i: nat, device: string)
    requires Resolvable(h, db, i, resolutionId, r)
    ensures ResolutionFrame(h, db, Resolved(db, resolutionId, r, i, device), i, resolutionId, r, device)
  {
    var c, after := db.conflicts[i], Resolved(db, resolutionId, r, i, device);
    UpdatedOnly(db.receipts, resolutionId, r);
    if r.choice.AcceptRemote? {
      RemoteTaken(db, after, c);
    } else {
      QueuedUpsert(h, db, after, c, "resolution-" + resolutionId, r.hash, device);
    }
  }

  /** A resolution commits exactly when its candidate is resolvable and no guard refuses. */
  lemma ResolutionCommits(h: Host, db: Database, resolutionId: string, r: Receipt, device: string, guard: Option<Error>)
    ensures var (o, after) := ResolveOne(h, db, resolutionId, r, device, guard);
      var i := Find(db.conflicts, r.candidateId);
      (o.Committed? <==> guard.None? && Resolvable(h, db, i, resolutionId, r))
      && (!o.Committed? ==> after == db)
      && (o.Committed? ==> ResolutionFrame(h, db, after, i, resolutionId, r, device))
      && (o.Replayed? <==> guard.None? && resolutionId in db.receipts && db.receipts[resolutionId] == r)
  {
    var i := Find(db.conflicts, r.candidateId);
    if Resolvable(h, db, i, resolutionId, r) {
      ResolvedFrame(h, db, resolutionId, r, i, device);
    }
  }

  // ----- Sync transactions -----

  datatype Sync =
    | Acknowledge(ids: set<string>)
    | Close(ids: set<string>, conflicted: bool)
    | ApplyPage(replay: bool, from: nat, returned: nat, changes: map<string, Asset>, news: seq<Candidate>,
                sequence: nat, caughtUp: bool, activity: nat)
    | MarkRebootstrap
    | Claim(ids: set<string>, oversize: set<string>)
    | Defer(ids: set<string>)
    | Observe(entity: string, observation: Observation)
    | Connect(connection: Option<string>)

  function Deliver(outbox: map<string, Outgoing>, ids: set<string>, to: Delivery): map<string, Outgoing> {
    map id | id in outbox :: if id in ids then outbox[id].(delivery := to) else outbox[id]
  }

  predicate AllIn(outbox: map<string, Outgoing>, ids: set<string>, states: set<Delivery>) {
    forall id :: id in ids ==> id in outbox && outbox[id].delivery in states
  }

  /** New candidates are filed after the old ones; one whose id is already filed is ignored. */
  function FileAll(conflicts: seq<Candidate>, news: seq<Candidate>): seq<Candidate> {
    if news == [] then conflicts
    else
      var filed := FileAll(conflicts, news[..|news| - 1]);
      var c := news[|news| - 1];
      if Find(filed, c.id) < |filed| then filed else filed + [c.(open := true)]
  }

  /** A projected mutation takes the next sequence number and leaves it as its asset's version. */
  predicate Numbered(before: nat, changes: map<string, Asset>, after: nat) {
    before <= after && forall k :: k in changes ==> before < changes[k].version <= after
  }

  /** Whether the transaction is admitted, whether it shows, and its result. */
  function SyncResult(db: Database, s: Sync): Option<(bool, Database)> {
    match s
    case Acknowledge(ids) =>
      if ids == {} || !AllIn(db.outbox, ids, {Sending, Acknowledged}) then None
      else Some((!AllIn(db.outbox, ids, {Acknowledged}), db.(outbox := Deliver(db.outbox, ids, Acknowledged))))
    case Close(ids, conflicted) =>
      if ids == {} || !AllIn(db.outbox, ids, {Sending}) then None
      else Some((true, db.(outbox := Deliver(db.outbox, ids, if conflicted then Conflicted else Rejected))))
    case ApplyPage(replay, from, returned, changes, news, sequence, caughtUp, activity) =>
      if db.recovery then None
      else if replay then (if returned == db.applied then Some((false, db)) else None)
      else if from != db.applied || returned < from || !Numbered(db.sequence, changes, sequence) then None
      else Some((true, db.(assets := db.assets + changes, sequence := sequence, applied := returned,
                           conflicts := FileAll(db.conflicts, news), caughtUp := caughtUp, activity := activity)))
    case MarkRebootstrap => Some((!db.recovery, db.(recovery := true)))
    case Claim(ids, oversize) =>
      if ids !! oversize && AllIn(db.outbox, ids + oversize, {Pending, Sending})
      then Some((false, db.(outbox := Deliver(Deliver(db.outbox, ids, Sending), oversize, Rejected))))
      else None
    case Defer(ids) =>
      if ids == {} || !AllIn(db.outbox, ids, {Sending}) then None
      else Some((false, db.(outbox := Deliver(db.outbox, ids, Pending))))
    case Observe(entity, observation) =>
      Some((false, db.(observations := db.observations[entity := observation])))
    case Connect(connection) => Some((false, db.(connection := connection)))
  }

  // ----- The runtime -----

  datatype ResolveRequest = ResolveRequest(
    schemaVersion: nat, expectedGeneration: nat, setVersion: nat, candidateId: string, candidateVersion: nat,
    revision: nat, hash: string, choice: Choice)

  predicate Countable(n: nat) {
    0 < n <= MaxSafeInteger
  }

  predicate ValidResolve(q: ResolveRequest) {
    q.schemaVersion == 1 && q.expectedGeneration < MaxSafeInteger
    && 1 <= q.setVersion <= MaxSafeInteger && 1 <= |q.candidateId| <= 160
    && (forall c :: c in q.candidateId ==> '!' <= c <= '~')
    && 1 <= q.candidateVersion <= MaxSafeInteger && 1 <= q.revision <= MaxSafeInteger
    && |q.hash| == 64 && forall c :: c in q.hash ==> '0' <= c <= '9' || 'a' <= c <= 'f'
  }

  function ReceiptOf(q: ResolveRequest): Receipt {
    Receipt(q.candidateId, q.setVersion, q.candidateVersion, q.revision, q.hash, q.choice)
  }

  /** The candidate is among those a read shows, and open. */
  predicate WasOpen(db: Database, id: string) {
    exists i :: 0 <= i < |FirstConflicts(db.conflicts)|
                && FirstConflicts(db.conflicts)[i].id == id && FirstConflicts(db.conflicts)[i].open
  }

  datatype Runtime = Runtime(db: Database, generation: nat)

  datatype Event =
    | MutateEvent(id: string, entity: string, version: nat, operation: Operation, device: string, expected: nat,
                  fence: bool)
    | BindEvent(schemaVersion: nat, entity: string, expected: nat, fence: bool)
    | ResolveEvent(resolutionId: string, request: ResolveRequest, device: string, fence: bool)
    | SyncEvent(sync: Sync, fence: bool)

  function Fence(fence: bool): Option<Error> {
    if fence then None else Some(FenceRejected)
  }

  function Bumped(r: (Outcome, Database), generation: nat): (Outcome, Runtime) {
    (r.0, Runtime(r.1, if r.0.Committed? then generation + 1 else generation))
  }

  /** Whether a change may commit: a new one needs a free generation, and every one the fence. */
  function Guard(generation: nat, fence: bool, replay: bool): Option<Error> {
    if !replay && generation >= MaxSafeInteger then Some(SequenceExhausted) else Fence(fence)
  }

  function MutateStep(r: Runtime, id: string, entity: string, version: nat, operation: Operation, device: string,
                      expected: nat, fence: bool): (Outcome, Runtime)
  {
    if expected > MaxSafeInteger || version > MaxSafeInteger then (Failed(InvalidInput), r)
    else
      Bumped(Mutate(r.db, id, entity, version, operation, device, expected == r.generation,
                    Guard(r.generation, fence, true), Guard(r.generation, fence, false)),
             r.generation)
  }

  function BindStep(r: Runtime, schemaVersion: nat, entity: string, expected: nat, fence: bool): (Outcome, Runtime) {
    if schemaVersion != 1 || expected > MaxSafeInteger then (Failed(MutationStale), r)
    else if expected == r.generation && r.generation >= MaxSafeInteger then (Failed(SequenceExhausted), r)
    else
      Bumped(BindLatest(r.db, entity, expected == r.generation, r.generation < MaxSafeInteger, fence), r.generation)
  }

  function ResolveStep(h: Host, r: Runtime, resolutionId: string, q: ResolveRequest, device: string, fence: bool)
    : (Outcome, Runtime)
  {
    var wasOpen := WasOpen(r.db, q.candidateId);
    if !ValidResolve(q) then (Failed(InvalidInput), r)
    else if r.generation != q.expectedGeneration + (if wasOpen then 0 else 1) then (Failed(MutationStale), r)
    else
      var (o, db) := ResolveOne(h, r.db, resolutionId, ReceiptOf(q), device, Guard(r.generation, fence, !wasOpen));
      (o, Runtime(db, if wasOpen && !o.Failed? then r.generation + 1 else r.generation))
  }

  function SyncStep(r: Runtime, sync: Sync, fence: bool): (Outcome, Runtime) {
    match SyncResult(r.db, sync)
    case None => (Failed(MutationConflict), r)
    case Some((shows, db)) =>
      if Guard(r.generation, fence, !shows).Some? then (Failed(Guard(r.generation, fence, !shows).value), r)
      else (if shows then Committed else Done, Runtime(db, if shows then r.generation + 1 else r.generation))
  }

  /** One guarded operation, with its outcome. */
  function Step(h: Host, r: Runtime, e: Event): (Outcome, Runtime) {
    match e
    case MutateEvent(id, entity, version, operation, device, expected, fence) =>
      MutateStep(r, id, entity, version, operation, device, expected, fence)
    case BindEvent(schemaVersion, entity, expected, fence) => BindStep(r, schemaVersion, entity, expected, fence)
    case ResolveEvent(resolutionId, q, device, fence) => ResolveStep(h, r, resolutionId, q, device, fence)
    case SyncEvent(sync, fence) => SyncStep(r, sync, fence)
  }

  // ----- When an operation commits -----

  /**
   An edit or delete commits exactly when its caller read the present generation, which is not
   the last, and the present version of a live asset, under a fresh id and behind the fence. It
   is replayed exactly for the same mutation under its id, whatever generation was read.
   */
  lemma EditCommitsExactly(h: Host, r: Runtime, e: Event)
    requires e.MutateEvent?
    ensures var (o, after) := Step(h, r, e);
      (o.Committed? <==>
         e.fence && e.expected == r.generation < MaxSafeInteger && e.version <= MaxSafeInteger
         && e.id !in r.db.outbox && e.entity in r.db.assets && !r.db.assets[e.entity].deleted
         && r.db.assets[e.entity].version == e.version)
      && (o.Committed? ==>
            after.generation == r.generation + 1
            && OnlyAt(r.db.assets, after.db.assets, e.entity) && OnlyAt(r.db.outbox, after.db.outbox, e.id)
            && after.db.assets[e.entity].version == r.db.sequence + 1
            && Takes(r.db.assets[e.entity], after.db.assets[e.entity], e.operation)
            && after.db.outbox[e.id] == Outgoing(e.entity, e.operation, e.device, Pending))
      && (o.Replayed? <==>
            e.fence && e.expected <= MaxSafeInteger && e.version <= MaxSafeInteger && e.id in r.db.outbox
            && r.db.outbox[e.id].entity == e.entity && r.db.outbox[e.id].operation == e.operation
            && r.db.outbox[e.id].device == e.device)
      && (!o.Committed? ==> after == r)
  {
    MutationCommits(r.db, e.id, e.entity, e.version, e.operation, e.device, e.expected == r.generation,
                    Guard(r.generation, e.fence, true), Guard(r.generation, e.fence, false));
  }

  /**
   A binding commits exactly when its caller read the present generation, which is not the
   last, and the latest observation of a live asset succeeds its binding and is not bound yet.
   Where it is, that is a replay, unless the caller read the last generation.
   */
  lemma BindCommitsExactly(h: Host, r: Runtime, e: Event)
    requires e.BindEvent?
    ensures var (o, after) := Step(h, r, e);
      (o.Committed? <==>
         e.fence && e.schemaVersion == 1 && e.expected == r.generation < MaxSafeInteger
         && e.entity in r.db.observations && e.entity in r.db.assets && !r.db.assets[e.entity].deleted
         && Succeeds(r.db, e.entity) && !BoundToLatest(r.db, e.entity))
      && (o.Replayed? <==>
            e.fence && e.schemaVersion == 1 && e.expected <= MaxSafeInteger
            && !(e.expected == r.generation && r.generation >= MaxSafeInteger)
            && e.entity in r.db.observations && e.entity in r.db.assets && !r.db.assets[e.entity].deleted
            && BoundToLatest(r.db, e.entity))
      && (o.Committed? ==>
            after.generation == r.generation + 1 && OnlyAt(r.db.bindings, after.db.bindings, e.entity)
            && after.db.bindings[e.entity] == Binding(r.db.observations[e.entity], true, r.db.sequence + 1))
      && (!o.Committed? ==> after == r)
  {
    BindingIsLatest(r.db, e.entity, e.expected == r.generation, r.generation < MaxSafeInteger, e.fence);
  }

  ghost predicate Fenced(e: Event) {
    match e
    case MutateEvent(_, _, _, _, _, _, fence) => fence
    case BindEvent(_, _, _, fence) => fence
    case ResolveEvent(_, _, _, fence) => fence
    case SyncEvent(_, fence) => fence
  }

  /** Behind a fence that refuses, every operation fails and changes nothing. */
  lemma FenceRefusesAll(h: Host, r: Runtime, e: Event)
    requires !Fenced(e)
    ensures Step(h, r, e).0.Failed? && Step(h, r, e).1 == r
  {}

  /** Rows named take a delivery state, and no row changes otherwise. */
  ghost predicate Redelivers(a: map<string, Outgoing>, b: map<string, Outgoing>, ids: set<string>, to: Delivery) {
    b.Keys == a.Keys
    && forall id :: id in a ==> b[id] == if id in ids then a[id].(delivery := to) else a[id]
  }

  ghost predicate Filed(conflicts: seq<Candidate>, id: string) {
    exists i :: 0 <= i < |conflicts| && conflicts[i].id == id
  }

  lemma {:induction false} FileAllFiles(conflicts: seq<Candidate>, news: seq<Candidate>, k: nat)
    requires k <= |news|
    ensures conflicts <= FileAll(conflicts, news)
    ensures k < |news| ==> Filed(FileAll(conflicts, news), news[k].id)
    ensures forall i :: |conflicts| <= i < |FileAll(conflicts, news)| ==> FileAll(conflicts, news)[i].open
    decreases |news|
  {
    if news != [] {
      var before, c := news[..|news| - 1], news[|news| - 1];
      var filed, all := FileAll(conflicts, before), FileAll(conflicts, news);
      FileAllFiles(conflicts, before, if k < |before| then k else |before|);
      assert filed <= all;
      if k < |before| {
        var i :| 0 <= i < |filed| && filed[i].id == before[k].id;
        assert all[i].id == news[k].id;
      } else if Find(filed, c.id) < |filed| {
        assert all[Find(filed, c.id)].id == c.id;
      } else {
        assert all[|filed|].id == c.id;
      }
    }
  }

  lemma TakenFromPending(outbox: map<string, Outgoing>, ids: set<string>, to: Delivery)
    requires AllIn(outbox, ids, {Pending, Sending}) && !to.Pending? && !to.Sending?
    ensures |WithDelivery(Deliver(outbox, ids, to), {Pending, Sending})| + |ids|
         == |WithDelivery(outbox, {Pending, Sending})|
  {
    assert WithDelivery(Deliver(outbox, ids, to), {Pending, Sending}) == WithDelivery(outbox, {Pending, Sending}) - ids;
    assert ids <= WithDelivery(outbox, {Pending, Sending});
  }

  lemma NoneRejected(outbox: map<string, Outgoing>, ids: set<string>, to: Delivery)
    requires AllIn(outbox, ids, {Pending, Sending, Acknowledged}) && !to.Rejected?
    ensures WithDelivery(Deliver(outbox, ids, to), {Rejected}) == WithDelivery(outbox, {Rejected})
  {}

  /** An acknowledgement takes what was in flight out of the pending count, and shows exactly then. */
  lemma AcknowledgeShows(db: Database, ids: set<string>)
    requires SyncResult(db, Acknowledge(ids)).Some?
    ensures var (shows, after) := SyncResult(db, Acknowledge(ids)).value;
      var inFlight := ids * WithDelivery(db.outbox, {Sending});
      Redelivers(db.outbox, after.outbox, ids, Acknowledged) && (shows <==> inFlight != {})
      && Seen(after).pending + |inFlight| == Seen(db).pending
      && Seen(after) == Seen(db).(pending := Seen(after).pending)
  {
    var inFlight := ids * WithDelivery(db.outbox, {Sending});
    InFlight(db.outbox, ids, inFlight);
    TakenFromPending(db.outbox, inFlight, Acknowledged);
    NoneRejected(db.outbox, ids, Acknowledged);
  }

  lemma InFlight(outbox: map<string, Outgoing>, ids: set<string>, inFlight: set<string>)
    requires AllIn(outbox, ids, {Sending, Acknowledged}) && inFlight == ids * WithDelivery(outbox, {Sending})
    ensures AllIn(outbox, inFlight, {Sending})
    ensures Deliver(outbox, inFlight, Acknowledged) == Deliver(outbox, ids, Acknowledged)
    ensures inFlight == {} <==> AllIn(outbox, ids, {Acknowledged})
  {
    if inFlight == {} {
      forall id | id in ids ensures outbox[id].delivery.Acknowledged? {
        assert id !in inFlight;
      }
    } else {
      var id :| id in inFlight;
      assert !outbox[id].delivery.Acknowledged?;
    }
  }

  /** A close takes its rows out of the pending count, into the rejected count unless they are conflicted. */
  lemma CloseShows(db: Database, ids: set<string>, conflicted: bool)
    requires SyncResult(db, Close(ids, conflicted)).Some?
    ensures var (shows, after) := SyncResult(db, Close(ids, conflicted)).value;
      shows && Redelivers(db.outbox, after.outbox, ids, if conflicted then Conflicted else Rejected)
      && Seen(after).pending + |ids| == Seen(db).pending
      && Seen(after).rejected == Seen(db).rejected + (if conflicted then 0 else |ids|)
      && Seen(after) == Seen(db).(pending := Seen(after).pending, rejected := Seen(after).rejected)
  {
    TakenFromPending(db.outbox, ids, if conflicted then Conflicted else Rejected);
    if conflicted {
      NoneRejected(db.outbox, ids, Conflicted);
    } else {
      RejectingCounts(db.outbox, ids);
    }
  }

  /** A claim leases its rows, and moves oversized ones from the pending count to the rejected count. */
  lemma ClaimShows(db: Database, ids: set<string>, oversize: set<string>)
    requires SyncResult(db, Claim(ids, oversize)).Some?
    ensures var (shows, after) := SyncResult(db, Claim(ids, oversize)).value;
      !shows && after.outbox.Keys == db.outbox.Keys
      && (forall id :: id in ids ==> after.outbox[id] == db.outbox[id].(delivery := Sending))
      && (forall id :: id in oversize ==> after.outbox[id] == db.outbox[id].(delivery := Rejected))
      && (forall id :: id in db.outbox && id !in ids + oversize ==> after.outbox[id] == db.outbox[id])
      && Seen(after).pending + |oversize| == Seen(db).pending
      && Seen(after).rejected == Seen(db).rejected + |oversize|
      && Seen(after) == Seen(db).(pending := Seen(after).pending, rejected := Seen(after).rejected)
  {
    LeasingKeepsCounts(db.outbox, ids, Sending);
    TakenFromPending(Deliver(db.outbox, ids, Sending), oversize, Rejected);
    RejectingCounts(Deliver(db.outbox, ids, Sending), oversize);
  }

  /** A page shows its assets, its end and its new candidates; a replayed one shows nothing. */
  lemma PageShows(db: Database, s: Sync)
    requires s.ApplyPage? && SyncResult(db, s).Some?
    ensures var (shows, after) := SyncResult(db, s).value;
      (s.replay ==> !shows && after == db)
      && (!s.replay ==>
            shows && s.from == db.applied && after.applied == s.returned && after.caughtUp == s.caughtUp
            && after.activity == s.activity && after.assets == db.assets + s.changes
            && db.conflicts <= after.conflicts
            && (forall k :: 0 <= k < |s.news| ==> Filed(after.conflicts, s.news[k].id))
            && (forall i :: |db.conflicts| <= i < |after.conflicts| ==> after.conflicts[i].open)
            && after.outbox == db.outbox && after.bindings == db.bindings && after.observations == db.observations
            && after.receipts == db.receipts && after.connection == db.connection && after.recovery == db.recovery)
  {
    FileAllFiles(db.conflicts, s.news, |s.news|);
    forall k | 0 <= k < |s.news| ensures Filed(FileAll(db.conflicts, s.news), s.news[k].id) {
      FileAllFiles(db.conflicts, s.news, k);
    }
  }

  /** The other sync transactions: one deferral, one mark, one observation, one connection. */
  lemma OthersShow(db: Database, s: Sync)
    requires (s.Defer? || s.MarkRebootstrap? || s.Observe? || s.Connect?) && SyncResult(db, s).Some?
    ensures var (shows, after) := SyncResult(db, s).value;
      match s
      case Defer(ids) => !shows && Redelivers(db.outbox, after.outbox, ids, Pending) && Seen(after) == Seen(db)
      case MarkRebootstrap => (shows <==> !db.recovery) && Seen(after) == Seen(db).(recovery := true)
      case Observe(entity, observation) =>
        !shows && Seen(after) == Seen(db).(observations := db.observations[entity := observation])
      case Connect(connection) => !shows && Seen(after) == Seen(db).(connection := connection)
      case _ => true
  {
    if s.Defer? {
      LeasingKeepsCounts(db.outbox, s.ids, Pending);
    }
  }

  // ----- What every operation keeps -----

  ghost predicate UniqueIds(conflicts: seq<Candidate>) {
    forall i, j :: 0 <= i < j < |conflicts| ==> conflicts[i].id != conflicts[j].id
  }

  ghost predicate Closed(conflicts: seq<Candidate>, id: string) {
    exists i :: 0 <= i < |conflicts| && conflicts[i].id == id && !conflicts[i].open
  }

  /** Candidate ids are unique, and a candidate with a receipt is closed. */
  ghost predicate Inv(r: Runtime) {
    UniqueIds(r.db.conflicts) && r.generation <= MaxSafeInteger
    && forall k :: k in r.db.receipts ==> Closed(r.db.conflicts, r.db.receipts[k].candidateId)
  }

  /** What may happen to filed candidates: more are filed, and open ones are closed. */
  ghost predicate Ages(a: seq<Candidate>, b: seq<Candidate>) {
    |a| <= |b|
    && forall i :: 0 <= i < |a| ==> b[i].id == a[i].id && (!a[i].open ==> !b[i].open)
  }

  lemma ClosedAges(a: seq<Candidate>, b: seq<Candidate>, id: string)
    requires Ages(a, b) && Closed(a, id)
    ensures Closed(b, id)
  {
    var i :| 0 <= i < |a| && a[i].id == id && !a[i].open;
    assert b[i].id == id && !b[i].open;
  }

  lemma {:induction false} FileAllAges(conflicts: seq<Candidate>, news: seq<Candidate>)
    requires UniqueIds(conflicts)
    ensures UniqueIds(FileAll(conflicts, news)) && Ages(conflicts, FileAll(conflicts, news))
    decreases news
  {
    if news != [] {
      FileAllAges(conflicts, news[..|news| - 1]);
    }
  }

  lemma {:induction false} OpenCountUpdate(conflicts: seq<Candidate>, i: nat)
    requires i < |conflicts| && conflicts[i].open
    ensures OpenCount(conflicts[i := conflicts[i].(open := false)]) == OpenCount(conflicts) - 1
  {
    var after := conflicts[i := conflicts[i].(open := false)];
    var n := |conflicts| - 1;
    if i < n {
      OpenCountUpdate(conflicts[..n], i);
      assert after[..n] == conflicts[..n][i := conflicts[i].(open := false)];
    } else {
      assert after[..n] == conflicts[..n];
    }
  }

  lemma OpenIsFound(db: Database, id: string)
    requires UniqueIds(db.conflicts)
    ensures var i := Find(db.conflicts, id);
      WasOpen(db, id) <==> i < |db.conflicts| && i < ConflictReadLimit && db.conflicts[i].open
  {
    var first, i := FirstConflicts(db.conflicts), Find(db.conflicts, id);
    assert forall j :: 0 <= j < |first| ==> first[j] == db.conflicts[j];
    if i < |first| && db.conflicts[i].open {
      assert first[i].id == id && first[i].open;
    }
  }

  /** What a caller has to have read, and to name, for a resolution to commit. */
  ghost predicate ResolveCommits(h: Host, r: Runtime, resolutionId: string, q: ResolveRequest, fence: bool) {
    var i := Find(r.db.conflicts, q.candidateId);
    fence && ValidResolve(q) && r.generation == q.expectedGeneration + (if i < 1000 then 0 else 1)
    && Resolvable(h, r.db, i, resolutionId, Asked(q))
  }

  ghost function Asked(q: ResolveRequest): Receipt {
    Receipt(candidateId := q.candidateId, setVersion := q.setVersion, candidateVersion := q.candidateVersion,
            revision := q.revision, hash := q.hash, choice := q.choice)
  }

  /** What a resolution comes to. */
  ghost predicate ResolvesTo(h: Host, r: Runtime, resolutionId: string, q: ResolveRequest, device: string, fence: bool,
                             o: Outcome, after: Runtime) {
    var i := Find(r.db.conflicts, q.candidateId);
    (o.Committed? <==> ResolveCommits(h, r, resolutionId, q, fence))
    && (o.Committed? ==>
          after.generation == r.generation + (if i < 1000 then 1 else 0)
          && ResolutionFrame(h, r.db, after.db, i, resolutionId, Asked(q), device))
    && (o.Replayed? <==>
          fence && ValidResolve(q) && r.generation == q.expectedGeneration + 1
          && resolutionId in r.db.receipts && r.db.receipts[resolutionId] == Asked(q))
    && (!o.Committed? ==> after == r)
    && o != Failed(SequenceExhausted)
  }

  lemma ResolveStepCases(h: Host, r: Runtime, resolutionId: string, q: ResolveRequest, device: string, fence: bool)
    requires Inv(r)
    ensures var (o, after) := ResolveStep(h, r, resolutionId, q, device, fence);
      ResolvesTo(h, r, resolutionId, q, device, fence, o, after)
  {
    var wasOpen := WasOpen(r.db, q.candidateId);
    OpenIsFound(r.db, q.candidateId);
    ResolutionCommits(h, r.db, resolutionId, ReceiptOf(q), device, Guard(r.generation, fence, !wasOpen));
    if resolutionId in r.db.receipts && r.db.receipts[resolutionId] == ReceiptOf(q) {
      ReceiptIsClosed(r, resolutionId, q);
    }
  }

  /**
   Against the invariant a resolution commits exactly when its candidate is resolvable and its
   caller named the present generation, or the one before for a candidate no read shows. It
   bumps exactly for a candidate a read shows; a replay of a shown candidate's receipt cannot
   meet it open.
   */
  lemma ResolveCases(h: Host, r: Runtime, e: Event)
    requires Inv(r) && e.ResolveEvent?
    ensures ResolvesTo(h, r, e.resolutionId, e.request, e.device, e.fence, Step(h, r, e).0, Step(h, r, e).1)
  {
    ResolveStepCases(h, r, e.resolutionId, e.request, e.device, e.fence);
  }

  lemma ReceiptIsClosed(r: Runtime, resolutionId: string, q: ResolveRequest)
    requires Inv(r) && resolutionId in r.db.receipts && r.db.receipts[resolutionId] == ReceiptOf(q)
    ensures !WasOpen(r.db, q.candidateId)
  {
    OpenIsFound(r.db, q.candidateId);
    var i := Find(r.db.conflicts, q.candidateId);
    var k :| 0 <= k < |r.db.conflicts| && r.db.conflicts[k].id == q.candidateId && !r.db.conflicts[k].open;
    assert i == k;
  }

  /** The generation rises by one or stays; it rises exactly on commits other than of a candidate no read shows. */
  lemma StepGeneration(h: Host, r: Runtime, e: Event)
    requires Inv(r)
    ensures Step(h, r, e).1.generation == r.generation + 1 <==>
      Step(h, r, e).0.Committed?
      && (e.ResolveEvent? ==> Find(r.db.conflicts, e.request.candidateId) < ConflictReadLimit)
    ensures Step(h, r, e).1.generation == r.generation || Step(h, r, e).1.generation == r.generation + 1
    ensures Step(h, r, e).1.generation <= MaxSafeInteger
  {
    if e.ResolveEvent? {
      ResolveCases(h, r, e);
    }
  }

  lemma ResolvedKeeps(h: Host, r: Runtime, e: Event)
    requires Inv(r) && e.ResolveEvent?
    ensures Inv(Step(h, r, e).1)
  {
    ResolveCases(h, r, e);
    StepGeneration(h, r, e);
    var (o, after) := Step(h, r, e);
    if o.Committed? {
      var i := Find(r.db.conflicts, e.request.candidateId);
      ClosingKeeps(r, after, i, e.resolutionId, ReceiptOf(e.request));
    }
  }

  lemma ClosingKeeps(r: Runtime, after: Runtime, i: nat, resolutionId: string, receipt: Receipt)
    requires Inv(r) && after.generation <= MaxSafeInteger && i < |r.db.conflicts|
    requires r.db.conflicts[i].id == receipt.candidateId
    requires after.db.conflicts == r.db.conflicts[i := r.db.conflicts[i].(open := false)]
    requires OnlyAt(r.db.receipts, after.db.receipts, resolutionId) && after.db.receipts[resolutionId] == receipt
    ensures Inv(after)
  {
    assert after.db.conflicts[i].id == receipt.candidateId && !after.db.conflicts[i].open;
    assert Ages(r.db.conflicts, after.db.conflicts);
    forall k | k in after.db.receipts ensures Closed(after.db.conflicts, after.db.receipts[k].candidateId) {
      if k != resolutionId {
        ClosedAges(r.db.conflicts, after.db.conflicts, r.db.receipts[k].candidateId);
      }
    }
  }

  lemma AgingKeeps(r: Runtime, after: Runtime)
    requires Inv(r) && after.generation <= MaxSafeInteger && after.db.receipts == r.db.receipts
    requires UniqueIds(after.db.conflicts) && Ages(r.db.conflicts, after.db.conflicts)
    ensures Inv(after)
  {
    forall k | k in after.db.receipts ensures Closed(after.db.conflicts, after.db.receipts[k].candidateId) {
      ClosedAges(r.db.conflicts, after.db.conflicts, r.db.receipts[k].candidateId);
    }
  }

  lemma SyncKeepsConflicts(db: Database, s: Sync)
    requires SyncResult(db, s).Some? && !s.ApplyPage?
    ensures SyncResult(db, s).value.1.conflicts == db.conflicts && SyncResult(db, s).value.1.receipts == db.receipts
  {}

  /** Only pages and resolutions touch the conflict tables. */
  lemma ConflictsKept(h: Host, r: Runtime, e: Event)
    requires !e.ResolveEvent? && (e.SyncEvent? ==> !e.sync.ApplyPage?)
    ensures Step(h, r, e).1.db.conflicts == r.db.conflicts && Step(h, r, e).1.db.receipts == r.db.receipts
  {
    if e.SyncEvent? && SyncResult(r.db, e.sync).Some? {
      SyncKeepsConflicts(r.db, e.sync);
    }
  }

  lemma PageAges(h: Host, r: Runtime, e: Event)
    requires UniqueIds(r.db.conflicts) && e.SyncEvent? && e.sync.ApplyPage?
    ensures var db := Step(h, r, e).1.db;
      UniqueIds(db.conflicts) && Ages(r.db.conflicts, db.conflicts) && db.receipts == r.db.receipts
  {
    FileAllAges(r.db.conflicts, e.sync.news);
  }

  lemma StepKeeps(h: Host, r: Runtime, e: Event)
    requires Inv(r)
    ensures Inv(Step(h, r, e).1)
  {
    if e.ResolveEvent? {
      ResolvedKeeps(h, r, e);
    } else {
      StepGeneration(h, r, e);
      if e.SyncEvent? && e.sync.ApplyPage? {
        PageAges(h, r, e);
      } else {
        ConflictsKept(h, r, e);
      }
      AgingKeeps(r, Step(h, r, e).1);
    }
  }

  // ----- The generation as a version of the view -----

  /**
   A resolution of an open candidate filed beyond the thousand a read shows: its caller names
   the generation before the present one, and all that is known of the candidate still holds.
   */
  ghost predicate LateResolution(h: Host, r: Runtime, resolutionId: string, q: ResolveRequest, fence: bool) {
    var i := Find(r.db.conflicts, q.candidateId);
    fence && ValidResolve(q) && r.generation == q.expectedGeneration + 1 && ConflictReadLimit <= i
    && Resolvable(h, r.db, i, resolutionId, Asked(q))
  }

  /**
   The operations that change what reads show and leave the generation: a claim that closes an
   oversized mutation, a new provider observation, a credential operation that changes the
   connection a read names, and a late resolution.
   */
  ghost predicate Silent(h: Host, r: Runtime, e: Event) {
    match e
    case SyncEvent(Claim(ids, oversize), fence) =>
      fence && SyncResult(r.db, e.sync).Some? && oversize != {}
    case SyncEvent(Observe(entity, observation), fence) =>
      fence && (entity !in r.db.observations || r.db.observations[entity] != observation)
    case SyncEvent(Connect(connection), fence) => fence && r.db.connection != connection
    case ResolveEvent(resolutionId, q, _, fence) => LateResolution(h, r, resolutionId, q, fence)
    case _ => false
  }

  /** The late resolutions are exactly the ones that commit a candidate no read shows. */
  lemma LateCommits(h: Host, r: Runtime, e: Event)
    requires Inv(r) && e.ResolveEvent?
    ensures LateResolution(h, r, e.resolutionId, e.request, e.fence) <==>
      Step(h, r, e).0.Committed? && Find(r.db.conflicts, e.request.candidateId) >= ConflictReadLimit
  {
    ResolveCases(h, r, e);
  }

  /** With at most a thousand candidates no resolution is silent. */
  lemma FewCandidatesNeverSilent(h: Host, r: Runtime, e: Event)
    requires e.ResolveEvent? && |r.db.conflicts| <= ConflictReadLimit
    ensures !Silent(h, r, e)
  {}

  lemma LeasingKeepsCounts(outbox: map<string, Outgoing>, ids: set<string>, to: Delivery)
    requires AllIn(outbox, ids, {Pending, Sending}) && (to.Pending? || to.Sending?)
    ensures WithDelivery(Deliver(outbox, ids, to), {Pending, Sending}) == WithDelivery(outbox, {Pending, Sending})
    ensures WithDelivery(Deliver(outbox, ids, to), {Rejected}) == WithDelivery(outbox, {Rejected})
  {}

  lemma RejectingCounts(outbox: map<string, Outgoing>, ids: set<string>)
    requires AllIn(outbox, ids, {Pending, Sending})
    ensures |WithDelivery(Deliver(outbox, ids, Rejected), {Rejected})| == |WithDelivery(outbox, {Rejected})| + |ids|
    ensures ids == {} ==> Deliver(outbox, ids, Rejected) == outbox
  {
    assert WithDelivery(Deliver(outbox, ids, Rejected), {Rejected}) == WithDelivery(outbox, {Rejected}) + ids;
  }

  lemma ClaimSeen(db: Database, ids: set<string>, oversize: set<string>)
    requires SyncResult(db, Claim(ids, oversize)).Some?
    ensures Seen(SyncResult(db, Claim(ids, oversize)).value.1) == Seen(db) <==> oversize == {}
  {
    LeasingKeepsCounts(db.outbox, ids, Sending);
    RejectingCounts(Deliver(db.outbox, ids, Sending), oversize);
  }

  lemma DeferSeen(db: Database, ids: set<string>)
    requires SyncResult(db, Defer(ids)).Some?
    ensures Seen(SyncResult(db, Defer(ids)).value.1) == Seen(db)
  {
    LeasingKeepsCounts(db.outbox, ids, Pending);
  }

  lemma AcknowledgedAgain(db: Database, ids: set<string>)
    requires AllIn(db.outbox, ids, {Acknowledged})
    ensures Deliver(db.outbox, ids, Acknowledged) == db.outbox
  {}

  lemma SyncSeen(h: Host, r: Runtime, e: Event)
    requires Inv(r) && e.SyncEvent? && Step(h, r, e).1.generation == r.generation
    ensures Seen(Step(h, r, e).1.db) != Seen(r.db) <==> Silent(h, r, e)
  {
    if SyncResult(r.db, e.sync).Some? && e.fence {
      match e.sync {
        case Claim(ids, oversize) => ClaimSeen(r.db, ids, oversize);
        case Defer(ids) => DeferSeen(r.db, ids);
        case Acknowledge(ids) =>
          if AllIn(r.db.outbox, ids, {Acknowledged}) {
            AcknowledgedAgain(r.db, ids);
          }
        case _ =>
      }
    }
  }

  lemma ResolveSeen(h: Host, r: Runtime, e: Event)
    requires Inv(r) && e.ResolveEvent? && Step(h, r, e).1.generation == r.generation
    ensures Seen(Step(h, r, e).1.db) != Seen(r.db) <==> Silent(h, r, e)
  {
    ResolveCases(h, r, e);
    LateCommits(h, r, e);
    if Step(h, r, e).0.Committed? {
      OpenCountUpdate(r.db.conflicts, Find(r.db.conflicts, e.request.candidateId));
    }
  }

  /** Exactly the silent operations change the view and keep the generation. */
  lemma SilentExactly(h: Host, r: Runtime, e: Event)
    requires Inv(r)
    ensures Step(h, r, e).1.generation == r.generation && Seen(Step(h, r, e).1.db) != Seen(r.db) <==> Silent(h, r, e)
  {
    StepGeneration(h, r, e);
    if e.SyncEvent? && Step(h, r, e).1.generation == r.generation {
      SyncSeen(h, r, e);
    } else if e.ResolveEvent? {
      ResolveCases(h, r, e);
      LateCommits(h, r, e);
      if Step(h, r, e).1.generation == r.generation {
        ResolveSeen(h, r, e);
      }
    }
  }

  // ----- Silent operations do happen -----

  const Start := Database(map["a" := Asset(2, false, "\"active\"", map["note" := "n"])], 2,
                          map["m" := Outgoing("a", Edit(map["note" := "n"]), "d", Pending)],
                          None, map[], map[], [], map[], 1, true, false, 0)

  /** The claim closes an edit too large for any request, which only a damaged store holds. */
  lemma ClaimsAndObservationsAreSilent(h: Host)
    ensures Inv(Runtime(Start, 0))
    ensures Silent(h, Runtime(Start, 0), SyncEvent(Claim({}, {"m"}), true))
    ensures Silent(h, Runtime(Start, 0), SyncEvent(Observe("a", Observation("c", "z", "o", 1)), true))
    ensures Silent(h, Runtime(Start, 0), SyncEvent(Connect(Some("c")), true))
  {
    assert "m" in Start.outbox && Start.outbox["m"].delivery.Pending?;
    assert AllIn(Start.outbox, {} + {"m"}, {Pending, Sending});
  }

  function ConflictId(i: nat): string {
    "conflict-" + Text.Fixed(i, 4) + "-note"
  }

  /** A conflict on the note of one asset from each of n remote edits, in revision order. */
  function ManyConflicts(h: Host, n: nat): (cs: seq<Candidate>)
    ensures |cs| == n
    ensures forall i :: 0 <= i < n ==>
      cs[i] == Candidate(ConflictId(i), "a", "note", "r", h.valueHash("n"), i + 1, i + 1, true)
  {
    seq(n, i requires 0 <= i < n => Candidate(ConflictId(i), "a", "note", "r", h.valueHash("n"), i + 1, i + 1, true))
  }

  lemma ConflictIdsDiffer(i: nat, j: nat)
    requires i < 10000 && j < 10000 && i != j
    ensures ConflictId(i) != ConflictId(j)
  {
    assert Text.Pow10(2) == 100 && Text.Pow10(4) == 10000;
    Text.NumberOfFixed(i, 4);
    Text.NumberOfFixed(j, 4);
    assert ConflictId(i)[9..13] == Text.Fixed(i, 4) && ConflictId(j)[9..13] == Text.Fixed(j, 4);
  }

  function LateDatabase(h: Host): Database {
    Start.(conflicts := ManyConflicts(h, 1001), outbox := map[], applied := 1001)
  }

  function LateRequest(h: Host): ResolveRequest {
    ResolveRequest(1, 0, 1001, ConflictId(1000), 1001, 1001, h.valueHash("n"), AcceptRemote)
  }

  lemma LateFound(h: Host)
    ensures UniqueIds(LateDatabase(h).conflicts)
    ensures Find(LateDatabase(h).conflicts, LateRequest(h).candidateId) == 1000
  {
    var conflicts := LateDatabase(h).conflicts;
    forall i, j | 0 <= i < j < |conflicts| ensures conflicts[i].id != conflicts[j].id {
      ConflictIdsDiffer(i, j);
    }
    assert conflicts[1000].id == LateRequest(h).candidateId;
  }

  predicate HexDigest(s: string) {
    |s| == 64 && forall c :: c in s ==> '0' <= c <= '9' || 'a' <= c <= 'f'
  }

  lemma LateRequestValid(h: Host)
    requires HexDigest(h.valueHash("n"))
    ensures ValidResolve(LateRequest(h))
  {
    var digits := Text.Fixed(1000, 4);
    assert forall c :: c in digits ==> '0' <= c <= '9';
    assert |ConflictId(1000)| == 18;
  }

  lemma LateIsCurrent(h: Host)
    ensures |LateDatabase(h).conflicts| == 1001 && LateDatabase(h).conflicts[1000].entity in LateDatabase(h).assets
    ensures Resolvable(h, LateDatabase(h), 1000, "r", Asked(LateRequest(h)))
  {}

  /** With 1001 candidates, resolving the last one changes the view and not the generation. */
  lemma LateCandidateIsSilent(h: Host)
    requires HexDigest(h.valueHash("n"))
    ensures Inv(Runtime(LateDatabase(h), 1))
    ensures Silent(h, Runtime(LateDatabase(h), 1), ResolveEvent("r", LateRequest(h), "d", true))
  {
    LateFound(h);
    LateRequestValid(h);
    LateIsCurrent(h);
  }

  // ----- Runs -----

  function Run(h: Host, r: Runtime, events: seq<Event>): Runtime {
    if events == [] then r else Step(h, Run(h, r, events[..|events| - 1]), events[|events| - 1]).1
  }

  /** The runtime before the event at a place. */
  function At(h: Host, r: Runtime, events: seq<Event>, i: nat): Runtime
    requires i <= |events|
  {
    Run(h, r, events[..i])
  }

  lemma AtNext(h: Host, r: Runtime, events: seq<Event>, i: nat)
    requires i < |events|
    ensures At(h, r, events, i + 1) == Step(h, At(h, r, events, i), events[i]).1
  {
    assert events[..i + 1][..i] == events[..i];
  }

  lemma {:induction false} RunKeeps(h: Host, r: Runtime, events: seq<Event>, i: nat)
    requires Inv(r) && i <= |events|
    ensures Inv(At(h, r, events, i))
  {
    if i > 0 {
      RunKeeps(h, r, events, i - 1);
      AtNext(h, r, events, i - 1);
      StepKeeps(h, At(h, r, events, i - 1), events[i - 1]);
    }
  }

  lemma AtRises(h: Host, r: Runtime, events: seq<Event>, i: nat)
    requires Inv(r) && i < |events|
    ensures At(h, r, events, i).generation <= At(h, r, events, i + 1).generation
  {
    AtNext(h, r, events, i);
    RunKeeps(h, r, events, i);
    StepGeneration(h, At(h, r, events, i), events[i]);
  }

  lemma AtSeen(h: Host, r: Runtime, events: seq<Event>, i: nat)
    requires Inv(r) && i < |events| && !Silent(h, At(h, r, events, i), events[i])
    requires At(h, r, events, i).generation == At(h, r, events, i + 1).generation
    ensures Seen(At(h, r, events, i).db) == Seen(At(h, r, events, i + 1).db)
  {
    AtNext(h, r, events, i);
    RunKeeps(h, r, events, i);
    SilentExactly(h, At(h, r, events, i), events[i]);
  }

  /** The generation never falls and never passes its bound. */
  lemma {:induction false} GenerationRises(h: Host, r: Runtime, events: seq<Event>, i: nat, j: nat)
    requires Inv(r) && i <= j <= |events|
    ensures At(h, r, events, i).generation <= At(h, r, events, j).generation <= MaxSafeInteger
    decreases j
  {
    RunKeeps(h, r, events, j);
    if i < j {
      GenerationRises(h, r, events, i, j - 1);
      AtRises(h, r, events, j - 1);
    }
  }

  ghost predicate NoneSilent(h: Host, r: Runtime, events: seq<Event>, i: nat, j: nat)
    requires i <= j <= |events|
  {
    forall k :: i <= k < j ==> !Silent(h, At(h, r, events, k), events[k])
  }

  /** Two reads of a run at the same generation, with no silent operation between, show the same. */
  lemma {:induction false} SameGenerationSameView(h: Host, r: Runtime, events: seq<Event>, i: nat, j: nat)
    requires Inv(r) && i <= j <= |events| && NoneSilent(h, r, events, i, j)
    requires At(h, r, events, i).generation == At(h, r, events, j).generation
    ensures Seen(At(h, r, events, i).db) == Seen(At(h, r, events, j).db)
    decreases j
  {
    if i < j {
      GenerationRises(h, r, events, i, j - 1);
      GenerationRises(h, r, events, j - 1, j);
      SameGenerationSameView(h, r, events, i, j - 1);
      AtSeen(h, r, events, j - 1);
    }
  }

  /** An operation that is silent in no state with at most a thousand candidates. */
  predicate Quiet(e: Event) {
    e.SyncEvent? ==> !e.sync.Observe? && !e.sync.Connect? && (e.sync.Claim? ==> e.sync.oversize == {})
  }

  /**
   In every run of edits, deletes, bindings, resolutions and sync commits with at most a
   thousand candidates, the generation is an exact version of what reads show.
   */
  lemma QuietRunsAreExact(h: Host, r: Runtime, events: seq<Event>, i: nat, j: nat)
    requires Inv(r) && i <= j <= |events|
    requires forall k :: i <= k < j ==> Quiet(events[k]) && |At(h, r, events, k).db.conflicts| <= ConflictReadLimit
    requires At(h, r, events, i).generation == At(h, r, events, j).generation
    ensures Seen(At(h, r, events, i).db) == Seen(At(h, r, events, j).db)
  {
    forall k | i <= k < j ensures !Silent(h, At(h, r, events, k), events[k]) {
      QuietIsNotSilent(h, At(h, r, events, k), events[k]);
    }
    SameGenerationSameView(h, r, events, i, j);
  }

  lemma QuietIsNotSilent(h: Host, r: Runtime, e: Event)
    requires Quiet(e) && |r.db.conflicts| <= ConflictReadLimit
    ensures !Silent(h, r, e)
  {
    if e.ResolveEvent? {
      FewCandidatesNeverSilent(h, r, e);
    }
  }

  /** The generation the caller of a local operation says it has read. */
  function Expected(e: Event): nat
    requires !e.SyncEvent?
  {
    match e
    case MutateEvent(_, _, _, _, _, expected, _) => expected
    case BindEvent(_, _, expected, _) => expected
    case ResolveEvent(_, q, _, _) => q.expectedGeneration
  }

  /** A local operation commits at the generation its caller read; a silent resolution commits one later. */
  lemma CommitsAtExpected(h: Host, r: Runtime, e: Event)
    requires Inv(r) && !e.SyncEvent? && Step(h, r, e).0.Committed?
    ensures r.generation == Expected(e) + if Silent(h, r, e) then 1 else 0
  {
    if e.ResolveEvent? {
      ResolveCases(h, r, e);
      LateCommits(h, r, e);
      OpenIsFound(r.db, e.request.candidateId);
    }
  }

  /** A local change was made against exactly what its caller had been shown. */
  lemma CommittedAgainstRead(h: Host, r: Runtime, events: seq<Event>, i: nat, j: nat)
    requires Inv(r) && i <= j < |events| && NoneSilent(h, r, events, i, j + 1) && !events[j].SyncEvent?
    requires Step(h, At(h, r, events, j), events[j]).0.Committed?
    requires Expected(events[j]) == At(h, r, events, i).generation
    ensures Seen(At(h, r, events, i).db) == Seen(At(h, r, events, j).db)
  {
    RunKeeps(h, r, events, j);
    CommitsAtExpected(h, At(h, r, events, j), events[j]);
    SameGenerationSameView(h, r, events, i, j);
  }

  // ----- Versions and bindings over runs -----

  ghost predicate Versioned(db: Database) {
    forall k :: k in db.assets ==> db.assets[k].version <= db.sequence
  }

  /** No asset goes, and none returns to an earlier version. */
  ghost predicate VersionsRise(a: Database, b: Database) {
    Versioned(b) && forall k :: k in a.assets ==> k in b.assets && a.assets[k].version <= b.assets[k].version
  }

  /** A binding keeps its connection and resource, and its credential generation never falls. */
  ghost predicate BindingsHold(a: Database, b: Database) {
    forall k :: k in a.bindings ==>
      k in b.bindings
      && b.bindings[k].observed.connection == a.bindings[k].observed.connection
      && b.bindings[k].observed.resource == a.bindings[k].observed.resource
      && a.bindings[k].observed.generation <= b.bindings[k].observed.generation
  }

  lemma ResolveHolds(h: Host, db: Database, resolutionId: string, r: Receipt, device: string, guard: Option<Error>)
    requires Versioned(db)
    ensures var after := ResolveOne(h, db, resolutionId, r, device, guard).1;
      VersionsRise(db, after) && BindingsHold(db, after)
  {
    ResolutionCommits(h, db, resolutionId, r, device, guard);
  }

  lemma SyncHolds(db: Database, s: Sync)
    requires Versioned(db) && SyncResult(db, s).Some?
    ensures VersionsRise(db, SyncResult(db, s).value.1) && BindingsHold(db, SyncResult(db, s).value.1)
  {}

  lemma MutateHolds(db: Database, id: string, entity: string, version: nat, operation: Operation, device: string,
                    allowNew: bool, replayGuard: Option<Error>, guard: Option<Error>)
    requires Versioned(db)
    ensures var after := Mutate(db, id, entity, version, operation, device, allowNew, replayGuard, guard).1;
      VersionsRise(db, after) && BindingsHold(db, after)
  {
    MutationCommits(db, id, entity, version, operation, device, allowNew, replayGuard, guard);
  }

  lemma BindHolds(db: Database, entity: string, allowNew: bool, capacity: bool, fence: bool)
    requires Versioned(db)
    ensures var after := BindLatest(db, entity, allowNew, capacity, fence).1;
      VersionsRise(db, after) && BindingsHold(db, after)
  {
    BindingIsLatest(db, entity, allowNew, capacity, fence);
  }

  lemma StepHolds(h: Host, r: Runtime, e: Event)
    requires Versioned(r.db)
    ensures VersionsRise(r.db, Step(h, r, e).1.db) && BindingsHold(r.db, Step(h, r, e).1.db)
  {
    if e.ResolveEvent? {
      ResolveHolds(h, r.db, e.resolutionId, ReceiptOf(e.request), e.device,
                   Guard(r.generation, e.fence, !WasOpen(r.db, e.request.candidateId)));
    } else if e.SyncEvent? {
      if SyncResult(r.db, e.sync).Some? {
        SyncHolds(r.db, e.sync);
      }
    } else if e.MutateEvent? {
      MutateHolds(r.db, e.id, e.entity, e.version, e.operation, e.device, e.expected == r.generation,
                  Guard(r.generation, e.fence, true), Guard(r.generation, e.fence, false));
    } else {
      BindHolds(r.db, e.entity, e.expected == r.generation, r.generation < MaxSafeInteger, e.fence);
    }
  }

  lemma AtHolds(h: Host, r: Runtime, events: seq<Event>, i: nat)
    requires i < |events| && Versioned(At(h, r, events, i).db)
    ensures VersionsRise(At(h, r, events, i).db, At(h, r, events, i + 1).db)
    ensures BindingsHold(At(h, r, events, i).db, At(h, r, events, i + 1).db)
  {
    AtNext(h, r, events, i);
    StepHolds(h, At(h, r, events, i), events[i]);
  }

  lemma HoldsOn(a: Database, b: Database, c: Database)
    ensures VersionsRise(a, b) && VersionsRise(b, c) ==> VersionsRise(a, c)
    ensures BindingsHold(a, b) && BindingsHold(b, c) ==> BindingsHold(a, c)
  {}

  /** In every run assets never return to an earlier version, and a binding never moves to another resource. */
  lemma {:induction false} RunHolds(h: Host, r: Runtime, events: seq<Event>, i: nat, j: nat)
    requires Versioned(r.db) && i <= j <= |events|
    ensures VersionsRise(At(h, r, events, i).db, At(h, r, events, j).db)
    ensures BindingsHold(At(h, r, events, i).db, At(h, r, events, j).db)
    decreases j
  {
    if j == 0 {
      assert events[..0] == [];
    } else {
      RunHolds(h, r, events, if i < j then i else i - 1, j - 1);
      AtHolds(h, r, events, j - 1);
      if i < j {
        HoldsOn(At(h, r, events, i).db, At(h, r, events, j - 1).db, At(h, r, events, j).db);
      }
    }
  }

  lemma CommitRaisesVersion(h: Host, r: Runtime, e: Event)
    requires e.MutateEvent? && Versioned(r.db) && Step(h, r, e).0.Committed?
    ensures e.entity in r.db.assets && r.db.assets[e.entity].version == e.version
    ensures e.entity in Step(h, r, e).1.db.assets && Step(h, r, e).1.db.assets[e.entity].version > e.version
  {
    MutationCommits(r.db, e.id, e.entity, e.version, e.operation, e.device, e.expected == r.generation,
                    Guard(r.generation, e.fence, true), Guard(r.generation, e.fence, false));
  }

  /** Of the edits and deletes made against one version of an asset at most one ever commits: none is lost. */
  lemma OneCommitPerVersion(h: Host, r: Runtime, events: seq<Event>, i: nat, j: nat)
    requires Versioned(r.db) && i < j < |events| && events[i].MutateEvent? && events[j].MutateEvent?
    requires events[i].entity == events[j].entity && events[i].version == events[j].version
    requires Step(h, At(h, r, events, i), events[i]).0.Committed?
    ensures !Step(h, At(h, r, events, j), events[j]).0.Committed?
  {
    RunHolds(h, r, events, 0, i);
    RunHolds(h, r, events, i + 1, j);
    AtNext(h, r, events, i);
    CommitRaisesVersion(h, At(h, r, events, i), events[i]);
    if Step(h, At(h, r, events, j), events[j]).0.Committed? {
      CommitRaisesVersion(h, At(h, r, events, j), events[j]);
    }
  }

  // ----- Replays -----

  /** Outgoing mutations keep their identity, and receipts stay. */
  ghost predicate Remembers(a: Database, b: Database) {
    (forall id :: id in a.outbox ==>
       id in b.outbox && b.outbox[id].(delivery := Pending) == a.outbox[id].(delivery := Pending))
    && forall k :: k in a.receipts ==> k in b.receipts && b.receipts[k] == a.receipts[k]
  }

  lemma SyncRemembers(db: Database, s: Sync)
    requires SyncResult(db, s).Some?
    ensures Remembers(db, SyncResult(db, s).value.1)
  {}

  lemma ResolveRemembers(h: Host, db: Database, resolutionId: string, r: Receipt, device: string, guard: Option<Error>)
    ensures Remembers(db, ResolveOne(h, db, resolutionId, r, device, guard).1)
  {
    ResolutionCommits(h, db, resolutionId, r, device, guard);
  }

  lemma ResolveStepRemembers(h: Host, r: Runtime, resolutionId: string, q: ResolveRequest, device: string, fence: bool)
    ensures Remembers(r.db, ResolveStep(h, r, resolutionId, q, device, fence).1.db)
  {
    ResolveRemembers(h, r.db, resolutionId, ReceiptOf(q), device,
                     Guard(r.generation, fence, !WasOpen(r.db, q.candidateId)));
  }

  lemma SyncStepRemembers(r: Runtime, sync: Sync, fence: bool)
    ensures Remembers(r.db, SyncStep(r, sync, fence).1.db)
  {
    if SyncResult(r.db, sync).Some? {
      SyncRemembers(r.db, sync);
    }
  }

  lemma StepRemembers(h: Host, r: Runtime, e: Event)
    ensures Remembers(r.db, Step(h, r, e).1.db)
  {
    if e.ResolveEvent? {
      ResolveStepRemembers(h, r, e.resolutionId, e.request, e.device, e.fence);
    } else if e.SyncEvent? {
      SyncStepRemembers(r, e.sync, e.fence);
    }
  }

  lemma AtRemembers(h: Host, r: Runtime, events: seq<Event>, i: nat)
    requires i < |events|
    ensures Remembers(At(h, r, events, i).db, At(h, r, events, i + 1).db)
  {
    AtNext(h, r, events, i);
    StepRemembers(h, At(h, r, events, i), events[i]);
  }

  lemma RemembersOn(a: Database, b: Database, c: Database)
    requires Remembers(a, b) && Remembers(b, c)
    ensures Remembers(a, c)
  {}

  lemma {:induction false} RunRemembers(h: Host, r: Runtime, events: seq<Event>, i: nat, j: nat)
    requires i <= j <= |events|
    ensures Remembers(At(h, r, events, i).db, At(h, r, events, j).db)
    decreases j
  {
    if i < j {
      RunRemembers(h, r, events, i, j - 1);
      AtRemembers(h, r, events, j - 1);
      RemembersOn(At(h, r, events, i).db, At(h, r, events, j - 1).db, At(h, r, events, j).db);
    }
  }

  lemma MutateCommitted(h: Host, r: Runtime, e: Event)
    requires e.MutateEvent? && Step(h, r, e).0.Committed?
    ensures e.id in Step(h, r, e).1.db.outbox
    ensures Step(h, r, e).1.db.outbox[e.id] == Outgoing(e.entity, e.operation, e.device, Pending)
    ensures e.version <= MaxSafeInteger
  {}

  lemma MutateReplayed(h: Host, r: Runtime, e: Event)
    requires e.MutateEvent? && e.id in r.db.outbox && e.fence
    requires r.db.outbox[e.id].(delivery := Pending) == Outgoing(e.entity, e.operation, e.device, Pending)
    requires e.expected <= MaxSafeInteger && e.version <= MaxSafeInteger
    ensures Step(h, r, e) == (Replayed, r)
  {}

  /** The same edit or delete, sent after reading some generation. */
  function Again(e: Event, expected: nat): Event
    requires e.MutateEvent?
  {
    MutateEvent(e.id, e.entity, e.version, e.operation, e.device, expected, true)
  }

  /** A committed edit or delete sent again is replayed for ever after, at any generation, used up or not. */
  lemma MutationReplaysForever(h: Host, r: Runtime, events: seq<Event>, i: nat, j: nat, expected: nat)
    requires i < j <= |events| && events[i].MutateEvent? && expected <= MaxSafeInteger
    requires Step(h, At(h, r, events, i), events[i]).0.Committed?
    ensures Step(h, At(h, r, events, j), Again(events[i], expected))
         == (Replayed, At(h, r, events, j))
  {
    AtNext(h, r, events, i);
    MutateCommitted(h, At(h, r, events, i), events[i]);
    RunRemembers(h, r, events, i + 1, j);
    MutateReplayed(h, At(h, r, events, j), Again(events[i], expected));
  }

  lemma ReceiptReplays(h: Host, r: Runtime, e: Event)
    requires Inv(r) && e.ResolveEvent? && e.fence && ValidResolve(e.request)
    requires e.resolutionId in r.db.receipts && r.db.receipts[e.resolutionId] == ReceiptOf(e.request)
    ensures Step(h, r, e) == (if r.generation == e.request.expectedGeneration + 1 then Replayed
                              else Failed(MutationStale), r)
  {
    ReceiptIsClosed(r, e.resolutionId, e.request);
  }

  /** A committed resolution sent again is replayed exactly while no other commit has moved the generation. */
  lemma ResolutionReplaysExactly(h: Host, r: Runtime, events: seq<Event>, i: nat, j: nat)
    requires Inv(r) && i < j <= |events| && events[i].ResolveEvent? && events[i].fence
    requires Step(h, At(h, r, events, i), events[i]).0.Committed? && !Silent(h, At(h, r, events, i), events[i])
    ensures Step(h, At(h, r, events, j), events[i])
         == (if At(h, r, events, j).generation == At(h, r, events, i + 1).generation then Replayed
             else Failed(MutationStale), At(h, r, events, j))
  {
    RunKeeps(h, r, events, i);
    RunKeeps(h, r, events, j);
    AtNext(h, r, events, i);
    ResolveCases(h, At(h, r, events, i), events[i]);
    LateCommits(h, At(h, r, events, i), events[i]);
    CommitsAtExpected(h, At(h, r, events, i), events[i]);
    RunRemembers(h, r, events, i + 1, j);
    ReceiptReplays(h, At(h, r, events, j), events[i]);
  }

  /** At the last generation a binding replay succeeds exactly for a caller that read an older one. */
  lemma BindReplayAtTheEnd(h: Host, r: Runtime, e: Event)
    requires Inv(r) && e.BindEvent? && e.schemaVersion == 1 && e.fence && r.generation == MaxSafeInteger
    requires e.expected <= MaxSafeInteger && BindLatest(r.db, e.entity, true, true, true).0.Replayed?
    ensures Step(h, r, e) == (if e.expected == r.generation then Failed(SequenceExhausted) else Replayed, r)
  {}

  // ----- The runtime object -----

  class DesktopBusinessRuntime {
    const host: Host
    var database: Database
    var readGeneration: nat

    constructor (host: Host, database: Database)
      ensures this.host == host && Value() == Runtime(database, 0)
    {
      this.host, this.database, readGeneration := host, database, 0;
    }

    function Value(): Runtime
      reads this
    {
      Runtime(database, readGeneration)
    }

    method MutateDomainAsset(id: string, entity: string, version: nat, operation: Operation, device: string,
                             expected: nat, fence: bool) returns (o: Outcome)
      modifies this
      ensures (o, Value()) == MutateStep(old(Value()), id, entity, version, operation, device, expected, fence)
    {
      if expected > MaxSafeInteger || version > MaxSafeInteger {
        return Failed(InvalidInput);
      }
      var allowNew := expected == readGeneration;
      var onReplay, onNew := Guard(readGeneration, fence, true), Guard(readGeneration, fence, false);
      var (result, after) := Mutate(database, id, entity, version, operation, device, allowNew, onReplay, onNew);
      database := after;
      if result.Committed? {
        readGeneration := readGeneration + 1;
      }
      return result;
    }

    method BindProvider(schemaVersion: nat, entity: string, expected: nat, fence: bool) returns (o: Outcome)
      modifies this
      ensures (o, Value()) == BindStep(old(Value()), schemaVersion, entity, expected, fence)
    {
      if schemaVersion != 1 || expected > MaxSafeInteger {
        return Failed(MutationStale);
      }
      var sameGeneration := expected == readGeneration;
      if sameGeneration && readGeneration >= MaxSafeInteger {
        return Failed(SequenceExhausted);
      }
      var (result, after) := BindLatest(database, entity, sameGeneration, readGeneration < MaxSafeInteger, fence);
      database := after;
      if result.Committed? {
        readGeneration := readGeneration + 1;
      }
      return result;
    }

    method ReadsOpen(id: string) returns (open: bool)
      ensures open <==> WasOpen(database, id)
    {
      var candidates := FirstConflicts(database.conflicts);
      for k := 0 to |candidates|
        invariant forall i :: 0 <= i < k ==> candidates[i].id != id || !candidates[i].open
      {
        if candidates[k].id == id && candidates[k].open {
          return true;
        }
      }
      return false;
    }

    method ResolveConflict(resolutionId: string, q: ResolveRequest, device: string, fence: bool) returns (o: Outcome)
      modifies this
      ensures (o, Value()) == ResolveStep(host, old(Value()), resolutionId, q, device, fence)
      ensures old(Inv(Value())) ==>
        ResolvesTo(host, old(Value()), resolutionId, q, device, fence, o, Value())
    {
      if Inv(Value()) {
        ResolveStepCases(host, Value(), resolutionId, q, device, fence);
      }
      if q.schemaVersion != 1 || q.expectedGeneration >= MaxSafeInteger || !Countable(q.setVersion)
         || !Countable(q.candidateVersion) || !Countable(q.revision) {
        return Failed(InvalidInput);
      }
      if |q.candidateId| == 0 || |q.candidateId| > 160 || !(forall c :: c in q.candidateId ==> '!' <= c <= '~') {
        return Failed(InvalidInput);
      }
      if |q.hash| != 64 || !(forall c :: c in q.hash ==> '0' <= c <= '9' || 'a' <= c <= 'f') {
        return Failed(InvalidInput);
      }
      var wasOpen := ReadsOpen(q.candidateId);
      if wasOpen {
        if readGeneration != q.expectedGeneration {
          return Failed(MutationStale);
        }
      } else if readGeneration != q.expectedGeneration + 1 {
        return Failed(MutationStale);
      }
      var guard := Guard(readGeneration, fence, !wasOpen);
      var (result, after) := ResolveOne(host, database, resolutionId, ReceiptOf(q), device, guard);
      if result.Failed? {
        return result;
      }
      database := after;
      if wasOpen {
        readGeneration := readGeneration + 1;
      }
      return result;
    }

    method CommitSync(sync: Sync, fence: bool) returns (o: Outcome)
      modifies this
      ensures (o, Value()) == SyncStep(old(Value()), sync, fence)
    {
      var result := SyncResult(database, sync);
      if result.None? {
        return Failed(MutationConflict);
      }
      var (shows, after) := result.value;
      var guard := Guard(readGeneration, fence, !shows);
      if guard.Some? {
        return Failed(guard.value);
      }
      database := after;
      if shows {
        readGeneration := readGeneration + 1;
        return Committed;
      }
      return Done;
    }
  }
}
