/**
 Sync pull. A page of server mutations is accepted only when its revisions line up with the
 durable cursor; applying it moves the cursor, files every mutation in the inbox and projects it
 onto the workspace, all or nothing. Text rules, digests and the projection itself are
 arbitrary functions.
 */
module Pull {
  import opened Basics
  import opened Text

  datatype Field = Field(path: string, value: string)

  datatype Mutation = Mutation(
    schemaVersion: nat, workspaceId: string, workspaceSchemaVersion: nat, id: string,
    entityType: string, entityId: string, operationKind: string, changedFields: seq<Field>,
    deletedAt: Option<string>, baseRevision: nat, leaseEpoch: nat, deviceId: string,
    deviceSequence: nat, revision: nat)

  datatype Page = Page(
    schemaVersion: nat, workspaceId: string, from: nat, through: nat, returned: nat,
    mutations: seq<Mutation>, nextCursor: Option<string>, digest: string)

  datatype Delivery = Delivery(
    generation: nat, from: nat, through: nat, target: nat, pageDigest: string,
    nextCursorDigest: Option<string>, predecessor: Option<string>, expiresAt: string)

  datatype Response = Response(
    schemaVersion: nat, accepted: bool, confirmedThrough: nat, page: Page, delivery: Delivery, confirmToken: string)

  /** What the host asked for. */
  datatype Exchange = Exchange(workspaceId: string, after: nat)

  /** The text rules and digests, left arbitrary. */
  datatype Rules = Rules(
    identifier: string -> bool, digest43: string -> bool, cursor: string -> bool, timestamp: string -> bool,
    asset: string -> bool, field: Field -> bool, storable: Mutation -> bool, small: Page -> bool,
    tokenDigest: string -> string, unsignedDigest: Page -> string, wireDigest: Mutation -> string)

  // ----- One mutation -----

  ghost predicate IncreasingPaths(fields: seq<Field>) {
    forall i, j :: 0 <= i < j < |fields| ==> Less(fields[i].path, fields[j].path)
  }

  predicate PositiveSafe(n: nat) {
    0 < n <= MaxSafeInteger
  }

  ghost predicate MutationNumbers(m: Mutation, workspaceId: string, expected: nat) {
    m.schemaVersion == 2 && m.workspaceId == workspaceId
    && 1 <= m.workspaceSchemaVersion <= MaxSafeInteger
    && m.entityType == "domain_asset"
    && 1 <= m.leaseEpoch <= MaxSafeInteger && 1 <= m.deviceSequence <= MaxSafeInteger
    && m.revision == expected && 1 <= m.revision <= MaxSafeInteger
    && m.baseRevision < m.revision
    && |m.changedFields| <= 4
  }

  /** A delete names a time and no field; an upsert names at least one field and no time. */
  ghost predicate OperationShape(m: Mutation) {
    (m.operationKind == "delete" && m.deletedAt.Some? && m.changedFields == [])
    || (m.operationKind == "upsert" && m.deletedAt.None? && m.changedFields != [])
  }

  ghost predicate MutationTexts(rules: Rules, m: Mutation) {
    rules.identifier(m.id) && rules.identifier(m.workspaceId) && rules.identifier(m.deviceId)
    && rules.asset(m.entityId) && (m.deletedAt.Some? ==> rules.timestamp(m.deletedAt.value))
  }

  ghost predicate ValidMutation(rules: Rules, m: Mutation, workspaceId: string, expected: nat) {
    MutationNumbers(m, workspaceId, expected) && OperationShape(m) && MutationTexts(rules, m)
    && IncreasingPaths(m.changedFields)
    && forall i :: 0 <= i < |m.changedFields| ==> rules.field(m.changedFields[i])
  }

  method ValidateMutation(rules: Rules, m: Mutation, workspaceId: string, expected: nat) returns (ok: bool)
    ensures ok <==> ValidMutation(rules, m, workspaceId, expected)
  {
    if m.schemaVersion != 2 || m.workspaceId != workspaceId || m.entityType != "domain_asset"
       || m.revision != expected || m.baseRevision >= m.revision || |m.changedFields| > 4 {
      return false;
    }
    if !PositiveSafe(m.workspaceSchemaVersion) || !PositiveSafe(m.leaseEpoch) || !PositiveSafe(m.deviceSequence)
       || !PositiveSafe(m.revision) {
      return false;
    }
    if !rules.identifier(m.id) || !rules.identifier(m.workspaceId) || !rules.identifier(m.deviceId)
       || !rules.asset(m.entityId) {
      return false;
    }
    if m.operationKind == "upsert" {
      if m.deletedAt.Some? || m.changedFields == [] {
        return false;
      }
    } else if m.operationKind == "delete" {
      if m.deletedAt.None? || m.changedFields != [] || !rules.timestamp(m.deletedAt.value) {
        return false;
      }
    } else {
      return false;
    }
    ok := ValidateFields(rules, m.changedFields);
  }

  method ValidateFields(rules: Rules, fields: seq<Field>) returns (ok: bool)
    ensures ok <==> IncreasingPaths(fields) && forall i :: 0 <= i < |fields| ==> rules.field(fields[i])
  {
    var previous: Option<string> := None;
    for k := 0 to |fields|
      invariant previous == if k == 0 then None else Some(fields[k - 1].path)
      invariant IncreasingPaths(fields[..k])
      invariant forall i :: 0 <= i < k ==> rules.field(fields[i])
    {
      if previous.Some? && !Less(previous.value, fields[k].path) {
        return false;
      }
      if !rules.field(fields[k]) {
        return false;
      }
      forall i | 0 <= i < k ensures Less(fields[i].path, fields[k].path) {
        if i < k - 1 {
          assert Less(fields[..k][i].path, fields[..k][k - 1].path);
          LessTransitive(fields[i].path, fields[k - 1].path, fields[k].path);
        }
      }
      previous := Some(fields[k].path);
    }
    assert fields[..|fields|] == fields;
    return true;
  }

  // ----- One page -----

  /** The page holds exactly the revisions from + 1 to returned, and says rightly whether more follow. */
  ghost predicate Contiguous(p: Page) {
    p.returned == p.from + |p.mutations| <= p.through
    && (forall i :: 0 <= i < |p.mutations| ==> p.mutations[i].revision == p.from + 1 + i)
    && (p.nextCursor.None? <==> p.returned == p.through)
  }

  ghost predicate Envelope(r: Response, x: Exchange) {
    var p, d := r.page, r.delivery;
    r.schemaVersion == 2 && r.accepted && r.confirmedThrough == x.after <= MaxSafeInteger
    && p.schemaVersion == 2 && p.workspaceId == x.workspaceId && p.from == x.after
    && p.from <= p.returned <= p.through <= MaxSafeInteger && |p.mutations| <= 256
    && 1 <= d.generation <= MaxSafeInteger && d.from == x.after && d.through == p.returned
    && d.through <= d.target <= MaxSafeInteger && d.pageDigest == p.digest
  }

  ghost predicate EnvelopeTexts(rules: Rules, r: Response) {
    var p, d := r.page, r.delivery;
    rules.identifier(p.workspaceId) && rules.digest43(p.digest) && rules.cursor(r.confirmToken)
    && rules.timestamp(d.expiresAt) && (d.predecessor.Some? ==> rules.digest43(d.predecessor.value))
    && match (p.nextCursor, d.nextCursorDigest)
       case (None, None) => true
       case (Some(c), Some(h)) => rules.cursor(c) && rules.digest43(h) && rules.tokenDigest(c) == h
       case _ => false
  }

  ghost predicate ValidPage(rules: Rules, r: Response, x: Exchange) {
    Envelope(r, x) && EnvelopeTexts(rules, r) && Contiguous(r.page)
    && forall i :: 0 <= i < |r.page.mutations| ==>
         ValidMutation(rules, r.page.mutations[i], x.workspaceId, x.after + 1 + i)
  }

  method ValidatePullResponse(rules: Rules, r: Response, x: Exchange) returns (ok: bool)
    ensures ok <==> ValidPage(rules, r, x)
  {
    var p, d := r.page, r.delivery;
    if r.schemaVersion != 2 || !r.accepted || r.confirmedThrough != x.after || x.after > MaxSafeInteger
       || p.schemaVersion != 2 || p.workspaceId != x.workspaceId || p.from != x.after
       || p.returned < p.from || p.through < p.returned || p.through > MaxSafeInteger || |p.mutations| > 256 {
      return false;
    }
    if !PositiveSafe(d.generation) || d.from != x.after || d.through != p.returned
       || d.target < d.through || d.target > MaxSafeInteger || d.pageDigest != p.digest {
      return false;
    }
    if !rules.identifier(p.workspaceId) || !rules.digest43(p.digest) || !rules.cursor(r.confirmToken)
       || !rules.timestamp(d.expiresAt) || (d.predecessor.Some? && !rules.digest43(d.predecessor.value)) {
      return false;
    }
    if p.nextCursor.Some? != d.nextCursorDigest.Some? {
      return false;
    }
    if p.nextCursor.Some? {
      var cursor, digest := p.nextCursor.value, d.nextCursorDigest.value;
      if !rules.cursor(cursor) || !rules.digest43(digest) || rules.tokenDigest(cursor) != digest {
        return false;
      }
    }
    var expected := p.from + 1;
    for k := 0 to |p.mutations|
      invariant expected == p.from + 1 + k
      invariant forall i :: 0 <= i < k ==> ValidMutation(rules, p.mutations[i], x.workspaceId, p.from + 1 + i)
    {
      var valid := ValidateMutation(rules, p.mutations[k], p.workspaceId, expected);
      if !valid {
        return false;
      }
      expected := expected + 1;
    }
    var expectedReturned := if p.mutations == [] then p.from else p.mutations[|p.mutations| - 1].revision;
    return p.returned == expectedReturned
        && (p.nextCursor.None? ==> p.returned == p.through)
        && (p.nextCursor.Some? ==> p.returned < p.through);
  }

  // ----- Chains of pages -----

  ghost predicate Chain(pages: seq<Page>, from: nat) {
    pages == [] || (Contiguous(pages[0]) && pages[0].from == from && Chain(pages[1..], pages[0].returned))
  }

  function End(pages: seq<Page>, from: nat): nat {
    if pages == [] then from else pages[|pages| - 1].returned
  }

  function Delivered(pages: seq<Page>): seq<Mutation> {
    if pages == [] then [] else pages[0].mutations + Delivered(pages[1..])
  }

  /** A chain delivers each revision after its start once, in order, wherever the pages are cut. */
  lemma {:induction false} ChainDelivers(pages: seq<Page>, from: nat)
    requires Chain(pages, from)
    ensures |Delivered(pages)| == End(pages, from) - from
    ensures forall i :: 0 <= i < |Delivered(pages)| ==> Delivered(pages)[i].revision == from + 1 + i
    decreases pages
  {
    if pages != [] {
      ChainDelivers(pages[1..], pages[0].returned);
      assert End(pages[1..], pages[0].returned) == End(pages, from);
    }
  }

  // ----- The durable reader -----

  /** The pull state of one device: the cursor, the last page, the inbox and the workspace. */
  datatype Reader<S> = Reader(
    applied: nat, active: bool, cursor: Option<string>, token: Option<string>, lastDigest: Option<string>,
    inbox: map<nat, Mutation>, workspace: S)

  datatype Outcome =
    | Changed | Unchanged | InvalidInput | MutationConflict | RevisionRejected | ProjectionRejected | FenceRejected

  ghost predicate PageShape(rules: Rules, workspaceId: string, p: Page, token: string) {
    rules.small(p) && p.schemaVersion == 2 && p.workspaceId == workspaceId && |p.mutations| <= 256
    && p.from <= p.through && p.returned <= p.through
    && (p.nextCursor.Some? ==> rules.cursor(p.nextCursor.value)) && rules.cursor(token) && rules.digest43(p.digest)
  }

  ghost predicate Storable(rules: Rules, p: Page) {
    Contiguous(p)
    && forall i :: 0 <= i < |p.mutations| ==> rules.storable(p.mutations[i]) && OperationShape(p.mutations[i])
  }

  /** The digest of the page with its own digest field set to 43 letters A. */
  function PageDigest(rules: Rules, p: Page): string {
    rules.unsignedDigest(p.(digest := seq(43, _ => 'A')))
  }

  predicate SameRow(rules: Rules, a: Mutation, b: Mutation) {
    a.id == b.id && rules.wireDigest(a) == rules.wireDigest(b)
  }

  datatype Filing<S> = Done(rows: map<nat, Mutation>, workspace: S) | Stopped(outcome: Outcome)

  /** Files and projects one mutation; a revision filed before must be the same mutation. */
  function ApplyOne<S>(rules: Rules, project: (S, Mutation) -> Option<S>, rows: map<nat, Mutation>, w: S, m: Mutation)
    : Filing<S>
  {
    if m.revision in rows then
      if SameRow(rules, rows[m.revision], m) then Done(rows, w) else Stopped(MutationConflict)
    else
      match project(w, m)
      case None => Stopped(ProjectionRejected)
      case Some(next) => Done(rows[m.revision := m], next)
  }

  function ApplyAll<S>(rules: Rules, project: (S, Mutation) -> Option<S>, inbox: map<nat, Mutation>, workspace: S,
                       ms: seq<Mutation>): (f: Filing<S>)
    ensures f.Stopped? ==> f.outcome.MutationConflict? || f.outcome.ProjectionRejected?
  {
    if ms == [] then Done(inbox, workspace)
    else
      match ApplyAll(rules, project, inbox, workspace, ms[..|ms| - 1])
      case Stopped(o) => Stopped(o)
      case Done(rows, w) => ApplyOne(rules, project, rows, w, ms[|ms| - 1])
  }

  /** The page was applied last. */
  predicate Replay<S>(r: Reader<S>, p: Page) {
    r.applied == p.returned && r.lastDigest == Some(p.digest)
  }

  /** The host's fixed surroundings of a reader. A projection may refuse a mutation. */
  datatype Host<!S> = Host(rules: Rules, workspaceId: string, project: (S, Mutation) -> Option<S>)

  ghost function Applied<S>(h: Host<S>, r: Reader<S>, p: Page, token: string, fence: bool): (Outcome, Reader<S>) {
    if !PageShape(h.rules, h.workspaceId, p, token) then (InvalidInput, r)
    else if PageDigest(h.rules, p) != p.digest then (MutationConflict, r)
    else if !Storable(h.rules, p) then (InvalidInput, r)
    else if !r.active then (RevisionRejected, r)
    else if Replay(r, p) then
      (if r.token != Some(token) then MutationConflict else if fence then Unchanged else FenceRejected, r)
    else if p.from != r.applied then (RevisionRejected, r)
    else
      match ApplyAll(h.rules, h.project, r.inbox, r.workspace, p.mutations)
      case Stopped(o) => (o, r)
      case Done(inbox, w) =>
        if fence then (Changed, Reader(p.returned, true, p.nextCursor, Some(token), Some(p.digest), inbox, w))
        else (FenceRejected, r)
  }

  function Marked<S>(r: Reader<S>, fence: bool): (Outcome, Reader<S>) {
    if fence then (if r.active then Changed else Unchanged, r.(active := false, cursor := None, token := None))
    else (FenceRejected, r)
  }

  class SyncReader<!S> {
    const host: Host<S>
    var applied: nat
    var active: bool
    var cursor: Option<string>
    var token: Option<string>
    var lastDigest: Option<string>
    var inbox: map<nat, Mutation>
    var workspace: S

    constructor (host: Host<S>, r: Reader<S>)
      ensures this.host == host && Value() == r
    {
      this.host := host;
      applied, active, cursor, token, lastDigest := r.applied, r.active, r.cursor, r.token, r.lastDigest;
      inbox, workspace := r.inbox, r.workspace;
    }

    function Value(): Reader<S>
      reads this
    {
      Reader(applied, active, cursor, token, lastDigest, inbox, workspace)
    }

    method CheckMutations(p: Page) returns (ok: bool)
      requires p.from <= p.through && p.returned <= p.through
      ensures ok <==> Storable(host.rules, p)
    {
      var expected := p.from + 1;
      for k := 0 to |p.mutations|
        invariant expected == p.from + 1 + k
        invariant forall i :: 0 <= i < k ==>
          p.mutations[i].revision == p.from + 1 + i && host.rules.storable(p.mutations[i])
          && OperationShape(p.mutations[i])
      {
        var m := p.mutations[k];
        if m.revision != expected || !host.rules.storable(m) {
          return false;
        }
        if !(m.operationKind == "delete" && m.deletedAt.Some? && m.changedFields == [])
           && !(m.operationKind == "upsert" && m.deletedAt.None? && m.changedFields != []) {
          return false;
        }
        expected := expected + 1;
      }
      var expectedReturned := if p.mutations == [] then p.from else p.mutations[|p.mutations| - 1].revision;
      return p.returned == expectedReturned
          && (p.nextCursor.None? ==> p.returned == p.through)
          && (p.nextCursor.Some? ==> p.returned < p.through);
    }

    /** The rows and the workspace with the mutations filed and projected, or the first refusal. */
    method FileMutations(ms: seq<Mutation>) returns (f: Filing<S>)
      ensures f == ApplyAll(host.rules, host.project, inbox, workspace, ms)
    {
      var rows: map<nat, Mutation>, w := inbox, workspace;
      for k := 0 to |ms|
        invariant ApplyAll(host.rules, host.project, inbox, workspace, ms[..k]) == Done(rows, w)
      {
        var m := ms[k];
        ApplyNext(host.rules, host.project, inbox, workspace, ms, k);
        if m.revision in rows {
          if !SameRow(host.rules, rows[m.revision], m) {
            return Stopped(MutationConflict);
          }
        } else {
          var next := host.project(w, m);
          if next.None? {
            return Stopped(ProjectionRejected);
          }
          rows, w := rows[m.revision := m], next.value;
        }
      }
      assert ms[..|ms|] == ms;
      return Done(rows, w);
    }

    method ApplyPage(p: Page, confirmToken: string, fence: bool) returns (o: Outcome)
      modifies this
      ensures (o, Value()) == Applied(host, old(Value()), p, confirmToken, fence)
      ensures o.Changed? ==> applied == p.returned && cursor == p.nextCursor && token == Some(confirmToken)
      ensures !o.Changed? ==> Value() == old(Value())
    {
      var rules := host.rules;
      if !rules.small(p) || p.schemaVersion != 2 || p.workspaceId != host.workspaceId || |p.mutations| > 256
         || p.from > p.through || p.returned > p.through || !rules.cursor(confirmToken) || !rules.digest43(p.digest)
         || (p.nextCursor.Some? && !rules.cursor(p.nextCursor.value)) {
        return InvalidInput;
      }
      if PageDigest(host.rules, p) != p.digest {
        return MutationConflict;
      }
      var ok := CheckMutations(p);
      if !ok {
        return InvalidInput;
      }
      if !active {
        return RevisionRejected;
      }
      if applied == p.returned && lastDigest == Some(p.digest) {
        return if token != Some(confirmToken) then MutationConflict else if fence then Unchanged else FenceRejected;
      }
      if p.from != applied {
        return RevisionRejected;
      }
      var filing := FileMutations(p.mutations);
      if filing.Stopped? {
        return filing.outcome;
      }
      if !fence {
        return FenceRejected;
      }
      applied, cursor, token, lastDigest := p.returned, p.nextCursor, Some(confirmToken), Some(p.digest);
      inbox, workspace := filing.rows, filing.workspace;
      return Changed;
    }

    method MarkRebootstrapRequired(fence: bool) returns (o: Outcome)
      modifies this
      ensures (o, Value()) == Marked(old(Value()), fence)
      ensures fence ==> !active && cursor.None? && token.None?
      ensures inbox == old(inbox) && workspace == old(workspace) && applied == old(applied)
      ensures !fence ==> Value() == old(Value())
    {
      if !fence {
        return FenceRejected;
      }
      o := if active then Changed else Unchanged;
      active, cursor, token := false, None, None;
    }
  }

  lemma {:induction false} StopsForGood<S>(rules: Rules, project: (S, Mutation) -> Option<S>, inbox: map<nat, Mutation>,
                                           workspace: S, ms: seq<Mutation>, k: nat)
    requires k <= |ms| && ApplyAll(rules, project, inbox, workspace, ms[..k]).Stopped?
    ensures ApplyAll(rules, project, inbox, workspace, ms) == ApplyAll(rules, project, inbox, workspace, ms[..k])
    decreases |ms|
  {
    if k < |ms| {
      assert ms[..|ms| - 1][..k] == ms[..k];
      StopsForGood(rules, project, inbox, workspace, ms[..|ms| - 1], k);
    } else {
      assert ms[..k] == ms;
    }
  }

  lemma ApplyNext<S>(rules: Rules, project: (S, Mutation) -> Option<S>, inbox: map<nat, Mutation>, workspace: S,
                     ms: seq<Mutation>, k: nat)
    requires k < |ms| && ApplyAll(rules, project, inbox, workspace, ms[..k]).Done?
    ensures var Done(rows, w) := ApplyAll(rules, project, inbox, workspace, ms[..k]);
      var next := ApplyOne(rules, project, rows, w, ms[k]);
      ApplyAll(rules, project, inbox, workspace, ms[..k + 1]) == next
      && (next.Stopped? ==> ApplyAll(rules, project, inbox, workspace, ms) == next)
  {
    assert ms[..k + 1][..k] == ms[..k];
    if ApplyAll(rules, project, inbox, workspace, ms[..k + 1]).Stopped? {
      StopsForGood(rules, project, inbox, workspace, ms, k + 1);
    }
  }

  // ----- Runs -----

  datatype Event = Deliver(page: Page, token: string, fence: bool) | Mark(fence: bool)

  ghost function Step<S>(h: Host<S>, r: Reader<S>, e: Event): Reader<S> {
    match e
    case Deliver(p, token, fence) => Applied(h, r, p, token, fence).1
    case Mark(fence) => Marked(r, fence).1
  }

  ghost function Run<S>(h: Host<S>, r: Reader<S>, events: seq<Event>): Reader<S> {
    if events == [] then r else Step(h, Run(h, r, events[..|events| - 1]), events[|events| - 1])
  }

  /** Nothing is filed beyond the cursor. */
  ghost predicate Settled<S>(r: Reader<S>) {
    forall k :: k in r.inbox ==> k <= r.applied
  }

  /** The mutations filed after one revision and up to another, in order. */
  ghost predicate Filed(inbox: map<nat, Mutation>, from: nat, ms: seq<Mutation>) {
    forall i :: 0 <= i < |ms| ==>
      ms[i].revision == from + 1 + i && ms[i].revision in inbox && inbox[ms[i].revision] == ms[i]
  }

  /** Projecting mutations one after another, as long as none is refused. */
  function Fold<S>(project: (S, Mutation) -> Option<S>, w: S, ms: seq<Mutation>): Option<S> {
    if ms == [] then Some(w)
    else
      match Fold(project, w, ms[..|ms| - 1])
      case None => None
      case Some(x) => project(x, ms[|ms| - 1])
  }

  lemma {:induction false} FoldAppend<S>(project: (S, Mutation) -> Option<S>, w: S, a: seq<Mutation>, b: seq<Mutation>)
    requires Fold(project, w, a).Some?
    ensures Fold(project, w, a + b) == Fold(project, Fold(project, w, a).value, b)
  {
    if b == [] {
      assert a + b == a;
    } else {
      FoldAppend(project, w, a, b[..|b| - 1]);
      assert (a + b)[..|a + b| - 1] == a + b[..|b| - 1];
    }
  }

  /** Whatever the inbox held, every mutation of an applied page is filed under its revision, by id and digest. */
  lemma {:induction false} FiledAlike<S>(rules: Rules, project: (S, Mutation) -> Option<S>, inbox: map<nat, Mutation>,
                                         workspace: S, ms: seq<Mutation>)
    requires ApplyAll(rules, project, inbox, workspace, ms).Done?
    ensures var rows := ApplyAll(rules, project, inbox, workspace, ms).rows;
      (forall k :: 0 <= k < |ms| ==>
         ms[k].revision in rows && rows[ms[k].revision].id == ms[k].id
         && rules.wireDigest(rows[ms[k].revision]) == rules.wireDigest(ms[k]))
      && forall r :: r in inbox ==> r in rows && rows[r] == inbox[r]
    decreases |ms|
  {
    if ms != [] {
      FiledAlike(rules, project, inbox, workspace, ms[..|ms| - 1]);
    }
  }

  /** The rows are the inbox and the mutations after a revision, with nothing beyond them. */
  ghost predicate Added(inbox: map<nat, Mutation>, rows: map<nat, Mutation>, from: nat, ms: seq<Mutation>) {
    Filed(rows, from, ms)
    && (forall k :: k in rows ==> k <= from + |ms|)
    && forall k :: k in inbox ==> k in rows && rows[k] == inbox[k]
  }

  lemma AddedOne(inbox: map<nat, Mutation>, rows: map<nat, Mutation>, from: nat, ms: seq<Mutation>, m: Mutation)
    requires Added(inbox, rows, from, ms) && m.revision == from + 1 + |ms|
    ensures m.revision !in rows && Added(inbox, rows[m.revision := m], from, ms + [m])
  {
    var all := ms + [m];
    assert forall i :: 0 <= i < |ms| ==> all[i] == ms[i];
  }

  /** Mutations beyond the cursor are all filed and projected, or one is refused; none is skipped as filed before. */
  lemma {:induction false} FreshApply<S>(h: Host<S>, r: Reader<S>, ms: seq<Mutation>)
    requires Settled(r) && forall i :: 0 <= i < |ms| ==> ms[i].revision == r.applied + 1 + i
    ensures match ApplyAll(h.rules, h.project, r.inbox, r.workspace, ms)
      case Stopped(o) => o.ProjectionRejected? && Fold(h.project, r.workspace, ms).None?
      case Done(rows, w) => Fold(h.project, r.workspace, ms) == Some(w) && Added(r.inbox, rows, r.applied, ms)
  {
    if ms != [] {
      var m, before := ms[|ms| - 1], ms[..|ms| - 1];
      FreshApply(h, r, before);
      var filing := ApplyAll(h.rules, h.project, r.inbox, r.workspace, before);
      if filing.Done? {
        AddedOne(r.inbox, filing.rows, r.applied, before, m);
        assert ms == before + [m];
      }
    }
  }

  /** What one event does: nothing to cursor, inbox and workspace, or exactly one page more. */
  ghost predicate Extends<S>(h: Host<S>, r: Reader<S>, q: Reader<S>, ms: seq<Mutation>) {
    q.applied == r.applied + |ms|
    && Filed(q.inbox, r.applied, ms)
    && (forall k :: k in r.inbox ==> k in q.inbox && q.inbox[k] == r.inbox[k])
    && Fold(h.project, r.workspace, ms) == Some(q.workspace)
  }

  lemma StepExtends<S>(h: Host<S>, r: Reader<S>, e: Event) returns (ms: seq<Mutation>)
    requires Settled(r)
    ensures Settled(Step(h, r, e)) && Extends(h, r, Step(h, r, e), ms)
    ensures ms == [] || (e.Deliver? && ms == e.page.mutations)
  {
    if e.Deliver? && Applied(h, r, e.page, e.token, e.fence).0.Changed? {
      FreshApply(h, r, e.page.mutations);
      ms := e.page.mutations;
    } else {
      ms := [];
    }
  }

  lemma ExtendsTwice<S>(h: Host<S>, r: Reader<S>, q: Reader<S>, t: Reader<S>, a: seq<Mutation>, b: seq<Mutation>)
    requires Extends(h, r, q, a) && Extends(h, q, t, b)
    ensures Extends(h, r, t, a + b)
  {
    var c := a + b;
    FoldAppend(h.project, r.workspace, a, b);
    forall i | 0 <= i < |c|
      ensures c[i].revision == r.applied + 1 + i
      ensures c[i].revision in t.inbox && t.inbox[c[i].revision] == c[i]
    {
      if i < |a| {
        assert c[i] == a[i] && a[i].revision == r.applied + 1 + i && a[i].revision in q.inbox;
      } else {
        var j := i - |a|;
        assert c[i] == b[j] && b[j].revision == q.applied + 1 + j;
      }
    }
    assert forall k :: k in r.inbox ==> k in q.inbox;
  }

  /**
   In every run of good, bad, stale and repeated pages, marks and fence failures, the cursor
   never goes back, the inbox grows by exactly the revisions passed, and the workspace is the
   projection of exactly those, once each and in order.
   */
  lemma {:induction false} RunExtends<S>(h: Host<S>, r: Reader<S>, events: seq<Event>) returns (ms: seq<Mutation>)
    requires Settled(r)
    ensures Settled(Run(h, r, events)) && Extends(h, r, Run(h, r, events), ms)
    ensures forall m :: m in ms ==> exists i :: 0 <= i < |events| && events[i].Deliver? && m in events[i].page.mutations
  {
    if events == [] {
      ms := [];
    } else {
      var before := events[..|events| - 1];
      var a := RunExtends(h, r, before);
      var b := StepExtends(h, Run(h, r, before), events[|events| - 1]);
      ExtendsTwice(h, r, Run(h, r, before), Run(h, r, events), a, b);
      ms := a + b;
    }
  }

  /** Every mutation offered is the server's mutation of that revision. */
  ghost predicate FromLog(log: nat -> Mutation, events: seq<Event>) {
    forall i, m :: 0 <= i < |events| && events[i].Deliver? && m in events[i].page.mutations ==> m == log(m.revision)
  }

  /** The server's mutations after one revision and up to another. */
  ghost function Slice(log: nat -> Mutation, from: nat, to: nat): seq<Mutation>
    requires from <= to
  {
    seq(to - from, i requires 0 <= i < to - from => log(from + 1 + i))
  }

  /** Against one server log, where the cursor stands decides what was projected. */
  lemma RunFollowsLog<S>(h: Host<S>, r: Reader<S>, log: nat -> Mutation, events: seq<Event>)
    requires Settled(r) && FromLog(log, events)
    ensures r.applied <= Run(h, r, events).applied
    ensures Extends(h, r, Run(h, r, events), Slice(log, r.applied, Run(h, r, events).applied))
  {
    var ms := RunExtends(h, r, events);
    FiledIsSlice(Run(h, r, events).inbox, log, events, r.applied, ms);
  }

  lemma FiledIsSlice(inbox: map<nat, Mutation>, log: nat -> Mutation, events: seq<Event>, from: nat, ms: seq<Mutation>)
    requires Filed(inbox, from, ms) && FromLog(log, events)
    requires forall m :: m in ms ==>
      exists i :: 0 <= i < |events| && events[i].Deliver? && m in events[i].page.mutations
    ensures ms == Slice(log, from, from + |ms|)
  {
    forall i | 0 <= i < |ms| ensures ms[i] == log(from + 1 + i) {
      assert ms[i] in ms;
    }
  }

  /** Two runs against one server log that reach the same revision have the same workspace and the same rows. */
  lemma CutsDoNotMatter<S>(h: Host<S>, r: Reader<S>, log: nat -> Mutation, a: seq<Event>, b: seq<Event>)
    requires Settled(r) && FromLog(log, a) && FromLog(log, b)
    requires Run(h, r, a).applied == Run(h, r, b).applied
    ensures Run(h, r, a).workspace == Run(h, r, b).workspace
    ensures r.applied <= Run(h, r, a).applied
    ensures Filed(Run(h, r, a).inbox, r.applied, Slice(log, r.applied, Run(h, r, a).applied))
    ensures Filed(Run(h, r, b).inbox, r.applied, Slice(log, r.applied, Run(h, r, a).applied))
  {
    RunFollowsLog(h, r, log, a);
    RunFollowsLog(h, r, log, b);
  }

  ghost predicate CollisionFree(rules: Rules) {
    forall x, y :: rules.unsignedDigest(x) == rules.unsignedDigest(y) ==> x == y
  }

  /** A page presented again with its token changes nothing, and with a collision-free digest nothing else does so. */
  lemma OnlyTheLastPageReplays<S>(h: Host<S>, r: Reader<S>, p: Page, token: string, q: Page, token': string)
    requires Applied(h, r, p, token, true).0.Changed?
    ensures var done := Applied(h, r, p, token, true).1;
      (q == p && token' == token ==> Applied(h, done, q, token', true) == (Unchanged, done))
      && (CollisionFree(h.rules) && Applied(h, done, q, token', true).0.Unchanged? ==> q == p && token' == token)
  {}

  /**
   A page is applied exactly when the reader is active and stands at the page's start, the page
   is well formed, of this workspace, under its own digest and not the one applied last, no
   projection refuses, and the fence holds; the reader then stands at the page's end with its
   continuation cursor, which is absent exactly when the page reaches as far as the server had.
   */
  lemma AppliedExactly<S>(h: Host<S>, r: Reader<S>, p: Page, token: string, fence: bool)
    requires Settled(r)
    ensures var (o, q) := Applied(h, r, p, token, fence);
      (o.Changed? <==>
        fence && r.active && r.applied == p.from && !(r.applied == p.returned && r.lastDigest == Some(p.digest))
        && p.schemaVersion == 2 && p.workspaceId == h.workspaceId && |p.mutations| <= 256
        && PageDigest(h.rules, p) == p.digest && PageTexts(h.rules, p, token) && Storable(h.rules, p)
        && Fold(h.project, r.workspace, p.mutations).Some?)
      && (!o.Changed? ==> q == r)
      && (o.Changed? ==>
            q.active && q.applied == p.returned && q.cursor == p.nextCursor && q.token == Some(token)
            && q.lastDigest == Some(p.digest) && Fold(h.project, r.workspace, p.mutations) == Some(q.workspace)
            && (q.cursor.None? <==> p.returned == p.through))
  {
    if Storable(h.rules, p) && p.from == r.applied {
      FreshApply(h, r, p.mutations);
    }
  }

  /** A page's digest follows from the rest of it: the same page under another digest is not applied. */
  lemma OneDigestPerPage<S>(h: Host<S>, r: Reader<S>, q: Reader<S>, p: Page, digest: string, token: string)
    requires Applied(h, r, p, token, true).0.Changed? && digest != p.digest
    ensures !Applied(h, q, p.(digest := digest), token, true).0.Changed?
  {
    assert p.(digest := digest).(digest := seq(43, _ => 'A')) == p.(digest := seq(43, _ => 'A'));
  }

  ghost predicate PageTexts(rules: Rules, p: Page, token: string) {
    rules.small(p) && rules.cursor(token) && rules.digest43(p.digest)
    && (p.nextCursor.Some? ==> rules.cursor(p.nextCursor.value))
  }

  /** The event is the delivery of a page that the reader applies. */
  ghost predicate Applies<S>(h: Host<S>, r: Reader<S>, e: Event) {
    e.Deliver? && Applied(h, r, e.page, e.token, e.fence).0.Changed?
  }

  /** The reader stands where a page, applied from another reader, has left it. */
  ghost predicate StandsAt<S>(q: Reader<S>, e: Event) {
    e.Deliver? && q.applied == e.page.returned && q.lastDigest == Some(e.page.digest)
    && (q.active ==>
          q.token == Some(e.token) && q.cursor == e.page.nextCursor
          && (q.cursor.None? <==> e.page.returned == e.page.through))
  }

  ghost predicate StandsAsBefore<S>(r: Reader<S>, q: Reader<S>) {
    q.applied == r.applied && q.lastDigest == r.lastDigest
    && (q.active ==> r.active && q.token == r.token && q.cursor == r.cursor)
  }

  lemma StepStands<S>(h: Host<S>, r: Reader<S>, e: Event)
    requires Settled(r)
    ensures if Applies(h, r, e) then StandsAt(Step(h, r, e), e) else StandsAsBefore(r, Step(h, r, e))
  {
    if e.Deliver? {
      AppliedExactly(h, r, e.page, e.token, e.fence);
    }
  }

  /** The place of the last event of a run that applies a page. */
  ghost function LastApplied<S>(h: Host<S>, r: Reader<S>, events: seq<Event>): (n: Option<nat>)
    ensures n.Some? ==> n.value < |events|
  {
    if events == [] then None
    else
      var before, n := events[..|events| - 1], |events| - 1;
      if Applies(h, Run(h, r, before), events[n]) then Some(n) else LastApplied(h, r, before)
  }

  /**
   In every run the reader stands at the page applied last: while it is active its cursor is
   that page's, absent exactly when the page reached as far as the server had.
   */
  lemma {:induction false} RunCursor<S>(h: Host<S>, r: Reader<S>, events: seq<Event>)
    requires Settled(r)
    ensures match LastApplied(h, r, events)
      case None => StandsAsBefore(r, Run(h, r, events))
      case Some(n) => StandsAt(Run(h, r, events), events[n])
  {
    if events != [] {
      var before := events[..|events| - 1];
      RunCursor(h, r, before);
      var _ := RunExtends(h, r, before);
      StepStands(h, Run(h, r, before), events[|events| - 1]);
    }
  }

  /** After a committed mark nothing that arrives changes the reader in any way. */
  lemma {:induction false} MarkIsFinal<S>(h: Host<S>, r: Reader<S>, before: seq<Event>, after: seq<Event>)
    ensures var marked := Run(h, r, before + [Mark(true)] + after);
      var last := Run(h, r, before);
      marked.applied == last.applied && marked.inbox == last.inbox && marked.workspace == last.workspace
      && marked == Run(h, r, before + [Mark(true)])
      && !marked.active && marked.cursor.None? && marked.token.None?
    decreases |after|
  {
    var events := before + [Mark(true)] + after;
    if after == [] {
      assert events == before + [Mark(true)] && events[..|events| - 1] == before;
    } else {
      MarkIsFinal(h, r, before, after[..|after| - 1]);
      assert events[..|events| - 1] == before + [Mark(true)] + after[..|after| - 1];
    }
  }

  /** What the host accepts passes the store's own revision checks, and applies unless the store's rules differ. */
  lemma ValidPageApplies<S>(h: Host<S>, r: Reader<S>, response: Response, x: Exchange)
    requires ValidPage(h.rules, response, x) && x.workspaceId == h.workspaceId && x.after == r.applied
    requires Settled(r) && r.active && PageDigest(h.rules, response.page) == response.page.digest
    requires h.rules.small(response.page) && forall m :: m in response.page.mutations ==> h.rules.storable(m)
    requires !Replay(r, response.page) && Fold(h.project, r.workspace, response.page.mutations).Some?
    ensures Applied(h, r, response.page, response.confirmToken, true).0.Changed?
    ensures Applied(h, r, response.page, response.confirmToken, true).1.applied == response.page.returned
  {
    FreshApply(h, r, response.page.mutations);
  }
}
