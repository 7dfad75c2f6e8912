/**
 The one-shot authority check at the commit point. Guarded sync operations run one at a time
 under the host's locks, but a revocation may be requested between any two of their steps and
 every clock reading is arbitrary. A run is any interleaving of those steps.
 */
module CommitFence {
  import opened Basics

  // ----- Admissions -----

  /** Everything a run admission repeats of the runtime that made it. */
  datatype Identity = Identity(
    nonce: seq<nat>, workspaceId: string, deviceId: string, leaseEpoch: nat, floor: int, before: int,
    digest: string, authorityEpoch: nat)

  datatype Admission = Admission(identity: Identity, runSequence: nat)

  predicate InWindow(i: Identity, now: int) {
    i.floor <= now < i.before
  }

  class DesktopSyncRuntime {
    const identity: Identity
    var nextRunSequence: nat

    constructor (identity: Identity)
      ensures this.identity == identity && nextRunSequence == 0
    {
      this.identity, nextRunSequence := identity, 0;
    }

    /** Admits a run under a number no earlier run of this runtime has. */
    method BeginSyncRun(databaseWorkspace: string, now: int) returns (admission: Option<Admission>)
      requires nextRunSequence <= MaxSafeInteger
      modifies this
      ensures admission.Some? <==>
        databaseWorkspace == identity.workspaceId && InWindow(identity, now) && old(nextRunSequence) < MaxSafeInteger
      ensures admission.Some? ==> admission.value == Admission(identity, old(nextRunSequence) + 1)
      ensures nextRunSequence == old(nextRunSequence) + if admission.Some? then 1 else 0
      ensures nextRunSequence <= MaxSafeInteger
    {
      if databaseWorkspace != identity.workspaceId || now < identity.floor || now >= identity.before {
        return None;
      }
      if nextRunSequence + 1 > MaxSafeInteger {
        return None;
      }
      nextRunSequence := nextRunSequence + 1;
      return Some(Admission(identity, nextRunSequence));
    }

    method RecheckSyncRun(databaseWorkspace: string, admission: Admission, now: int) returns (ok: bool)
      ensures ok <==> Rechecks(identity, databaseWorkspace, admission, now)
    {
      var a := admission.identity;
      return !(a.nonce != identity.nonce || databaseWorkspace != identity.workspaceId
               || a.workspaceId != identity.workspaceId || a.deviceId != identity.deviceId
               || a.leaseEpoch != identity.leaseEpoch || a.floor != identity.floor || a.before != identity.before
               || a.digest != identity.digest || a.authorityEpoch != identity.authorityEpoch
               || now < a.floor || now >= a.before);
    }
  }

  /** The admission was made by this runtime, and the reading is inside its window. */
  predicate Rechecks(identity: Identity, databaseWorkspace: string, admission: Admission, now: int) {
    admission.identity == identity && databaseWorkspace == identity.workspaceId && InWindow(identity, now)
  }

  // ----- Interleavings -----

  datatype Authority = Authority(generation: nat, floor: int, before: int)

  predicate CurrentAt(a: Authority, now: int) {
    a.generation != 0 && a.floor <= now < a.before
  }

  /** What the host has published; it changes only between operations. */
  datatype Published = Published(
    active: bool, epoch: nat, authority: Authority, runtime: Identity, databaseWorkspace: string)

  /** An operation's transaction gives its new store and whether it shows, or nothing. */
  datatype Op<!D> = Op(admission: Admission, capacity: bool, body: D -> Option<(D, bool)>)

  datatype Phase<!D> =
    | Idle
    | Entered(op: Op<D>)
    | Checked(op: Op<D>)
    | Rechecked(op: Op<D>)
    | Prepared(op: Op<D>, after: D, shows: bool)
    | Snapshotted(op: Op<D>, after: D)
    | Fenced(op: Op<D>, after: D)
    | Finished(ok: bool)

  datatype System<!D> = System(requested: nat, published: Published, store: D, phase: Phase<D>)

  datatype Event<!D> =
    | Revoke(epoch: nat)
    | Publish(published: Published)
    | Enter(op: Op<D>)
    | HostCheck(now: int)
    | Recheck(now: int)
    | Body
    | Snapshot(now: int)
    | FenceCheck(now: int)
    | Commit
    | CommitFails
    | Return
    | Crash

  function Passed<D>(s: System<D>, ok: bool, phase: Phase<D>): System<D> {
    s.(phase := if ok then phase else Finished(false))
  }

  predicate HostAllows<D>(s: System<D>, now: int) {
    s.published.active && s.requested == s.published.epoch && CurrentAt(s.published.authority, now)
  }

  predicate FenceAllows<D>(s: System<D>, now: int) {
    s.requested == s.published.epoch && CurrentAt(s.published.authority, now)
  }

  predicate SnapshotAllows<D>(s: System<D>, op: Op<D>, now: int) {
    op.admission.identity == s.published.runtime && InWindow(s.published.runtime, now)
  }

  /** What an event leads to, where it can happen. */
  function Step<D>(s: System<D>, e: Event<D>): Option<System<D>> {
    match (e, s.phase)
    case (Revoke(epoch), _) => Some(s.(requested := epoch))
    case (Publish(p), Idle) => Some(s.(published := p))
    case (Enter(op), Idle) => Some(s.(phase := Entered(op)))
    case (HostCheck(now), Entered(op)) => Some(Passed(s, HostAllows(s, now), Checked(op)))
    case (Recheck(now), Checked(op)) =>
      Some(Passed(s, Rechecks(s.published.runtime, s.published.databaseWorkspace, op.admission, now), Rechecked(op)))
    case (Body, Rechecked(op)) =>
      (match op.body(s.store)
       case None => Some(s.(phase := Finished(false)))
       case Some((after, shows)) => Some(s.(phase := Prepared(op, after, shows))))
    case (Snapshot(now), Prepared(op, after, shows)) =>
      Some(Passed(s, (shows ==> op.capacity) && SnapshotAllows(s, op, now), Snapshotted(op, after)))
    case (FenceCheck(now), Snapshotted(op, after)) => Some(Passed(s, FenceAllows(s, now), Fenced(op, after)))
    case (Commit, Fenced(op, after)) => Some(s.(store := after, phase := Finished(true)))
    case (CommitFails, Fenced(op, after)) => Some(s.(phase := Finished(false)))
    case (Return, Finished(ok)) => Some(s.(phase := Idle))
    case (Crash, _) => Some(s.(phase := Idle))
    case _ => None
  }

  ghost predicate Run<D>(states: seq<System<D>>, events: seq<Event<D>>) {
    |states| == |events| + 1 && states[0].phase.Idle?
    && forall i :: 0 <= i < |events| ==> Step(states[i], events[i]) == Some(states[i + 1])
  }

  /** Only revocations happen between two places. */
  ghost predicate OnlyRevokes<D>(events: seq<Event<D>>, i: nat, j: nat)
    requires j <= |events|
  {
    forall k :: i <= k < j ==> events[k].Revoke?
  }

  /** Storage changes in no other way than by a commit after a passed fence. */
  lemma OnlyCommitChangesStore<D>(s: System<D>, e: Event<D>)
    requires Step(s, e).Some? && Step(s, e).value.store != s.store
    ensures e.Commit? && s.phase.Fenced? && Step(s, e).value.phase == Finished(true)
  {}

  /** An operation that does not commit leaves storage as it found it, whatever it meets. */
  lemma {:induction false} UncommittedKeepsStore<D>(states: seq<System<D>>, events: seq<Event<D>>, i: nat, j: nat)
    requires Run(states, events) && i <= j < |states| && forall k :: i <= k < j ==> !events[k].Commit?
    ensures states[j].store == states[i].store
    decreases j
  {
    if i < j {
      UncommittedKeepsStore(states, events, i, j - 1);
      assert Step(states[j - 1], events[j - 1]) == Some(states[j]);
    }
  }

  lemma {:induction false} RevokesKeep<D>(states: seq<System<D>>, events: seq<Event<D>>, i: nat, j: nat)
    requires Run(states, events) && i <= j < |states| && OnlyRevokes(events, i, j)
    ensures states[j] == states[i].(requested := states[j].requested)
    decreases j
  {
    if i < j {
      RevokesKeep(states, events, i, j - 1);
      assert Step(states[j - 1], events[j - 1]) == Some(states[j]);
    }
  }

  lemma {:induction false} FencedSince<D>(states: seq<System<D>>, events: seq<Event<D>>, k: nat) returns (f: nat)
    requires Run(states, events) && k < |states| && states[k].phase.Fenced?
    ensures f < k && events[f].FenceCheck? && OnlyRevokes(events, f + 1, k)
    ensures states[f].phase == Snapshotted(states[k].phase.op, states[k].phase.after)
    ensures FenceAllows(states[f], events[f].now) && states[f].store == states[k].store
    ensures states[f].published == states[k].published
    ensures states[f + 1].phase == states[k].phase
  {
    assert Step(states[k - 1], events[k - 1]) == Some(states[k]);
    if events[k - 1].Revoke? {
      f := FencedSince(states, events, k - 1);
    } else {
      f := k - 1;
    }
  }

  lemma {:induction false} SnapshottedSince<D>(states: seq<System<D>>, events: seq<Event<D>>, k: nat) returns (c: nat)
    requires Run(states, events) && k < |states| && states[k].phase.Snapshotted?
    ensures c < k && events[c].Snapshot? && OnlyRevokes(events, c + 1, k)
    ensures SnapshotAllows(states[k], states[k].phase.op, events[c].now)
    ensures states[c].phase.Prepared? && states[c].phase.op == states[k].phase.op
    ensures states[c].phase.after == states[k].phase.after && states[c].store == states[k].store
    ensures states[c].published == states[k].published
    ensures states[c].phase.shows ==> states[c].phase.op.capacity
  {
    assert Step(states[k - 1], events[k - 1]) == Some(states[k]);
    if events[k - 1].Revoke? {
      c := SnapshottedSince(states, events, k - 1);
    } else {
      c := k - 1;
    }
  }

  lemma {:induction false} PreparedSince<D>(states: seq<System<D>>, events: seq<Event<D>>, k: nat) returns (b: nat)
    requires Run(states, events) && k < |states| && states[k].phase.Prepared?
    ensures b < k && events[b].Body? && OnlyRevokes(events, b + 1, k)
    ensures states[b].store == states[k].store && states[b].published == states[k].published
    ensures states[b].phase == Rechecked(states[k].phase.op)
    ensures states[k].phase.op.body(states[b].store) == Some((states[k].phase.after, states[k].phase.shows))
  {
    assert Step(states[k - 1], events[k - 1]) == Some(states[k]);
    if events[k - 1].Revoke? {
      b := PreparedSince(states, events, k - 1);
    } else {
      b := k - 1;
    }
  }

  lemma {:induction false} RecheckedSince<D>(states: seq<System<D>>, events: seq<Event<D>>, k: nat) returns (r: nat)
    requires Run(states, events) && k < |states| && states[k].phase.Rechecked?
    ensures r < k && events[r].Recheck? && OnlyRevokes(events, r + 1, k)
    ensures states[r].phase == Checked(states[k].phase.op) && states[r].published == states[k].published
    ensures var runtime := states[k].published.runtime;
      states[k].phase.op.admission.identity == runtime && states[k].published.databaseWorkspace == runtime.workspaceId
      && runtime.floor <= events[r].now < runtime.before
  {
    assert Step(states[k - 1], events[k - 1]) == Some(states[k]);
    if events[k - 1].Revoke? {
      r := RecheckedSince(states, events, k - 1);
    } else {
      r := k - 1;
    }
  }

  lemma {:induction false} CheckedSince<D>(states: seq<System<D>>, events: seq<Event<D>>, k: nat) returns (h: nat)
    requires Run(states, events) && k < |states| && states[k].phase.Checked?
    ensures h < k && events[h].HostCheck? && OnlyRevokes(events, h + 1, k)
    ensures states[h].phase == Entered(states[k].phase.op) && states[h].published == states[k].published
    ensures states[h].published.active && AuthorityHolds(states[h], events[h].now)
  {
    assert Step(states[k - 1], events[k - 1]) == Some(states[k]);
    if events[k - 1].Revoke? {
      h := CheckedSince(states, events, k - 1);
    } else {
      h := k - 1;
    }
  }

  lemma {:induction false} EnteredSince<D>(states: seq<System<D>>, events: seq<Event<D>>, k: nat) returns (e: nat)
    requires Run(states, events) && k < |states| && states[k].phase.Entered?
    ensures e < k && events[e] == Enter(states[k].phase.op) && OnlyRevokes(events, e + 1, k)
  {
    assert Step(states[k - 1], events[k - 1]) == Some(states[k]);
    if events[k - 1].Revoke? {
      e := EnteredSince(states, events, k - 1);
    } else {
      e := k - 1;
    }
  }

  /** No revocation is requested beyond what is published, and the reading is inside the authority's window. */
  ghost predicate AuthorityHolds<D>(s: System<D>, now: int) {
    s.requested == s.published.epoch && s.published.authority.generation != 0
    && s.published.authority.floor <= now < s.published.authority.before
  }

  /** The same operation was entered, then checked by the host and again by the runtime that admitted it. */
  lemma CommitWasAdmitted<D>(states: seq<System<D>>, events: seq<Event<D>>, b: nat) returns (e: nat, h: nat, r: nat)
    requires Run(states, events) && b < |states| && states[b].phase.Rechecked?
    ensures e < h < r < b && OnlyRevokes(events, e + 1, h) && OnlyRevokes(events, h + 1, r)
    ensures OnlyRevokes(events, r + 1, b) && events[e] == Enter(states[b].phase.op)
    ensures events[h].HostCheck? && states[h].published.active && AuthorityHolds(states[h], events[h].now)
    ensures states[h].published == states[b].published
    ensures events[r].Recheck? && states[b].phase.op.admission.identity == states[b].published.runtime
    ensures states[b].published.databaseWorkspace == states[b].published.runtime.workspaceId
    ensures states[b].published.runtime.floor <= events[r].now < states[b].published.runtime.before
  {
    r := RecheckedSince(states, events, b);
    h := CheckedSince(states, events, r);
    e := EnteredSince(states, events, h);
  }

  /**
   Every commit passed its check at the commit point: the snapshot reading was inside the
   runtime's window under the runtime's own identity, then the fence reading inside the
   authority's with the published epoch still the requested one; nothing but revocations came
   between body, snapshot, fence and commit; and what was stored is the transaction's result on
   the store it replaced.
   */
  lemma CommitPassedItsFence<D>(states: seq<System<D>>, events: seq<Event<D>>, k: nat)
    returns (b: nat, c: nat, f: nat)
    requires Run(states, events) && k < |events| && events[k].Commit?
    ensures b < c < f < k && OnlyRevokes(events, b + 1, c) && OnlyRevokes(events, c + 1, f)
    ensures OnlyRevokes(events, f + 1, k)
    ensures events[c].Snapshot?
    ensures states[k].published.runtime.floor <= events[c].now < states[k].published.runtime.before
    ensures events[f].FenceCheck? && AuthorityHolds(states[f], events[f].now)
    ensures states[f].published == states[k].published
    ensures states[k].phase.Fenced? && states[k].phase.op.admission.identity == states[k].published.runtime
    ensures states[b].store == states[k].store && states[b].published == states[k].published
    ensures states[b].phase == Rechecked(states[k].phase.op)
    ensures var result := states[k].phase.op.body(states[k].store);
      result.Some? && result.value.0 == states[k + 1].store && (result.value.1 ==> states[k].phase.op.capacity)
  {
    assert Step(states[k], events[k]) == Some(states[k + 1]);
    f := FencedSince(states, events, k);
    c := SnapshottedSince(states, events, f);
    b := PreparedSince(states, events, c);
  }

  /** The steps of one operation with nothing between them. */
  function Undisturbed<D>(op: Op<D>, host: int, recheck: int, snapshot: int, fence: int): seq<Event<D>> {
    [Enter(op), HostCheck(host), Recheck(recheck), Body, Snapshot(snapshot), FenceCheck(fence), Commit]
  }

  /** An operation that meets all its conditions and no revocation can run to its commit, and stores its result. */
  lemma UndisturbedCommits<D>(s: System<D>, op: Op<D>, host: int, recheck: int, snapshot: int, fence: int)
    returns (states: seq<System<D>>)
    requires s.phase.Idle? && s.published.active && AuthorityHolds(s, host) && AuthorityHolds(s, fence)
    requires op.admission.identity == s.published.runtime
    requires s.published.databaseWorkspace == s.published.runtime.workspaceId
    requires s.published.runtime.floor <= recheck < s.published.runtime.before
    requires s.published.runtime.floor <= snapshot < s.published.runtime.before
    requires op.body(s.store).Some? && (op.body(s.store).value.1 ==> op.capacity)
    ensures Run(states, Undisturbed(op, host, recheck, snapshot, fence)) && states[0] == s
    ensures states[7] == s.(store := op.body(s.store).value.0, phase := Finished(true))
  {
    var after, shows := op.body(s.store).value.0, op.body(s.store).value.1;
    states := [s, s.(phase := Entered(op)), s.(phase := Checked(op)), s.(phase := Rechecked(op)),
               s.(phase := Prepared(op, after, shows)), s.(phase := Snapshotted(op, after)),
               s.(phase := Fenced(op, after)), s.(store := after, phase := Finished(true))];
  }

  /** After a commit the caller is told so, however many revocations follow first. */
  lemma CommittedIsReported<D>(states: seq<System<D>>, events: seq<Event<D>>, k: nat, j: nat)
    requires Run(states, events) && k < j < |states| && events[k].Commit? && OnlyRevokes(events, k + 1, j)
    ensures states[j].phase == Finished(true) && states[j].store == states[k + 1].store
    ensures j < |events| && !events[j].Revoke? ==> events[j].Return? || events[j].Crash?
  {
    assert Step(states[k], events[k]) == Some(states[k + 1]);
    RevokesKeep(states, events, k + 1, j);
    if j < |events| {
      assert Step(states[j], events[j]) == Some(states[j + 1]);
    }
  }

  /** A commit could as well have happened before a revocation that came just before it. */
  lemma CommitCommutes<D>(s: System<D>, epoch: nat)
    requires s.phase.Fenced?
    ensures var viaRevoke := Step(Step(s, Revoke(epoch)).value, Commit);
      var viaCommit := Step(Step(s, Commit).value, Revoke(epoch));
      viaRevoke.Some? && viaRevoke == viaCommit
  {}

  /**
   Check and commit act as one step: the same run with the commit moved back to right after its
   fence, the revocations between them after it, is a run to the same state.
   */
  lemma {:induction false} CommitMovesToFence<D>(states: seq<System<D>>, events: seq<Event<D>>, f: nat, k: nat)
    returns (moved: seq<System<D>>)
    requires Run(states, events) && f <= k < |events| && events[k].Commit? && OnlyRevokes(events, f, k)
    ensures Run(moved, events[..f] + [events[k]] + events[f..k] + events[k + 1..])
    ensures moved[..f + 1] == states[..f + 1] && moved[k + 1..] == states[k + 1..]
    decreases k - f
  {
    if f == k {
      moved := states;
      assert events[..f] + [events[k]] + events[f..k] + events[k + 1..] == events;
    } else {
      var swapped := events[k - 1 := events[k]][k := events[k - 1]];
      var middle := Step(states[k - 1], events[k]);
      assert Step(states[k - 1], events[k - 1]) == Some(states[k]) && Step(states[k], events[k]) == Some(states[k + 1]);
      CommitCommutes(states[k - 1], events[k - 1].epoch);
      var mid := states[k := middle.value];
      forall i | 0 <= i < |swapped| ensures Step(mid[i], swapped[i]) == Some(mid[i + 1]) {
        assert Step(states[i], events[i]) == Some(states[i + 1]);
      }
      moved := CommitMovesToFence(mid, swapped, f, k - 1);
      assert swapped[..f] + [swapped[k - 1]] + swapped[f..k - 1] + swapped[k..]
          == events[..f] + [events[k]] + events[f..k] + events[k + 1..];
      assert mid[..f + 1] == states[..f + 1] && mid[k..][1..] == states[k + 1..] && moved[k..][1..] == moved[k + 1..];
    }
  }
}
