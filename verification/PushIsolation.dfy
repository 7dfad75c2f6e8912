/**
 Sync push. A claimed batch of outbox mutations is sent as one request. The reply acknowledges
 the whole batch, stops the cycle, or asks for isolation, in which case the batch is cut in two
 and the left half goes first. Replies are arbitrary: every statement below holds against any
 server and any transport unless a server is described.
 */
module PushIsolation {
  import opened Basics

  datatype Mutation = Mutation(id: string, sequence: nat)
  datatype Claim = Claim(owner: string, claimed: seq<Mutation>)

  datatype Acknowledgement = Acknowledgement(id: string, sequence: nat, revision: nat)

  datatype Reply =
    | Accepted(schemaVersion: nat, accepted: bool, acknowledgements: seq<Acknowledgement>, head: nat)
    | Refused(schemaVersion: nat, accepted: bool, code: string, correlated: bool)

  /** What one turn of the push loop meets: a cancelled cycle, a refused admission, no reply, or a
      reply together with whether the durable commit went through. */
  datatype Exchange = Cancelled | NotAdmitted | NoReply(deferrable: bool) | Replied(reply: Reply, committed: bool)

  datatype Verdict = Acknowledged(revision: nat) | Rejected | Conflicted
  datatype Resolution = Resolution(mutation: Mutation, verdict: Verdict)

  datatype Disposition =
    | Completed
    | DeterministicRejected
    | IsolationRequired
    | Retryable
    | AuthorizationBlocked
    | Failed

  function Mutations(log: seq<Resolution>): (ms: seq<Mutation>)
    ensures |ms| == |log| && forall i :: 0 <= i < |log| ==> ms[i] == log[i].mutation
  {
    seq(|log|, i requires 0 <= i < |log| => log[i].mutation)
  }

  const RequestLimit := 9
  const ClaimLimit := 256

  // ----- Replies -----

  /** Each acknowledgement answers the mutation at its place, with revisions rising from 1 to the head. */
  ghost predicate Answers(acks: seq<Acknowledgement>, claimed: seq<Mutation>, head: nat) {
    |acks| == |claimed|
    && (forall i :: 0 <= i < |acks| ==>
          acks[i].id == claimed[i].id && acks[i].sequence == claimed[i].sequence && 1 <= acks[i].revision <= head)
    && forall i, j :: 0 <= i < j < |acks| ==> acks[i].revision < acks[j].revision
  }

  ghost predicate ValidAcceptance(r: Reply, claimed: seq<Mutation>) {
    r.Accepted? && r.schemaVersion == 2 && r.accepted && |claimed| <= ClaimLimit && r.head <= MaxSafeInteger
    && Answers(r.acknowledgements, claimed, r.head)
  }

  method ValidatePushResponse(r: Reply, claimed: seq<Mutation>) returns (ok: bool)
    requires r.Accepted?
    ensures ok <==> ValidAcceptance(r, claimed)
  {
    var acks := r.acknowledgements;
    if r.schemaVersion != 2 || !r.accepted || |acks| != |claimed| || |acks| > ClaimLimit || r.head > MaxSafeInteger {
      return false;
    }
    var prior := 0;
    for i := 0 to |acks|
      invariant prior == if i == 0 then 0 else acks[i - 1].revision
      invariant Answers(acks[..i], claimed[..i], r.head)
    {
      var a := acks[i];
      if a.id != claimed[i].id || a.sequence != claimed[i].sequence || a.revision == 0
         || a.revision > r.head || a.revision <= prior {
        return false;
      }
      prior := a.revision;
    }
    assert acks[..|acks|] == acks && claimed[..|acks|] == claimed;
    return true;
  }

  const IsolatingCodes := {"SYNC_INPUT_REJECTED", "SYNC_SCHEMA_UNSUPPORTED", "SYNC_IDEMPOTENCY_CONFLICT"}
  const BlockingCodes := {"SYNC_AUTHORIZATION_REJECTED", "SYNC_TENANT_UNRESOLVED"}

  ghost predicate ValidRefusal(r: Reply) {
    r.Refused? && r.schemaVersion == 2 && !r.accepted && r.correlated
    && (r.code in IsolatingCodes || r.code in BlockingCodes || r.code == "SYNC_STORAGE_REJECTED")
  }

  /** The whole claim is resolved as the reply says, or nothing is. */
  method CompletePush(claim: Claim, reply: Reply, committed: bool) returns (d: Disposition, log: seq<Resolution>)
    ensures log == [] || Mutations(log) == claim.claimed
    ensures d.Completed? <==> committed && ValidAcceptance(reply, claim.claimed)
    ensures d.Completed? ==> Mutations(log) == claim.claimed
    ensures d.Completed? ==>
      forall i :: 0 <= i < |log| ==> log[i].verdict == Acknowledged(reply.acknowledgements[i].revision)
    ensures d.DeterministicRejected? <==>
      committed && ValidRefusal(reply) && reply.code in IsolatingCodes && |claim.claimed| <= 1
    ensures d.DeterministicRejected? ==> Mutations(log) == claim.claimed
    ensures d.DeterministicRejected? ==> forall i :: 0 <= i < |log| ==>
      log[i].verdict == if reply.code == "SYNC_IDEMPOTENCY_CONFLICT" then Conflicted else Rejected
    ensures d.IsolationRequired? <==> ValidRefusal(reply) && reply.code in IsolatingCodes && |claim.claimed| > 1
    ensures d.Retryable? <==> ValidRefusal(reply) && reply.code == "SYNC_STORAGE_REJECTED"
    ensures d.AuthorizationBlocked? <==> ValidRefusal(reply) && reply.code in BlockingCodes
    ensures !d.Completed? && !d.DeterministicRejected? ==> log == []
  {
    var claimed := claim.claimed;
    if reply.Accepted? {
      var ok := ValidatePushResponse(reply, claimed);
      if ok && committed {
        return Completed, seq(|claimed|, i requires 0 <= i < |claimed| =>
          Resolution(claimed[i], Acknowledged(reply.acknowledgements[i].revision)));
      }
      return Failed, [];
    }
    if reply.schemaVersion != 2 || reply.accepted || !reply.correlated {
      return Failed, [];
    }
    var verdict;
    if reply.code == "SYNC_STORAGE_REJECTED" {
      return Retryable, [];
    } else if reply.code == "SYNC_INPUT_REJECTED" || reply.code == "SYNC_SCHEMA_UNSUPPORTED" {
      verdict := Rejected;
    } else if reply.code == "SYNC_IDEMPOTENCY_CONFLICT" {
      verdict := Conflicted;
    } else if reply.code == "SYNC_AUTHORIZATION_REJECTED" || reply.code == "SYNC_TENANT_UNRESOLVED" {
      return AuthorizationBlocked, [];
    } else {
      return Failed, [];
    }
    if |claimed| > 1 {
      return IsolationRequired, [];
    }
    if !committed {
      return Failed, [];
    }
    return DeterministicRejected, seq(|claimed|, i requires 0 <= i < |claimed| => Resolution(claimed[i], verdict));
  }

  // ----- Fragments -----

  /** Both halves keep the owner, are smaller, and laid end to end are the claim. */
  method SplitPush(claim: Claim) returns (halves: Option<(Claim, Claim)>)
    ensures halves.None? <==> |claim.claimed| < 2
    ensures halves.Some? ==>
      var (left, right) := halves.value;
      left.claimed + right.claimed == claim.claimed
      && left.owner == claim.owner == right.owner
      && |left.claimed| == |claim.claimed| / 2 && left.claimed != [] && right.claimed != []
  {
    if |claim.claimed| < 2 {
      return None;
    }
    var split := |claim.claimed| / 2;
    var right := claim.claimed[split..];
    var left := claim.claimed[..split];
    return Some((Claim(claim.owner, left), Claim(claim.owner, right)));
  }

  /** The fragments of a stack from its top down, laid end to end. */
  function TopDown(stack: seq<Claim>): seq<Mutation> {
    if stack == [] then [] else stack[|stack| - 1].claimed + TopDown(stack[..|stack| - 1])
  }

  /** The fragments of a stack from its bottom up, laid end to end. */
  function BottomUp(stack: seq<Claim>): seq<Mutation> {
    if stack == [] then [] else BottomUp(stack[..|stack| - 1]) + stack[|stack| - 1].claimed
  }

  /** The number of exchanges a stack of fragments can still cost. */
  function Cost(stack: seq<Claim>): int {
    if stack == [] then 0 else Cost(stack[..|stack| - 1]) + 2 * |stack[|stack| - 1].claimed| - 1
  }

  predicate OwnedFragments(stack: seq<Claim>, owner: string) {
    forall i :: 0 <= i < |stack| ==> stack[i].owner == owner && stack[i].claimed != []
  }

  lemma {:induction false} CostPositive(stack: seq<Claim>, owner: string)
    requires OwnedFragments(stack, owner)
    ensures Cost(stack) >= |stack|
  {
    if stack != [] {
      CostPositive(stack[..|stack| - 1], owner);
    }
  }

  lemma {:induction false} SameMutations(stack: seq<Claim>)
    ensures multiset(BottomUp(stack)) == multiset(TopDown(stack))
  {
    if stack != [] {
      SameMutations(stack[..|stack| - 1]);
    }
  }

  lemma Pushed(stack: seq<Claim>, c: Claim)
    ensures TopDown(stack + [c]) == c.claimed + TopDown(stack)
    ensures BottomUp(stack + [c]) == BottomUp(stack) + c.claimed
    ensures Cost(stack + [c]) == Cost(stack) + 2 * |c.claimed| - 1
  {
    assert (stack + [c])[..|stack|] == stack;
  }

  lemma PushedHalves(stack: seq<Claim>, c: Claim, left: Claim, right: Claim)
    requires left.claimed + right.claimed == c.claimed
    ensures TopDown(stack + [right] + [left]) == c.claimed + TopDown(stack)
    ensures Cost(stack + [right] + [left]) == Cost(stack) + 2 * |c.claimed| - 2
  {
    Pushed(stack, right);
    Pushed(stack + [right], left);
    Regroup(left.claimed, right.claimed, TopDown(stack));
  }

  lemma Regroup(x: seq<Mutation>, y: seq<Mutation>, z: seq<Mutation>)
    ensures x + (y + z) == (x + y) + z
  {}

  /** One deferral for all fragments, refused for an empty list or a second owner. */
  method DeferPush(claims: seq<Claim>) returns (deferred: Option<(string, seq<Mutation>)>)
    ensures deferred.Some? <==> claims != [] && forall i :: 0 <= i < |claims| ==> claims[i].owner == claims[0].owner
    ensures deferred.Some? ==> deferred.value == (claims[0].owner, BottomUp(claims))
    ensures deferred.Some? ==> multiset(deferred.value.1) == multiset(TopDown(claims))
  {
    if claims == [] {
      return None;
    }
    var mutations := claims[0].claimed;
    assert BottomUp(claims[..1]) == mutations by {
      Pushed([], claims[0]);
      assert claims[..1] == [] + [claims[0]];
    }
    for i := 1 to |claims|
      invariant forall j :: 0 <= j < i ==> claims[j].owner == claims[0].owner
      invariant mutations == BottomUp(claims[..i])
    {
      if claims[i].owner != claims[0].owner {
        return None;
      }
      mutations := mutations + claims[i].claimed;
      assert claims[..i + 1][..i] == claims[..i];
    }
    assert claims[..|claims|] == claims;
    SameMutations(claims);
    return Some((claims[0].owner, mutations));
  }

  // ----- A server that refuses exactly the batches with a bad mutation -----

  ghost predicate HasBad(bad: Mutation -> bool, ms: seq<Mutation>) {
    exists i :: 0 <= i < |ms| && bad(ms[i])
  }

  ghost predicate AllBad(bad: Mutation -> bool, ms: seq<Mutation>) {
    forall i :: 0 <= i < |ms| ==> bad(ms[i])
  }

  ghost predicate Serves(bad: Mutation -> bool, claim: Claim, e: Exchange) {
    e.Replied? && e.committed
    && if HasBad(bad, claim.claimed)
       then ValidRefusal(e.reply) && e.reply.code in IsolatingCodes
       else ValidAcceptance(e.reply, claim.claimed)
  }

  /** The server tells bad mutations from others on every request a claim can lead to. */
  ghost predicate Deterministic(bad: Mutation -> bool, server: (nat, Claim) -> Exchange) {
    forall k: nat, c: Claim :: c.claimed != [] && |c.claimed| <= ClaimLimit ==> Serves(bad, c, server(k, c))
  }

  /** The reply of a server that knows the bad mutations: refuse, or acknowledge with revisions 1, 2, 3, ... */
  ghost function DeterministicReply(bad: Mutation -> bool, c: Claim): Exchange {
    if HasBad(bad, c.claimed) then Replied(Refused(2, false, "SYNC_INPUT_REJECTED", true), true)
    else
      var acks := seq(|c.claimed|, i requires 0 <= i < |c.claimed| =>
        Acknowledgement(c.claimed[i].id, c.claimed[i].sequence, i + 1));
      Replied(Accepted(2, true, acks, ClaimLimit), true)
  }

  /** Whatever the bad mutations are, there is such a server. */
  lemma DeterministicServerExists(bad: Mutation -> bool) returns (server: (nat, Claim) -> Exchange)
    ensures Deterministic(bad, server)
  {
    server := (k: nat, c: Claim) => DeterministicReply(bad, c);
    forall k: nat, c: Claim | c.claimed != [] && |c.claimed| <= ClaimLimit ensures Serves(bad, c, server(k, c)) {
      assert server(k, c) == DeterministicReply(bad, c);
    }
  }

  ghost predicate RightVerdicts(bad: Mutation -> bool, log: seq<Resolution>) {
    forall i :: 0 <= i < |log| ==> (bad(log[i].mutation) <==> !log[i].verdict.Acknowledged?)
  }

  function Halved(n: nat, times: nat): nat {
    if times == 0 then n else Halved(n, times - 1) / 2
  }

  lemma {:induction false} HalvedExactly(n: nat, k: nat)
    ensures Halved(n, k) >= 1 <==> n >= Pow2(k)
    ensures Halved(n, k) <= n
    decreases k
  {
    if k > 0 {
      HalvedOnce(n, k - 1);
      HalvedExactly(n / 2, k - 1);
    }
  }

  lemma {:induction false} HalvedOnce(n: nat, k: nat)
    ensures Halved(n, k + 1) == Halved(n / 2, k)
  {
    if k > 0 {
      HalvedOnce(n, k - 1);
    }
  }

  lemma {:induction false} HalvedShrinks(n: nat, i: nat, j: nat)
    requires i <= j
    ensures Halved(n, j) <= Halved(n, i)
    decreases j
  {
    if i < j {
      HalvedShrinks(n, i, j - 1);
    }
  }

  /** Only splits so far: the top fragment is a first block of the claim. */
  ghost predicate Untouched(claimed: seq<Mutation>, stack: seq<Claim>, size: nat) {
    stack != [] && size <= |claimed| && stack[|stack| - 1].claimed == claimed[..size]
  }

  /** Every request of the cycle splits: the claim is long, and the block the last request reaches is bad. */
  ghost predicate Stuck(bad: Mutation -> bool, claimed: seq<Mutation>, limit: nat) {
    limit == 0 || (|claimed| >= Pow2(limit) && Halved(|claimed|, limit - 1) <= |claimed|
                   && HasBad(bad, claimed[..Halved(|claimed|, limit - 1)]))
  }

  /** Every verdict so far is right, and there is none exactly when the cycle is stuck. */
  ghost predicate Isolating(bad: Mutation -> bool, claimed: seq<Mutation>, resolved: seq<Resolution>, requests: nat) {
    RightVerdicts(bad, resolved) && (resolved == [] <==> Stuck(bad, claimed, requests))
  }

  lemma StuckStep(bad: Mutation -> bool, claimed: seq<Mutation>, k: nat)
    ensures Halved(|claimed|, k) <= |claimed|
    ensures Stuck(bad, claimed, k + 1) <==>
      Stuck(bad, claimed, k) && Halved(|claimed|, k) >= 2 && HasBad(bad, claimed[..Halved(|claimed|, k)])
  {
    HalvedExactly(|claimed|, k);
    HalvedExactly(|claimed|, k + 1);
    if Stuck(bad, claimed, k + 1) && k > 0 {
      HalvedExactly(|claimed|, k - 1);
      HalvedShrinks(|claimed|, k - 1, k);
      var i :| 0 <= i < Halved(|claimed|, k) && bad(claimed[..Halved(|claimed|, k)][i]);
      assert bad(claimed[..Halved(|claimed|, k - 1)][i]);
    }
  }

  lemma {:induction false} StuckEarlier(bad: Mutation -> bool, claimed: seq<Mutation>, i: nat, j: nat)
    requires i <= j
    ensures Stuck(bad, claimed, j) ==> Stuck(bad, claimed, i)
    decreases j
  {
    if i < j {
      StuckStep(bad, claimed, j - 1);
      StuckEarlier(bad, claimed, i, j - 1);
    }
  }

  datatype Turn = Advanced | MustDefer | MustStop

  function Top(stack: seq<Claim>): seq<Mutation>
    requires stack != []
  {
    stack[|stack| - 1].claimed
  }

  /** The log and the new stack, laid end to end, are the old stack, and something was spent. */
  ghost predicate Moves(before: seq<Claim>, log: seq<Resolution>, after: seq<Claim>, owner: string) {
    Mutations(log) + TopDown(after) == TopDown(before) && OwnedFragments(after, owner) && Cost(after) < Cost(before)
  }

  /** A move without a log is a split, whose left half is then on top. */
  ghost predicate Splits(before: seq<Claim>, log: seq<Resolution>, after: seq<Claim>)
    requires before != []
  {
    log == [] ==> |Top(before)| >= 2 && Untouched(Top(before), after, |Top(before)| / 2)
  }

  /** What a move looks like when the server told bad mutations from others. */
  ghost predicate Isolated(bad: Mutation -> bool, before: seq<Claim>, log: seq<Resolution>, after: seq<Claim>)
    requires before != [] && Top(before) != []
  {
    RightVerdicts(bad, log)
    && (log == [] <==> HasBad(bad, Top(before)) && |Top(before)| >= 2)
    && (bad(Top(before)[0]) ==> Cost(after) == Cost(before) - 1)
  }

  lemma TopResolved(rest: seq<Claim>, top: Claim, owner: string, log: seq<Resolution>)
    requires OwnedFragments(rest + [top], owner) && Mutations(log) == top.claimed
    ensures log != [] && Moves(rest + [top], log, rest, owner)
    ensures |top.claimed| == 1 ==> Cost(rest) == Cost(rest + [top]) - 1
  {
    Pushed(rest, top);
    assert (rest + [top])[|rest|] == top;
    assert forall i :: 0 <= i < |rest| ==> (rest + [top])[i] == rest[i];
  }

  lemma TopSplit(rest: seq<Claim>, top: Claim, owner: string, left: Claim, right: Claim)
    requires OwnedFragments(rest + [top], owner) && left.claimed + right.claimed == top.claimed
    requires left.owner == top.owner == right.owner && left.claimed != [] && right.claimed != []
    requires |left.claimed| == |top.claimed| / 2
    ensures Moves(rest + [top], [], rest + [right] + [left], owner)
    ensures Splits(rest + [top], [], rest + [right] + [left])
    ensures Cost(rest + [right] + [left]) == Cost(rest + [top]) - 1
  {
    Pushed(rest, top);
    PushedHalves(rest, top, left, right);
    assert (rest + [top])[|rest|] == top;
    assert forall i :: 0 <= i < |rest| ==> (rest + [top])[i] == rest[i];
    assert [] + TopDown(rest + [right] + [left]) == TopDown(rest + [right] + [left]);
  }

  /** An answer that resolves the fragment or has it split. */
  ghost predicate Advances(e: Exchange, top: seq<Mutation>) {
    e.Replied?
    && ((e.committed && ValidAcceptance(e.reply, top))
        || (ValidRefusal(e.reply) && e.reply.code in IsolatingCodes && (|top| > 1 || e.committed)))
  }

  /** A lost reply that may be tried again, or a refusal that asks for it. */
  ghost predicate Defers(e: Exchange) {
    (e.NoReply? && e.deferrable)
    || (e.Replied? && ValidRefusal(e.reply) && e.reply.code == "SYNC_STORAGE_REJECTED")
  }

  /** The answer to a request gives the mutation at a place of it this verdict. */
  ghost predicate Given(e: Exchange, c: Claim, j: nat, r: Resolution) {
    e.Replied? && e.committed && j < |c.claimed| && c.claimed[j] == r.mutation
    && ((ValidAcceptance(e.reply, c.claimed) && r.verdict == Acknowledged(e.reply.acknowledgements[j].revision))
        || (ValidRefusal(e.reply) && |c.claimed| == 1
            && ((e.reply.code == "SYNC_IDEMPOTENCY_CONFLICT" && r.verdict == Conflicted)
                || (e.reply.code in {"SYNC_INPUT_REJECTED", "SYNC_SCHEMA_UNSUPPORTED"} && r.verdict == Rejected))))
  }

  ghost predicate GivenAt(server: (nat, Claim) -> Exchange, k: nat, c: Claim, j: nat, r: Resolution) {
    Given(server(k, c), c, j, r)
  }

  ghost predicate GivenBefore(server: (nat, Claim) -> Exchange, requests: nat, r: Resolution) {
    exists k: nat, c: Claim, j: nat :: k < requests && GivenAt(server, k, c, j, r)
  }

  /** Every verdict was given by the answer to one of the requests made. */
  ghost predicate Grounded(server: (nat, Claim) -> Exchange, requests: nat, resolved: seq<Resolution>) {
    forall i :: 0 <= i < |resolved| ==> GivenBefore(server, requests, resolved[i])
  }

  lemma GroundedStep(server: (nat, Claim) -> Exchange, requests: nat, resolved: seq<Resolution>, c: Claim,
                     log: seq<Resolution>)
    requires Grounded(server, requests, resolved)
    requires forall j :: 0 <= j < |log| ==> Given(server(requests, c), c, j, log[j])
    ensures Grounded(server, requests + 1, resolved + log)
  {
    forall i | 0 <= i < |resolved + log| ensures GivenBefore(server, requests + 1, (resolved + log)[i]) {
      if i < |resolved| {
        var k: nat, d: Claim, j: nat :| k < requests && GivenAt(server, k, d, j, resolved[i]);
        assert GivenAt(server, k, d, j, (resolved + log)[i]);
      } else {
        assert GivenAt(server, requests, c, i - |resolved|, (resolved + log)[i]);
      }
    }
  }

  /** How a cycle came to its end. */
  datatype Ending = Finished | Spent | Cancellation | Unadmitted | Answered(e: Exchange)

  /** The end is what the server, the fence and the limit made it, and the stage reports it. */
  ghost predicate Ends(ending: Ending, stage: Stage, server: (nat, Claim) -> Exchange, limit: nat,
                       unresolved: seq<Claim>, requests: nat) {
    if unresolved == [] then ending.Finished? && stage.Valid?
    else
      var top := unresolved[|unresolved| - 1];
      match ending
      case Finished => false
      case Spent => requests == limit && stage == Deferred(server(requests, top).Cancelled?)
      case Cancellation => requests < limit && server(requests, top).Cancelled? && stage == Deferred(true)
      case Unadmitted => requests < limit && server(requests, top).NotAdmitted? && stage.Stopped?
      case Answered(e) =>
        requests > 0 && e == server(requests - 1, top) && (e.NoReply? || e.Replied?) && !Advances(e, top.claimed)
        && stage == if Defers(e) then Deferred(false) else Stopped
  }

  /** Sends the top fragment and does what the reply asks for. */
  method TakeTurn(stack: seq<Claim>, e: Exchange, ghost owner: string, ghost bad: Mutation -> bool)
    returns (turn: Turn, log: seq<Resolution>, after: seq<Claim>)
    requires stack != [] && OwnedFragments(stack, owner) && (e.NoReply? || e.Replied?)
    ensures turn.Advanced? <==> Advances(e, Top(stack))
    ensures turn.MustDefer? <==> Defers(e)
    ensures turn.Advanced? ==> Moves(stack, log, after, owner) && Splits(stack, log, after)
    ensures forall j :: 0 <= j < |log| ==> Given(e, stack[|stack| - 1], j, log[j])
    ensures Serves(bad, stack[|stack| - 1], e) ==> turn.Advanced? && Isolated(bad, stack, log, after)
  {
    log, after := [], stack;
    if e.NoReply? {
      return (if e.deferrable then MustDefer else MustStop), log, after;
    }
    var top, rest := stack[|stack| - 1], stack[..|stack| - 1];
    assert stack == rest + [top];
    var d;
    d, log := CompletePush(top, e.reply, e.committed);
    match d {
      case Completed | DeterministicRejected =>
        TopResolved(rest, top, owner, log);
        return Advanced, log, rest;
      case IsolationRequired =>
        var halves := SplitPush(top);
        var (left, right) := halves.value;
        TopSplit(rest, top, owner, left, right);
        return Advanced, [], rest + [right] + [left];
      case Retryable =>
        return MustDefer, log, after;
      case AuthorizationBlocked | Failed =>
        return MustStop, log, after;
    }
  }

  datatype Stage = Valid | Deferred(cancelled: bool) | Stopped

  /** The push loop: left half first until nothing is left, the requests are spent or a reply stops it. */
  method DrivePush(claim: Claim, limit: nat, server: (nat, Claim) -> Exchange, ghost bad: Mutation -> bool)
    returns (stage: Stage, resolved: seq<Resolution>, unresolved: seq<Claim>, requests: nat, ghost splits: nat,
             ghost ending: Ending)
    requires claim.claimed != []
    ensures Ends(ending, stage, server, limit, unresolved, requests)
    ensures Grounded(server, requests, resolved)
    ensures Balanced(claim, resolved, unresolved)
    ensures requests <= limit && requests <= 2 * |claim.claimed| - 1
    ensures stage.Valid? <==> unresolved == []
    ensures splits < requests || (splits == requests && |claim.claimed| >= Pow2(splits))
    ensures Isolable(bad, server, claim) ==> Isolates(bad, claim.claimed, limit, stage, resolved, requests)
  {
    ghost var told := Isolable(bad, server, claim);
    resolved, unresolved, requests, splits := [], [claim], 0, 0;
    StartOf(claim, bad, told);
    while unresolved != []
      invariant requests <= limit && Driven(claim, bad, told, resolved, unresolved, requests, splits)
      invariant Grounded(server, requests, resolved)
      decreases Cost(unresolved)
    {
      LoopFacts(claim, bad, told, resolved, unresolved, requests, splits);
      var e := server(requests, unresolved[|unresolved| - 1]);
      assert told ==> Serves(bad, unresolved[|unresolved| - 1], e);
      if requests >= limit {
        if told {
          AtLimit(claim, bad, resolved, unresolved, requests, splits);
        }
        return Deferred(e.Cancelled?), resolved, unresolved, requests, splits, Spent;
      }
      if e.Cancelled? {
        return Deferred(true), resolved, unresolved, requests, splits, Cancellation;
      }
      if e.NotAdmitted? {
        return Stopped, resolved, unresolved, requests, splits, Unadmitted;
      }
      var turn, log, after := TakeTurn(unresolved, e, claim.owner, bad);
      if !turn.Advanced? {
        GroundedStep(server, requests, resolved, unresolved[|unresolved| - 1], []);
        assert resolved + [] == resolved;
        return (if turn.MustDefer? then Deferred(false) else Stopped), resolved, unresolved, requests + 1, splits,
          Answered(e);
      }
      GroundedStep(server, requests, resolved, unresolved[|unresolved| - 1], log);
      DrivenStep(claim, bad, told, resolved, unresolved, requests, splits, log, after);
      splits := if log == [] then splits + 1 else splits;
      resolved, unresolved, requests := resolved + log, after, requests + 1;
    }
    AtFinish(claim, bad, told, resolved, requests, splits, limit);
    return Valid, resolved, unresolved, requests, splits, Ending.Finished;
  }

  /**
   One push cycle. It is valid when nothing is left, deferred exactly for a spent limit, a
   cancellation, a lost reply that may be tried again or a refusal that asks for it, and stopped
   otherwise; every verdict was given by an answer. Against any replies the resolved mutations
   followed by the fragments still on the stack are the claim; at most 2n - 1 requests are made;
   nine requests over a claim of at most 256 split at most eight times; the list to defer is
   never refused for being empty or for a second owner and covers exactly what is unresolved.
   Against a deterministic server every verdict is right, a cycle that stops has used its whole
   request limit, it resolves nothing exactly when stuck, and with nine requests it always
   resolves something.
   */
  method RunPush(claim: Claim, limit: nat, server: (nat, Claim) -> Exchange, ghost bad: Mutation -> bool)
    returns (stage: Stage, resolved: seq<Resolution>, unresolved: seq<Claim>, requests: nat,
             deferred: Option<(string, seq<Mutation>)>, ghost splits: nat, ghost ending: Ending)
    requires claim.claimed != []
    ensures Ends(ending, stage, server, limit, unresolved, requests)
    ensures Grounded(server, requests, resolved)
    ensures Mutations(resolved) + TopDown(unresolved) == claim.claimed
    ensures requests <= limit && requests <= 2 * |claim.claimed| - 1
    ensures stage.Valid? <==> unresolved == []
    ensures stage.Deferred? <==> deferred.Some?
    ensures deferred.Some? ==>
      deferred.value.0 == claim.owner
      && multiset(deferred.value.1) == multiset(claim.claimed[|resolved|..])
    ensures splits <= requests
    ensures limit <= RequestLimit && |claim.claimed| <= ClaimLimit ==> splits <= 8
    ensures Isolable(bad, server, claim) ==> Isolates(bad, claim.claimed, limit, stage, resolved, requests)
    ensures Isolable(bad, server, claim) && limit == RequestLimit ==> resolved != []
  {
    assert Pow2(4) == 16 && Pow2(6) == 64 && Pow2(8) == 256 && Pow2(9) == 512;
    stage, resolved, unresolved, requests, splits, ending := DrivePush(claim, limit, server, bad);
    if |claim.claimed| <= ClaimLimit {
      NineRequestsSuffice(claim.claimed);
    }
    deferred := None;
    if stage.Deferred? {
      deferred := DeferPush(unresolved);
      assert claim.claimed[|resolved|..] == TopDown(unresolved);
    }
  }

  /** A claim within the limit, before a server that tells bad mutations from others. */
  ghost predicate Isolable(bad: Mutation -> bool, server: (nat, Claim) -> Exchange, claim: Claim) {
    |claim.claimed| <= ClaimLimit && Deterministic(bad, server)
  }

  ghost predicate Balanced(claim: Claim, resolved: seq<Resolution>, unresolved: seq<Claim>) {
    Mutations(resolved) + TopDown(unresolved) == claim.claimed && OwnedFragments(unresolved, claim.owner)
  }

  /**
   What a cycle does against a deterministic server: every verdict is right, nothing is
   resolved exactly when stuck, only the limit stops it, 2n - 1 requests are always enough,
   and a claim of bad mutations alone needs them all.
   */
  ghost predicate Isolates(bad: Mutation -> bool, claimed: seq<Mutation>, limit: nat, stage: Stage,
                           resolved: seq<Resolution>, requests: nat) {
    Isolating(bad, claimed, resolved, limit)
    && (!stage.Valid? ==> stage == Deferred(false) && requests == limit)
    && (limit >= 2 * |claimed| - 1 ==> stage.Valid?)
    && (AllBad(bad, claimed) && stage.Valid? ==> requests == 2 * |claimed| - 1)
  }

  /** What the loop keeps: the balance, the price, and against a server that tells, the isolation so far. */
  ghost predicate Driven(claim: Claim, bad: Mutation -> bool, told: bool, resolved: seq<Resolution>,
                         unresolved: seq<Claim>, requests: nat, splits: nat) {
    Balanced(claim, resolved, unresolved) && requests + Cost(unresolved) <= 2 * |claim.claimed| - 1
    && splits <= requests
    && (resolved == [] ==> Untouched(claim.claimed, unresolved, Halved(|claim.claimed|, requests)))
    && (resolved != [] ==> splits < requests)
    && (told ==> Served(bad, claim, resolved, unresolved, requests))
  }

  ghost predicate Served(bad: Mutation -> bool, claim: Claim, resolved: seq<Resolution>, unresolved: seq<Claim>,
                         requests: nat) {
    Isolating(bad, claim.claimed, resolved, requests)
    && (AllBad(bad, claim.claimed) ==> requests + Cost(unresolved) == 2 * |claim.claimed| - 1)
  }

  lemma StartOf(claim: Claim, bad: Mutation -> bool, told: bool)
    requires claim.claimed != []
    ensures Driven(claim, bad, told, [], [claim], 0, 0)
  {
    Pushed([], claim);
    assert [] + [claim] == [claim];
  }

  /** The next request is for no more than the claim, and after splits only the claim was long. */
  lemma LoopFacts(claim: Claim, bad: Mutation -> bool, told: bool, resolved: seq<Resolution>,
                  unresolved: seq<Claim>, requests: nat, splits: nat)
    requires unresolved != [] && Driven(claim, bad, told, resolved, unresolved, requests, splits)
    ensures Balanced(claim, resolved, unresolved)
    ensures 1 <= |Top(unresolved)| <= |claim.claimed| && requests + 1 <= 2 * |claim.claimed| - 1
    ensures splits <= requests && (splits == requests ==> |claim.claimed| >= Pow2(splits))
    ensures Cost(unresolved) >= 1
  {
    CostPositive(unresolved, claim.owner);
    assert |Top(unresolved)| <= |TopDown(unresolved)|;
    HalvedExactly(|claim.claimed|, requests);
  }

  lemma AtLimit(claim: Claim, bad: Mutation -> bool, resolved: seq<Resolution>, unresolved: seq<Claim>, limit: nat,
                splits: nat)
    requires unresolved != [] && Driven(claim, bad, true, resolved, unresolved, limit, splits)
    ensures Isolates(bad, claim.claimed, limit, Deferred(false), resolved, limit)
  {
    CostPositive(unresolved, claim.owner);
  }

  lemma AtFinish(claim: Claim, bad: Mutation -> bool, told: bool, resolved: seq<Resolution>, requests: nat,
                 splits: nat, limit: nat)
    requires claim.claimed != [] && requests <= limit && Driven(claim, bad, told, resolved, [], requests, splits)
    ensures Balanced(claim, resolved, []) && requests <= 2 * |claim.claimed| - 1 && splits < requests
    ensures told ==> Isolates(bad, claim.claimed, limit, Valid, resolved, requests)
  {
    if told {
      StuckEarlier(bad, claim.claimed, requests, limit);
    }
  }

  lemma DrivenStep(claim: Claim, bad: Mutation -> bool, told: bool, resolved: seq<Resolution>, unresolved: seq<Claim>,
                   requests: nat, splits: nat, log: seq<Resolution>, after: seq<Claim>)
    requires unresolved != [] && Driven(claim, bad, told, resolved, unresolved, requests, splits)
    requires Moves(unresolved, log, after, claim.owner) && Splits(unresolved, log, after)
    requires told ==> Top(unresolved) != [] && Isolated(bad, unresolved, log, after)
    ensures Driven(claim, bad, told, resolved + log, after, requests + 1, if log == [] then splits + 1 else splits)
  {
    Appended(resolved, log, TopDown(after));
    if resolved == [] && log == [] {
      StillUntouched(claim.claimed, Top(unresolved), after, requests);
    }
    if told {
      ServedStep(bad, claim, resolved, unresolved, requests, log, after);
    }
  }

  lemma ServedStep(bad: Mutation -> bool, claim: Claim, resolved: seq<Resolution>, unresolved: seq<Claim>,
                   requests: nat, log: seq<Resolution>, after: seq<Claim>)
    requires unresolved != [] && Balanced(claim, resolved, unresolved) && Top(unresolved) != []
    requires Served(bad, claim, resolved, unresolved, requests) && Isolated(bad, unresolved, log, after)
    requires resolved == [] ==> Untouched(claim.claimed, unresolved, Halved(|claim.claimed|, requests))
    ensures Served(bad, claim, resolved + log, after, requests + 1)
  {
    var top := Top(unresolved);
    assert claim.claimed[|resolved|] == top[0];
    Progress(bad, claim.claimed, resolved, top, log, requests);
  }

  lemma StillUntouched(claimed: seq<Mutation>, top: seq<Mutation>, stack: seq<Claim>, k: nat)
    requires Halved(|claimed|, k) <= |claimed| && top == claimed[..Halved(|claimed|, k)]
    requires Untouched(top, stack, |top| / 2)
    ensures Untouched(claimed, stack, Halved(|claimed|, k + 1))
  {}

  lemma Progress(bad: Mutation -> bool, claimed: seq<Mutation>, resolved: seq<Resolution>,
                 top: seq<Mutation>, log: seq<Resolution>, k: nat)
    requires resolved == [] ==> Halved(|claimed|, k) <= |claimed| && top == claimed[..Halved(|claimed|, k)]
    requires log == [] <==> HasBad(bad, top) && |top| >= 2
    requires Isolating(bad, claimed, resolved, k) && RightVerdicts(bad, log)
    ensures Isolating(bad, claimed, resolved + log, k + 1)
  {
    StuckStep(bad, claimed, k);
  }

  lemma Appended(resolved: seq<Resolution>, log: seq<Resolution>, rest: seq<Mutation>)
    ensures Mutations(resolved + log) + rest == Mutations(resolved) + (Mutations(log) + rest)
  {
    assert Mutations(resolved + log) == Mutations(resolved) + Mutations(log);
  }

  // ----- Cycles -----

  /** Some server keeps a cycle from resolving anything exactly when the claim is long for the limit. */
  lemma StuckOnlyWhenLong(claimed: seq<Mutation>, limit: nat)
    requires limit > 0
    ensures (exists bad :: Stuck(bad, claimed, limit)) <==> |claimed| >= Pow2(limit)
    ensures (exists bad, server :: Deterministic(bad, server) && Stuck(bad, claimed, limit)) <==>
      |claimed| >= Pow2(limit)
  {
    if |claimed| >= Pow2(limit) {
      HalvedExactly(|claimed|, limit);
      HalvedExactly(|claimed|, limit - 1);
      HalvedShrinks(|claimed|, limit - 1, limit);
      var bad := (m: Mutation) => true;
      assert bad(claimed[..Halved(|claimed|, limit - 1)][0]);
      assert Stuck(bad, claimed, limit);
      var server := DeterministicServerExists(bad);
      assert Deterministic(bad, server);
    }
  }

  /** Nine requests always resolve something of a claim of at most 256; eight do not for a claim of 256. */
  lemma NineRequestsSuffice(claimed: seq<Mutation>)
    requires |claimed| <= ClaimLimit
    ensures forall bad :: !Stuck(bad, claimed, RequestLimit)
    ensures (exists bad :: Stuck(bad, claimed, 8)) <==> |claimed| == ClaimLimit
  {
    assert Pow2(4) == 16 && Pow2(6) == 64 && Pow2(8) == 256 && Pow2(9) == 512;
    StuckOnlyWhenLong(claimed, 8);
  }

  /** Every reply of every cycle is that of a deterministic server. */
  ghost predicate AlwaysDeterministic(bad: Mutation -> bool, server: (nat, nat, Claim) -> Exchange) {
    forall cycle: nat, k: nat, c: Claim ::
      c.claimed != [] && |c.claimed| <= ClaimLimit ==> Serves(bad, c, server(cycle, k, c))
  }

  /**
   Cycle after cycle over the head of a backlog. However it is cut into claims, n mutations are
   drained in at most n cycles, each exactly once and in order, and exactly the bad ones are refused.
   */
  method DrainBacklog(backlog: seq<Mutation>, owner: nat -> string, cut: nat -> nat,
                      server: (nat, nat, Claim) -> Exchange, ghost bad: Mutation -> bool)
    returns (cycles: nat, log: seq<Resolution>)
    requires AlwaysDeterministic(bad, server)
    ensures cycles <= |backlog|
    ensures Mutations(log) == backlog
    ensures RightVerdicts(bad, log)
  {
    cycles, log := 0, [];
    while |log| < |backlog|
      invariant cycles <= |log| <= |backlog| && Mutations(log) == backlog[..|log|]
      invariant RightVerdicts(bad, log)
    {
      var rest := backlog[|log|..];
      var size := ClaimSize(cut(cycles), |rest|);
      var claim := Claim(owner(cycles), rest[..size]);
      var now := cycles;
      var stage, resolved, unresolved, requests, deferred, _, _ :=
        RunPush(claim, RequestLimit, (k: nat, c: Claim) => server(now, k, c), bad);
      Drained(backlog, log, resolved, TopDown(unresolved), size);
      log, cycles := log + resolved, cycles + 1;
    }
    assert backlog[..|log|] == backlog;
  }

  /** A claim takes at least one and at most 256 of what waits. */
  function ClaimSize(wanted: nat, waiting: nat): (size: nat)
    requires waiting > 0
    ensures 1 <= size <= waiting && size <= ClaimLimit
  {
    var most := if waiting < ClaimLimit then waiting else ClaimLimit;
    if wanted == 0 then 1 else if wanted < most then wanted else most
  }

  lemma Drained(backlog: seq<Mutation>, log: seq<Resolution>, resolved: seq<Resolution>, left: seq<Mutation>, size: nat)
    requires |log| + size <= |backlog| && Mutations(log) == backlog[..|log|]
    requires Mutations(resolved) + left == backlog[|log|..][..size]
    ensures |log + resolved| <= |backlog| && Mutations(log + resolved) == backlog[..|log + resolved|]
  {
    var all := log + resolved;
    forall i | 0 <= i < |all| ensures Mutations(all)[i] == backlog[i] {
      if i >= |log| {
        assert (Mutations(resolved) + left)[i - |log|] == backlog[i];
      }
    }
  }
}
