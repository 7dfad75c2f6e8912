/**
 Billing request custody. Each controller keeps one persistent record around its remote calls.
 A run may stop at any await: a crash, a lost reply, a failed currency check. An operation is
 therefore a list of effects of which only a first part may happen; replies are arbitrary.
 Operations run one at a time.
 */
module Billing {
  import opened Basics

  /** The persistent record. Only a refund ever has an accepted identity or a rejected purchase. */
  datatype Record<R> =
    | Pending(request: R, accepted: Option<string>)
    | Rejected(requestId: string, purchaseId: Option<string>)

  datatype Effect<R> = Save(record: Record<R>) | Clear | Send(request: R)

  predicate IsPending<R>(store: Option<Record<R>>) {
    store.Some? && store.value.Pending?
  }

  function Apply<R>(store: Option<Record<R>>, e: Effect<R>): Option<Record<R>> {
    match e
    case Save(record) => Some(record)
    case Clear => None
    case Send(_) => store
  }

  function ApplyAll<R>(store: Option<Record<R>>, log: seq<Effect<R>>): Option<Record<R>> {
    if log == [] then store else Apply(ApplyAll(store, log[..|log| - 1]), log[|log| - 1])
  }

  // ----- Custody rules -----

  /**
   What may be done to a store. A request is sent only while it is the pending record; a
   pending record is replaced only by itself, gaining an accepted identity at most once; a
   rejected request does not come back.
   */
  predicate Legal<R(==)>(id: R -> string, store: Option<Record<R>>, e: Effect<R>) {
    match e
    case Send(r) => store.Some? && store.value.Pending? && store.value.request == r
    case Save(Rejected(j, _)) => store.Some? && store.value.Pending? && id(store.value.request) == j
    case Save(Pending(r, x)) =>
      (match store
       case None => x.None?
       case Some(Rejected(j, _)) => x.None? && id(r) != j
       case Some(Pending(q, y)) => q == r && (y.Some? ==> x == y))
    case Clear => true
  }

  ghost predicate LegalLog<R>(id: R -> string, store: Option<Record<R>>, log: seq<Effect<R>>) {
    forall k :: 0 <= k < |log| ==> Legal(id, ApplyAll(store, log[..k]), log[k])
  }

  /** The end of an episode: the record is cleared or its request rejected. */
  predicate Break<R>(e: Effect<R>) {
    e.Clear? || (e.Save? && e.record.Rejected?)
  }

  ghost predicate Unbroken<R>(log: seq<Effect<R>>, i: nat, j: nat)
    requires j <= |log|
  {
    forall k :: i <= k < j ==> !Break(log[k])
  }

  function StoreAt<R>(store: Option<Record<R>>, log: seq<Effect<R>>, k: nat): Option<Record<R>>
    requires k <= |log|
  {
    ApplyAll(store, log[..k])
  }

  lemma StoreAtNext<R>(store: Option<Record<R>>, log: seq<Effect<R>>, k: nat)
    requires k < |log|
    ensures StoreAt(store, log, k + 1) == Apply(StoreAt(store, log, k), log[k])
  {
    assert log[..k + 1][..k] == log[..k];
  }

  /** Within an episode the pending request stays, and so does its accepted identity once it has one. */
  lemma {:induction false} EpisodeKeeps<R>(id: R -> string, store: Option<Record<R>>, log: seq<Effect<R>>,
                                           i: nat, j: nat)
    requires LegalLog(id, store, log) && i <= j <= |log| && Unbroken(log, i, j)
    requires StoreAt(store, log, i).Some? && StoreAt(store, log, i).value.Pending?
    ensures StoreAt(store, log, j).Some? && StoreAt(store, log, j).value.Pending?
    ensures StoreAt(store, log, j).value.request == StoreAt(store, log, i).value.request
    ensures StoreAt(store, log, i).value.accepted.Some? ==> StoreAt(store, log, j) == StoreAt(store, log, i)
    decreases j
  {
    if i < j {
      EpisodeKeeps(id, store, log, i, j - 1);
      StoreAtNext(store, log, j - 1);
      assert Legal(id, StoreAt(store, log, j - 1), log[j - 1]) && !Break(log[j - 1]);
    }
  }

  /** Whatever was sent was already the persisted pending record. */
  lemma WriteAhead<R>(id: R -> string, store: Option<Record<R>>, log: seq<Effect<R>>, k: nat)
    requires LegalLog(id, store, log) && k < |log| && log[k].Send?
    ensures StoreAt(store, log, k).Some? && StoreAt(store, log, k).value.Pending?
    ensures StoreAt(store, log, k).value.request == log[k].request
  {
    assert Legal(id, StoreAt(store, log, k), log[k]);
  }

  /** Two requests sent with no clear and no rejection between them are the same request. */
  lemma OneRequestPerEpisode<R>(id: R -> string, store: Option<Record<R>>, log: seq<Effect<R>>, i: nat, j: nat)
    requires LegalLog(id, store, log) && i <= j < |log| && log[i].Send? && log[j].Send? && Unbroken(log, i, j)
    ensures log[i].request == log[j].request
  {
    WriteAhead(id, store, log, i);
    WriteAhead(id, store, log, j);
    EpisodeKeeps(id, store, log, i, j);
  }

  /** The requests sent; a server that acts once for each request has acted at most this often. */
  function Sent<R>(log: seq<Effect<R>>): set<R> {
    if log == [] then {}
    else Sent(log[..|log| - 1]) + if log[|log| - 1].Send? then {log[|log| - 1].request} else {}
  }

  function Breaks<R>(log: seq<Effect<R>>): nat {
    if log == [] then 0 else Breaks(log[..|log| - 1]) + if Break(log[|log| - 1]) then 1 else 0
  }

  /** At most one server effect for each episode: a request new to the log follows a break. */
  lemma {:induction false} OneEffectPerEpisode<R>(id: R -> string, log: seq<Effect<R>>)
    requires LegalLog(id, None, log)
    ensures |Sent(log)| <= Breaks(log) + if Current(log).Some? then 1 else 0
    ensures Current(log).Some? ==> Current(log).value in Sent(log) || |Sent(log)| <= Breaks(log)
    decreases log
  {
    if log != [] {
      var before, e := log[..|log| - 1], log[|log| - 1];
      assert LegalLog(id, None, before) by {
        forall k | 0 <= k < |before| ensures Legal(id, ApplyAll(None, before[..k]), before[k]) {
          assert before[..k] == log[..k] && before[k] == log[k];
        }
      }
      OneEffectPerEpisode(id, before);
      assert Legal(id, ApplyAll(None, log[..|before|]), log[|before|]);
      if e.Send? {
        assert Current(before) == Some(e.request);
      }
    }
  }

  /** The pending request after a log that started from nothing. */
  function Current<R>(log: seq<Effect<R>>): Option<R> {
    match ApplyAll(None, log)
    case Some(Pending(r, _)) => Some(r)
    case _ => None
  }

  // ----- Runs of interrupted operations -----

  /** An operation and how many of its effects happened before it was stopped. */
  datatype Step<O> = Step(op: O, completed: nat)

  function FirstPart<R>(log: seq<Effect<R>>, n: nat): seq<Effect<R>> {
    if n < |log| then log[..n] else log
  }

  function RunLog<R, O>(effects: (Option<Record<R>>, O) -> seq<Effect<R>>, store: Option<Record<R>>,
                        steps: seq<Step<O>>): seq<Effect<R>>
    decreases steps
  {
    if steps == [] then []
    else
      var done := FirstPart(effects(store, steps[0].op), steps[0].completed);
      done + RunLog(effects, ApplyAll(store, done), steps[1..])
  }

  lemma {:induction false} ApplyAllAppend<R>(store: Option<Record<R>>, a: seq<Effect<R>>, b: seq<Effect<R>>)
    ensures ApplyAll(store, a + b) == ApplyAll(ApplyAll(store, a), b)
  {
    if b == [] {
      assert a + b == a;
    } else {
      ApplyAllAppend(store, a, b[..|b| - 1]);
      assert (a + b)[..|a + b| - 1] == a + b[..|b| - 1];
    }
  }

  lemma LegalAppend<R>(id: R -> string, store: Option<Record<R>>, a: seq<Effect<R>>, b: seq<Effect<R>>)
    requires LegalLog(id, store, a) && LegalLog(id, ApplyAll(store, a), b)
    ensures LegalLog(id, store, a + b)
  {
    forall k | 0 <= k < |a + b| ensures Legal(id, ApplyAll(store, (a + b)[..k]), (a + b)[k]) {
      if k < |a| {
        assert (a + b)[..k] == a[..k];
      } else {
        assert (a + b)[..k] == a + b[..k - |a|];
        ApplyAllAppend(store, a, b[..k - |a|]);
      }
    }
  }

  lemma LegalPart<R>(id: R -> string, store: Option<Record<R>>, log: seq<Effect<R>>, n: nat)
    requires LegalLog(id, store, log)
    ensures LegalLog(id, store, FirstPart(log, n))
  {
    var part := FirstPart(log, n);
    forall k | 0 <= k < |part| ensures Legal(id, ApplyAll(store, part[..k]), part[k]) {
      assert part[..k] == log[..k];
    }
  }

  /** From a fit store every operation is legal, and leaves a fit store wherever it stops. */
  ghost predicate Lawful<R(!new), O(!new)>(id: R -> string, fit: Option<Record<R>> -> bool,
                                           effects: (Option<Record<R>>, O) -> seq<Effect<R>>) {
    forall store, op :: fit(store) ==>
      LegalLog(id, store, effects(store, op))
      && forall n: nat :: fit(ApplyAll(store, FirstPart(effects(store, op), n)))
  }

  /** However its operations are chosen and stopped, a lawful controller's whole log is legal. */
  lemma {:induction false} RunsAreLegal<R(!new), O(!new)>(
    id: R -> string, fit: Option<Record<R>> -> bool, effects: (Option<Record<R>>, O) -> seq<Effect<R>>,
    store: Option<Record<R>>, steps: seq<Step<O>>)
    requires Lawful(id, fit, effects) && fit(store)
    ensures LegalLog(id, store, RunLog(effects, store, steps))
    decreases steps
  {
    if steps != [] {
      var log := effects(store, steps[0].op);
      var done := FirstPart(log, steps[0].completed);
      LegalPart(id, store, log, steps[0].completed);
      RunsAreLegal(id, fit, effects, ApplyAll(store, done), steps[1..]);
      LegalAppend(id, store, done, RunLog(effects, ApplyAll(store, done), steps[1..]));
    }
  }

  // ----- Checkout -----

  datatype Checkout = Checkout(requestId: string, provider: string, offer: string, campaign: Option<string>)

  datatype CheckoutStatus = Unsettled(request: Checkout) | NoCheckout | Settled

  datatype CheckoutOp =
    | StartCheckout(request: Checkout)
    | MarkRejected(requestId: string, deterministic: bool)
    | RecoverCheckout(status: CheckoutStatus)

  function CheckoutEffects(store: Option<Record<Checkout>>, op: CheckoutOp): seq<Effect<Checkout>> {
    match op
    case StartCheckout(r) =>
      (match store
       case Some(Pending(q, _)) => if q != r then [] else [Save(Pending(r, None)), Send(r)]
       case Some(Rejected(j, _)) => if j == r.requestId then [] else [Save(Pending(r, None)), Send(r)]
       case None => [Save(Pending(r, None)), Send(r)])
    case MarkRejected(j, deterministic) =>
      if deterministic && store.Some? && store.value.Pending? && store.value.request.requestId == j
      then [Save(Rejected(j, None))] else []
    case RecoverCheckout(Unsettled(r)) =>
      (match store
       case Some(Pending(q, _)) => if q != r then [] else [Send(r)]
       case Some(Rejected(_, _)) => []
       case None => [Save(Pending(r, None)), Send(r)])
    case RecoverCheckout(NoCheckout) =>
      if store.Some? && store.value.Pending? then [Send(store.value.request)] else []
    case RecoverCheckout(Settled) => [Clear]
  }

  // ----- Cancellation; the record is the request, which is its id -----

  datatype SubscriptionStatus = Cancelling(requestId: string) | PeriodEnd(requestId: string) | Active | Other

  datatype CancellationOp =
    | RequestCancellation(requestId: string, atPeriodEnd: bool)
    | RecoverCancellation(status: SubscriptionStatus, atPeriodEnd: bool)

  function Finish(atPeriodEnd: bool): seq<Effect<string>> {
    if atPeriodEnd then [Clear] else []
  }

  function CancellationEffects(store: Option<Record<string>>, op: CancellationOp): seq<Effect<string>> {
    var stored := if store.Some? && store.value.Pending? then Some(store.value.request) else None;
    match op
    case RequestCancellation(r, end) =>
      if stored.Some? && stored.value != r then [] else [Save(Pending(r, None)), Send(r)] + Finish(end)
    case RecoverCancellation(Cancelling(r), end) =>
      if stored.Some? && stored.value != r then []
      else (if stored.None? then [Save(Pending(r, None))] else []) + [Send(r)] + Finish(end)
    case RecoverCancellation(PeriodEnd(r), _) => if stored.Some? && stored.value != r then [] else [Clear]
    case RecoverCancellation(Active, end) => if stored.Some? then [Send(stored.value)] + Finish(end) else []
    case RecoverCancellation(Other, _) => [Clear]
  }

  // ----- Refund -----

  datatype Refund = Refund(requestId: string, purchaseId: string)

  datatype RefundReply = RefundRejected | RefundState(purchaseId: string, refundId: string, refunded: bool)
  datatype RefundStatus = RefundStatus(purchaseId: string, refunded: bool, retryWait: bool, due: bool)

  datatype RefundOp =
    | RequestRefund(request: Refund, reply: RefundReply)
    | RetryRefund(status: RefundStatus, reply: RefundReply)
    | RecoverRefund(status: RefundStatus, reply: RefundReply)

  function FinishRefund(r: Refund, reply: RefundReply, expected: Option<string>): seq<Effect<Refund>> {
    match reply
    case RefundRejected => [Save(Rejected(r.requestId, Some(r.purchaseId)))]
    case RefundState(purchaseId, refundId, refunded) =>
      if purchaseId != r.purchaseId || (expected.Some? && refundId != expected.value) then []
      else if refunded then [Clear]
      else [Save(Pending(r, Some(refundId)))]
  }

  function RefundEffects(store: Option<Record<Refund>>, op: RefundOp): seq<Effect<Refund>> {
    match op
    case RequestRefund(r, reply) =>
      (match store
       case Some(Pending(q, x)) =>
         if q != r then [] else [Save(Pending(r, x)), Send(r)] + FinishRefund(r, reply, x)
       case Some(Rejected(j, _)) =>
         if j == r.requestId then [] else [Save(Pending(r, None)), Send(r)] + FinishRefund(r, reply, None)
       case None => [Save(Pending(r, None)), Send(r)] + FinishRefund(r, reply, None))
    case RetryRefund(status, reply) =>
      (match store
       case Some(Pending(r, Some(x))) =>
         if status.purchaseId != r.purchaseId then []
         else if !status.retryWait then (if status.refunded then [Clear] else [])
         else if !status.due then []
         else [Send(r)] + FinishRefund(r, reply, Some(x))
       case _ => [])
    case RecoverRefund(status, reply) =>
      (match store
       case Some(Pending(r, None)) => [Send(r)] + FinishRefund(r, reply, None)
       case Some(Pending(r, Some(x))) =>
         if status.purchaseId == r.purchaseId && status.refunded then [Clear] else []
       case _ => [])
  }

  // ----- All three are lawful -----

  /** The stores along a short log. */
  lemma Parts<R>(store: Option<Record<R>>, log: seq<Effect<R>>)
    ensures log[..|log|] == log
    ensures ApplyAll(store, log[..0]) == store
    ensures |log| >= 1 ==> ApplyAll(store, log[..1]) == Apply(store, log[0])
    ensures |log| >= 2 ==> ApplyAll(store, log[..2]) == Apply(Apply(store, log[0]), log[1])
    ensures |log| >= 3 ==> ApplyAll(store, log[..3]) == Apply(Apply(Apply(store, log[0]), log[1]), log[2])
  {
    if |log| >= 1 {
      assert log[..1][..0] == log[..0];
    }
    if |log| >= 2 {
      assert log[..2][..1] == log[..1];
    }
    if |log| >= 3 {
      assert log[..3][..2] == log[..2];
    }
  }

  /** Legality and fitness of a log of at most three effects, effect by effect. */
  lemma LegalThree<R>(id: R -> string, fit: Option<Record<R>> -> bool, store: Option<Record<R>>, log: seq<Effect<R>>)
    requires |log| <= 3 && fit(store)
    requires |log| >= 1 ==> Legal(id, store, log[0]) && fit(Apply(store, log[0]))
    requires |log| >= 2 ==>
      Legal(id, Apply(store, log[0]), log[1]) && fit(Apply(Apply(store, log[0]), log[1]))
    requires |log| >= 3 ==>
      Legal(id, Apply(Apply(store, log[0]), log[1]), log[2])
      && fit(Apply(Apply(Apply(store, log[0]), log[1]), log[2]))
    ensures LegalLog(id, store, log)
    ensures forall n: nat :: fit(ApplyAll(store, FirstPart(log, n)))
  {
    Parts(store, log);
    forall n: nat ensures fit(ApplyAll(store, FirstPart(log, n))) {
      var m := if n < |log| then n else |log|;
      assert FirstPart(log, n) == log[..m];
    }
  }

  function CheckoutId(r: Checkout): string {
    r.requestId
  }

  function CancellationId(r: string): string {
    r
  }

  function RefundId(r: Refund): string {
    r.requestId
  }

  predicate CheckoutFit(store: Option<Record<Checkout>>) {
    store.Some? && store.value.Pending? ==> store.value.accepted.None?
  }

  predicate CancellationFit(store: Option<Record<string>>) {
    store.Some? ==> store.value.Pending? && store.value.accepted.None?
  }

  predicate RefundFit(store: Option<Record<Refund>>) {
    true
  }

  lemma CheckoutLawful()
    ensures Lawful(CheckoutId, CheckoutFit, CheckoutEffects)
  {
    forall store, op | CheckoutFit(store)
      ensures LegalLog(CheckoutId, store, CheckoutEffects(store, op))
      ensures forall n: nat :: CheckoutFit(ApplyAll(store, FirstPart(CheckoutEffects(store, op), n)))
    {
      LegalThree(CheckoutId, CheckoutFit, store, CheckoutEffects(store, op));
    }
  }

  lemma CancellationLawful()
    ensures Lawful(CancellationId, CancellationFit, CancellationEffects)
  {
    forall store, op | CancellationFit(store)
      ensures LegalLog(CancellationId, store, CancellationEffects(store, op))
      ensures forall n: nat :: CancellationFit(ApplyAll(store, FirstPart(CancellationEffects(store, op), n)))
    {
      LegalThree(CancellationId, CancellationFit, store, CancellationEffects(store, op));
    }
  }

  lemma RefundLawful()
    ensures Lawful(RefundId, RefundFit, RefundEffects)
  {
    forall store, op
      ensures LegalLog(RefundId, store, RefundEffects(store, op))
      ensures forall n: nat :: RefundFit(ApplyAll(store, FirstPart(RefundEffects(store, op), n)))
    {
      LegalThree(RefundId, RefundFit, store, RefundEffects(store, op));
    }
  }

  // ----- Every run -----

  /** What holds of every log: requests are written ahead, one per episode, and so are server effects. */
  ghost predicate Custody<R>(log: seq<Effect<R>>) {
    (forall k :: 0 <= k < |log| && log[k].Send? ==>
       exists x :: StoreAt(None, log, k) == Some(Pending(log[k].request, x)))
    && (forall i, j :: 0 <= i <= j < |log| && log[i].Send? && log[j].Send? && Unbroken(log, i, j) ==>
          log[i].request == log[j].request)
    && |Sent(log)| <= Breaks(log) + 1
  }

  lemma LegalIsCustody<R>(id: R -> string, log: seq<Effect<R>>)
    requires LegalLog(id, None, log)
    ensures Custody(log)
  {
    forall k | 0 <= k < |log| && log[k].Send?
      ensures exists x :: StoreAt(None, log, k) == Some(Pending(log[k].request, x))
    {
      WriteAhead(id, None, log, k);
      assert StoreAt(None, log, k) == Some(Pending(log[k].request, StoreAt(None, log, k).value.accepted));
    }
    forall i, j | 0 <= i <= j < |log| && log[i].Send? && log[j].Send? && Unbroken(log, i, j)
      ensures log[i].request == log[j].request
    {
      OneRequestPerEpisode(id, None, log, i, j);
    }
    OneEffectPerEpisode(id, log);
  }

  lemma CheckoutCustody(steps: seq<Step<CheckoutOp>>)
    ensures Custody(RunLog(CheckoutEffects, None, steps))
  {
    CheckoutLawful();
    RunsAreLegal(CheckoutId, CheckoutFit, CheckoutEffects, None, steps);
    LegalIsCustody(CheckoutId, RunLog(CheckoutEffects, None, steps));
  }

  lemma CancellationCustody(steps: seq<Step<CancellationOp>>)
    ensures Custody(RunLog(CancellationEffects, None, steps))
  {
    CancellationLawful();
    RunsAreLegal(CancellationId, CancellationFit, CancellationEffects, None, steps);
    LegalIsCustody(CancellationId, RunLog(CancellationEffects, None, steps));
  }

  lemma RefundCustody(steps: seq<Step<RefundOp>>)
    ensures Custody(RunLog(RefundEffects, None, steps))
  {
    RefundLawful();
    RunsAreLegal(RefundId, RefundFit, RefundEffects, None, steps);
    LegalIsCustody(RefundId, RunLog(RefundEffects, None, steps));
  }

  /** Within one pending episode the refund identity goes from none to one id and never on or back. */
  lemma RefundIdentityIsFixed(steps: seq<Step<RefundOp>>, i: nat, j: nat, r: Refund, refundId: string)
    requires i <= j <= |RunLog(RefundEffects, None, steps)| && Unbroken(RunLog(RefundEffects, None, steps), i, j)
    requires StoreAt(None, RunLog(RefundEffects, None, steps), i) == Some(Pending(r, Some(refundId)))
    ensures StoreAt(None, RunLog(RefundEffects, None, steps), j) == Some(Pending(r, Some(refundId)))
  {
    RefundLawful();
    RunsAreLegal(RefundId, RefundFit, RefundEffects, None, steps);
    EpisodeKeeps(RefundId, None, RunLog(RefundEffects, None, steps), i, j);
  }

  /** What follows a rejection is a clear or the record of another request, never a send. */
  lemma AfterRejection<R>(id: R -> string, log: seq<Effect<R>>, i: nat)
    requires LegalLog(id, None, log) && i + 1 < |log| && log[i].Save? && log[i].record.Rejected?
    ensures log[i + 1].Clear?
         || (log[i + 1].Save? && log[i + 1].record.Pending?
             && id(log[i + 1].record.request) != log[i].record.requestId)
  {
    StoreAtNext(None, log, i);
    assert Legal(id, StoreAt(None, log, i + 1), log[i + 1]);
  }

  /** In every run a rejected request is sent again only after a clear, or another request's turn. */
  lemma RejectedIsNotResent<R(!new), O(!new)>(
    id: R -> string, fit: Option<Record<R>> -> bool, effects: (Option<Record<R>>, O) -> seq<Effect<R>>,
    steps: seq<Step<O>>, i: nat, k: nat)
    requires Lawful(id, fit, effects) && fit(None) && i < k < |RunLog(effects, None, steps)|
    requires var log := RunLog(effects, None, steps);
      log[i].Save? && log[i].record.Rejected? && log[k].Send? && id(log[k].request) == log[i].record.requestId
    ensures var log := RunLog(effects, None, steps);
      exists l :: i < l < k
        && (log[l].Clear?
            || (log[l].Save? && log[l].record.Pending? && id(log[l].record.request) != log[i].record.requestId))
  {
    RunsAreLegal(id, fit, effects, None, steps);
    AfterRejection(id, RunLog(effects, None, steps), i);
  }

  // ----- What each operation comes to -----

  /** The request a checkout operation sends. */
  ghost function CheckoutSent(store: Option<Record<Checkout>>, op: CheckoutOp): Option<Checkout> {
    match op
    case StartCheckout(r) =>
      if IsPending(store) && store.value.request != r then None
      else if store.Some? && store.value.Rejected? && store.value.requestId == r.requestId then None
      else Some(r)
    case MarkRejected(_, _) => None
    case RecoverCheckout(status) =>
      if status.Unsettled? && (store.None? || (store.value.Pending? && store.value.request == status.request))
      then Some(status.request)
      else if status.NoCheckout? && IsPending(store) then Some(store.value.request)
      else None
  }

  /** The effects send exactly these requests. */
  ghost predicate SendsOnly<R>(log: seq<Effect<R>>, sent: Option<R>) {
    (sent.Some? ==> Send(sent.value) in log)
    && forall k :: 0 <= k < |log| && log[k].Send? ==> sent == Some(log[k].request)
  }

  /**
   A checkout that runs to its end leaves the request it sent pending, a deterministic
   rejection of the pending request leaves its mark, a settled status leaves nothing, and
   nothing else changes the record.
   */
  lemma CheckoutOutcome(store: Option<Record<Checkout>>, op: CheckoutOp)
    requires CheckoutFit(store)
    ensures SendsOnly(CheckoutEffects(store, op), CheckoutSent(store, op))
    ensures ApplyAll(store, CheckoutEffects(store, op))
         == if CheckoutSent(store, op).Some? then Some(Pending(CheckoutSent(store, op).value, None))
            else if op.MarkRejected? && op.deterministic && IsPending(store)
                    && store.value.request.requestId == op.requestId then Some(Rejected(op.requestId, None))
            else if op.RecoverCheckout? && op.status.Settled? then None
            else store
  {
    Parts(store, CheckoutEffects(store, op));
  }

  /** The request a cancellation operation sends. */
  ghost function CancellationSent(store: Option<Record<string>>, op: CancellationOp): Option<string>
    requires CancellationFit(store)
  {
    match op
    case RequestCancellation(r, _) => if store.None? || store.value.request == r then Some(r) else None
    case RecoverCancellation(Cancelling(r), _) => if store.None? || store.value.request == r then Some(r) else None
    case RecoverCancellation(Active, _) => if store.Some? then Some(store.value.request) else None
    case RecoverCancellation(_, _) => None
  }

  /**
   A cancellation that runs to its end leaves the request it sent pending until the answer is
   the end of the period; a status that says so of that request, or that nothing runs any
   more, leaves nothing.
   */
  lemma CancellationOutcome(store: Option<Record<string>>, op: CancellationOp)
    requires CancellationFit(store)
    ensures SendsOnly(CancellationEffects(store, op), CancellationSent(store, op))
    ensures ApplyAll(store, CancellationEffects(store, op))
         == if CancellationSent(store, op).Some? then
              (if op.atPeriodEnd then None else Some(Pending(CancellationSent(store, op).value, None)))
            else if op.RecoverCancellation? && op.status.Other? then None
            else if op.RecoverCancellation? && op.status.PeriodEnd?
                    && (store.None? || store.value.request == op.status.requestId) then None
            else store
  {
    Parts(store, CancellationEffects(store, op));
  }

  /** The request a refund operation sends, and the identity it has been accepted under. */
  ghost function RefundSent(store: Option<Record<Refund>>, op: RefundOp): Option<(Refund, Option<string>)> {
    match op
    case RequestRefund(r, _) =>
      if IsPending(store) then (if store.value.request == r then Some((r, store.value.accepted)) else None)
      else if store.Some? && store.value.requestId == r.requestId then None
      else Some((r, None))
    case RetryRefund(status, _) =>
      if IsPending(store) && store.value.accepted.Some? && status.purchaseId == store.value.request.purchaseId
         && status.retryWait && status.due
      then Some((store.value.request, store.value.accepted)) else None
    case RecoverRefund(_, _) =>
      if IsPending(store) && store.value.accepted.None? then Some((store.value.request, None)) else None
  }

  /** The record after an answer: only a refund of this purchase, under the known identity, leaves nothing. */
  ghost function Answered(r: Refund, x: Option<string>, reply: RefundReply): Option<Record<Refund>> {
    if reply.RefundRejected? then Some(Rejected(r.requestId, Some(r.purchaseId)))
    else if reply.purchaseId != r.purchaseId || (x.Some? && x.value != reply.refundId) then Some(Pending(r, x))
    else if reply.refunded then None
    else Some(Pending(r, Some(reply.refundId)))
  }

  /** A status that tells of a pending, accepted refund that it is done. */
  ghost predicate ToldRefunded(store: Option<Record<Refund>>, op: RefundOp) {
    !op.RequestRefund? && IsPending(store) && store.value.accepted.Some?
    && op.status.purchaseId == store.value.request.purchaseId && op.status.refunded
    && (op.RetryRefund? ==> !op.status.retryWait)
  }

  /**
   A refund that runs to its end leaves what the answer to the request it sent makes of it; one
   that sends nothing clears the record exactly on a status that says refunded.
   */
  lemma RefundOutcome(store: Option<Record<Refund>>, op: RefundOp)
    ensures SendsOnly(RefundEffects(store, op), match RefundSent(store, op) case None => None case Some(s) => Some(s.0))
    ensures ApplyAll(store, RefundEffects(store, op))
         == match RefundSent(store, op)
            case Some((r, x)) => Answered(r, x, op.reply)
            case None => if ToldRefunded(store, op) then None else store
  {
    Parts(store, RefundEffects(store, op));
  }

  // ----- Where every effect of a run comes from -----

  /** The store before a step of a run. */
  function StoreBefore<R, O>(effects: (Option<Record<R>>, O) -> seq<Effect<R>>, store: Option<Record<R>>,
                             steps: seq<Step<O>>, n: nat): Option<Record<R>>
    requires n <= |steps|
    decreases n
  {
    if n == 0 then store
    else
      var done := FirstPart(effects(store, steps[0].op), steps[0].completed);
      StoreBefore(effects, ApplyAll(store, done), steps[1..], n - 1)
  }

  /** The effect at a place of the log is one that a step makes of the store before it. */
  ghost predicate From<R(!new), O(!new)>(effects: (Option<Record<R>>, O) -> seq<Effect<R>>, store: Option<Record<R>>,
                                         steps: seq<Step<O>>, k: nat, n: nat, j: nat)
    requires k < |RunLog(effects, store, steps)| && n < |steps|
  {
    var log, made := RunLog(effects, store, steps), effects(StoreBefore(effects, store, steps, n), steps[n].op);
    j < |made| && log[k] == made[j]
    && StoreAt(store, log, k) == ApplyAll(StoreBefore(effects, store, steps, n), made[..j])
  }

  lemma {:induction false} EffectsComeFromSteps<R(!new), O(!new)>(
    effects: (Option<Record<R>>, O) -> seq<Effect<R>>, store: Option<Record<R>>, steps: seq<Step<O>>, k: nat)
    returns (n: nat, j: nat)
    requires k < |RunLog(effects, store, steps)|
    ensures n < |steps| && From(effects, store, steps, k, n, j)
    decreases steps
  {
    var made := effects(store, steps[0].op);
    var done := FirstPart(made, steps[0].completed);
    var rest := RunLog(effects, ApplyAll(store, done), steps[1..]);
    assert RunLog(effects, store, steps) == done + rest;
    if k < |done| {
      n, j := 0, k;
      assert (done + rest)[..k] == made[..k];
    } else {
      n, j := EffectsComeFromSteps(effects, ApplyAll(store, done), steps[1..], k - |done|);
      assert (done + rest)[..k] == done + rest[..k - |done|];
      ApplyAllAppend(store, done, rest[..k - |done|]);
      n := n + 1;
    }
  }

  /** A checkout record is cleared only by a settled status, and marked only by its own deterministic rejection. */
  lemma CheckoutEffectAt(store: Option<Record<Checkout>>, op: CheckoutOp, j: nat)
    requires j < |CheckoutEffects(store, op)|
    ensures var e, s := CheckoutEffects(store, op)[j], ApplyAll(store, CheckoutEffects(store, op)[..j]);
      (e.Clear? ==> op.RecoverCheckout? && op.status.Settled?)
      && (e.Save? && e.record.Rejected? ==>
            op.MarkRejected? && op.deterministic && IsPending(s) && s.value.request.requestId == op.requestId
            && e.record.requestId == op.requestId)
  {
    Parts(store, CheckoutEffects(store, op));
  }

  /** In every run a checkout record ends only by a settled status or its own deterministic rejection. */
  lemma CheckoutEndsOnly(steps: seq<Step<CheckoutOp>>, k: nat)
    requires k < |RunLog(CheckoutEffects, None, steps)| && Break(RunLog(CheckoutEffects, None, steps)[k])
    ensures var e, s := RunLog(CheckoutEffects, None, steps)[k], StoreAt(None, RunLog(CheckoutEffects, None, steps), k);
      exists n :: 0 <= n < |steps|
        && if e.Clear? then steps[n].op.RecoverCheckout? && steps[n].op.status.Settled?
           else IsPending(s) && steps[n].op == MarkRejected(s.value.request.requestId, true)
  {
    var n, j := EffectsComeFromSteps(CheckoutEffects, None, steps, k);
    CheckoutEffectAt(StoreBefore(CheckoutEffects, None, steps, n), steps[n].op, j);
  }

  /** The answer ends a cancellation: the period's end, of this request where a status tells it, or nothing running. */
  ghost predicate CancellationOver(op: CancellationOp, store: Option<Record<string>>) {
    match op
    case RequestCancellation(r, end) => end && store == Some(Pending(r, None))
    case RecoverCancellation(PeriodEnd(r), _) => store.Some? ==> store.value.Pending? && store.value.request == r
    case RecoverCancellation(Other, _) => true
    case RecoverCancellation(_, end) => end && IsPending(store)
  }

  lemma CancellationEffectAt(store: Option<Record<string>>, op: CancellationOp, j: nat)
    requires CancellationFit(store) && j < |CancellationEffects(store, op)|
    ensures var e, s := CancellationEffects(store, op)[j], ApplyAll(store, CancellationEffects(store, op)[..j]);
      (e.Clear? ==> CancellationOver(op, s)) && (e.Save? ==> e.record.Pending?)
  {
    Parts(store, CancellationEffects(store, op));
  }

  lemma {:induction false} StoresAreFit<R(!new), O(!new)>(
    id: R -> string, fit: Option<Record<R>> -> bool, effects: (Option<Record<R>>, O) -> seq<Effect<R>>,
    store: Option<Record<R>>, steps: seq<Step<O>>, n: nat)
    requires Lawful(id, fit, effects) && fit(store) && n <= |steps|
    ensures fit(StoreBefore(effects, store, steps, n))
    decreases n
  {
    if n > 0 {
      var done := FirstPart(effects(store, steps[0].op), steps[0].completed);
      StoresAreFit(id, fit, effects, ApplyAll(store, done), steps[1..], n - 1);
    }
  }

  /** In every run a cancellation record ends only by an answer that ends the cancellation. */
  lemma CancellationEndsOnly(steps: seq<Step<CancellationOp>>, k: nat)
    requires k < |RunLog(CancellationEffects, None, steps)| && Break(RunLog(CancellationEffects, None, steps)[k])
    ensures RunLog(CancellationEffects, None, steps)[k].Clear?
    ensures var s := StoreAt(None, RunLog(CancellationEffects, None, steps), k);
      exists n :: 0 <= n < |steps| && CancellationOver(steps[n].op, s)
  {
    var n, j := EffectsComeFromSteps(CancellationEffects, None, steps, k);
    CancellationLawful();
    StoresAreFit(CancellationId, CancellationFit, CancellationEffects, None, steps, n);
    CancellationEffectAt(StoreBefore(CancellationEffects, None, steps, n), steps[n].op, j);
  }

  /** The operation was told that this purchase is refunded. */
  ghost predicate SaysRefunded(op: RefundOp, purchaseId: string) {
    (op.reply.RefundState? && op.reply.purchaseId == purchaseId && op.reply.refunded)
    || (!op.RequestRefund? && op.status.purchaseId == purchaseId && op.status.refunded)
  }

  lemma RefundEffectAt(store: Option<Record<Refund>>, op: RefundOp, j: nat)
    requires j < |RefundEffects(store, op)|
    ensures var e, s := RefundEffects(store, op)[j], ApplyAll(store, RefundEffects(store, op)[..j]);
      (e.Clear? ==> IsPending(s) && SaysRefunded(op, s.value.request.purchaseId))
      && (e.Save? && e.record.Rejected? ==>
            op.reply.RefundRejected? && IsPending(s)
            && e.record == Rejected(s.value.request.requestId, Some(s.value.request.purchaseId)))
  {
    Parts(store, RefundEffects(store, op));
  }

  /** In every run a refund record ends only by an answer that its purchase is refunded, or by a rejection. */
  lemma RefundEndsOnly(steps: seq<Step<RefundOp>>, k: nat)
    requires k < |RunLog(RefundEffects, None, steps)| && Break(RunLog(RefundEffects, None, steps)[k])
    ensures var e, s := RunLog(RefundEffects, None, steps)[k], StoreAt(None, RunLog(RefundEffects, None, steps), k);
      IsPending(s)
      && (e.Save? ==> e.record == Rejected(s.value.request.requestId, Some(s.value.request.purchaseId)))
      && exists n :: 0 <= n < |steps|
           && if e.Clear? then SaysRefunded(steps[n].op, s.value.request.purchaseId)
              else steps[n].op.reply.RefundRejected?
  {
    var n, j := EffectsComeFromSteps(RefundEffects, None, steps, k);
    RefundEffectAt(StoreBefore(RefundEffects, None, steps, n), steps[n].op, j);
  }

  // ----- The controllers -----

  /** A persistent store with the history of its effects. */
  class Keeper<R> {
    var store: Option<Record<R>>
    var log: seq<Effect<R>>

    constructor ()
      ensures store == None && log == []
    {
      store, log := None, [];
    }

    method Perform(e: Effect<R>)
      modifies this
      ensures store == Apply(old(store), e) && log == old(log) + [e]
    {
      store, log := Apply(store, e), log + [e];
    }
  }

  /** The keeper has done the first effects of a list, and its store is what they make of it. */
  twostate predicate Did<R(!new)>(k: Keeper<R>, effects: seq<Effect<R>>)
    reads k
  {
    k.log == old(k.log) + effects && k.store == ApplyAll(old(k.store), effects)
  }

  class CheckoutController {
    const keeper: Keeper<Checkout>

    constructor (keeper: Keeper<Checkout>)
      ensures this.keeper == keeper
    {
      this.keeper := keeper;
    }

    method StartCheckout(request: Checkout, completed: nat)
      modifies keeper
      ensures Did(keeper, FirstPart(CheckoutEffects(old(keeper.store), CheckoutOp.StartCheckout(request)), completed))
      ensures keeper.log != old(keeper.log) ==> keeper.store == Some(Pending(request, None))
    {
      var stored := keeper.store;
      Parts(stored, CheckoutEffects(stored, CheckoutOp.StartCheckout(request)));
      if stored.Some? && stored.value.Pending? && stored.value.request != request {
        return;
      }
      if stored.Some? && stored.value.Rejected? && stored.value.requestId == request.requestId {
        return;
      }
      if completed == 0 {
        return;
      }
      keeper.Perform(Save(Pending(request, None)));
      if completed == 1 {
        return;
      }
      keeper.Perform(Send(request));
    }

    method MarkDeterministicallyRejected(requestId: string, deterministic: bool, completed: nat)
      modifies keeper
      ensures Did(keeper, FirstPart(
        CheckoutEffects(old(keeper.store), MarkRejected(requestId, deterministic)), completed))
      ensures keeper.log != old(keeper.log) ==>
        IsPending(old(keeper.store)) && keeper.store == Some(Rejected(requestId, None))
    {
      var stored := keeper.store;
      Parts(stored, CheckoutEffects(stored, MarkRejected(requestId, deterministic)));
      if !deterministic {
        return;
      }
      if stored.None? || !stored.value.Pending? || stored.value.request.requestId != requestId {
        return;
      }
      if completed == 0 {
        return;
      }
      keeper.Perform(Save(Rejected(stored.value.request.requestId, None)));
    }

    method Recover(status: CheckoutStatus, completed: nat)
      modifies keeper
      ensures Did(keeper, FirstPart(CheckoutEffects(old(keeper.store), RecoverCheckout(status)), completed))
    {
      var stored := keeper.store;
      Parts(stored, CheckoutEffects(stored, RecoverCheckout(status)));
      if completed == 0 {
        return;
      }
      if status.Unsettled? {
        if stored.Some? && (stored.value.Rejected? || stored.value.request != status.request) {
          return;
        }
        if stored.None? {
          keeper.Perform(Save(Pending(status.request, None)));
          if completed == 1 {
            return;
          }
        }
        keeper.Perform(Send(status.request));
        return;
      }
      if status.NoCheckout? {
        if stored.Some? && stored.value.Pending? {
          keeper.Perform(Send(stored.value.request));
        }
        return;
      }
      keeper.Perform(Clear);
    }
  }

  class CancellationController {
    const keeper: Keeper<string>

    constructor (keeper: Keeper<string>)
      ensures this.keeper == keeper
    {
      this.keeper := keeper;
    }

    method RequestCancellation(requestId: string, atPeriodEnd: bool, completed: nat)
      requires CancellationFit(keeper.store)
      modifies keeper
      ensures Did(keeper, FirstPart(
        CancellationEffects(old(keeper.store), CancellationOp.RequestCancellation(requestId, atPeriodEnd)), completed))
      ensures old(keeper.store).Some? && old(keeper.store).value.request != requestId ==> keeper.log == old(keeper.log)
    {
      var stored := keeper.store;
      Parts(stored, CancellationEffects(stored, CancellationOp.RequestCancellation(requestId, atPeriodEnd)));
      if stored.Some? && stored.value.request != requestId {
        return;
      }
      if completed == 0 {
        return;
      }
      keeper.Perform(Save(Pending(requestId, None)));
      if completed == 1 {
        return;
      }
      keeper.Perform(Send(requestId));
      if completed == 2 || !atPeriodEnd {
        return;
      }
      keeper.Perform(Clear);
    }

    method Recover(status: SubscriptionStatus, atPeriodEnd: bool, completed: nat)
      requires CancellationFit(keeper.store)
      modifies keeper
      ensures Did(keeper, FirstPart(
        CancellationEffects(old(keeper.store), RecoverCancellation(status, atPeriodEnd)), completed))
    {
      var stored := keeper.store;
      Parts(stored, CancellationEffects(stored, RecoverCancellation(status, atPeriodEnd)));
      if completed == 0 {
        return;
      }
      if status.Cancelling? || status.PeriodEnd? {
        if stored.Some? && stored.value.request != status.requestId {
          return;
        }
        if status.PeriodEnd? {
          keeper.Perform(Clear);
          return;
        }
        var done := 0;
        if stored.None? {
          keeper.Perform(Save(Pending(status.requestId, None)));
          done := 1;
          if completed == 1 {
            return;
          }
        }
        keeper.Perform(Send(status.requestId));
        if atPeriodEnd && completed > done + 1 {
          keeper.Perform(Clear);
        }
        return;
      }
      if status.Active? && stored.Some? {
        keeper.Perform(Send(stored.value.request));
        if atPeriodEnd && completed > 1 {
          keeper.Perform(Clear);
        }
        return;
      }
      if stored.None? && status.Active? {
        return;
      }
      keeper.Perform(Clear);
    }
  }

  class RefundController {
    const keeper: Keeper<Refund>

    constructor (keeper: Keeper<Refund>)
      ensures this.keeper == keeper
    {
      this.keeper := keeper;
    }

    method FinishRequest(request: Refund, reply: RefundReply, expected: Option<string>, completed: nat)
      modifies keeper
      ensures Did(keeper, FirstPart(FinishRefund(request, reply, expected), completed))
      ensures completed > 0 && old(keeper.store) == Some(Pending(request, expected)) ==>
        keeper.store == Answered(request, expected, reply)
      ensures expected.Some? && IsPending(keeper.store) && keeper.log != old(keeper.log) ==>
        keeper.store == Some(Pending(request, expected))
    {
      Parts(keeper.store, FinishRefund(request, reply, expected));
      if completed == 0 {
        return;
      }
      if reply.RefundRejected? {
        keeper.Perform(Save(Rejected(request.requestId, Some(request.purchaseId))));
        return;
      }
      if reply.purchaseId != request.purchaseId {
        return;
      }
      if expected.Some? && reply.refundId != expected.value {
        return;
      }
      if reply.refunded {
        keeper.Perform(Clear);
      } else {
        keeper.Perform(Save(Pending(request, Some(reply.refundId))));
      }
    }

    method RequestRefund(request: Refund, reply: RefundReply, completed: nat)
      modifies keeper
      ensures Did(keeper, FirstPart(
        RefundEffects(old(keeper.store), RefundOp.RequestRefund(request, reply)), completed))
      ensures IsPending(old(keeper.store)) && old(keeper.store).value.accepted.Some? && IsPending(keeper.store) ==>
        keeper.store == old(keeper.store)
    {
      var stored := keeper.store;
      Parts(stored, RefundEffects(stored, RefundOp.RequestRefund(request, reply)));
      if stored.Some? && stored.value.Pending? && stored.value.request != request {
        return;
      }
      if stored.Some? && stored.value.Rejected? && stored.value.requestId == request.requestId {
        return;
      }
      var expected := if stored.Some? && stored.value.Pending? then stored.value.accepted else None;
      if completed == 0 {
        return;
      }
      keeper.Perform(Save(Pending(request, expected)));
      if completed == 1 {
        return;
      }
      keeper.Perform(Send(request));
      FinishRequest(request, reply, expected, completed - 2);
    }

    method RetryRefund(status: RefundStatus, reply: RefundReply, completed: nat)
      modifies keeper
      ensures Did(keeper, FirstPart(RefundEffects(old(keeper.store), RefundOp.RetryRefund(status, reply)), completed))
      ensures IsPending(keeper.store) ==> keeper.store == old(keeper.store)
    {
      var stored := keeper.store;
      Parts(stored, RefundEffects(stored, RefundOp.RetryRefund(status, reply)));
      if completed == 0 || stored.None? || stored.value.Rejected? || stored.value.accepted.None? {
        return;
      }
      if status.purchaseId != stored.value.request.purchaseId {
        return;
      }
      if !status.retryWait {
        if status.refunded {
          keeper.Perform(Clear);
        }
        return;
      }
      if !status.due {
        return;
      }
      keeper.Perform(Send(stored.value.request));
      FinishRequest(stored.value.request, reply, stored.value.accepted, completed - 1);
    }

    method Recover(status: RefundStatus, reply: RefundReply, completed: nat)
      modifies keeper
      ensures Did(keeper, FirstPart(RefundEffects(old(keeper.store), RecoverRefund(status, reply)), completed))
    {
      var stored := keeper.store;
      Parts(stored, RefundEffects(stored, RecoverRefund(status, reply)));
      if completed == 0 || stored.None? || stored.value.Rejected? {
        return;
      }
      if stored.value.accepted.None? {
        keeper.Perform(Send(stored.value.request));
        FinishRequest(stored.value.request, reply, None, completed - 1);
        return;
      }
      if status.purchaseId == stored.value.request.purchaseId && status.refunded {
        keeper.Perform(Clear);
      }
    }
  }
}
