/**
 The logical browser session: control passes between user and software, a takeover takes it
 back, and a write whose outcome may be lost blocks software until it is settled. Adapter
 results and the address policy are arbitrary. Counters are 64-bit.
 */
module BrowserSession {
  import opened Basics

  datatype State =
    | Prepared | UserControlled | SoftwareControlled | TakeoverPending | OutcomeUnknown | Closed | Failed

  datatype SideEffect = NotDispatched | ReadDispatched | WriteDispatched | ResultLost

  predicate NeedsConfirmation(e: SideEffect) {
    e.WriteDispatched? || e.ResultLost?
  }

  datatype Policy = Policy(sessionId: nat, profileGeneration: nat, navigationGeneration: nat, admits: string -> bool)

  datatype Session = Session(
    sessionId: nat, sequence: nat, state: State, profileGeneration: nat, navigationGeneration: nat, appBoot: nat,
    policy: Policy, lease: Option<nat>, effect: SideEffect, private: bool)

  /** What the adapter was asked, and for an opened context what it gave. */
  datatype Call =
    | OpenContext(result: OpenResult)
    | NavigateContext(lease: nat)
    | CloseContext(lease: nat, private: bool)

  datatype OpenResult = Opened(lease: nat) | Occupied | Refused

  datatype Outcome =
    | Ok | InvalidState | NavigationDenied | ContextOccupied | EngineFailed | InvalidSideEffectTransition
    | InvalidationFailed | GenerationOverflow | InvalidObservation | Denied

  datatype Event =
    | Start(url: string, open: OpenResult, navigated: bool)
    | Navigate(url: string, navigated: bool)
    | BeginSoftwareControl
    | RecordSideEffect(effect: SideEffect)
    | RequestTakeover
    | CompleteTakeover(invalidated: bool)
    | ConfirmIndependently
    | CompleteSoftwareControl
    | FailSoftware(resultMayBeLost: bool)
    | RequestForbidden
    | Observe(event: string)
    | AdvanceProfile
    | AdvanceNavigation
    | AdvanceAppBoot
    | Close

  function Saturating(n: nat): nat {
    if n < CounterMax then n + 1 else CounterMax
  }

  function Advanced(s: Session): Session {
    s.(sequence := Saturating(s.sequence))
  }

  function Invalidated(s: Session): Session {
    Advanced(s).(state := Failed)
  }

  function Prepare(sessionId: nat, private: bool, admits: string -> bool): Session {
    Session(sessionId, 1, Prepared, 1, 1, 1, Policy(sessionId, 1, 1, admits), None, NotDispatched, private)
  }

  /** The policy is bound to the session's present generations. */
  predicate Bound(s: Session) {
    s.policy.sessionId == s.sessionId && s.policy.profileGeneration == s.profileGeneration
    && s.policy.navigationGeneration == s.navigationGeneration
  }

  predicate Allows(s: Session, url: string) {
    Bound(s) && s.policy.admits(url)
  }

  datatype Result = Result(outcome: Outcome, session: Session, calls: seq<Call>)

  function StartStep(s: Session, url: string, open: OpenResult, navigated: bool): Result {
    if !s.state.Prepared? then Result(InvalidState, s, [])
    else if !Allows(s, url) then Result(NavigationDenied, Invalidated(s), [])
    else
      match open
      case Occupied => Result(ContextOccupied, s, [OpenContext(open)])
      case Refused => Result(EngineFailed, Invalidated(s), [OpenContext(open)])
      case Opened(lease) =>
        var held := s.(lease := Some(lease));
        var calls := [OpenContext(open), NavigateContext(lease)];
        if !navigated then Result(EngineFailed, Invalidated(held), calls)
        else if s.sequence >= CounterMax then Result(GenerationOverflow, Invalidated(held), calls)
        else Result(Ok, Advanced(held).(state := UserControlled), calls)
  }

  function NavigateStep(s: Session, url: string, navigated: bool): Result {
    if !s.state.UserControlled? then Result(InvalidState, s, [])
    else if !Allows(s, url) then Result(NavigationDenied, Invalidated(s), [])
    else if s.lease.None? then Result(InvalidState, s, [])
    else if !navigated then Result(EngineFailed, Invalidated(s), [NavigateContext(s.lease.value)])
    else Result(Ok, Advanced(s), [NavigateContext(s.lease.value)])
  }

  function RecordStep(s: Session, effect: SideEffect): Result {
    if !s.state.SoftwareControlled? then Result(InvalidState, s, [])
    else if effect.NotDispatched? || (NeedsConfirmation(s.effect) && !NeedsConfirmation(effect)) then
      Result(InvalidSideEffectTransition, s, [])
    else Result(Ok, s.(effect := effect), [])
  }

  function TakeoverStep(s: Session, invalidated: bool): Result {
    if !s.state.TakeoverPending? then Result(InvalidState, s, [])
    else if !invalidated then Result(InvalidationFailed, Invalidated(s), [])
    else if s.sequence >= CounterMax then Result(GenerationOverflow, Invalidated(s), [])
    else if s.navigationGeneration >= CounterMax then Result(GenerationOverflow, Invalidated(Advanced(s)), [])
    else
      var next := Advanced(s).(navigationGeneration := s.navigationGeneration + 1);
      Result(Ok, next.(state := if NeedsConfirmation(s.effect) then OutcomeUnknown else UserControlled), [])
  }

  /** A change of control that needs one state and settles the side effect. */
  function SettleStep(s: Session, from: State, to: State): Result {
    if s.state != from then Result(InvalidState, s, [])
    else Result(Ok, Advanced(s).(state := to, effect := NotDispatched), [])
  }

  function FailStep(s: Session, lost: bool): Result {
    if !s.state.SoftwareControlled? then Result(InvalidState, s, [])
    else Result(Ok, Advanced(s).(state := if lost || NeedsConfirmation(s.effect) then OutcomeUnknown else Failed), [])
  }

  function ObserveStep(s: Session, event: string): Result {
    if event == "navigation_committed" then Result(Ok, Advanced(s), [])
    else if event == "engine_crashed" then Result(Ok, Advanced(s).(lease := None, state := Failed), [])
    else Result(InvalidObservation, Invalidated(s), [])
  }

  /** Closing always ends the session; in a state it does not accept, the lease is dropped unclosed. */
  function CloseStep(s: Session): Result {
    var gone := s.(state := Closed, lease := None);
    if !(s.state.Prepared? || s.state.UserControlled? || s.state.OutcomeUnknown? || s.state.Failed?) then
      Result(InvalidState, gone, [])
    else
      Result(Ok, Advanced(gone), if s.lease.Some? then [CloseContext(s.lease.value, s.private)] else [])
  }

  /** One operation on a session that has not been closed. */
  function Step(s: Session, e: Event): Result {
    match e
    case Start(url, open, navigated) => StartStep(s, url, open, navigated)
    case Navigate(url, navigated) => NavigateStep(s, url, navigated)
    case BeginSoftwareControl => SettleStep(s, UserControlled, SoftwareControlled)
    case RecordSideEffect(effect) => RecordStep(s, effect)
    case RequestTakeover =>
      if s.state.SoftwareControlled? then Result(Ok, s.(state := TakeoverPending), []) else Result(InvalidState, s, [])
    case CompleteTakeover(invalidated) => TakeoverStep(s, invalidated)
    case ConfirmIndependently => SettleStep(s, OutcomeUnknown, UserControlled)
    case CompleteSoftwareControl => SettleStep(s, SoftwareControlled, UserControlled)
    case FailSoftware(lost) => FailStep(s, lost)
    case RequestForbidden => Result(Denied, Invalidated(s), [])
    case Observe(event) => ObserveStep(s, event)
    case AdvanceProfile => Result(Ok, Invalidated(s.(profileGeneration := Saturating(s.profileGeneration))), [])
    case AdvanceNavigation =>
      Result(Ok, Invalidated(s.(navigationGeneration := Saturating(s.navigationGeneration))), [])
    case AdvanceAppBoot => Result(Ok, Invalidated(s.(appBoot := Saturating(s.appBoot), lease := None)), [])
    case Close => CloseStep(s)
  }

  // ----- Runs -----

  /** The sessions of a run; nothing happens to a session once it is closed. */
  ghost predicate Run(sessions: seq<Session>, events: seq<Event>) {
    |sessions| == |events| + 1
    && (exists id, private, admits :: sessions[0] == Prepare(id, private, admits))
    && forall i :: 0 <= i < |events| ==>
         !sessions[i].state.Closed? && sessions[i + 1] == Step(sessions[i], events[i]).session
  }

  /** Software or user holds a live page. */
  predicate Controlled(s: Session) {
    s.state.UserControlled? || s.state.SoftwareControlled? || s.state.TakeoverPending? || s.state.OutcomeUnknown?
  }

  ghost predicate Inv(s: Session) {
    (Controlled(s) ==> s.lease.Some?)
    && (s.state.UserControlled? ==> !NeedsConfirmation(s.effect))
    && (s.state.Prepared? ==> s.lease.None? && s.effect.NotDispatched?)
    && s.policy.sessionId == s.sessionId && s.policy.profileGeneration == 1 && s.policy.navigationGeneration == 1
    && s.navigationGeneration >= 1 && s.profileGeneration >= 1
  }

  lemma StepKeeps(s: Session, e: Event)
    requires Inv(s)
    ensures Inv(Step(s, e).session)
  {}

  /** In every run: a controlled session holds a lease, and the user never holds an unsettled write. */
  lemma {:induction false} RunKeeps(sessions: seq<Session>, events: seq<Event>, i: nat)
    requires Run(sessions, events) && i < |sessions|
    ensures Inv(sessions[i])
    ensures sessions[i].state in {UserControlled, SoftwareControlled, TakeoverPending, OutcomeUnknown} ==>
      sessions[i].lease.Some?
    ensures sessions[i].state.UserControlled? ==> sessions[i].effect in {NotDispatched, ReadDispatched}
  {
    if i > 0 {
      RunKeeps(sessions, events, i - 1);
      StepKeeps(sessions[i - 1], events[i - 1]);
      assert sessions[i - 1 + 1] == Step(sessions[i - 1], events[i - 1]).session;
    }
  }

  /** The branch of a navigation that finds no lease is never taken. */
  lemma NavigationHasLease(sessions: seq<Session>, events: seq<Event>, i: nat)
    requires Run(sessions, events) && i < |events| && events[i].Navigate? && sessions[i].state.UserControlled?
    ensures Step(sessions[i], events[i]).outcome != InvalidState
  {
    RunKeeps(sessions, events, i);
  }

  /** An unsettled write, held or already lost to a takeover or a failure. */
  predicate Unsettled(s: Session) {
    NeedsConfirmation(s.effect) && !s.state.UserControlled? && !s.state.Prepared?
  }

  /** The two ways a write is settled. */
  predicate Settles(s: Session, e: Event) {
    (e.CompleteSoftwareControl? || e.ConfirmIndependently?) && Step(s, e).outcome.Ok?
  }

  lemma UnsettledStays(s: Session, e: Event)
    requires Unsettled(s) && !Settles(s, e)
    ensures Unsettled(Step(s, e).session) && !(e.BeginSoftwareControl? && Step(s, e).outcome.Ok?)
  {}

  lemma {:induction false} UnsettledUntilSettled(sessions: seq<Session>, events: seq<Event>, i: nat, j: nat)
    requires Run(sessions, events) && i <= j < |sessions| && Unsettled(sessions[i])
    requires forall k :: i <= k < j ==> !Settles(sessions[k], events[k])
    ensures Unsettled(sessions[j])
    decreases j
  {
    if i < j {
      UnsettledUntilSettled(sessions, events, i, j - 1);
      UnsettledStays(sessions[j - 1], events[j - 1]);
      assert sessions[j - 1 + 1] == Step(sessions[j - 1], events[j - 1]).session;
    }
  }

  /** After a write or lost-result mark, software control begins again only after a completion or a confirmation. */
  lemma WriteBlocksSoftware(sessions: seq<Session>, events: seq<Event>, i: nat, j: nat)
    requires Run(sessions, events) && i < j < |events|
    requires events[i].RecordSideEffect? && (events[i].effect.WriteDispatched? || events[i].effect.ResultLost?)
    requires Step(sessions[i], events[i]).outcome.Ok?
    requires events[j].BeginSoftwareControl? && Step(sessions[j], events[j]).outcome.Ok?
    ensures exists k :: i < k < j && Settles(sessions[k], events[k])
  {
    assert sessions[i + 1] == Step(sessions[i], events[i]).session;
    if forall k :: i + 1 <= k < j ==> !Settles(sessions[k], events[k]) {
      UnsettledUntilSettled(sessions, events, i + 1, j);
      assert false;
    }
  }

  /** The sequence number never falls; it rises with every admitted change of control and every failure. */
  lemma SequenceRises(s: Session, e: Event)
    requires s.sequence < CounterMax
    ensures s.sequence <= Step(s, e).session.sequence <= CounterMax
    ensures Step(s, e).session.state != s.state && !e.RequestTakeover? && !Step(s, e).outcome.InvalidState? ==>
      s.sequence < Step(s, e).session.sequence
  {}

  /** A failed session only ever closes. */
  lemma FailedOnlyCloses(s: Session, e: Event)
    requires s.state.Failed?
    ensures Step(s, e).session.state == if e.Close? then Closed else Failed
    ensures forall c :: c in Step(s, e).calls ==>
      e.Close? && s.lease.Some? && c == CloseContext(s.lease.value, s.private)
  {}

  /** Once failed, a session stays failed until it is closed, whatever happens to it. */
  lemma {:induction false} FailedForGood(sessions: seq<Session>, events: seq<Event>, i: nat, j: nat)
    requires Run(sessions, events) && i <= j < |sessions| && sessions[i].state.Failed?
    ensures sessions[j].state.Failed? || (sessions[j].state.Closed? && j == |events| && events[j - 1].Close?)
    decreases j
  {
    if i < j {
      FailedForGood(sessions, events, i, j - 1);
      assert !sessions[j - 1].state.Closed?;
      FailedOnlyCloses(sessions[j - 1], events[j - 1]);
      assert sessions[j - 1 + 1] == Step(sessions[j - 1], events[j - 1]).session;
      if j < |events| {
        assert !sessions[j].state.Closed?;
      }
    }
  }

  /**
   A software failure ends the session for good exactly when no write was dispatched, no result
   marked lost and none may be lost; otherwise its outcome is unknown, and only a confirmation
   gives control back.
   */
  lemma FailureOutcome(s: Session, lost: bool, e: Event)
    requires s.state.SoftwareControlled?
    ensures var after := Step(s, FailSoftware(lost)).session;
      (after.state.Failed? <==> !lost && !s.effect.WriteDispatched? && !s.effect.ResultLost?)
      && (!after.state.Failed? ==> after.state.OutcomeUnknown?)
      && after.effect == s.effect && after.lease == s.lease
      && (after.state.OutcomeUnknown? && Step(after, e).session.state.UserControlled? ==> e.ConfirmIndependently?)
      && !Step(after, e).session.state.SoftwareControlled?
  {}

  /** The adapter navigates only for a bound policy that admits the address, on the lease held then. */
  lemma NavigatesOnlyWhenBound(s: Session, e: Event, lease: nat)
    requires Inv(s) && NavigateContext(lease) in Step(s, e).calls
    ensures Bound(s) && (e.Start? || e.Navigate?) && s.policy.admits(e.url)
    ensures Step(s, e).session.lease == Some(lease)
    ensures s.navigationGeneration == 1 && s.profileGeneration == 1
  {}

  lemma {:induction false} GenerationsRise(sessions: seq<Session>, events: seq<Event>, i: nat, j: nat)
    requires Run(sessions, events) && i <= j < |sessions|
    requires sessions[i].navigationGeneration <= CounterMax && sessions[i].profileGeneration <= CounterMax
    ensures sessions[i].navigationGeneration <= sessions[j].navigationGeneration <= CounterMax
    ensures sessions[i].profileGeneration <= sessions[j].profileGeneration <= CounterMax
    decreases j
  {
    if i < j {
      GenerationsRise(sessions, events, i, j - 1);
      assert sessions[j - 1 + 1] == Step(sessions[j - 1], events[j - 1]).session;
    }
  }

  /** After a completed takeover no navigation of the session ever reaches the adapter. */
  lemma TakeoverEndsNavigation(sessions: seq<Session>, events: seq<Event>, i: nat, j: nat, lease: nat)
    requires Run(sessions, events) && i < j < |events|
    requires events[i].CompleteTakeover? && Step(sessions[i], events[i]).outcome.Ok?
    ensures NavigateContext(lease) !in Step(sessions[j], events[j]).calls
  {
    GenerationsRise(sessions, events, 0, i);
    RunKeeps(sessions, events, i);
    assert sessions[i + 1] == Step(sessions[i], events[i]).session;
    GenerationsRise(sessions, events, i + 1, j);
    RunKeeps(sessions, events, j);
    if NavigateContext(lease) in Step(sessions[j], events[j]).calls {
      NavigatesOnlyWhenBound(sessions[j], events[j], lease);
      assert false;
    }
  }

  // ----- The context of a session -----

  lemma LeaseFollows(s: Session, e: Event)
    requires Inv(s) && !s.state.Prepared?
    ensures var r := Step(s, e);
      !r.session.state.Prepared? && (r.session.lease == s.lease || r.session.lease.None?)
      && (forall c :: c in r.calls ==>
            s.lease.Some? && (c == NavigateContext(s.lease.value) || c == CloseContext(s.lease.value, s.private)))
  {}

  lemma {:induction false} LeaseStays(sessions: seq<Session>, events: seq<Event>, i: nat, j: nat)
    requires Run(sessions, events) && i <= j < |sessions| && !sessions[i].state.Prepared?
    ensures !sessions[j].state.Prepared? && (sessions[j].lease == sessions[i].lease || sessions[j].lease.None?)
    decreases j
  {
    if i < j {
      LeaseStays(sessions, events, i, j - 1);
      RunKeeps(sessions, events, j - 1);
      LeaseFollows(sessions[j - 1], events[j - 1]);
      assert sessions[j - 1 + 1] == Step(sessions[j - 1], events[j - 1]).session;
    }
  }

  /** A session opens at most one context, and asks the adapter about no other afterwards. */
  lemma OneContextPerSession(sessions: seq<Session>, events: seq<Event>, i: nat, j: nat, lease: nat, c: Call)
    requires Run(sessions, events) && i < j < |events|
    requires OpenContext(Opened(lease)) in Step(sessions[i], events[i]).calls
    requires c in Step(sessions[j], events[j]).calls
    ensures c == NavigateContext(lease) || exists private :: c == CloseContext(lease, private)
  {
    assert sessions[i + 1] == Step(sessions[i], events[i]).session;
    RunKeeps(sessions, events, i);
    RunKeeps(sessions, events, j);
    OpenedIsHeld(sessions[i], events[i], lease);
    LeaseStays(sessions, events, i + 1, j);
    LeaseFollows(sessions[j], events[j]);
  }

  lemma OpenedIsHeld(s: Session, e: Event, lease: nat)
    requires OpenContext(Opened(lease)) in Step(s, e).calls
    ensures Step(s, e).session.lease == Some(lease) && !Step(s, e).session.state.Prepared?
  {}

  /** Closing gives the context back exactly when neither software nor a takeover holds the session. */
  lemma CloseReturnsContextExactly(s: Session)
    requires Inv(s) && s.lease.Some? && !s.state.Closed?
    ensures Step(s, Close).calls == [CloseContext(s.lease.value, s.private)]
       <==> !s.state.SoftwareControlled? && !s.state.TakeoverPending?
    ensures Step(s, Close).session.state.Closed?
  {}

  // ----- The runtime object -----

  class BrowserRuntime {
    const sessionId: nat
    const policy: Policy
    const private: bool
    var sequence: nat
    var state: State
    var profileGeneration: nat
    var navigationGeneration: nat
    var appBoot: nat
    var context: Option<nat>
    var sideEffect: SideEffect
    var calls: seq<Call>

    function Value(): Session
      reads this
    {
      Session(sessionId, sequence, state, profileGeneration, navigationGeneration, appBoot, policy, context,
              sideEffect, private)
    }

    /** The object did what the step says, to itself and to the adapter. */
    twostate predicate Follows(e: Event, o: Outcome)
      reads this
    {
      var r := Step(old(Value()), e);
      o == r.outcome && Value() == r.session && calls == old(calls) + r.calls
    }

    constructor (sessionId: nat, private: bool, admits: string -> bool)
      ensures Value() == Prepare(sessionId, private, admits) && calls == []
    {
      this.sessionId, this.private := sessionId, private;
      policy := Policy(sessionId, 1, 1, admits);
      sequence, state, profileGeneration, navigationGeneration, appBoot := 1, Prepared, 1, 1, 1;
      context, sideEffect, calls := None, NotDispatched, [];
    }

    method Invalidate()
      modifies this`state, this`sequence
      ensures Value() == Invalidated(old(Value())) && state == Failed
      ensures sequence == if old(sequence) < CounterMax then old(sequence) + 1 else CounterMax
    {
      state := Failed;
      Advance();
    }

    method Advance()
      modifies this`sequence
      ensures sequence == Saturating(old(sequence))
    {
      sequence := if sequence < CounterMax then sequence + 1 else CounterMax;
    }

    method TryAdvance() returns (ok: bool)
      modifies this`sequence
      ensures ok <==> old(sequence) < CounterMax
      ensures sequence == if ok then old(sequence) + 1 else old(sequence)
    {
      ok := sequence < CounterMax;
      if ok {
        sequence := sequence + 1;
      }
    }

    predicate DecideNavigation(url: string)
      reads this
    {
      policy.sessionId == sessionId && policy.profileGeneration == profileGeneration
      && policy.navigationGeneration == navigationGeneration && policy.admits(url)
    }

    method Start(url: string, open: OpenResult, navigated: bool) returns (o: Outcome)
      modifies this
      ensures Follows(Event.Start(url, open, navigated), o)
      ensures o.Ok? <==>
        old(state) == Prepared && old(DecideNavigation(url)) && open.Opened? && navigated && old(sequence) < CounterMax
      ensures o.InvalidState? <==> old(state) != Prepared
      ensures o.Ok? ==> state == UserControlled && context == Some(open.lease)
      ensures o.InvalidState? || o.ContextOccupied? ==> Value() == old(Value())
      ensures !o.Ok? && !o.InvalidState? && !o.ContextOccupied? ==> state == Failed
    {
      if state != Prepared {
        return InvalidState;
      }
      if !DecideNavigation(url) {
        Invalidate();
        return NavigationDenied;
      }
      calls := calls + [OpenContext(open)];
      if open.Occupied? {
        return ContextOccupied;
      }
      if open.Refused? {
        Invalidate();
        return EngineFailed;
      }
      context := Some(open.lease);
      calls := calls + [NavigateContext(open.lease)];
      if !navigated {
        Invalidate();
        return EngineFailed;
      }
      state := UserControlled;
      var advanced := TryAdvance();
      if !advanced {
        Invalidate();
        return GenerationOverflow;
      }
      return Ok;
    }

    method Navigate(url: string, navigated: bool) returns (o: Outcome)
      modifies this
      ensures Follows(Event.Navigate(url, navigated), o)
      ensures o.Ok? <==>
        old(state) == UserControlled && old(DecideNavigation(url)) && old(context).Some? && navigated
      ensures calls != old(calls) ==> old(DecideNavigation(url)) && old(state) == UserControlled
      ensures o.Ok? ==> state == UserControlled && calls == old(calls) + [NavigateContext(context.value)]
      ensures o.NavigationDenied? || o.EngineFailed? ==> state == Failed
    {
      if state != UserControlled {
        return InvalidState;
      }
      if !DecideNavigation(url) {
        Invalidate();
        return NavigationDenied;
      }
      if context.None? {
        return InvalidState;
      }
      calls := calls + [NavigateContext(context.value)];
      if !navigated {
        Invalidate();
        return EngineFailed;
      }
      Advance();
      return Ok;
    }

    method BeginSoftwareControl() returns (o: Outcome)
      modifies this
      ensures Follows(Event.BeginSoftwareControl, o)
      ensures o.Ok? <==> old(state) == UserControlled
      ensures o.Ok? ==> state == SoftwareControlled && sideEffect == NotDispatched && context == old(context)
    {
      if state != UserControlled {
        return InvalidState;
      }
      sideEffect, state := NotDispatched, SoftwareControlled;
      Advance();
      return Ok;
    }

    method RecordDispatchedSideEffect(effect: SideEffect) returns (o: Outcome)
      modifies this
      ensures Follows(RecordSideEffect(effect), o)
      ensures o.Ok? <==>
        old(state) == SoftwareControlled && effect != NotDispatched
        && (old(sideEffect) == WriteDispatched || old(sideEffect) == ResultLost ==>
              effect == WriteDispatched || effect == ResultLost)
      ensures sideEffect == if o.Ok? then effect else old(sideEffect)
      ensures state == old(state)
    {
      if state != SoftwareControlled {
        return InvalidState;
      }
      if effect.NotDispatched? {
        return InvalidSideEffectTransition;
      }
      if NeedsConfirmation(sideEffect) && !NeedsConfirmation(effect) {
        return InvalidSideEffectTransition;
      }
      sideEffect := effect;
      return Ok;
    }

    method RequestTakeover() returns (o: Outcome)
      modifies this
      ensures Follows(Event.RequestTakeover, o)
      ensures o.Ok? <==> old(state) == SoftwareControlled
      ensures o.Ok? ==> state == TakeoverPending && sideEffect == old(sideEffect) && context == old(context)
    {
      if state != SoftwareControlled {
        return InvalidState;
      }
      state := TakeoverPending;
      return Ok;
    }

    method CompleteTakeover(invalidated: bool) returns (o: Outcome)
      modifies this
      ensures Follows(Event.CompleteTakeover(invalidated), o)
      ensures o.Ok? <==>
        old(state) == TakeoverPending && invalidated && old(sequence) < CounterMax
        && old(navigationGeneration) < CounterMax
      ensures o.Ok? ==> navigationGeneration == old(navigationGeneration) + 1 && sequence == old(sequence) + 1
      ensures o.Ok? ==> sideEffect == old(sideEffect) && context == old(context)
      ensures o.Ok? ==>
        state == if sideEffect == WriteDispatched || sideEffect == ResultLost then OutcomeUnknown else UserControlled
      ensures !o.Ok? && !o.InvalidState? ==> state == Failed
    {
      if state != TakeoverPending {
        return InvalidState;
      }
      if !invalidated {
        Invalidate();
        return InvalidationFailed;
      }
      var advanced := TryAdvance();
      if !advanced {
        Invalidate();
        return GenerationOverflow;
      }
      if navigationGeneration >= CounterMax {
        Invalidate();
        return GenerationOverflow;
      }
      navigationGeneration := navigationGeneration + 1;
      state := if NeedsConfirmation(sideEffect) then OutcomeUnknown else UserControlled;
      return Ok;
    }

    method RecordIndependentConfirmation() returns (o: Outcome)
      modifies this
      ensures Follows(ConfirmIndependently, o)
      ensures o.Ok? <==> old(state) == OutcomeUnknown
      ensures o.Ok? ==> state == UserControlled && sideEffect == NotDispatched && context == old(context)
    {
      if state != OutcomeUnknown {
        return InvalidState;
      }
      sideEffect, state := NotDispatched, UserControlled;
      Advance();
      return Ok;
    }

    method CompleteSoftwareControl() returns (o: Outcome)
      modifies this
      ensures Follows(Event.CompleteSoftwareControl, o)
      ensures o.Ok? <==> old(state) == SoftwareControlled
      ensures o.Ok? ==> state == UserControlled && sideEffect == NotDispatched && context == old(context)
    {
      if state != SoftwareControlled {
        return InvalidState;
      }
      sideEffect, state := NotDispatched, UserControlled;
      Advance();
      return Ok;
    }

    method RecordSoftwareFailure(resultMayBeLost: bool) returns (o: Outcome)
      modifies this
      ensures Follows(FailSoftware(resultMayBeLost), o)
      ensures o.Ok? <==> old(state) == SoftwareControlled
      ensures o.Ok? ==>
        state == if resultMayBeLost || sideEffect == WriteDispatched || sideEffect == ResultLost then OutcomeUnknown
                 else Failed
      ensures sideEffect == old(sideEffect) && context == old(context)
    {
      if state != SoftwareControlled {
        return InvalidState;
      }
      state := if resultMayBeLost || NeedsConfirmation(sideEffect) then OutcomeUnknown else Failed;
      Advance();
      return Ok;
    }

    method CloseSession() returns (o: Outcome)
      modifies this
      ensures Follows(Close, o)
      ensures state == Closed && context.None?
      ensures o.Ok? <==>
        old(state) == Prepared || old(state) == UserControlled || old(state) == OutcomeUnknown || old(state) == Failed
      ensures calls == old(calls) +
        if o.Ok? && old(context).Some? then [CloseContext(old(context).value, private)] else []
    {
      if state != Prepared && state != UserControlled && state != OutcomeUnknown && state != Failed {
        state, context := Closed, None;
        return InvalidState;
      }
      if context.Some? {
        calls := calls + [CloseContext(context.value, private)];
        context := None;
      }
      state := Closed;
      Advance();
      return Ok;
    }

    /** A download, file chooser, popup or permission request: always refused, and fatal to the session. */
    method RequestForbidden() returns (o: Outcome)
      modifies this
      ensures Follows(Event.RequestForbidden, o)
      ensures o.Denied? && state == Failed && calls == old(calls)
    {
      Invalidate();
      return Denied;
    }

    method ObserveEngineEvent(event: string) returns (o: Outcome)
      modifies this
      ensures Follows(Observe(event), o)
      ensures o.Ok? <==> event == "navigation_committed" || event == "engine_crashed"
      ensures !o.Ok? ==> state == Failed
      ensures event == "navigation_committed" ==> state == old(state) && context == old(context)
      ensures event == "engine_crashed" ==> state == Failed && context.None?
    {
      if event == [] || |event| > 256 {
        Invalidate();
        return InvalidObservation;
      }
      if event != "navigation_committed" && event != "engine_crashed" {
        Invalidate();
        return InvalidObservation;
      }
      Advance();
      if event == "engine_crashed" {
        context, state := None, Failed;
      }
      return Ok;
    }

    method AdvanceAppBoot() returns (o: Outcome)
      modifies this
      ensures Follows(Event.AdvanceAppBoot, o)
      ensures state == Failed && context.None?
      ensures appBoot == if old(appBoot) < CounterMax then old(appBoot) + 1 else CounterMax
    {
      appBoot := Saturating(appBoot);
      context := None;
      Invalidate();
      return Ok;
    }

    method AdvanceProfileGeneration() returns (o: Outcome)
      modifies this
      ensures Follows(AdvanceProfile, o)
      ensures state == Failed && context == old(context)
      ensures profileGeneration
           == if old(profileGeneration) < CounterMax then old(profileGeneration) + 1 else CounterMax
    {
      profileGeneration := Saturating(profileGeneration);
      Invalidate();
      return Ok;
    }

    method AdvanceNavigationGeneration() returns (o: Outcome)
      modifies this
      ensures Follows(AdvanceNavigation, o)
      ensures state == Failed && context == old(context)
      ensures navigationGeneration
           == if old(navigationGeneration) < CounterMax then old(navigationGeneration) + 1 else CounterMax
    {
      navigationGeneration := Saturating(navigationGeneration);
      Invalidate();
      return Ok;
    }
  }
}
