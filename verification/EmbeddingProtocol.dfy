/** Concurrent `Embed` calls, interleaved one locked section at a time.

    A world holds the runtime's locked state, every call made so far and every flight opened
    so far. A call looks in the cache, begins or joins a flight, and waits; a flight's own
    goroutine looks again, asks upstream, reports, stores and lands. Batches, guards and
    other users of the same runtime appear as the `Other` steps. Any enabled step may come
    next, at any later clock reading. */
module EmbeddingProtocol {
  import opened Common
  import opened EmbeddingModel

  datatype Reply = Vec(vector: Vector) | Fail(failure: Failure)

  datatype Via = ByCache | ByFlight(flight: nat) | ByContext

  datatype Phase = Looking | Beginning | Waiting(flight: nat) | Returned(reply: Reply, via: Via)

  datatype Call = Call(identity: Identity, text: Text, probe: bool, policy: Policy, phase: Phase)

  datatype Work = Rechecking | Calling | Asking | Finishing(reply: Reply) | Storing(vector: Vector)
                | Completing(reply: Reply) | Landed

  /** One flight and the goroutine that flies it. `closes` counts closings of its channel. */
  datatype Flight = Flight(identity: Identity, text: Text, probe: bool, policy: Policy, leader: nat,
                           work: Work, closes: nat, reply: Reply)

  /** `outside` logs the hits and ends that other users of the runtime caused. */
  datatype World = World(shared: Shared<nat>, calls: seq<Call>, flights: seq<Flight>,
                         outside: seq<Identity>, clock: Time)

  type Truth = (Identity, Text) -> Vector

  datatype Step =
    | Arrives(identity: Identity, text: Text, probe: bool, policy: Policy)
    | LooksUp(c: nat)
    | Begins(c: nat)
    | GivesUp(c: nat, reason: Failure)
    | Hears(c: nat)
    | Rechecks(f: nat)
    | Asks(f: nat)
    | Answers(f: nat, refusal: Option<Failure>)
    | Ends(f: nat)
    | Keeps(f: nat)
    | Lands(f: nat)
    | OtherAllowed(identity: Identity)
    | OtherEnded(identity: Identity, policy: Policy, outcome: Outcome)
    | OtherLooked(identity: Identity, text: Text)
    | OtherStored(identity: Identity, text: Text, policy: Policy)

  function KeyOf(f: Flight): Key {
    CacheKey(f.identity, f.text)
  }

  predicate UsesCache(probe: bool, policy: Policy) {
    !probe && policy.cacheTTL > 0
  }

  function SetPhase(w: World, c: nat, phase: Phase): World
    requires c < |w.calls|
  {
    w.(calls := w.calls[c := w.calls[c].(phase := phase)])
  }

  function SetWork(w: World, f: nat, work: Work): World
    requires f < |w.flights|
  {
    w.(flights := w.flights[f := w.flights[f].(work := work)])
  }

  function OutcomeOf(reply: Reply): Outcome {
    if reply.Vec? then None else Some(reply.failure)
  }

  ghost predicate Enabled(w: World, step: Step) {
    match step
    case Arrives(identity, _, _, policy) => NulFree(identity) && policy.Normal()
    case LooksUp(c) => c < |w.calls| && w.calls[c].phase.Looking?
    case Begins(c) => c < |w.calls| && w.calls[c].phase.Beginning?
    case GivesUp(c, _) => c < |w.calls| && w.calls[c].phase.Waiting?
    case Hears(c) => c < |w.calls| && w.calls[c].phase.Waiting? && w.calls[c].phase.flight < |w.flights|
                     && w.flights[w.calls[c].phase.flight].closes > 0
    case Rechecks(f) => f < |w.flights| && w.flights[f].work.Rechecking?
    case Asks(f) => f < |w.flights| && w.flights[f].work.Calling?
    case Answers(f, _) => f < |w.flights| && w.flights[f].work.Asking?
    case Ends(f) => f < |w.flights| && w.flights[f].work.Finishing?
    case Keeps(f) => f < |w.flights| && w.flights[f].work.Storing?
    case Lands(f) => f < |w.flights| && w.flights[f].work.Completing?
    case OtherAllowed(_) => true
    case OtherEnded(_, _, _) => true
    case OtherLooked(identity, _) => NulFree(identity)
    case OtherStored(identity, _, policy) => NulFree(identity) && policy.Normal()
  }

  /** Every step but the two stores is a function of the world. */
  function Effect(w: World, step: Step, now: Time, later: Time, truth: Truth): World
    requires Enabled(w, step) && !step.Keeps? && !step.OtherStored?
  {
    match step
    case Arrives(identity, text, probe, policy) =>
      w.(calls := w.calls + [Call(identity, text, probe, policy, if UsesCache(probe, policy) then Looking else Beginning)])
    case LooksUp(c) =>
      var (shared, answer) := Look(w.shared, w.calls[c].identity, w.calls[c].text, now);
      SetPhase(w, c, if answer.Some? then Returned(Vec(answer.value), ByCache) else Beginning).(shared := shared)
    case Begins(c) =>
      var call := w.calls[c];
      var (shared, flight, leader) := Begin(w.shared, call.identity, call.text, |w.flights|);
      var launched := Flight(call.identity, call.text, call.probe, call.policy, c, Rechecking, 0, Fail(EmptyVector));
      SetPhase(w, c, Waiting(flight)).(
        shared := shared,
        flights := if leader then w.flights + [launched] else w.flights)
    case GivesUp(c, reason) =>
      SetPhase(w, c, Returned(Fail(reason), ByContext))
    case Hears(c) =>
      var f := w.calls[c].phase.flight;
      SetPhase(w, c, Returned(w.flights[f].reply, ByFlight(f)))
    case Rechecks(f) =>
      var flight := w.flights[f];
      if UsesCache(flight.probe, flight.policy) then
        var (shared, answer) := Look(w.shared, flight.identity, flight.text, now);
        SetWork(w, f, if answer.Some? then Completing(Vec(answer.value)) else Calling).(shared := shared)
      else SetWork(w, f, Calling)
    case Asks(f) =>
      SetWork(w, f, Asking)
    case Answers(f, refusal) =>
      var vector := truth(w.flights[f].identity, w.flights[f].text);
      SetWork(w, f, Finishing(
        if refusal.Some? then Fail(refusal.value)
        else if |vector| == 0 then Fail(EmptyVector)
        else Vec(vector)))
    case Ends(f) =>
      var flight := w.flights[f];
      var reply := flight.work.reply;
      SetWork(w, f, if reply.Vec? then Storing(reply.vector) else Completing(reply)).(
        shared := FinishAt(w.shared, flight.identity, flight.policy, OutcomeOf(reply), now, later))
    case Lands(f) =>
      var flight := w.flights[f];
      w.(shared := Land(w.shared, KeyOf(flight)),
         flights := w.flights[f := flight.(work := Landed, closes := flight.closes + 1, reply := flight.work.reply)])
    case OtherAllowed(identity) =>
      w.(shared := AllowAt(w.shared, identity, now))
    case OtherEnded(identity, policy, outcome) =>
      w.(shared := FinishAt(w.shared, identity, policy, outcome, now, later), outside := w.outside + [identity])
    case OtherLooked(identity, text) =>
      var (shared, answer) := Look(w.shared, identity, text, now);
      w.(shared := shared, outside := if answer.Some? then w.outside + [identity] else w.outside)
  }

  ghost predicate Next(w: World, w': World, step: Step, now: Time, later: Time, truth: Truth) {
    && Enabled(w, step)
    && w.clock <= now <= later == w'.clock
    && match step
       case Keeps(f) =>
         var flight := w.flights[f];
         && w' == SetWork(w, f, Completing(Vec(flight.work.vector))).(shared := w'.shared, clock := later)
         && Stores(w.shared, w'.shared, flight.identity, flight.text, flight.work.vector, flight.policy, now, later)
       case OtherStored(identity, text, policy) =>
         && w' == w.(shared := w'.shared, clock := later)
         && Stores(w.shared, w'.shared, identity, text, truth(identity, text), policy, now, later)
       case _ => w' == Effect(w, step, now, later, truth).(clock := later)
  }

  const EMPTY_WORLD := World(Shared(map[], map[], map[]), [], [], [], 0)

  datatype Tick = Tick(step: Step, now: Time, later: Time)

  /** A run: the worlds it passes through and the step taken from each. */
  ghost predicate Run(worlds: seq<World>, ticks: seq<Tick>, truth: Truth) {
    && |worlds| == |ticks| + 1
    && worlds[0] == EMPTY_WORLD
    && forall i :: 0 <= i < |ticks| ==> Next(worlds[i], worlds[i + 1], ticks[i].step, ticks[i].now, ticks[i].later, truth)
  }

  // ---- the invariant ----

  /** A flight is on the map, under its own key, exactly while its channel is open. */
  ghost predicate FlightsInv(w: World) {
    && (forall k :: k in w.shared.flights ==>
          && w.shared.flights[k] < |w.flights|
          && KeyOf(w.flights[w.shared.flights[k]]) == k
          && !w.flights[w.shared.flights[k]].work.Landed?)
    && (forall f :: 0 <= f < |w.flights| ==>
          && (!w.flights[f].work.Landed? ==>
                KeyOf(w.flights[f]) in w.shared.flights && w.shared.flights[KeyOf(w.flights[f])] == f)
          && w.flights[f].closes == (if w.flights[f].work.Landed? then 1 else 0))
  }

  /** A reply is the provider's own vector for the question, or a failure. */
  predicate Honest(reply: Reply, identity: Identity, text: Text, truth: Truth) {
    reply.Vec? ==> reply.vector == truth(identity, text) && |reply.vector| > 0
  }

  ghost predicate FlightHonest(f: Flight, truth: Truth) {
    && NulFree(f.identity) && f.policy.Normal()
    && match f.work
       case Finishing(reply) => Honest(reply, f.identity, f.text, truth)
       case Completing(reply) => Honest(reply, f.identity, f.text, truth)
       case Storing(vector) => Honest(Vec(vector), f.identity, f.text, truth)
       case Landed => Honest(f.reply, f.identity, f.text, truth)
       case _ => true
  }

  ghost predicate TruthInv(w: World, truth: Truth) {
    && Faithful(w.shared.cache, truth)
    && forall f :: 0 <= f < |w.flights| ==> FlightHonest(w.flights[f], truth)
  }

  /** The flight call `c` waits for, or heard from, is one about its own question. */
  ghost predicate OwnFlight(w: World, c: Call, f: nat) {
    f < |w.flights| && w.flights[f].identity == c.identity && w.flights[f].text == c.text
  }

  ghost predicate CallInv(w: World, c: Call, truth: Truth) {
    && NulFree(c.identity) && c.policy.Normal()
    && match c.phase
       case Waiting(f) => OwnFlight(w, c, f)
       case Returned(reply, via) =>
         && Honest(reply, c.identity, c.text, truth)
         && (via.ByFlight? ==> OwnFlight(w, c, via.flight) && w.flights[via.flight].work.Landed?
                               && reply == w.flights[via.flight].reply)
         && (via.ByCache? ==> reply.Vec?)
         && (via.ByContext? ==> reply.Fail?)
       case _ => true
  }

  ghost predicate CallsInv(w: World, truth: Truth) {
    && (forall c :: 0 <= c < |w.calls| ==> CallInv(w, w.calls[c], truth))
    && (forall f :: 0 <= f < |w.flights| ==> w.flights[f].leader < |w.calls|)
  }

  /** Calls and flights of one identity that no counter has accounted for yet. */
  function PendingCall(identity: Identity): Call -> bool {
    (c: Call) => c.identity == identity && (c.phase.Looking? || c.phase.Beginning?)
  }

  function PendingFlight(identity: Identity): Flight -> bool {
    (f: Flight) => f.identity == identity && (f.work.Rechecking? || f.work.Calling? || f.work.Asking? || f.work.Finishing?)
  }

  function OfIdentity(identity: Identity): Call -> bool {
    (c: Call) => c.identity == identity
  }

  function Is(identity: Identity): Identity -> bool {
    (i: Identity) => i == identity
  }

  function Counted(states: map<Identity, Breaker>, identity: Identity): nat {
    var b := State(states, identity);
    b.hits + b.coalesced + b.requests
  }

  ghost predicate LedgerInv(w: World, identity: Identity) {
    Counted(w.shared.states, identity) + Count(w.calls, PendingCall(identity)) + Count(w.flights, PendingFlight(identity))
    == Count(w.calls, OfIdentity(identity)) + Count(w.outside, Is(identity))
  }

  ghost predicate Inv(w: World, truth: Truth) {
    FlightsInv(w) && TruthInv(w, truth) && CallsInv(w, truth)
  }

  // ---- every step keeps it ----

  /** Flights are never forgotten or renamed, and one that has landed never changes. */
  ghost predicate Grows(w: World, w': World) {
    && |w.flights| <= |w'.flights| && |w.calls| <= |w'.calls|
    && forall f :: 0 <= f < |w.flights| ==>
      && w'.flights[f].identity == w.flights[f].identity && w'.flights[f].text == w.flights[f].text
      && w'.flights[f].policy == w.flights[f].policy && w'.flights[f].leader == w.flights[f].leader
      && (w.flights[f].work.Landed? ==> w'.flights[f] == w.flights[f])
  }

  lemma StepGrows(w: World, w': World, step: Step, now: Time, later: Time, truth: Truth)
    requires Next(w, w', step, now, later, truth)
    ensures Grows(w, w')
  {
  }

  /** No step but a beginning or a landing opens or closes a flight. */
  lemma OtherStepsOpenNothing(w: World, w': World, step: Step, now: Time, later: Time, truth: Truth)
    requires Next(w, w', step, now, later, truth) && !step.Begins? && !step.Lands?
    ensures w'.shared.flights == w.shared.flights && |w'.flights| == |w.flights|
    ensures forall f :: 0 <= f < |w.flights| ==>
      && w'.flights[f].work.Landed? == w.flights[f].work.Landed?
      && w'.flights[f].closes == w.flights[f].closes
  {
  }

  lemma StepKeepsFlights(w: World, w': World, step: Step, now: Time, later: Time, truth: Truth)
    requires FlightsInv(w) && Next(w, w', step, now, later, truth)
    ensures FlightsInv(w')
  {
    StepGrows(w, w', step, now, later, truth);
    if step.Begins? {
      BeginKeepsFlights(w, w', step.c, now, later, truth);
    } else if step.Lands? {
      LandKeepsFlights(w, w', step.f, now, later, truth);
    } else {
      OtherStepsOpenNothing(w, w', step, now, later, truth);
    }
  }

  lemma BeginKeepsFlights(w: World, w': World, c: nat, now: Time, later: Time, truth: Truth)
    requires FlightsInv(w) && Next(w, w', Begins(c), now, later, truth)
    ensures FlightsInv(w')
  {
    var key := CacheKey(w.calls[c].identity, w.calls[c].text);
    if key !in w.shared.flights {
      assert w'.shared.flights == w.shared.flights[key := |w.flights|];
      assert w'.flights[..|w.flights|] == w.flights;
      assert KeyOf(w'.flights[|w.flights|]) == key;
    }
  }

  lemma LandKeepsFlights(w: World, w': World, f: nat, now: Time, later: Time, truth: Truth)
    requires FlightsInv(w) && Next(w, w', Lands(f), now, later, truth)
    ensures FlightsInv(w')
  {
    var key := KeyOf(w.flights[f]);
    assert w'.shared.flights == w.shared.flights - {key};
    assert w.shared.flights[key] == f;
  }

  /** The one flight a step may move. */
  function FlightMover(w: World, step: Step): nat {
    match step
    case Rechecks(f) => f
    case Asks(f) => f
    case Answers(f, _) => f
    case Ends(f) => f
    case Keeps(f) => f
    case Lands(f) => f
    case _ => |w.flights|
  }

  lemma OtherFlightsStandStill(w: World, w': World, step: Step, now: Time, later: Time, truth: Truth)
    requires Next(w, w', step, now, later, truth)
    ensures forall f :: 0 <= f < |w.flights| && f != FlightMover(w, step) ==> w'.flights[f] == w.flights[f]
    ensures |w.flights| <= |w'.flights| <= |w.flights| + 1
    ensures |w'.flights| > |w.flights| ==> step.Begins?
  {
  }

  lemma StepKeepsCacheFaithful(w: World, w': World, step: Step, now: Time, later: Time, truth: Truth)
    requires Inv(w, truth) && Next(w, w', step, now, later, truth)
    ensures Faithful(w'.shared.cache, truth)
  {
    match step
    case LooksUp(c) =>
      assert CallInv(w, w.calls[c], truth);
      LookIsFaithful(w.shared, w.calls[c].identity, w.calls[c].text, now, truth);
    case OtherLooked(identity, text) => LookIsFaithful(w.shared, identity, text, now, truth);
    case Rechecks(f) =>
      assert FlightHonest(w.flights[f], truth);
      LookIsFaithful(w.shared, w.flights[f].identity, w.flights[f].text, now, truth);
    case Keeps(f) =>
      var flight := w.flights[f];
      assert FlightHonest(flight, truth);
      StoreKeepsFaithful(w.shared, w'.shared, flight.identity, flight.text, flight.work.vector, flight.policy, now, later, truth);
    case OtherStored(identity, text, policy) =>
      StoreKeepsFaithful(w.shared, w'.shared, identity, text, truth(identity, text), policy, now, later, truth);
    case _ =>
  }

  lemma MovedFlightHonest(w: World, w': World, step: Step, now: Time, later: Time, truth: Truth)
    requires Inv(w, truth) && Next(w, w', step, now, later, truth)
    ensures FlightMover(w, step) < |w'.flights| ==> FlightHonest(w'.flights[FlightMover(w, step)], truth)
  {
    var f := FlightMover(w, step);
    if f < |w.flights| {
      assert FlightHonest(w.flights[f], truth);
      if step.Rechecks? {
        LookIsFaithful(w.shared, w.flights[f].identity, w.flights[f].text, now, truth);
      }
    } else if step.Begins? {
      assert CallInv(w, w.calls[step.c], truth);
    }
  }

  lemma StepKeepsTruth(w: World, w': World, step: Step, now: Time, later: Time, truth: Truth)
    requires Inv(w, truth) && Next(w, w', step, now, later, truth)
    ensures TruthInv(w', truth)
  {
    StepKeepsCacheFaithful(w, w', step, now, later, truth);
    OtherFlightsStandStill(w, w', step, now, later, truth);
    MovedFlightHonest(w, w', step, now, later, truth);
    forall f | 0 <= f < |w'.flights| ensures FlightHonest(w'.flights[f], truth) {
      if f != FlightMover(w, step) {
        assert w'.flights[f] == w.flights[f] && FlightHonest(w.flights[f], truth);
      }
    }
  }

  /** A call that is left alone stays in order while the rest of the world moves on. */
  lemma CallInvStable(w: World, w': World, c: Call, truth: Truth)
    requires Grows(w, w') && CallInv(w, c, truth)
    ensures CallInv(w', c, truth)
  {
  }

  /** The one call a step may move. */
  function Mover(w: World, step: Step): nat {
    match step
    case LooksUp(c) => c
    case Begins(c) => c
    case GivesUp(c, _) => c
    case Hears(c) => c
    case _ => |w.calls|
  }

  lemma OthersStandStill(w: World, w': World, step: Step, now: Time, later: Time, truth: Truth)
    requires Next(w, w', step, now, later, truth)
    ensures |w'.calls| == |w.calls| + (if step.Arrives? then 1 else 0)
    ensures forall c :: 0 <= c < |w.calls| && c != Mover(w, step) ==> w'.calls[c] == w.calls[c]
  {
  }

  lemma MoverInOrder(w: World, w': World, step: Step, now: Time, later: Time, truth: Truth)
    requires Inv(w, truth) && Next(w, w', step, now, later, truth) && Grows(w, w')
    ensures Mover(w, step) < |w'.calls| ==> CallInv(w', w'.calls[Mover(w, step)], truth)
  {
    match step
    case LooksUp(c) => LookIsFaithful(w.shared, w.calls[c].identity, w.calls[c].text, now, truth);
    case Begins(c) =>
      var call := w.calls[c];
      var key := CacheKey(call.identity, call.text);
      assert CallInv(w, call, truth);
      if key in w.shared.flights {
        var flight := w.flights[w.shared.flights[key]];
        assert FlightHonest(flight, truth);
        CacheKeyInjective(call.identity, call.text, flight.identity, flight.text);
      }
    case GivesUp(c, _) => assert CallInv(w, w.calls[c], truth);
    case Hears(c) =>
      assert CallInv(w, w.calls[c], truth);
      assert FlightHonest(w.flights[w.calls[c].phase.flight], truth);
    case _ =>
  }

  lemma StepKeepsCalls(w: World, w': World, step: Step, now: Time, later: Time, truth: Truth)
    requires Inv(w, truth) && Next(w, w', step, now, later, truth)
    ensures CallsInv(w', truth)
  {
    StepGrows(w, w', step, now, later, truth);
    OthersStandStill(w, w', step, now, later, truth);
    MoverInOrder(w, w', step, now, later, truth);
    forall c | 0 <= c < |w'.calls| ensures CallInv(w', w'.calls[c], truth) {
      if c < |w.calls| && c != Mover(w, step) {
        CallInvStable(w, w', w.calls[c], truth);
      }
    }
    LeadersExist(w, w', step, now, later, truth);
  }

  lemma LeadersExist(w: World, w': World, step: Step, now: Time, later: Time, truth: Truth)
    requires Inv(w, truth) && Next(w, w', step, now, later, truth) && Grows(w, w')
    ensures forall f :: 0 <= f < |w'.flights| ==> w'.flights[f].leader < |w'.calls|
  {
    if !step.Begins? && !step.Lands? {
      OtherStepsOpenNothing(w, w', step, now, later, truth);
    }
  }

  lemma StepKeepsInv(w: World, w': World, step: Step, now: Time, later: Time, truth: Truth)
    requires Inv(w, truth) && Next(w, w', step, now, later, truth)
    ensures Inv(w', truth)
  {
    StepKeepsFlights(w, w', step, now, later, truth);
    StepKeepsTruth(w, w', step, now, later, truth);
    StepKeepsCalls(w, w', step, now, later, truth);
  }

  // ---- every step keeps the books ----

  lemma SectionsCount(s: Shared<nat>, who: Identity, text: Text, flight: nat, policy: Policy, outcome: Outcome,
                      now: Time, later: Time, identity: Identity)
    ensures var (s', answer) := Look(s, who, text, now);
            Counted(s'.states, identity) == Counted(s.states, identity) + (if answer.Some? && who == identity then 1 else 0)
    ensures var (s', _, leader) := Begin(s, who, text, flight);
            Counted(s'.states, identity) == Counted(s.states, identity) + (if !leader && who == identity then 1 else 0)
    ensures Counted(FinishAt(s, who, policy, outcome, now, later).states, identity)
            == Counted(s.states, identity) + (if who == identity then 1 else 0)
  {
  }

  lemma CallMoves(w: World, c: nat, phase: Phase, identity: Identity)
    requires c < |w.calls|
    ensures var calls := SetPhase(w, c, phase).calls;
            && Count(calls, OfIdentity(identity)) == Count(w.calls, OfIdentity(identity))
            && Count(calls, PendingCall(identity)) == Count(w.calls, PendingCall(identity))
                 - (if PendingCall(identity)(w.calls[c]) then 1 else 0)
                 + (if PendingCall(identity)(w.calls[c].(phase := phase)) then 1 else 0)
  {
    CountUpdate(w.calls, c, w.calls[c].(phase := phase), OfIdentity(identity));
    CountUpdate(w.calls, c, w.calls[c].(phase := phase), PendingCall(identity));
  }

  lemma ArrivalBalances(w: World, w': World, step: Step, now: Time, later: Time, truth: Truth, identity: Identity)
    requires Next(w, w', step, now, later, truth) && LedgerInv(w, identity) && step.Arrives?
    ensures LedgerInv(w', identity)
  {
    CountAppend(w.calls, w'.calls[|w.calls|], OfIdentity(identity));
    CountAppend(w.calls, w'.calls[|w.calls|], PendingCall(identity));
  }

  lemma LookupBalances(w: World, w': World, c: nat, now: Time, later: Time, truth: Truth, identity: Identity)
    requires Next(w, w', LooksUp(c), now, later, truth) && LedgerInv(w, identity)
    ensures LedgerInv(w', identity)
  {
    CallMoves(w, c, w'.calls[c].phase, identity);
    SectionsCount(w.shared, w.calls[c].identity, w.calls[c].text, 0, w.calls[c].policy, None, now, later, identity);
  }

  lemma BeginBalances(w: World, w': World, c: nat, now: Time, later: Time, truth: Truth, identity: Identity)
    requires Next(w, w', Begins(c), now, later, truth) && LedgerInv(w, identity)
    ensures LedgerInv(w', identity)
  {
    var call := w.calls[c];
    CallMoves(w, c, w'.calls[c].phase, identity);
    SectionsCount(w.shared, call.identity, call.text, |w.flights|, call.policy, None, now, later, identity);
    if CacheKey(call.identity, call.text) !in w.shared.flights {
      CountAppend(w.flights, w'.flights[|w.flights|], PendingFlight(identity));
    }
  }

  lemma WaitBalances(w: World, w': World, step: Step, now: Time, later: Time, truth: Truth, identity: Identity)
    requires Next(w, w', step, now, later, truth) && LedgerInv(w, identity) && (step.GivesUp? || step.Hears?)
    ensures LedgerInv(w', identity)
  {
    CallMoves(w, step.c, w'.calls[step.c].phase, identity);
  }

  lemma RecheckBalances(w: World, w': World, f: nat, now: Time, later: Time, truth: Truth, identity: Identity)
    requires Next(w, w', Rechecks(f), now, later, truth) && LedgerInv(w, identity)
    ensures LedgerInv(w', identity)
  {
    CountUpdate(w.flights, f, w'.flights[f], PendingFlight(identity));
    SectionsCount(w.shared, w.flights[f].identity, w.flights[f].text, 0, w.flights[f].policy, None, now, later, identity);
  }

  lemma EndBalances(w: World, w': World, f: nat, now: Time, later: Time, truth: Truth, identity: Identity)
    requires Next(w, w', Ends(f), now, later, truth) && LedgerInv(w, identity)
    ensures LedgerInv(w', identity)
  {
    CountUpdate(w.flights, f, w'.flights[f], PendingFlight(identity));
    SectionsCount(w.shared, w.flights[f].identity, "", 0, w.flights[f].policy, OutcomeOf(w.flights[f].work.reply), now, later, identity);
  }

  lemma SilentFlightStepBalances(w: World, w': World, step: Step, now: Time, later: Time, truth: Truth, identity: Identity)
    requires Next(w, w', step, now, later, truth) && LedgerInv(w, identity)
    requires step.Asks? || step.Answers? || step.Keeps? || step.Lands?
    ensures LedgerInv(w', identity)
  {
    CountUpdate(w.flights, step.f, w'.flights[step.f], PendingFlight(identity));
  }

  lemma OtherStepBalances(w: World, w': World, step: Step, now: Time, later: Time, truth: Truth, identity: Identity)
    requires Next(w, w', step, now, later, truth) && LedgerInv(w, identity)
    requires step.OtherEnded? || step.OtherLooked?
    ensures LedgerInv(w', identity)
  {
    CountAppend(w.outside, step.identity, Is(identity));
    match step
    case OtherEnded(who, policy, outcome) => SectionsCount(w.shared, who, "", 0, policy, outcome, now, later, identity);
    case OtherLooked(who, text) => SectionsCount(w.shared, who, text, 0, Policy(1, 1, 0, 1), None, now, later, identity);
  }

  lemma OtherSilentStepBalances(w: World, w': World, step: Step, now: Time, later: Time, truth: Truth, identity: Identity)
    requires Next(w, w', step, now, later, truth) && LedgerInv(w, identity)
    requires step.OtherAllowed? || step.OtherStored?
    ensures LedgerInv(w', identity)
  {
    assert Counted(w'.shared.states, identity) == Counted(w.shared.states, identity);
  }

  lemma StepBalances(w: World, w': World, step: Step, now: Time, later: Time, truth: Truth, identity: Identity)
    requires Next(w, w', step, now, later, truth) && LedgerInv(w, identity)
    ensures LedgerInv(w', identity)
  {
    match step
    case Arrives(_, _, _, _) => ArrivalBalances(w, w', step, now, later, truth, identity);
    case LooksUp(c) => LookupBalances(w, w', c, now, later, truth, identity);
    case Begins(c) => BeginBalances(w, w', c, now, later, truth, identity);
    case GivesUp(_, _) => WaitBalances(w, w', step, now, later, truth, identity);
    case Hears(_) => WaitBalances(w, w', step, now, later, truth, identity);
    case Rechecks(f) => RecheckBalances(w, w', f, now, later, truth, identity);
    case Ends(f) => EndBalances(w, w', f, now, later, truth, identity);
    case Asks(_) => SilentFlightStepBalances(w, w', step, now, later, truth, identity);
    case Answers(_, _) => SilentFlightStepBalances(w, w', step, now, later, truth, identity);
    case Keeps(_) => SilentFlightStepBalances(w, w', step, now, later, truth, identity);
    case Lands(_) => SilentFlightStepBalances(w, w', step, now, later, truth, identity);
    case OtherAllowed(_) => OtherSilentStepBalances(w, w', step, now, later, truth, identity);
    case OtherStored(_, _, _) => OtherSilentStepBalances(w, w', step, now, later, truth, identity);
    case _ => OtherStepBalances(w, w', step, now, later, truth, identity);
  }

  // ---- what holds of every run ----

  lemma {:induction false} RunKeepsInv(worlds: seq<World>, ticks: seq<Tick>, truth: Truth, i: nat)
    requires Run(worlds, ticks, truth) && i < |worlds|
    ensures Inv(worlds[i], truth)
  {
    if i > 0 {
      RunKeepsInv(worlds, ticks, truth, i - 1);
      StepKeepsInv(worlds[i - 1], worlds[i], ticks[i - 1].step, ticks[i - 1].now, ticks[i - 1].later, truth);
    }
  }

  lemma {:induction false} RunBalances(worlds: seq<World>, ticks: seq<Tick>, truth: Truth, i: nat, identity: Identity)
    requires Run(worlds, ticks, truth) && i < |worlds|
    ensures LedgerInv(worlds[i], identity)
  {
    if i > 0 {
      RunBalances(worlds, ticks, truth, i - 1, identity);
      StepBalances(worlds[i - 1], worlds[i], ticks[i - 1].step, ticks[i - 1].now, ticks[i - 1].later, truth, identity);
    }
  }

  /** At any instant of any run, at most one flight is open for a question, so its upstream
      requests never overlap; the open flights are exactly the ones on the map; and a flight
      about to close its channel has never closed it before. */
  lemma OneOpenFlightPerQuestion(worlds: seq<World>, ticks: seq<Tick>, truth: Truth, i: nat)
    requires Run(worlds, ticks, truth) && i < |worlds|
    ensures var w := worlds[i];
            && (forall f, g :: 0 <= f < g < |w.flights| && !w.flights[f].work.Landed? && !w.flights[g].work.Landed? ==>
                  w.flights[f].identity != w.flights[g].identity || w.flights[f].text != w.flights[g].text)
            && (forall f: nat :: f < |w.flights| ==>
                  (f in w.shared.flights.Values <==> w.flights[f].closes == 0) && w.flights[f].closes <= 1)
            && (forall f: nat :: Enabled(w, Lands(f)) ==> w.flights[f].closes == 0)
  {
    RunKeepsInv(worlds, ticks, truth, i);
    var w := worlds[i];
    forall f: nat | f < |w.flights| ensures f in w.shared.flights.Values <==> w.flights[f].closes == 0 {
      if w.flights[f].closes == 0 {
        assert w.shared.flights[KeyOf(w.flights[f])] == f;
      }
    }
  }

  /** Whatever a call returns, by whichever way, it is the provider's own answer to that
      call's own question, or a failure. */
  lemma EveryAnswerIsTheProviders(worlds: seq<World>, ticks: seq<Tick>, truth: Truth, i: nat, c: nat)
    requires Run(worlds, ticks, truth) && i < |worlds|
    requires c < |worlds[i].calls| && worlds[i].calls[c].phase.Returned?
    requires worlds[i].calls[c].phase.reply.Vec?
    ensures worlds[i].calls[c].phase.reply.vector == truth(worlds[i].calls[c].identity, worlds[i].calls[c].text)
    ensures |worlds[i].calls[c].phase.reply.vector| > 0
  {
    RunKeepsInv(worlds, ticks, truth, i);
    assert CallInv(worlds[i], worlds[i].calls[c], truth);
  }

  /** What a call was told by a flight is what that flight's own goroutine landed with, so
      two callers of one flight are never told different things. */
  lemma WaitersHearTheirLeader(worlds: seq<World>, ticks: seq<Tick>, truth: Truth, i: nat, c: nat, d: nat)
    requires Run(worlds, ticks, truth) && i < |worlds|
    requires c < |worlds[i].calls| && d < |worlds[i].calls|
    requires worlds[i].calls[c].phase.Returned? && worlds[i].calls[c].phase.via.ByFlight?
    requires worlds[i].calls[d].phase.Returned? && worlds[i].calls[d].phase.via == worlds[i].calls[c].phase.via
    ensures var w := worlds[i];
            var f := w.calls[c].phase.via.flight;
            && f < |w.flights| && w.flights[f].work.Landed?
            && w.flights[f].identity == w.calls[c].identity && w.flights[f].text == w.calls[c].text
            && w.calls[c].phase.reply == w.flights[f].reply == w.calls[d].phase.reply
  {
    RunKeepsInv(worlds, ticks, truth, i);
    assert CallInv(worlds[i], worlds[i].calls[c], truth);
    assert CallInv(worlds[i], worlds[i].calls[d], truth);
  }

  /** A landed flight keeps its reply for the rest of the run, so it does not matter when a
      waiter gets round to hearing it. */
  lemma {:induction false} LandedIsForever(worlds: seq<World>, ticks: seq<Tick>, truth: Truth, i: nat, j: nat, f: nat)
    requires Run(worlds, ticks, truth) && i <= j < |worlds|
    requires f < |worlds[i].flights| && worlds[i].flights[f].work.Landed?
    ensures f < |worlds[j].flights| && worlds[j].flights[f] == worlds[i].flights[f]
    decreases j - i
  {
    if i < j {
      StepGrows(worlds[i], worlds[i + 1], ticks[i].step, ticks[i].now, ticks[i].later, truth);
      LandedIsForever(worlds, ticks, truth, i + 1, j, f);
    }
  }

  ghost predicate Quiet(w: World) {
    && (forall c :: c in w.calls ==> c.phase.Returned?)
    && (forall f :: f in w.flights ==> f.work.Landed?)
  }

  /** When everything has come to rest, each call of an identity is accounted for once: as a
      cache hit, as a coalesced call, or as an upstream request. */
  lemma QuietBooksBalance(worlds: seq<World>, ticks: seq<Tick>, truth: Truth, i: nat, identity: Identity)
    requires Run(worlds, ticks, truth) && i < |worlds| && Quiet(worlds[i])
    ensures var w := worlds[i];
            var b := State(w.shared.states, identity);
            && b.hits + b.coalesced + b.requests == Count(w.calls, OfIdentity(identity)) + Count(w.outside, Is(identity))
            && (w.outside == [] ==> Count(w.calls, OfIdentity(identity)) == b.hits + b.coalesced + b.requests)
  {
    RunBalances(worlds, ticks, truth, i, identity);
    CountZero(worlds[i].calls, PendingCall(identity));
    CountZero(worlds[i].flights, PendingFlight(identity));
  }

  // ---- nobody waits on a flight that cannot land ----

  /** How many steps a flight's goroutine has left at most. */
  function Rank(work: Work): nat {
    match work
    case Rechecking => 6
    case Calling => 5
    case Asking => 4
    case Finishing(_) => 3
    case Storing(_) => 2
    case Completing(_) => 1
    case Landed => 0
  }

  /** A flight's work only ever goes forward, and only by its own goroutine's steps. */
  lemma FlightsOnlyAdvance(w: World, w': World, step: Step, now: Time, later: Time, truth: Truth, f: nat)
    requires Next(w, w', step, now, later, truth) && f < |w.flights|
    ensures f < |w'.flights|
    ensures w'.flights[f] == w.flights[f] || Rank(w'.flights[f].work) < Rank(w.flights[f].work)
  {
  }

  /** Until it has landed, a flight always has a step of its own to take. */
  lemma FlightCanAdvance(w: World, truth: Truth, f: nat)
    requires Inv(w, truth) && f < |w.flights| && !w.flights[f].work.Landed?
    ensures exists step, w' :: Next(w, w', step, w.clock, w.clock, truth)
                               && f < |w'.flights| && Rank(w'.flights[f].work) < Rank(w.flights[f].work)
  {
    if w.flights[f].work.Storing? {
      StoringCanAdvance(w, truth, f);
    } else {
      var step := match w.flights[f].work
        case Rechecking => Rechecks(f)
        case Calling => Asks(f)
        case Asking => Answers(f, None)
        case Finishing(_) => Ends(f)
        case Completing(_) => Lands(f);
      var w' := Effect(w, step, w.clock, w.clock, truth).(clock := w.clock);
      assert Next(w, w', step, w.clock, w.clock, truth);
    }
  }

  lemma StoringCanAdvance(w: World, truth: Truth, f: nat)
    requires Inv(w, truth) && f < |w.flights| && w.flights[f].work.Storing?
    ensures exists step, w' :: Next(w, w', step, w.clock, w.clock, truth)
                               && f < |w'.flights| && Rank(w'.flights[f].work) < Rank(w.flights[f].work)
  {
    var flight := w.flights[f];
    assert FlightHonest(flight, truth);
    var shared := w.shared;
    if flight.policy.cacheTTL > 0 {
      RoomCanBeMade(w.shared.cache, flight.policy.cacheEntries, w.clock);
      var kept :| Evicted(w.shared.cache, flight.policy.cacheEntries, w.clock, kept);
      shared := w.shared.(cache := kept[KeyOf(flight) := Entry(flight.identity, flight.work.vector, w.clock + flight.policy.cacheTTL)]);
    }
    assert Stores(w.shared, shared, flight.identity, flight.text, flight.work.vector, flight.policy, w.clock, w.clock);
    var w' := SetWork(w, f, Completing(Vec(flight.work.vector))).(shared := shared, clock := w.clock);
    assert Next(w, w', Keeps(f), w.clock, w.clock, truth);
  }

  /** So a caller that is waiting in a reachable world is waiting for a flight that is
      either ready to be heard or able to move. */
  lemma NoWaiterIsStranded(worlds: seq<World>, ticks: seq<Tick>, truth: Truth, i: nat, c: nat)
    requires Run(worlds, ticks, truth) && i < |worlds|
    requires c < |worlds[i].calls| && worlds[i].calls[c].phase.Waiting?
    ensures var w := worlds[i];
            || Enabled(w, Hears(c))
            || exists step, w' :: Next(w, w', step, w.clock, w.clock, truth)
                 && w.calls[c].phase.flight < |w'.flights| && w.calls[c].phase.flight < |w.flights|
                 && Rank(w'.flights[w.calls[c].phase.flight].work) < Rank(w.flights[w.calls[c].phase.flight].work)
  {
    RunKeepsInv(worlds, ticks, truth, i);
    var w := worlds[i];
    assert CallInv(w, w.calls[c], truth);
    var f := w.calls[c].phase.flight;
    if !w.flights[f].work.Landed? {
      FlightCanAdvance(w, truth, f);
    }
  }

  // ---- what one step does, without its function ----

  /** An entry in date answers, at once when a call looks and instead of the provider when a
      flight looks again; a probe, and a policy without caching, does not look. */
  lemma AnEntryInDateAnswers(w: World, w': World, step: Step, now: Time, later: Time, truth: Truth)
    requires Next(w, w', step, now, later, truth)
    ensures step.Arrives? ==>
      w'.calls == w.calls + [Call(step.identity, step.text, step.probe, step.policy,
                                  if !step.probe && step.policy.cacheTTL > 0 then Looking else Beginning)]
    ensures step.LooksUp? ==>
      var call, key := w.calls[step.c], CacheKey(w.calls[step.c].identity, w.calls[step.c].text);
      w'.calls[step.c].phase ==
        if key in w.shared.cache && now <= w.shared.cache[key].expires then Returned(Vec(w.shared.cache[key].vector), ByCache) else Beginning
    ensures step.Rechecks? ==>
      var flight, key := w.flights[step.f], CacheKey(w.flights[step.f].identity, w.flights[step.f].text);
      w'.flights[step.f].work ==
        if !flight.probe && flight.policy.cacheTTL > 0 && key in w.shared.cache && now <= w.shared.cache[key].expires
        then Completing(Vec(w.shared.cache[key].vector)) else Calling
  {
  }

  /** An end is told to the breaker as what it was, a success leads to the cache, and what is
      kept there answers for as long as the policy says. */
  lemma AnEndIsTold(w: World, w': World, f: nat, now: Time, later: Time, truth: Truth)
    requires Next(w, w', Ends(f), now, later, truth)
    ensures var (b, b') := (State(w.shared.states, w.flights[f].identity), State(w'.shared.states, w.flights[f].identity));
            && b'.requests == b.requests + 1 && !b'.halfOpen
            && match w.flights[f].work.reply
               case Vec(vector) =>
                 b'.consecutiveFailures == 0 && b'.openUntil == None && b'.failures == b.failures && w'.flights[f].work == Storing(vector)
               case Fail(Canceled) =>
                 && b'.consecutiveFailures == b.consecutiveFailures && b'.openUntil == b.openUntil && b'.failures == b.failures
                 && w'.flights[f].work == Completing(Fail(Canceled))
               case Fail(failure) =>
                 && b'.consecutiveFailures == b.consecutiveFailures + 1 && b'.failures == b.failures + 1
                 && (b'.consecutiveFailures >= w.flights[f].policy.failureThreshold ==>
                       b'.openUntil == Some(later + w.flights[f].policy.cooldown))
                 && w'.flights[f].work == Completing(Fail(failure))
  {
  }

  lemma AnAnswerIsKept(w: World, w': World, f: nat, now: Time, later: Time, truth: Truth)
    requires Next(w, w', Keeps(f), now, later, truth)
    requires w.flights[f].policy.cacheTTL > 0 && |w.flights[f].work.vector| > 0
    ensures var key := CacheKey(w.flights[f].identity, w.flights[f].text);
            && key in w'.shared.cache && w'.shared.cache[key].vector == w.flights[f].work.vector
            && w'.shared.cache[key].expires == later + w.flights[f].policy.cacheTTL
    ensures |w'.shared.cache| <= w.flights[f].policy.cacheEntries
    ensures w'.flights[f].work == Completing(Vec(w.flights[f].work.vector))
  {
    var flight := w.flights[f];
    StoreIsBounded(w.shared, w'.shared, flight.identity, flight.text, flight.work.vector, flight.policy, now, later);
  }

  /** Two calls about one question that begin while its flight is open join that flight. */
  lemma ABeginningJoins(w: World, w': World, c: nat, now: Time, later: Time, truth: Truth)
    requires Next(w, w', Begins(c), now, later, truth) && FlightsInv(w)
    ensures var (call, key) := (w.calls[c], CacheKey(w.calls[c].identity, w.calls[c].text));
            && w'.calls[c].phase.Waiting?
            && (if key in w.shared.flights then w'.calls[c].phase.flight == w.shared.flights[key] && w'.flights == w.flights
                else w'.calls[c].phase.flight == |w.flights| && |w'.flights| == |w.flights| + 1
                     && w'.flights[|w.flights|].identity == call.identity && w'.flights[|w.flights|].text == call.text
                     && w'.flights[|w.flights|].probe == call.probe && w'.flights[|w.flights|].policy == call.policy)
  {
  }
}
