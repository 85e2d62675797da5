/** The circuit breaker as a history machine.

    A breaker is driven only by attempts to get a provider (`allow`) and by the ends of
    upstream attempts (`finish`), in whatever order concurrent callers interleave them. For
    a fixed policy its fields are shown to be exactly what a reader of that history would
    compute, and the guarantees follow from that reading. */
module EmbeddingBreaker {
  import opened Common
  import opened EmbeddingModel

  /** `attempt` names an admission: the asking that was let through, and every upstream call
      made with what it was given. `Ended` carries the two clock readings one `finish` makes. */
  datatype Event = Asked(attempt: nat, now: Time)
                 | Ended(attempt: nat, outcome: Outcome, now: Time, later: Time)
                 | Counted(hit: bool)  // a cache hit or a coalesced call, which touch only counters

  function Apply(b: Breaker, policy: Policy, e: Event): Breaker {
    match e
    case Asked(_, now) => Allow(b, now)
    case Ended(_, outcome, now, later) => Finish(b, policy, outcome, now, later)
    case Counted(hit) => if hit then b.(hits := b.hits + 1) else b.(coalesced := b.coalesced + 1)
  }

  function Fold(policy: Policy, history: seq<Event>): Breaker {
    if history == [] then NEW_BREAKER
    else Apply(Fold(policy, history[..|history| - 1]), policy, history[|history| - 1])
  }

  /** The verdict the `i`-th event was given, when it asked for a provider. */
  function VerdictAt(policy: Policy, history: seq<Event>, i: nat): Verdict
    requires i < |history| && history[i].Asked?
  {
    Judge(Fold(policy, history[..i]), history[i].now)
  }

  predicate GrantedProbe(policy: Policy, history: seq<Event>, i: nat) {
    i < |history| && history[i].Asked? && VerdictAt(policy, history, i) == Admitted(true)
  }

  // ---- what a reader of the history computes, without replaying the breaker ----

  predicate Succeeded(e: Event) { e.Ended? && e.outcome.None? }

  predicate Failed(e: Event) { e.Ended? && e.outcome.Some? && !e.outcome.value.Canceled? }

  /** Failures, cancellations not counted, since the last success. */
  function FailuresSinceSuccess(history: seq<Event>): nat {
    if history == [] then 0
    else
      var last := history[|history| - 1];
      if Succeeded(last) then 0
      else FailuresSinceSuccess(history[..|history| - 1]) + (if Failed(last) then 1 else 0)
  }

  /** The last event of a kind. */
  function LastOf(history: seq<Event>, kind: Event -> bool): Option<Event> {
    if history == [] then None
    else
      var last := history[|history| - 1];
      if kind(last) then Some(last) else LastOf(history[..|history| - 1], kind)
  }

  function FirstReading(e: Option<Event>): Option<Time> {
    if e.Some? && e.value.Ended? then Some(e.value.now) else None
  }

  /** The clock reading the last failure would open the circuit from. */
  function LastFailure(history: seq<Event>): Option<Time> {
    var e := LastOf(history, Failed);
    if e.Some? && e.value.Ended? then Some(e.value.later) else None
  }

  predicate IsEnd(e: Event) { e.Ended? }

  predicate IsHit(e: Event) { e.Counted? && e.hit }

  predicate IsCoalesced(e: Event) { e.Counted? && !e.hit }

  /** A probe was granted and no attempt has ended since. */
  ghost predicate ProbeSinceFinish(policy: Policy, history: seq<Event>) {
    exists i: nat :: GrantedProbe(policy, history, i) && forall j :: i < j < |history| ==> !history[j].Ended?
  }

  lemma GrantInPrefix(policy: Policy, history: seq<Event>, i: nat, n: nat)
    requires i < n <= |history|
    ensures GrantedProbe(policy, history, i) <==> GrantedProbe(policy, history[..n], i)
  {
    assert history[..n][..i] == history[..i];
  }

  /** The counters and stamps of a breaker, which nothing depends on. */
  lemma {:induction false} CountersAreTheHistory(policy: Policy, history: seq<Event>)
    ensures var b := Fold(policy, history);
            && b.requests == Count(history, IsEnd) && b.failures == Count(history, Failed)
            && b.hits == Count(history, IsHit) && b.coalesced == Count(history, IsCoalesced)
            && b.lastSuccess == FirstReading(LastOf(history, Succeeded))
            && b.lastFailure == FirstReading(LastOf(history, Failed))
  {
    if history != [] {
      CountersAreTheHistory(policy, history[..|history| - 1]);
    }
  }

  lemma {:induction false} OpeningIsTheHistory(policy: Policy, history: seq<Event>)
    requires policy.Normal()
    ensures var b := Fold(policy, history);
            && b.consecutiveFailures == FailuresSinceSuccess(history)
            && (b.openUntil.None? <==> FailuresSinceSuccess(history) < policy.failureThreshold)
            && (b.openUntil.Some? ==>
                  LastFailure(history).Some? && b.openUntil == Some(LastFailure(history).value + policy.cooldown))
            && (b.halfOpen ==> b.openUntil.Some?)
  {
    if history != [] {
      OpeningIsTheHistory(policy, history[..|history| - 1]);
    }
  }

  lemma SameGrants(policy: Policy, history: seq<Event>, n: nat)
    requires n <= |history|
    ensures forall i: nat :: i < n ==> (GrantedProbe(policy, history, i) <==> GrantedProbe(policy, history[..n], i))
  {
    forall i: nat | i < n ensures GrantedProbe(policy, history, i) <==> GrantedProbe(policy, history[..n], i) {
      GrantInPrefix(policy, history, i, n);
    }
  }

  lemma ProbeSinceFinishStep(policy: Policy, history: seq<Event>)
    requires history != []
    ensures var n := |history| - 1;
            ProbeSinceFinish(policy, history) <==>
              !history[n].Ended? && (GrantedProbe(policy, history, n) || ProbeSinceFinish(policy, history[..n]))
  {
    var n := |history| - 1;
    SameGrants(policy, history, n);
    if ProbeSinceFinish(policy, history[..n]) {
      var i: nat :| GrantedProbe(policy, history[..n], i) && forall j :: i < j < n ==> !history[..n][j].Ended?;
      assert GrantedProbe(policy, history, i);
      assert forall j :: i < j < n ==> history[..n][j] == history[j];
    }
    if ProbeSinceFinish(policy, history) {
      var i: nat :| GrantedProbe(policy, history, i) && forall j :: i < j < |history| ==> !history[j].Ended?;
      assert i < n ==> GrantedProbe(policy, history[..n], i);
    }
  }

  /** The fields the breaker decides by, as a function of its history. */
  lemma {:induction false} BreakerIsItsHistory(policy: Policy, history: seq<Event>)
    requires policy.Normal()
    ensures var b := Fold(policy, history);
            && b.consecutiveFailures == FailuresSinceSuccess(history)
            && (b.openUntil.None? <==> FailuresSinceSuccess(history) < policy.failureThreshold)
            && (b.openUntil.Some? ==>
                  LastFailure(history).Some? && b.openUntil == Some(LastFailure(history).value + policy.cooldown))
            && (b.halfOpen <==> ProbeSinceFinish(policy, history))
            && (b.halfOpen ==> b.openUntil.Some?)
  {
    OpeningIsTheHistory(policy, history);
    if history != [] {
      BreakerIsItsHistory(policy, history[..|history| - 1]);
      ProbeSinceFinishStep(policy, history);
    }
  }

  /** Between any two probes granted there is an attempt that ended. */
  lemma FinishBetweenProbes(policy: Policy, history: seq<Event>, i: nat, j: nat)
    requires policy.Normal()
    requires i < j && GrantedProbe(policy, history, i) && GrantedProbe(policy, history, j)
    ensures exists k :: i < k < j && history[k].Ended?
  {
    if forall k :: i < k < j ==> !history[k].Ended? {
      var before := history[..j];
      GrantInPrefix(policy, history, i, j);
      assert ProbeSinceFinish(policy, before);
      BreakerIsItsHistory(policy, before);
    }
  }

  // ---- probes that are still out ----

  predicate EndOf(e: Event, attempt: nat) { e.Ended? && e.attempt == attempt }

  /** A probe was let through and none of its own calls has ended. */
  ghost predicate Outstanding(policy: Policy, history: seq<Event>, i: nat) {
    && GrantedProbe(policy, history, i)
    && forall j :: i < j < |history| ==> !EndOf(history[j], history[i].attempt)
  }

  predicate LetThrough(policy: Policy, history: seq<Event>, i: nat) {
    i < |history| && history[i].Asked? && VerdictAt(policy, history, i).Admitted?
  }

  function Reading(e: Event): Option<Time> {
    match e
    case Asked(_, now) => Some(now)
    case Ended(_, _, now, _) => Some(now)
    case Counted(_) => None
  }

  /** A history a new runtime can have: every attempt asks once, only what was admitted ends,
      and the clock does not go back. */
  ghost predicate Possible(policy: Policy, history: seq<Event>) {
    && (forall i, j :: 0 <= i < j < |history| && history[i].Asked? && history[j].Asked? ==> history[i].attempt != history[j].attempt)
    && (forall k :: 0 <= k < |history| && history[k].Ended? ==>
          history[k].now <= history[k].later
          && exists i: nat :: i < k && LetThrough(policy, history, i) && history[i].attempt == history[k].attempt)
    && (forall i, j :: 0 <= i < j < |history| && Reading(history[i]).Some? && Reading(history[j]).Some? ==>
          Reading(history[i]).value <= Reading(history[j]).value)
  }

  /** Exactly when a second probe is let through beside one that is still out: another
      attempt has ended since, the failures are still at the threshold, the last one's
      cooldown has run out, and no probe was let through since the last end. */
  lemma SecondProbeExactlyWhen(policy: Policy, history: seq<Event>, i: nat, attempt: nat, now: Time)
    requires policy.Normal() && Outstanding(policy, history, i)
    ensures GrantedProbe(policy, history + [Asked(attempt, now)], |history|) <==>
              && (exists k :: i < k < |history| && history[k].Ended? && history[k].attempt != history[i].attempt)
              && FailuresSinceSuccess(history) >= policy.failureThreshold
              && LastFailure(history).Some? && LastFailure(history).value + policy.cooldown <= now
              && !ProbeSinceFinish(policy, history)
  {
    var n := |history|;
    assert (history + [Asked(attempt, now)])[..n] == history;
    BreakerIsItsHistory(policy, history);
    if !ProbeSinceFinish(policy, history) {
      var k :| i < k < n && history[k].Ended?;
      assert !EndOf(history[k], history[i].attempt);
    }
  }

  /** At most one probe outstanding is therefore more than the program keeps. An ordinary
      attempt is admitted, another one's failure opens the circuit, the cooldown passes and a
      probe is let through; the first attempt ends, cancelled, and a second probe is let
      through while none of the first one's calls has ended. */
  lemma TwoProbesCanBeOutstanding()
    ensures Possible(EAGER, TWO_PROBES)
    ensures VerdictAt(EAGER, TWO_PROBES, 0) == Admitted(false)
    ensures Outstanding(EAGER, TWO_PROBES, 3) && Outstanding(EAGER, TWO_PROBES, 5)
  {
    FoldsOfTwoProbes();
    TwoProbesIsPossible();
  }

  lemma TwoProbesIsPossible()
    ensures Possible(EAGER, TWO_PROBES)
  {
    FoldsOfTwoProbes();
    assert LetThrough(EAGER, TWO_PROBES, 0) && TWO_PROBES[0].attempt == 0;
    assert LetThrough(EAGER, TWO_PROBES, 1) && TWO_PROBES[1].attempt == 1;
  }

  const EAGER := Policy(1, 10, 0, 1)

  const TWO_PROBES := [Asked(0, 0), Asked(1, 0), Ended(1, Some(EmptyVector), 1, 1), Asked(2, 11),
                       Ended(0, Some(Canceled), 12, 12), Asked(3, 13)]

  /** The breaker before each of the askings. */
  lemma FoldsOfTwoProbes()
    ensures Fold(EAGER, TWO_PROBES[..0]) == NEW_BREAKER && Fold(EAGER, TWO_PROBES[..1]) == NEW_BREAKER
    ensures var b := Fold(EAGER, TWO_PROBES[..3]); b.openUntil == Some(11) && !b.halfOpen
    ensures var b := Fold(EAGER, TWO_PROBES[..5]); b.openUntil == Some(11) && !b.halfOpen
  {
    var h := TWO_PROBES;
    FoldOneMore(EAGER, h, 0);
    FoldOneMore(EAGER, h, 1);
    FoldOneMore(EAGER, h, 2);
    FoldOneMore(EAGER, h, 3);
    FoldOneMore(EAGER, h, 4);
  }

  lemma FoldOneMore(policy: Policy, history: seq<Event>, n: nat)
    requires n < |history|
    ensures Fold(policy, history[..n + 1]) == Apply(Fold(policy, history[..n]), policy, history[n])
  {
    assert history[..n + 1][..n] == history[..n];
  }

  /** Refused exactly when there have been enough failures since the last success, and
      either the cooldown of the last one has not run out or a probe is already out. */
  lemma RefusedExactlyWhen(policy: Policy, history: seq<Event>, now: Time)
    requires policy.Normal()
    ensures Judge(Fold(policy, history), now).Rejected? <==>
              && FailuresSinceSuccess(history) >= policy.failureThreshold
              && LastFailure(history).Some?
              && (LastFailure(history).value + policy.cooldown > now || ProbeSinceFinish(policy, history))
    ensures Judge(Fold(policy, history), now).Rejected? ==>
      Judge(Fold(policy, history), now).retryAt ==
        if LastFailure(history).value + policy.cooldown > now then LastFailure(history).value + policy.cooldown else now + 1_000_000_000
    ensures Judge(Fold(policy, history), now).Admitted? ==>
      (Judge(Fold(policy, history), now).probe <==> FailuresSinceSuccess(history) >= policy.failureThreshold)
  {
    BreakerIsItsHistory(policy, history);
  }

  /** What the health page shows agrees with what a caller would be told at that instant. */
  lemma SnapshotTellsTheVerdict(policy: Policy, history: seq<Event>, now: Time)
    requires policy.Normal()
    ensures var b := Fold(policy, history);
            && ((StatusAt(b, now) == Open || StatusAt(b, now) == HalfOpen) <==> Judge(b, now).Rejected?)
            && (StatusAt(b, now) == Open ==> Judge(b, now) == Rejected(b.openUntil.value))
            && (StatusAt(b, now) == HalfOpen <==>
                  ProbeSinceFinish(policy, history) && LastFailure(history).Some? && LastFailure(history).value + policy.cooldown <= now)
            && (StatusAt(b, now) == Idle <==> Judge(b, now).Admitted? && Count(history, IsEnd) == 0)
  {
    BreakerIsItsHistory(policy, history);
    CountersAreTheHistory(policy, history);
  }

  // ---- many identities behind one lock ----

  /** The events of one identity, in order. */
  function Project(log: seq<(Identity, Event)>, identity: Identity): seq<Event> {
    if log == [] then []
    else
      var rest := Project(log[..|log| - 1], identity);
      if log[|log| - 1].0 == identity then rest + [log[|log| - 1].1] else rest
  }

  function Replay(policy: Policy, log: seq<(Identity, Event)>): map<Identity, Breaker> {
    if log == [] then map[]
    else
      var states := Replay(policy, log[..|log| - 1]);
      var (identity, e) := log[|log| - 1];
      states[identity := Apply(State(states, identity), policy, e)]
  }

  /** However callers of different endpoints interleave, each endpoint's breaker is the fold
      of that endpoint's own events: one endpoint's outage never trips another's circuit. */
  lemma {:induction false} BreakersAreIndependent(policy: Policy, log: seq<(Identity, Event)>, identity: Identity)
    ensures State(Replay(policy, log), identity) == Fold(policy, Project(log, identity))
  {
    if log != [] {
      var before := log[..|log| - 1];
      BreakersAreIndependent(policy, before, identity);
      var p := Project(before, identity);
      assert (p + [log[|log| - 1].1])[..|p|] == p;
    }
  }
}
