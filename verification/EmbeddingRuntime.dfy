/** The runtime object itself: maps reassigned under one mutex, vectors in arrays that are
    copied on the way in and on the way out.

    Each method is one locked section and is proved against its function or relation in
    EmbeddingModel. `log` keeps what was done under the lock, by which call, and the breakers
    are what it comes to; a longer operation is proved against the entries it leaves there.
    `Yield` stands for the moments between two locked sections of one
    caller, when any number of other callers' sections may run: a method that uses it may
    rely afterwards on nothing but the invariant. */
module EmbeddingRuntime {
  import opened Common
  import opened EmbeddingModel
  import B = EmbeddingBreaker

  // ---- what was done under the lock ----

  /** `who` is the call that did it. */
  datatype Happening =
    | Asking(who: nat, identity: Identity, now: Time)
    | Ending(who: nat, identity: Identity, policy: Policy, outcome: Outcome, now: Time, later: Time)
    | CacheHit(who: nat, identity: Identity)
    | Joining(who: nat, identity: Identity)
    | Storing(who: nat, identity: Identity, policy: Policy, text: Text, vector: Vector)
    | Dropping(identity: Identity)  // a stale entry that somebody came upon: no call's own doing

  function Moved(b: Breaker, e: Happening): Breaker {
    match e
    case Asking(_, _, now) => Allow(b, now)
    case Ending(_, _, policy, outcome, now, later) => Finish(b, policy, outcome, now, later)
    case CacheHit(_, _) => b.(hits := b.hits + 1)
    case Joining(_, _) => b.(coalesced := b.coalesced + 1)
    case _ => b
  }

  /** Of the cache only. */
  predicate OfTheCache(e: Happening) {
    e.Storing? || e.Dropping?
  }

  /** The breakers a log comes to. */
  function Replayed(log: seq<Happening>): map<Identity, Breaker> {
    if log == [] then map[]
    else
      var before, e := Replayed(log[..|log| - 1]), log[|log| - 1];
      if OfTheCache(e) then before else before[e.identity := Moved(State(before, e.identity), e)]
  }

  lemma ReplayedOneMore(log: seq<Happening>, e: Happening)
    ensures Replayed(log + [e]) ==
      if OfTheCache(e) then Replayed(log) else Replayed(log)[e.identity := Moved(State(Replayed(log), e.identity), e)]
  {
    assert (log + [e])[..|log|] == log;
  }

  /** The entries of one call. */
  function Mine(log: seq<Happening>, who: nat): seq<Happening> {
    if log == [] then []
    else
      var e := log[|log| - 1];
      Mine(log[..|log| - 1], who) + (if !e.Dropping? && e.who == who then [e] else [])
  }

  lemma {:induction false} MineBoth(a: seq<Happening>, b: seq<Happening>, who: nat)
    ensures Mine(a + b, who) == Mine(a, who) + Mine(b, who)
  {
    if b == [] {
      assert a + b == a;
    } else {
      var n := |b| - 1;
      assert (a + b)[..|a + b| - 1] == a + b[..n];
      MineBoth(a, b[..n], who);
    }
  }

  /** The log went on, and of what was added just `mine` is the call's own, in this order. */
  ghost predicate Grew(before: seq<Happening>, after: seq<Happening>, who: nat, mine: seq<Happening>) {
    before <= after && Mine(after[|before|..], who) == mine
  }

  lemma GrewNot(log: seq<Happening>, who: nat)
    ensures Grew(log, log, who, [])
  {
  }

  lemma GrewBy(log: seq<Happening>, e: Happening, who: nat)
    ensures Grew(log, log + [e], who, if !e.Dropping? && e.who == who then [e] else [])
  {
    assert (log + [e])[|log|..] == [e];
    assert [e][..0] == [];
  }

  /** What was stored last, if nothing has been done since, is in the cache. */
  predicate LastIsKept(log: seq<Happening>, cache: map<Key, Entry>) {
    log != [] && log[|log| - 1].Storing? ==> Keeps(log[|log| - 1], cache)
  }

  predicate Keeps(e: Happening, cache: map<Key, Entry>)
    requires e.Storing?
  {
    e.policy.cacheTTL > 0 && |e.vector| > 0 ==>
      var key := CacheKey(e.identity, e.text); key in cache && cache[key].vector == e.vector && cache[key].identity == e.identity
  }

  lemma GrewThen(a: seq<Happening>, b: seq<Happening>, c: seq<Happening>, who: nat, first: seq<Happening>, second: seq<Happening>)
    requires Grew(a, b, who, first) && Grew(b, c, who, second)
    ensures Grew(a, c, who, first + second)
  {
    assert c[|a|..] == b[|a|..] + c[|b|..];
    MineBoth(b[|a|..], c[|b|..], who);
  }

  /** Answers that were kept, one for each question. */
  function Storings(who: nat, identity: Identity, policy: Policy, asked: seq<Text>, truth: (Identity, Text) -> Vector): seq<Happening> {
    seq(|asked|, k requires 0 <= k < |asked| => Storing(who, identity, policy, asked[k], truth(identity, asked[k])))
  }

  lemma StoringsSplit(who: nat, identity: Identity, policy: Policy, asked: seq<Text>, k: nat, truth: (Identity, Text) -> Vector)
    requires k < |asked|
    ensures Storings(who, identity, policy, asked[..k + 1], truth)
            == Storings(who, identity, policy, asked[..k], truth) + [Storing(who, identity, policy, asked[k], truth(identity, asked[k]))]
  {
  }

  lemma StoringsOneMore(start: seq<Happening>, before: seq<Happening>, after: seq<Happening>, who: nat, identity: Identity, policy: Policy,
                        asked: seq<Text>, k: nat, truth: (Identity, Text) -> Vector)
    requires k < |asked| && Grew(start, before, who, Storings(who, identity, policy, asked[..k], truth))
    requires Grew(before, after, who, [Storing(who, identity, policy, asked[k], truth(identity, asked[k]))])
    ensures Grew(start, after, who, Storings(who, identity, policy, asked[..k + 1], truth))
  {
    var front, last := Storings(who, identity, policy, asked[..k], truth), Storing(who, identity, policy, asked[k], truth(identity, asked[k]));
    GrewThen(start, before, after, who, front, [last]);
    StoringsSplit(who, identity, policy, asked, k, truth);
  }

  function CacheHits(who: nat, identity: Identity, n: nat): seq<Happening> {
    seq(n, _ => CacheHit(who, identity))
  }

  /** What a batch leaves in the log: its hits, then how the request for the others ended, then
      the answers it kept. */
  function BatchTrail(who: nat, identity: Identity, policy: Policy, hits: nat, asked: seq<Text>, outcome: Outcome, now: Time, later: Time,
                      truth: (Identity, Text) -> Vector): seq<Happening>
  {
    CacheHits(who, identity, hits)
    + if asked == [] then []
      else [Ending(who, identity, policy, outcome, now, later)] + if outcome.Some? then [] else Storings(who, identity, policy, asked, truth)
  }

  /** So one ending if anything was asked for, and none if not; and after it, if all went well,
      every answer is stored, and if not, nothing is. */
  lemma WhatABatchLeaves(who: nat, identity: Identity, policy: Policy, hits: nat, asked: seq<Text>, outcome: Outcome, now: Time, later: Time,
                         truth: (Identity, Text) -> Vector)
    ensures var t := BatchTrail(who, identity, policy, hits, asked, outcome, now, later, truth);
            && (forall i :: 0 <= i < hits ==> i < |t| && t[i] == CacheHit(who, identity))
            && (|asked| == 0 ==> |t| == hits)
            && (|asked| > 0 ==> |t| > hits && t[hits] == Ending(who, identity, policy, outcome, now, later))
            && (|asked| > 0 && outcome.Some? ==> |t| == hits + 1)
            && (|asked| > 0 && outcome.None? ==>
                  && |t| == hits + 1 + |asked|
                  && forall k :: 0 <= k < |asked| ==> t[hits + 1 + k] == Storing(who, identity, policy, asked[k], truth(identity, asked[k])))
  {
  }

  lemma TrailOfFailure(start: seq<Happening>, looked: seq<Happening>, finished: seq<Happening>, who: nat, identity: Identity, policy: Policy,
                       hits: nat, asked: seq<Text>, outcome: Outcome, now: Time, later: Time, truth: (Identity, Text) -> Vector)
    requires asked != [] && outcome.Some? && Grew(start, looked, who, CacheHits(who, identity, hits))
    requires Grew(looked, finished, who, [Ending(who, identity, policy, outcome, now, later)])
    ensures Grew(start, finished, who, BatchTrail(who, identity, policy, hits, asked, outcome, now, later, truth))
  {
    var ending := [Ending(who, identity, policy, outcome, now, later)];
    GrewThen(start, looked, finished, who, CacheHits(who, identity, hits), ending);
    assert ending + [] == ending;
  }

  lemma TrailOfSuccess(start: seq<Happening>, looked: seq<Happening>, finished: seq<Happening>, stored: seq<Happening>, who: nat,
                       identity: Identity, policy: Policy, hits: nat, asked: seq<Text>, now: Time, later: Time,
                       truth: (Identity, Text) -> Vector)
    requires asked != [] && Grew(start, looked, who, CacheHits(who, identity, hits))
    requires Grew(looked, finished, who, [Ending(who, identity, policy, None, now, later)])
    requires Grew(finished, stored, who, Storings(who, identity, policy, asked, truth))
    ensures Grew(start, stored, who, BatchTrail(who, identity, policy, hits, asked, None, now, later, truth))
  {
    var front, ending, back := CacheHits(who, identity, hits), [Ending(who, identity, policy, None, now, later)], Storings(who, identity, policy, asked, truth);
    GrewThen(start, looked, finished, who, front, ending);
    GrewThen(start, finished, stored, who, front + ending, back);
    assert front + ending + back == front + (ending + back);
  }

  /** What one upstream request leaves there. */
  function CallTrail(who: nat, identity: Identity, policy: Policy, text: Text, outcome: Outcome, now: Time, later: Time,
                     truth: (Identity, Text) -> Vector): seq<Happening>
  {
    [Ending(who, identity, policy, outcome, now, later)]
    + if outcome.Some? then [] else [Storing(who, identity, policy, text, truth(identity, text))]
  }

  /** And one flight. */
  function FlightTrail(upstream: bool, who: nat, identity: Identity, policy: Policy, text: Text, outcome: Outcome, now: Time, later: Time,
                       truth: (Identity, Text) -> Vector): seq<Happening>
  {
    if upstream then CallTrail(who, identity, policy, text, outcome, now, later, truth) else [CacheHit(who, identity)]
  }

  lemma WhatAFlightLeaves(upstream: bool, who: nat, identity: Identity, policy: Policy, text: Text, outcome: Outcome, now: Time, later: Time,
                          truth: (Identity, Text) -> Vector)
    ensures var t := FlightTrail(upstream, who, identity, policy, text, outcome, now, later, truth);
            && |t| >= 1
            && (!upstream ==> |t| == 1 && t[0] == CacheHit(who, identity))
            && (upstream ==> t[0] == Ending(who, identity, policy, outcome, now, later))
            && (upstream && outcome.Some? ==> |t| == 1)
            && (upstream && outcome.None? ==> |t| == 2 && t[1] == Storing(who, identity, policy, text, truth(identity, text)))
  {
  }

  /** How a single request ended: the provider's error, or an empty answer, or well. */
  function OneOutcome(answer: Result<Vector, Failure>): Outcome {
    if answer.Err? then Some(answer.error) else if answer.value == [] then Some(EmptyVector) else None
  }

  /** The same log as the breaker's own history of one identity. */
  function EventsOf(e: Happening): seq<B.Event> {
    match e
    case Asking(who, _, now) => [B.Asked(who, now)]
    case Ending(who, _, _, outcome, now, later) => [B.Ended(who, outcome, now, later)]
    case CacheHit(_, _) => [B.Counted(true)]
    case Joining(_, _) => [B.Counted(false)]
    case _ => []
  }

  function HistoryOf(log: seq<Happening>, identity: Identity): seq<B.Event> {
    if log == [] then []
    else
      var e := log[|log| - 1];
      HistoryOf(log[..|log| - 1], identity) + (if e.identity == identity then EventsOf(e) else [])
  }

  predicate UnderOnePolicy(log: seq<Happening>, identity: Identity, policy: Policy) {
    forall i :: 0 <= i < |log| && log[i].Ending? && log[i].identity == identity ==> log[i].policy == policy
  }

  lemma MovedIsApplied(b: Breaker, e: Happening, policy: Policy, history: seq<B.Event>)
    requires b == B.Fold(policy, history) && (e.Ending? ==> e.policy == policy)
    ensures Moved(b, e) == B.Fold(policy, history + EventsOf(e))
  {
    var more := history + EventsOf(e);
    if OfTheCache(e) {
      assert more == history;
    } else {
      assert more[..|more| - 1] == history;
    }
  }

  lemma {:induction false} LogIsHistory(log: seq<Happening>, identity: Identity, policy: Policy)
    requires UnderOnePolicy(log, identity, policy)
    ensures State(Replayed(log), identity) == B.Fold(policy, HistoryOf(log, identity))
  {
    if log != [] {
      var front, e := log[..|log| - 1], log[|log| - 1];
      LogIsHistory(front, identity, policy);
      if e.identity == identity {
        MovedIsApplied(State(Replayed(front), identity), e, policy, HistoryOf(front, identity));
      } else {
        assert HistoryOf(log, identity) == HistoryOf(front, identity);
      }
    }
  }

  /** Whoever asks next is refused exactly when the log says so: enough failures since the
      last success, and the cooldown of the last one still runs or a probe is out. */
  lemma RefusedByTheLog(log: seq<Happening>, identity: Identity, policy: Policy, now: Time)
    requires policy.Normal() && UnderOnePolicy(log, identity, policy)
    ensures var h := HistoryOf(log, identity);
            Judge(State(Replayed(log), identity), now).Rejected? <==>
              && B.FailuresSinceSuccess(h) >= policy.failureThreshold
              && B.LastFailure(h).Some?
              && (B.LastFailure(h).value + policy.cooldown > now || B.ProbeSinceFinish(policy, h))
  {
    LogIsHistory(log, identity, policy);
    B.RefusedExactlyWhen(policy, HistoryOf(log, identity), now);
  }

  // ---- the object ----

  datatype CachedVector = CachedVector(identity: Identity, vector: array<Float32>, expires: Time)

  class Flight {
    var done: bool
    var vector: array<Float32>
    var failure: Option<Failure>

    constructor ()
      ensures !done
    {
      done := false;
      failure := None;
      vector := new Float32[0];
    }
  }

  /** `append([]float32(nil), vector...)`. */
  method Copy(vector: array<Float32>) returns (copy: array<Float32>)
    ensures fresh(copy) && copy[..] == vector[..]
  {
    copy := new Float32[vector.Length];
    var i := 0;
    while i < vector.Length
      invariant 0 <= i <= vector.Length
      invariant copy[..i] == vector[..i]
    {
      copy[i] := vector[i];
      i := i + 1;
    }
  }

  class Runtime {
    var states: map<Identity, Breaker>
    var cache: map<Key, CachedVector>
    var flights: map<Key, Flight>

    /** What the cache holds, with each array's contents in place of the array. */
    ghost var contents: map<Key, Entry>

    ghost var log: seq<Happening>

    constructor ()
      ensures Valid() && Open() && Tied() && log == []
      ensures View() == Shared(map[], map[], map[])
    {
      states, cache, flights, contents, log := map[], map[], map[], map[], [];
    }

    /** The breakers are what was done, and so is the cache as far as the last of it goes. */
    ghost predicate Tied()
      reads this`states, this`log, this`contents
    {
      states == Replayed(log) && LastIsKept(log, contents)
    }

    /** Keep what was just done. */
    ghost method Note(e: Happening)
      requires !e.Dropping? && (e.Storing? ==> Keeps(e, contents))
      requires states == if OfTheCache(e) then Replayed(log) else Replayed(log)[e.identity := Moved(State(Replayed(log), e.identity), e)]
      modifies this`log
      ensures Tied() && log == old(log) + [e] && Grew(old(log), log, e.who, [e])
    {
      ReplayedOneMore(log, e);
      GrewBy(log, e, e.who);
      log := log + [e];
    }

    ghost method NoteDrop(identity: Identity, who: nat)
      requires states == Replayed(log)
      modifies this`log
      ensures Tied() && Grew(old(log), log, who, [])
    {
      ReplayedOneMore(log, Dropping(identity));
      GrewBy(log, Dropping(identity), who);
      log := log + [Dropping(identity)];
    }

    ghost predicate Valid()
      reads this`cache, this`contents, Owned()
    {
      && cache.Keys == contents.Keys
      && forall k :: k in cache ==> contents[k] == Entry(cache[k].identity, cache[k].vector[..], cache[k].expires)
    }

    ghost function View(): Shared<Flight>
      reads this
    {
      Shared(states, contents, flights)
    }

    /** The arrays the cache holds. */
    ghost function Owned(): set<object>
      reads this`cache
    {
      set k | k in cache :: cache[k].vector as object
    }

    method Allow(identity: Identity, now: Time, ghost who: nat) returns (verdict: Verdict)
      requires Tied()
      modifies this`states, this`log
      ensures Tied() && Grew(old(log), log, who, [Asking(who, identity, now)])
      ensures verdict == Judge(old(State(states, identity)), now)
      ensures View() == AllowAt(old(View()), identity, now)
    {
      var b := State(states, identity);
      if b.openUntil.Some? && b.openUntil.value > now {
        verdict := Rejected(b.openUntil.value);
      } else if b.openUntil.Some? {
        if b.halfOpen {
          verdict := Rejected(now + SECOND);
        } else {
          b := b.(halfOpen := true);
          verdict := Admitted(true);
        }
      } else {
        verdict := Admitted(false);
      }
      states := states[identity := b];
      Note(Asking(who, identity, now));
    }

    method Finish(identity: Identity, policy: Policy, outcome: Outcome, now: Time, later: Time, ghost who: nat)
      requires Tied()
      modifies this`states, this`log
      ensures Tied() && Grew(old(log), log, who, [Ending(who, identity, policy, outcome, now, later)])
      ensures View() == FinishAt(old(View()), identity, policy, outcome, now, later)
    {
      var b := State(states, identity);
      b := b.(requests := b.requests + 1);
      b := b.(halfOpen := false);
      if outcome.None? {
        b := b.(consecutiveFailures := 0);
        b := b.(openUntil := None);
        b := b.(lastSuccess := Some(now));
      } else if !outcome.value.Canceled? {
        b := b.(failures := b.failures + 1);
        b := b.(consecutiveFailures := b.consecutiveFailures + 1);
        b := b.(lastFailure := Some(now));
        if b.consecutiveFailures >= policy.failureThreshold {
          b := b.(openUntil := Some(later + policy.cooldown));
        }
      }
      assert b == EmbeddingModel.Finish(State(states, identity), policy, outcome, now, later);
      states := states[identity := b];
      Note(Ending(who, identity, policy, outcome, now, later));
    }

    /** Ask for a provider: `built` is how the factory would answer, and it is consulted
        only when the breaker lets the attempt through. */
    method Guard(identity: Identity, policy: Policy, built: Outcome, now: Time, soon: Time, later: Time, ghost who: nat)
      returns (provider: Result<(Policy, bool), Outcome>)
      requires Tied()
      modifies this`states, this`log
      ensures Tied()
      ensures Grew(old(log), log, who, [Asking(who, identity, now)]
        + if provider.Err? && provider.error.Some? then [Ending(who, identity, policy.Normalized(), built, soon, later)] else [])
      ensures var verdict := Judge(old(State(states, identity)), now);
              var asked := AllowAt(old(View()), identity, now);
              if verdict.Rejected? then provider == Err(None) && View() == asked
              else if built.None? then provider == Ok((policy.Normalized(), verdict.probe)) && View() == asked
              else provider == Err(built) && View() == FinishAt(asked, identity, policy.Normalized(), built, soon, later)
    {
      var normal := policy.Normalized();
      var verdict := Allow(identity, now, who);
      ghost var asked := log;
      GrewNot(log, who);
      if verdict.Rejected? {
        return Err(None);
      }
      if built.Some? {
        Finish(identity, normal, built, soon, later, who);
        GrewThen(old(log), asked, log, who, [Asking(who, identity, now)], [Ending(who, identity, normal, built, soon, later)]);
        return Err(built);
      }
      return Ok((normal, verdict.probe));
    }

    method CountHit(identity: Identity, ghost who: nat)
      requires Tied()
      modifies this`states, this`log
      ensures Tied() && Grew(old(log), log, who, [CacheHit(who, identity)])
      ensures states == old(states)[identity := State(old(states), identity).(hits := State(old(states), identity).hits + 1)]
    {
      var b := State(states, identity);
      states := states[identity := b.(hits := b.hits + 1)];
      Note(CacheHit(who, identity));
    }

    /** `cached`: the array handed out is new, so its owner may write to it freely. */
    method Cached(identity: Identity, text: Text, now: Time, ghost who: nat) returns (answer: Option<array<Float32>>)
      requires Valid() && Tied()
      modifies this`cache, this`contents, this`states, this`log
      ensures Valid() && Tied()
      ensures Grew(old(log), log, who, if answer.Some? then [CacheHit(who, identity)] else [])
      ensures View() == Look(old(View()), identity, text, now).0
      ensures answer.Some? <==> Look(old(View()), identity, text, now).1.Some?
      ensures answer.Some? ==> fresh(answer.value) && Some(answer.value[..]) == Look(old(View()), identity, text, now).1
      ensures Owned() <= old(Owned())
    {
      var key := CacheKey(identity, text);
      if key !in cache || now > cache[key].expires {
        Forget(identity, key, who);
        return None;
      }
      var copy := TakeHit(identity, key, who);
      return Some(copy);
    }

    method Forget(ghost identity: Identity, key: Key, ghost who: nat)
      requires Valid() && Tied()
      modifies this`cache, this`contents, this`log
      ensures Valid() && Tied() && Grew(old(log), log, who, [])
      ensures View() == old(View()).(cache := old(contents) - {key})
      ensures Owned() <= old(Owned())
    {
      Drop(key);
      NoteDrop(identity, who);
    }

    method TakeHit(identity: Identity, key: Key, ghost who: nat) returns (copy: array<Float32>)
      requires Valid() && Tied() && key in cache
      modifies this`states, this`log
      ensures Valid() && Tied() && Grew(old(log), log, who, [CacheHit(who, identity)])
      ensures View() == old(View()).(states := old(states)[identity := State(old(states), identity).(hits := State(old(states), identity).hits + 1)])
      ensures fresh(copy) && copy[..] == contents[key].vector
    {
      CountHit(identity, who);
      copy := Copy(cache[key].vector);
    }

    method Drop(key: Key)
      requires Valid()
      modifies this`cache, this`contents
      ensures Valid()
      ensures cache == old(cache) - {key} && contents == old(contents) - {key}
      ensures Owned() <= old(Owned())
      ensures key in old(cache) ==> |cache| == old(|cache|) - 1
    {
      assert (cache - {key}).Keys == cache.Keys - {key};
      cache, contents := cache - {key}, contents - {key};
    }

    /** `storeVector`: what is kept is a new copy, so a caller still holding `vector` cannot
        reach it. Which live entries make room is left open, as map order leaves it. */
    method StoreVector(identity: Identity, text: Text, vector: array<Float32>, policy: Policy, now: Time, later: Time, ghost who: nat)
      requires Valid() && policy.Normal() && Tied()
      modifies this`cache, this`contents, this`log
      ensures Valid() && Tied()
      ensures Grew(old(log), log, who, [Storing(who, identity, policy, text, vector[..])])
      ensures Stores(old(View()), View(), identity, text, vector[..], policy, now, later)
      ensures fresh(Owned() - old(Owned()))
    {
      KeepVector(identity, text, vector, policy, now, later);
      Note(Storing(who, identity, policy, text, vector[..]));
    }

    method KeepVector(identity: Identity, text: Text, vector: array<Float32>, policy: Policy, now: Time, later: Time)
      requires Valid() && policy.Normal()
      modifies this`cache, this`contents
      ensures Valid()
      ensures Stores(old(View()), View(), identity, text, vector[..], policy, now, later)
      ensures fresh(Owned() - old(Owned()))
    {
      if policy.cacheTTL <= 0 || vector.Length == 0 {
        return;
      }
      MakeRoom(policy.cacheEntries, now);
      ghost var kept := contents;
      var copy := Copy(vector);
      var key := CacheKey(identity, text);
      Put(key, CachedVector(identity, copy, later + policy.cacheTTL));
      assert Evicted(old(contents), policy.cacheEntries, now, kept);
    }

    method Put(key: Key, entry: CachedVector)
      requires Valid()
      modifies this`cache, this`contents
      ensures Valid()
      ensures contents == old(contents)[key := Entry(entry.identity, entry.vector[..], entry.expires)]
      ensures Owned() <= old(Owned()) + {entry.vector}
    {
      cache := cache[key := entry];
      contents := contents[key := Entry(entry.identity, entry.vector[..], entry.expires)];
    }

    /** The eviction loops: first every expired entry, then any entry at all, one by one,
        until there is room. */
    method MakeRoom(room: nat, now: Time)
      requires Valid() && room >= 1
      modifies this`cache, this`contents
      ensures Valid()
      ensures Evicted(old(contents), room, now, contents)
      ensures Owned() <= old(Owned())
    {
      if |cache| >= room {
        DropExpired(now);
        ghost var live := contents;
        while |cache| >= room
          invariant Valid() && Owned() <= old(Owned())
          invariant Submap(contents, live)
          invariant |live| >= room ==> |cache| >= room - 1
          invariant |live| < room ==> contents == live
          decreases |cache|
        {
          var key :| key in cache;
          Drop(key);
        }
      }
      assert |contents.Keys| == |cache.Keys|;
    }

    method DropExpired(now: Time)
      requires Valid()
      modifies this`cache, this`contents
      ensures Valid()
      ensures contents == Unexpired(old(contents), now)
      ensures Owned() <= old(Owned())
    {
      var pending := cache.Keys;
      while pending != {}
        invariant Valid() && Owned() <= old(Owned())
        invariant pending <= cache.Keys
        invariant Submap(contents, old(contents))
        invariant forall k :: k in old(contents) && k !in contents ==> now > old(contents)[k].expires
        invariant forall k :: k in contents && k !in pending ==> !(now > contents[k].expires)
        decreases pending
      {
        var key :| key in pending;
        if now > cache[key].expires {
          Drop(key);
        }
        pending := pending - {key};
      }
    }

    /** The flights on the map are the ones whose channel is not closed, each under one key. */
    ghost predicate Open()
      reads this`flights, flights.Values
    {
      && (forall k :: k in flights ==> !flights[k].done)
      && (forall k, k' :: k in flights && k' in flights && flights[k] == flights[k'] ==> k == k')
    }

    method CountJoin(identity: Identity, ghost who: nat)
      requires Tied()
      modifies this`states, this`log
      ensures Tied() && Grew(old(log), log, who, [Joining(who, identity)])
      ensures states == old(states)[identity := State(old(states), identity).(coalesced := State(old(states), identity).coalesced + 1)]
    {
      var b := State(states, identity);
      states := states[identity := b.(coalesced := b.coalesced + 1)];
      Note(Joining(who, identity));
    }

    method BeginFlight(identity: Identity, text: Text, ghost who: nat) returns (flight: Flight, leader: bool)
      requires Open() && Tied()
      modifies this`states, this`flights, this`log
      ensures Open() && Tied()
      ensures Grew(old(log), log, who, if leader then [] else [Joining(who, identity)])
      ensures leader ==> fresh(flight)
      ensures (View(), flight, leader) == Begin(old(View()), identity, text, flight)
    {
      var key := CacheKey(identity, text);
      if key in flights {
        CountJoin(identity, who);
        return flights[key], false;
      }
      flight := new Flight();
      flights := flights[key := flight];
      GrewNot(log, who);
      return flight, true;
    }

    /** Closing the channel twice would panic; `Open` is what rules it out, and the protocol
        shows every run keeps it. The flight keeps a copy of its own. */
    method CompleteFlight(key: Key, flight: Flight, vector: array<Float32>, failure: Option<Failure>)
      requires Open() && key in flights && flights[key] == flight
      modifies this`flights, flight
      ensures Open()
      ensures View() == Land(old(View()), key)
      ensures flight.done && flight.vector[..] == vector[..] && flight.failure == failure
      ensures fresh(flight.vector)
    {
      var copy := Copy(vector);
      flight.vector := copy;
      flight.failure := failure;
      flights := flights - {key};
      flight.done := true;
    }

    // ---- a batch, with other callers running in between ----

    /** The cache tells the truth, its arrays agree with what it is said to hold, and it and the
        breakers are what was done. */
    ghost predicate Trusted(truth: (Identity, Text) -> Vector)
      reads this`cache, this`contents, this`states, this`log, Owned()
    {
      Valid() && Faithful(contents, truth) && Tied()
    }

    /** Other callers may run any number of locked sections here. Each of them keeps the
        cache faithful and puts only arrays of its own making into it; none writes to an
        array, and what they do they do in their own name. Nothing else is known afterwards. */
    method Yield(ghost truth: (Identity, Text) -> Vector, ghost who: nat)
      requires Trusted(truth)
      modifies this
      ensures Trusted(truth) && Grew(old(log), log, who, [])
      ensures fresh(Owned() - old(Owned()))
    {
      GrewNot(log, who);
    }

    /** A vector in its place: the provider's answer for that input, in an array of the
        caller's own. */
    ghost predicate Placed(v: array?<Float32>, identity: Identity, text: Text, truth: (Identity, Text) -> Vector)
      reads this`cache, v
    {
      v != null && v.Length > 0 && v[..] == truth(identity, text) && v !in Owned()
    }

    /** A look in the cache, unless it is a probe's: a hit is the provider's answer. */
    method LookTruly(identity: Identity, policy: Policy, probe: bool, text: Text, now: Time, ghost truth: (Identity, Text) -> Vector,
                     ghost who: nat)
      returns (hit: array?<Float32>)
      requires NulFree(identity) && Trusted(truth)
      modifies this`cache, this`contents, this`states, this`log
      ensures Trusted(truth) && Owned() <= old(Owned())
      ensures hit != null <==> !probe && policy.cacheTTL > 0 && Hit(old(contents), CacheKey(identity, text), now)
      ensures Grew(old(log), log, who, if hit != null then [CacheHit(who, identity)] else [])
      ensures hit != null ==> fresh(hit) && hit.Length > 0 && hit[..] == truth(identity, text)
    {
      hit := null;
      GrewNot(log, who);
      if !probe && policy.cacheTTL > 0 {
        LookIsFaithful(View(), identity, text, now, truth);
        var answer := Cached(identity, text, now, who);
        if answer.Some? {
          hit := answer.value;
        }
      }
    }

    method LookupOne(identity: Identity, policy: Policy, probe: bool, text: Text, now: Time,
                     ghost truth: (Identity, Text) -> Vector, ghost who: nat)
      returns (hit: array?<Float32>)
      requires NulFree(identity) && Trusted(truth)
      modifies this
      ensures Trusted(truth)
      ensures hit != null ==> fresh(hit) && Placed(hit, identity, text, truth)
      ensures hit != null <==> !probe && policy.cacheTTL > 0 && Hit(old(contents), CacheKey(identity, text), now)
      ensures Grew(old(log), log, who, if hit != null then [CacheHit(who, identity)] else [])
      ensures fresh(Owned() - old(Owned()))
    {
      hit := LookTruly(identity, policy, probe, text, now, truth, who);
      ghost var looked := log;
      Yield(truth, who);
      GrewThen(old(log), looked, log, who, if hit != null then [CacheHit(who, identity)] else [], []);
    }

    /** The inputs looked up so far that have a vector have it in place. */
    ghost predicate Hits(vectors: seq<array?<Float32>>, identity: Identity, texts: seq<Text>, truth: (Identity, Text) -> Vector)
      reads this`cache, set i | 0 <= i < |vectors| && vectors[i] != null :: vectors[i]
    {
      |vectors| <= |texts|
      && forall i :: 0 <= i < |vectors| && vectors[i] != null ==> Placed(vectors[i], identity, texts[i], truth)
    }

    method LookupNext(identity: Identity, policy: Policy, probe: bool, texts: seq<Text>, now: Time,
                      vectors: seq<array?<Float32>>, ghost truth: (Identity, Text) -> Vector, ghost who: nat)
      returns (hit: array?<Float32>)
      requires NulFree(identity) && Trusted(truth) && Hits(vectors, identity, texts, truth) && |vectors| < |texts|
      modifies this
      ensures Trusted(truth) && Hits(vectors + [hit], identity, texts, truth)
      ensures hit != null ==> fresh(hit)
      ensures Grew(old(log), log, who, if hit != null then [CacheHit(who, identity)] else [])
    {
      hit := LookupOne(identity, policy, probe, texts[|vectors|], now, truth, who);
    }

    lemma HitsOneMore(start: seq<Happening>, before: seq<Happening>, after: seq<Happening>, who: nat, identity: Identity, n: nat, hit: bool)
      requires Grew(start, before, who, CacheHits(who, identity, n))
      requires Grew(before, after, who, if hit then [CacheHit(who, identity)] else [])
      ensures Grew(start, after, who, CacheHits(who, identity, if hit then n + 1 else n))
    {
      GrewThen(start, before, after, who, CacheHits(who, identity, n), if hit then [CacheHit(who, identity)] else []);
      assert hit ==> CacheHits(who, identity, n) + [CacheHit(who, identity)] == CacheHits(who, identity, n + 1);
      assert !hit ==> CacheHits(who, identity, n) + [] == CacheHits(who, identity, n);
    }

    /** The next input: its vector, or its text and place among the missing ones. */
    method LookupInto(identity: Identity, policy: Policy, probe: bool, texts: seq<Text>, now: Time, vectors: seq<array?<Float32>>,
                      missing: seq<Text>, positions: seq<nat>, ghost truth: (Identity, Text) -> Vector, ghost who: nat,
                      ghost start: seq<Happening>)
      returns (looked: seq<array?<Float32>>, still: seq<Text>, places: seq<nat>)
      requires NulFree(identity) && Trusted(truth) && Hits(vectors, identity, texts, truth) && |vectors| < |texts|
      requires Partition(texts, vectors, missing, positions)
      requires |missing| <= |vectors| && Grew(start, log, who, CacheHits(who, identity, |vectors| - |missing|))
      modifies this
      ensures Trusted(truth) && Hits(looked, identity, texts, truth)
      ensures |looked| == |vectors| + 1 && looked[..|vectors|] == vectors
      ensures looked[|vectors|] != null ==> fresh(looked[|vectors|])
      ensures Partition(texts, looked, still, places)
      ensures |still| <= |looked| && Grew(start, log, who, CacheHits(who, identity, |looked| - |still|))
    {
      ghost var before := log;
      var hit := LookupNext(identity, policy, probe, texts, now, vectors, truth, who);
      HitsOneMore(start, before, log, who, identity, |vectors| - |missing|, hit != null);
      PartitionGrows(texts, vectors, missing, positions, hit);
      still, places := missing, positions;
      if hit == null {
        still, places := missing + [texts[|vectors|]], positions + [|vectors|];
      }
      looked := vectors + [hit];
    }

    /** First pass: every input is either answered from the cache in its own slot or listed,
        in order, among the ones still to ask for; never both. */
    method LookupAll(identity: Identity, policy: Policy, probe: bool, texts: seq<Text>, clock: nat -> Time,
                     ghost truth: (Identity, Text) -> Vector, ghost who: nat)
      returns (vectors: seq<array?<Float32>>, missing: seq<Text>, positions: seq<nat>)
      requires NulFree(identity) && Trusted(truth)
      modifies this
      ensures Trusted(truth)
      ensures |vectors| == |texts|
      ensures Partition(texts, vectors, missing, positions)
      ensures Hits(vectors, identity, texts, truth)
      ensures forall i :: 0 <= i < |texts| && vectors[i] != null ==> fresh(vectors[i])
      ensures |missing| <= |texts| && Grew(old(log), log, who, CacheHits(who, identity, |texts| - |missing|))
    {
      vectors, missing, positions := [], [], [];
      GrewNot(log, who);
      while |vectors| < |texts|
        invariant |missing| <= |vectors| && Grew(old(log), log, who, CacheHits(who, identity, |vectors| - |missing|))
        invariant Trusted(truth) && Hits(vectors, identity, texts, truth)
        invariant Partition(texts, vectors, missing, positions)
        invariant forall i :: 0 <= i < |vectors| && vectors[i] != null ==> fresh(vectors[i])
      {
        vectors, missing, positions :=
          LookupInto(identity, policy, probe, texts, clock(|vectors|), vectors, missing, positions, truth, who, old(log));
      }
    }

    /** Last pass: each answer goes to the slot its question came from, and a copy of it to
        the cache. */
    method FillIn(identity: Identity, policy: Policy, texts: seq<Text>, clock: nat -> Time,
                  looked: seq<array?<Float32>>, ghost asked: seq<Text>, positions: seq<nat>, embedded: seq<array<Float32>>,
                  ghost truth: (Identity, Text) -> Vector, ghost who: nat)
      returns (vectors: seq<array?<Float32>>)
      requires NulFree(identity) && policy.Normal() && Trusted(truth)
      requires |looked| == |texts| && |embedded| == |positions| && Increasing(positions, |texts|)
      requires forall i: nat :: i < |texts| && i !in positions ==> Placed(looked[i], identity, texts[i], truth)
      requires forall i :: 0 <= i < |embedded| ==> Placed(embedded[i], identity, texts[positions[i]], truth)
      requires |asked| == |positions| && forall i :: 0 <= i < |asked| ==> asked[i] == texts[positions[i]]
      modifies this
      ensures Grew(old(log), log, who, Storings(who, identity, policy, asked, truth))
      ensures Trusted(truth)
      ensures |vectors| == |texts|
      ensures forall i: nat :: i < |texts| && i !in positions ==> vectors[i] == looked[i]
      ensures forall k :: 0 <= k < |positions| ==> vectors[positions[k]] == embedded[k]
      ensures forall i :: 0 <= i < |texts| ==> Placed(vectors[i], identity, texts[i], truth)
    {
      vectors := looked;
      GrewNot(log, who);
      var k := 0;
      while k < |embedded|
        invariant k <= |asked| && Grew(old(log), log, who, Storings(who, identity, policy, asked[..k], truth))
        invariant 0 <= k <= |embedded| && FilledTo(vectors, looked, positions, embedded, k)
        invariant Trusted(truth)
        invariant fresh(Owned() - old(Owned()))
      {
        FilledOneMore(vectors, looked, positions, embedded, k);
        vectors := vectors[positions[k] := embedded[k]];
        StoreNth(identity, texts[positions[k]], embedded[k], policy, clock(2 * k), clock(2 * k + 1), asked, k, truth, who, old(log));
        k := k + 1;
      }
      assert asked[..k] == asked;
    }

    method StoreNth(identity: Identity, text: Text, vector: array<Float32>, policy: Policy, now: Time, later: Time,
                    ghost asked: seq<Text>, ghost k: nat, ghost truth: (Identity, Text) -> Vector, ghost who: nat, ghost start: seq<Happening>)
      requires NulFree(identity) && policy.Normal() && Trusted(truth)
      requires vector[..] == truth(identity, text) && k < |asked| && asked[k] == text
      requires Grew(start, log, who, Storings(who, identity, policy, asked[..k], truth))
      modifies this
      ensures Trusted(truth) && Grew(start, log, who, Storings(who, identity, policy, asked[..k + 1], truth))
      ensures fresh(Owned() - old(Owned()))
    {
      ghost var before := log;
      StoreOne(identity, text, vector, policy, now, later, truth, who);
      StoringsOneMore(start, before, log, who, identity, policy, asked, k, truth);
    }

    method StoreOne(identity: Identity, text: Text, vector: array<Float32>, policy: Policy, now: Time, later: Time,
                    ghost truth: (Identity, Text) -> Vector, ghost who: nat)
      requires NulFree(identity) && policy.Normal() && Trusted(truth)
      requires vector[..] == truth(identity, text)
      modifies this
      ensures Trusted(truth) && Grew(old(log), log, who, [Storing(who, identity, policy, text, truth(identity, text))])
      ensures fresh(Owned() - old(Owned()))
    {
      StoreKeepingTruth(identity, text, vector, policy, now, later, truth, who);
      ghost var kept := log;
      Yield(truth, who);
      GrewThen(old(log), kept, log, who, [Storing(who, identity, policy, text, truth(identity, text))], []);
    }

    method YieldAndFinish(identity: Identity, policy: Policy, outcome: Outcome, now: Time, later: Time,
                          ghost truth: (Identity, Text) -> Vector, ghost who: nat)
      requires Trusted(truth)
      modifies this
      ensures Trusted(truth) && Grew(old(log), log, who, [Ending(who, identity, policy, outcome, now, later)])
      ensures fresh(Owned() - old(Owned()))
    {
      Yield(truth, who);
      ghost var yielded := log;
      Finish(identity, policy, outcome, now, later, who);
      GrewThen(old(log), yielded, log, who, [], [Ending(who, identity, policy, outcome, now, later)]);
    }

    /** The request for the missing ones, and what the breaker is told of it. */
    method AskAndTell(identity: Identity, policy: Policy, provider: Provider, missing: seq<Text>, now: Time, later: Time,
                      ghost truth: (Identity, Text) -> Vector, ghost who: nat)
      returns (embedded: seq<array<Float32>>, outcome: Outcome)
      requires Speaks(provider, identity, truth) && Trusted(truth)
      modifies this
      ensures Trusted(truth) && Grew(old(log), log, who, [Ending(who, identity, policy, outcome, now, later)])
      ensures outcome == BatchOutcome(Answer(provider, missing), |missing|)
      ensures fresh(Owned() - old(Owned()))
      ensures outcome.None? ==> |embedded| == |missing|
      ensures outcome.None? ==> forall i :: 0 <= i < |embedded| ==> fresh(embedded[i]) && Placed(embedded[i], identity, missing[i], truth)
    {
      embedded, outcome := AskAll(provider, missing);
      if outcome.None? {
        SpeaksTruth(provider, identity, truth, missing);
      }
      YieldAndFinish(identity, policy, outcome, now, later, truth, who);
    }

    /** A batch, when the provider answers by `truth`: on success each input's own answer at
        that input's own place, in arrays the cache does not hold. `asked` are the inputs the
        cache did not have and `reported` what `finish` was told: once, and only if anything
        was asked for. The batch fails exactly when that was a failure. What it has done under
        the lock, among what others did, is its trail and nothing else. */
    method EmbedBatch(identity: Identity, policy: Policy, probe: bool, provider: Provider, texts: seq<Text>,
                      clock: nat -> Time, ghost truth: (Identity, Text) -> Vector, ghost who: nat)
      returns (answer: Result<seq<array?<Float32>>, Failure>, ghost asked: seq<Text>, ghost reported: seq<Outcome>)
      requires NulFree(identity) && policy.Normal()
      requires Speaks(provider, identity, truth)
      requires Trusted(truth)
      modifies this
      ensures Trusted(truth)
      ensures |asked| <= |texts|
      ensures Grew(old(log), log, who,
                BatchTrail(who, identity, policy, |texts| - |asked|, asked, if reported == [] then None else reported[0], clock(0), clock(1), truth))
      ensures asked == [] ==> answer.Ok? && reported == []
      ensures asked != [] ==> reported == [BatchOutcome(Answer(provider, asked), |asked|)]
      ensures asked != [] ==> (if reported[0].Some? then answer == Err(reported[0].value) else answer.Ok?)
      ensures answer.Ok? ==>
        && |answer.value| == |texts|
        && forall i :: 0 <= i < |texts| ==> fresh(answer.value[i]) && Placed(answer.value[i], identity, texts[i], truth)
    {
      var vectors, missing, positions := LookupAll(identity, policy, probe, texts, clock, truth, who);
      ghost var looked := log;
      asked, reported := missing, [];
      if |missing| == 0 {
        return Ok(vectors), asked, reported;
      }
      var embedded, outcome := AskAndTell(identity, policy, provider, missing, clock(0), clock(1), truth, who);
      reported := [outcome];
      ghost var finished := log;
      if outcome.Some? {
        TrailOfFailure(old(log), looked, finished, who, identity, policy, |texts| - |asked|, asked, outcome, clock(0), clock(1), truth);
        return Err(outcome.value), asked, reported;
      }
      vectors := FillIn(identity, policy, texts, clock, vectors, asked, positions, embedded, truth, who);
      TrailOfSuccess(old(log), looked, finished, log, who, identity, policy, |texts| - |asked|, asked, clock(0), clock(1), truth);
      answer := Ok(vectors);
    }

    // ---- one call, its flight and those who wait for it ----

    /** `Yield` for callers that use flights: others open, join and land them in between, and
        the map stays in order. */
    method Rest(ghost truth: (Identity, Text) -> Vector, ghost who: nat)
      requires Trusted(truth) && Open()
      modifies this
      ensures Trusted(truth) && Open() && Grew(old(log), log, who, [])
      ensures fresh(Owned() - old(Owned()))
      ensures forall k :: k in flights ==> fresh(flights[k]) || flights[k] in old(flights.Values)
    {
      GrewNot(log, who);
    }

    /** The same for a flight's own goroutine: no one else lands its flight. */
    method RestInFlight(key: Key, flight: Flight, ghost truth: (Identity, Text) -> Vector, ghost who: nat)
      requires Trusted(truth) && Open() && key in flights && flights[key] == flight
      modifies this
      ensures Trusted(truth) && Open() && key in flights && flights[key] == flight && Grew(old(log), log, who, [])
      ensures fresh(Owned() - old(Owned()))
    {
      GrewNot(log, who);
    }

    /** A landed flight: a failure, or the provider's answer in an array that is neither the
        cache's nor anything a caller has. */
    ghost predicate Told(flight: Flight, identity: Identity, text: Text, truth: (Identity, Text) -> Vector)
      reads this`cache, flight, flight.vector
    {
      flight.done && (flight.failure.None? ==> Placed(flight.vector, identity, text, truth))
    }

    /** The second look, before a flight goes upstream. */
    method LookInFlight(identity: Identity, policy: Policy, probe: bool, text: Text, now: Time,
                        key: Key, flight: Flight, ghost truth: (Identity, Text) -> Vector, ghost who: nat)
      returns (hit: array?<Float32>)
      requires NulFree(identity) && Trusted(truth) && Open() && key in flights && flights[key] == flight
      modifies this
      ensures hit != null <==> !probe && policy.cacheTTL > 0 && Hit(old(contents), CacheKey(identity, text), now)
      ensures Grew(old(log), log, who, if hit != null then [CacheHit(who, identity)] else [])
      ensures Trusted(truth) && Open() && key in flights && flights[key] == flight
      ensures hit != null ==> fresh(hit) && hit.Length > 0 && hit[..] == truth(identity, text)
    {
      hit := LookTruly(identity, policy, probe, text, now, truth, who);
      ghost var looked := log;
      RestInFlight(key, flight, truth, who);
      GrewThen(old(log), looked, log, who, if hit != null then [CacheHit(who, identity)] else [], []);
    }

    /** The report of how an upstream request ended, with everyone else running around it. */
    method FinishInFlight(identity: Identity, policy: Policy, outcome: Outcome, now: Time, later: Time, key: Key, flight: Flight,
                          ghost truth: (Identity, Text) -> Vector, ghost who: nat)
      requires Trusted(truth) && Open() && key in flights && flights[key] == flight
      modifies this
      ensures Trusted(truth) && Open() && key in flights && flights[key] == flight
      ensures Grew(old(log), log, who, [Ending(who, identity, policy, outcome, now, later)])
      ensures fresh(Owned() - old(Owned()))
    {
      ghost var ending := [Ending(who, identity, policy, outcome, now, later)];
      RestInFlight(key, flight, truth, who);
      ghost var rested := log;
      Finish(identity, policy, outcome, now, later, who);
      ghost var finished := log;
      GrewThen(old(log), rested, finished, who, [], ending);
      RestInFlight(key, flight, truth, who);
      GrewThen(old(log), finished, log, who, ending, []);
    }

    /** The copy for the cache, and everyone else runs. */
    method StoreInFlight(identity: Identity, text: Text, vector: array<Float32>, policy: Policy, now: Time, later: Time, key: Key, flight: Flight,
                         ghost truth: (Identity, Text) -> Vector, ghost who: nat)
      requires NulFree(identity) && policy.Normal() && vector[..] == truth(identity, text)
      requires Trusted(truth) && Open() && key in flights && flights[key] == flight
      modifies this
      ensures Trusted(truth) && Open() && key in flights && flights[key] == flight
      ensures Grew(old(log), log, who, [Storing(who, identity, policy, text, truth(identity, text))])
    {
      StoreKeepingTruth(identity, text, vector, policy, now, later, truth, who);
      ghost var kept := log;
      RestInFlight(key, flight, truth, who);
      GrewThen(old(log), kept, log, who, [Storing(who, identity, policy, text, truth(identity, text))], []);
    }

    /** The upstream request, the report of how it ended, and the copy for the cache. */
    method GoUpstream(identity: Identity, policy: Policy, embed: Text -> Result<Vector, Failure>, text: Text,
                      clock: nat -> Time, key: Key, flight: Flight, ghost truth: (Identity, Text) -> Vector, ghost who: nat)
      returns (vector: array<Float32>, outcome: Outcome)
      requires NulFree(identity) && policy.Normal() && Speaks(Single(embed), identity, truth)
      requires Trusted(truth) && Open() && key in flights && flights[key] == flight
      modifies this
      ensures Trusted(truth) && Open() && key in flights && flights[key] == flight
      ensures fresh(vector) && (outcome.None? ==> vector.Length > 0 && vector[..] == truth(identity, text))
      ensures outcome == OneOutcome(embed(text))
      ensures Grew(old(log), log, who, CallTrail(who, identity, policy, text, outcome, clock(1), clock(2), truth))
    {
      vector, outcome := AskOne(embed, text);
      FinishInFlight(identity, policy, outcome, clock(1), clock(2), key, flight, truth, who);
      if outcome.None? {
        ghost var finished := log;
        StoreInFlight(identity, text, vector, policy, clock(3), clock(4), key, flight, truth, who);
        GrewThen(old(log), finished, log, who, [Ending(who, identity, policy, outcome, clock(1), clock(2))],
                 [Storing(who, identity, policy, text, truth(identity, text))]);
      }
    }

    /** Landing with an answer or a failure. */
    method LandWith(identity: Identity, text: Text, key: Key, flight: Flight, vector: array<Float32>, outcome: Outcome,
                ghost truth: (Identity, Text) -> Vector)
      requires Trusted(truth) && Open() && key in flights && flights[key] == flight
      requires outcome.None? ==> vector.Length > 0 && vector[..] == truth(identity, text)
      modifies this`flights, flight
      ensures Trusted(truth) && Open() && key !in flights
      ensures Told(flight, identity, text, truth) && fresh(flight.vector) && flight.failure == outcome
    {
      CompleteFlight(key, flight, vector, outcome);
      assert flight.vector as object !in Owned();
    }

    /** The goroutine of a flight: it lands with a hit, or with how its one request ended, and
        that is what it reports. */
    method RunFlight(identity: Identity, policy: Policy, probe: bool, embed: Text -> Result<Vector, Failure>, text: Text,
                     key: Key, flight: Flight, clock: nat -> Time, ghost truth: (Identity, Text) -> Vector, ghost who: nat)
      returns (ghost upstream: bool)
      requires NulFree(identity) && policy.Normal() && Speaks(Single(embed), identity, truth)
      requires Trusted(truth) && Open() && key in flights && flights[key] == flight
      modifies this, flight
      ensures Trusted(truth) && Open() && key !in flights
      ensures Told(flight, identity, text, truth) && fresh(flight.vector)
      ensures !upstream <==> !probe && policy.cacheTTL > 0 && Hit(old(contents), CacheKey(identity, text), clock(0))
      ensures flight.failure == if upstream then OneOutcome(embed(text)) else None
      ensures Grew(old(log), log, who, FlightTrail(upstream, who, identity, policy, text, flight.failure, clock(1), clock(2), truth))
    {
      var hit := LookInFlight(identity, policy, probe, text, clock(0), key, flight, truth, who);
      upstream := hit == null;
      if hit != null {
        LandWith(identity, text, key, flight, hit, None, truth);
        return;
      }
      ghost var looked := log;
      var vector, outcome := GoUpstream(identity, policy, embed, text, clock, key, flight, truth, who);
      GrewThen(old(log), looked, log, who, [], CallTrail(who, identity, policy, text, outcome, clock(1), clock(2), truth));
      assert [] + CallTrail(who, identity, policy, text, outcome, clock(1), clock(2), truth)
             == CallTrail(who, identity, policy, text, outcome, clock(1), clock(2), truth);
      if outcome.Some? {
        vector := new Float32[0];
      }
      LandWith(identity, text, key, flight, vector, outcome, truth);
    }

    method StoreKeepingTruth(identity: Identity, text: Text, vector: array<Float32>, policy: Policy, now: Time, later: Time,
                             ghost truth: (Identity, Text) -> Vector, ghost who: nat)
      requires NulFree(identity) && policy.Normal() && Trusted(truth) && vector[..] == truth(identity, text)
      modifies this`cache, this`contents, this`log
      ensures Trusted(truth) && fresh(Owned() - old(Owned()))
      ensures Stores(old(View()), View(), identity, text, vector[..], policy, now, later)
      ensures Grew(old(log), log, who, [Storing(who, identity, policy, text, truth(identity, text))])
    {
      ghost var before := View();
      StoreVector(identity, text, vector, policy, now, later, who);
      StoreKeepsFaithful(before, View(), identity, text, vector[..], policy, now, later, truth);
    }

    /** What a caller gets of a flight: its own context's end, or a copy of what it landed
        with. Nobody else has that array. */
    method WaitFlight(flight: Flight, cancelled: Option<Failure>) returns (vector: array<Float32>, failure: Option<Failure>)
      requires cancelled.None? ==> flight.done
      ensures fresh(vector) && vector != flight.vector && vector !in Owned()
      ensures cancelled.Some? ==> failure == cancelled
      ensures cancelled.None? ==> failure == flight.failure && vector[..] == flight.vector[..]
    {
      if cancelled.Some? {
        vector := new Float32[0];
        return vector, cancelled;
      }
      vector := Copy(flight.vector);
      assert vector as object !in Owned();
      failure := flight.failure;
    }

    /** Arrays that hold what the flight landed with and are all different, the flight's own and
        those of `owned` among them. */
    ghost predicate Heard(vectors: seq<array<Float32>>, flight: Flight, owned: set<object>)
      reads flight, flight.vector, vectors
    {
      && (forall i :: 0 <= i < |vectors| ==> vectors[i][..] == flight.vector[..] && vectors[i] != flight.vector && vectors[i] !in owned)
      && (forall i, j :: 0 <= i < j < |vectors| ==> vectors[i] != vectors[j])
    }

    lemma HeardOneMore(vectors: seq<array<Float32>>, vector: array<Float32>, flight: Flight, owned: set<object>)
      requires Heard(vectors, flight, owned) && vector !in vectors
      requires vector[..] == flight.vector[..] && vector != flight.vector && vector !in owned
      ensures Heard(vectors + [vector], flight, owned)
    {
    }

    /** One more caller, and then everyone else runs. */
    method NextListener(flight: Flight, heard: seq<array<Float32>>, identity: Identity, text: Text, ghost truth: (Identity, Text) -> Vector,
                        ghost who: nat)
      returns (vectors: seq<array<Float32>>)
      requires Trusted(truth) && Open() && Told(flight, identity, text, truth) && Heard(heard, flight, Owned())
      modifies this
      ensures Trusted(truth) && Open() && Told(flight, identity, text, truth) && Heard(vectors, flight, Owned())
      ensures |vectors| == |heard| + 1 && vectors[..|heard|] == heard && fresh(vectors[|heard|])
    {
      var vector, _ := WaitFlight(flight, None);
      HeardOneMore(heard, vector, flight, Owned());
      vectors := heard + [vector];
      Rest(truth, who);
    }

    /** Any number of callers of one flight, one after the other with everyone else running
        in between: each hears the same in an array of its own, which is neither another
        caller's, nor the flight's, nor the cache's. */
    method Listeners(flight: Flight, callers: nat, identity: Identity, text: Text, ghost truth: (Identity, Text) -> Vector)
      returns (vectors: seq<array<Float32>>)
      requires Trusted(truth) && Open() && Told(flight, identity, text, truth)
      modifies this
      ensures Trusted(truth) && |vectors| == callers
      ensures forall i :: 0 <= i < callers ==> fresh(vectors[i]) && vectors[i][..] == flight.vector[..]
      ensures forall i :: 0 <= i < callers ==> vectors[i] != flight.vector && vectors[i] !in Owned()
      ensures forall i, j :: 0 <= i < j < callers ==> vectors[i] != vectors[j]
    {
      vectors := [];
      while |vectors| < callers
        invariant |vectors| <= callers && Trusted(truth) && Open() && Told(flight, identity, text, truth)
        invariant forall i :: 0 <= i < |vectors| ==> fresh(vectors[i])
        invariant Heard(vectors, flight, Owned())
      {
        vectors := NextListener(flight, vectors, identity, text, truth, |vectors|);
      }
    }

    /** The goroutine of another call lands the flight this one waits for; what it landed with
        is what `RunFlight` promises. */
    method OthersLand(flight: Flight, identity: Identity, text: Text, ghost truth: (Identity, Text) -> Vector, ghost who: nat)
      requires Trusted(truth)
      modifies this, flight
      ensures Trusted(truth) && Told(flight, identity, text, truth) && Grew(old(log), log, who, [])
    {
      GrewNot(log, who);
      flight.failure, flight.done := Some(Canceled), true;
    }

    /** The first look of a call. */
    method LookFirst(identity: Identity, policy: Policy, probe: bool, text: Text, now: Time,
                     ghost truth: (Identity, Text) -> Vector, ghost who: nat)
      returns (hit: array?<Float32>)
      requires NulFree(identity) && Trusted(truth) && Open()
      modifies this
      ensures hit != null <==> !probe && policy.cacheTTL > 0 && Hit(old(contents), CacheKey(identity, text), now)
      ensures Grew(old(log), log, who, if hit != null then [CacheHit(who, identity)] else [])
      ensures Trusted(truth) && Open()
      ensures hit != null ==> fresh(hit) && Placed(hit, identity, text, truth)
      ensures forall k :: k in flights ==> fresh(flights[k]) || flights[k] in old(flights.Values)
    {
      hit := LookTruly(identity, policy, probe, text, now, truth, who);
      ghost var looked := log;
      Rest(truth, who);
      GrewThen(old(log), looked, log, who, if hit != null then [CacheHit(who, identity)] else [], []);
    }

    /** Begin or join a flight and see it landed: `mine` is what that leaves in the log. */
    method Fly(identity: Identity, policy: Policy, probe: bool, embed: Text -> Result<Vector, Failure>, text: Text,
               clock: nat -> Time, ghost truth: (Identity, Text) -> Vector, ghost who: nat)
      returns (flight: Flight, ghost mine: seq<Happening>)
      requires NulFree(identity) && policy.Normal() && Speaks(Single(embed), identity, truth)
      requires Trusted(truth) && Open()
      modifies this, flights.Values
      ensures Trusted(truth) && Told(flight, identity, text, truth)
      ensures Grew(old(log), log, who, mine)
      ensures if CacheKey(identity, text) in old(flights) then mine == [Joining(who, identity)]
              else exists upstream ::
                && mine == FlightTrail(upstream, who, identity, policy, text, flight.failure, clock(1), clock(2), truth)
                && flight.failure == if upstream then OneOutcome(embed(text)) else None
    {
      var leader;
      flight, leader := BeginFlight(identity, text, who);
      ghost var begun := log;
      if leader {
        ghost var upstream := RunFlight(identity, policy, probe, embed, text, CacheKey(identity, text), flight, clock, truth, who);
        mine := FlightTrail(upstream, who, identity, policy, text, flight.failure, clock(1), clock(2), truth);
        GrewThen(old(log), begun, log, who, [], mine);
        assert [] + mine == mine;
      } else {
        OthersLand(flight, identity, text, truth, who);
        mine := [Joining(who, identity)];
        GrewThen(old(log), begun, log, who, mine, []);
      }
    }

    /** A call: on success the provider's own answer, in an array that is the caller's alone.
        It leaves a hit, a joining, or the trail of the flight it began. */
    method Embed(identity: Identity, policy: Policy, probe: bool, embed: Text -> Result<Vector, Failure>, text: Text,
                 clock: nat -> Time, cancelled: Option<Failure>, ghost truth: (Identity, Text) -> Vector, ghost who: nat)
      returns (vector: array<Float32>, failure: Option<Failure>, ghost mine: seq<Happening>)
      requires NulFree(identity) && policy.Normal() && Speaks(Single(embed), identity, truth)
      requires Trusted(truth) && Open()
      modifies this, flights.Values
      ensures Trusted(truth)
      ensures fresh(vector) && vector !in Owned()
      ensures failure.None? ==> Placed(vector, identity, text, truth)
      ensures Grew(old(log), log, who, mine)
      ensures mine in [[CacheHit(who, identity)], [Joining(who, identity)],
                       CallTrail(who, identity, policy, text, OneOutcome(embed(text)), clock(1), clock(2), truth)]
      ensures !probe && policy.cacheTTL > 0 && Hit(old(contents), CacheKey(identity, text), clock(0)) ==>
        mine == [CacheHit(who, identity)] && failure.None?
      ensures cancelled.None? && mine[0].Ending? ==> failure == OneOutcome(embed(text))
    {
      var hit := LookFirst(identity, policy, probe, text, clock(0), truth, who);
      if hit != null {
        return hit, None, [CacheHit(who, identity)];
      }
      ghost var looked := log;
      var flight;
      flight, mine := Fly(identity, policy, probe, embed, text, clock, truth, who);
      GrewThen(old(log), looked, log, who, [], mine);
      assert [] + mine == mine;
      vector, failure := WaitFlight(flight, cancelled);
    }
  }

  /** Indices below `bound`, in increasing order. */
  predicate Increasing(positions: seq<nat>, bound: nat) {
    && (forall i :: 0 <= i < |positions| ==> positions[i] < bound)
    && (forall i, j :: 0 <= i < j < |positions| ==> positions[i] < positions[j])
  }

  /** The first `k` of `embedded` are in their positions, and elsewhere there is still what was
      there. */
  predicate FilledTo<T(==)>(vectors: seq<T>, looked: seq<T>, positions: seq<nat>, embedded: seq<T>, k: nat) {
    && |vectors| == |looked| && k <= |embedded| == |positions|
    && (forall i: nat :: i < |looked| && i !in positions ==> vectors[i] == looked[i])
    && forall i :: 0 <= i < k ==> positions[i] < |vectors| && vectors[positions[i]] == embedded[i]
  }

  lemma FilledOneMore<T>(vectors: seq<T>, looked: seq<T>, positions: seq<nat>, embedded: seq<T>, k: nat)
    requires FilledTo(vectors, looked, positions, embedded, k) && k < |embedded| && Increasing(positions, |looked|)
    ensures FilledTo(vectors[positions[k] := embedded[k]], looked, positions, embedded, k + 1)
  {
  }

  /** The inputs looked up so far fall into two parts: those with a vector, and those listed
      as missing, in order and each with the place it came from. */
  ghost predicate Partition(texts: seq<Text>, vectors: seq<array?<Float32>>, missing: seq<Text>, positions: seq<nat>) {
    && |vectors| <= |texts| && |missing| == |positions|
    && Increasing(positions, |vectors|)
    && (forall i :: 0 <= i < |positions| ==> missing[i] == texts[positions[i]])
    && (forall i: nat :: i < |vectors| ==> (vectors[i] == null <==> i in positions))
  }

  lemma PartitionGrows(texts: seq<Text>, vectors: seq<array?<Float32>>, missing: seq<Text>, positions: seq<nat>,
                       hit: array?<Float32>)
    requires Partition(texts, vectors, missing, positions) && |vectors| < |texts|
    ensures hit != null ==> Partition(texts, vectors + [hit], missing, positions)
    ensures hit == null ==> Partition(texts, vectors + [hit], missing + [texts[|vectors|]], positions + [|vectors|])
  {
    var index: nat := |vectors|;
    if hit == null {
      var more := positions + [index];
      assert more[|positions|] == index;
      forall i: nat | i < index ensures i in more <==> i in positions {
        if i in positions {
          var k :| 0 <= k < |positions| && positions[k] == i;
          assert more[k] == i;
        }
      }
    }
  }

  /** What `finish` is told about a batch answer. */
  method CheckBatch(embedded: Result<seq<array<Float32>>, Failure>, asked: nat) returns (outcome: Outcome)
    ensures outcome.None? <==>
      embedded.Ok? && |embedded.value| == asked && forall i :: 0 <= i < asked ==> embedded.value[i].Length > 0
    ensures embedded.Err? ==> outcome == Some(embedded.error)
    ensures embedded.Ok? && |embedded.value| != asked ==> outcome == Some(WrongCount)
    ensures embedded.Ok? && |embedded.value| == asked && outcome.Some? ==> outcome == Some(EmptyVector)
  {
    if embedded.Err? {
      return Some(embedded.error);
    }
    if |embedded.value| != asked {
      return Some(WrongCount);
    }
    var k := 0;
    while k < asked
      invariant 0 <= k <= asked
      invariant forall i :: 0 <= i < k ==> embedded.value[i].Length > 0
    {
      if embedded.value[k].Length == 0 {
        return Some(EmptyVector);
      }
      k := k + 1;
    }
    return None;
  }

  /** What is wrong with a batch answer, if anything. */
  function BatchOutcome(answer: Result<seq<Vector>, Failure>, asked: nat): Outcome {
    if answer.Err? then Some(answer.error)
    else if |answer.value| != asked then Some(WrongCount)
    else if exists i :: 0 <= i < asked && |answer.value[i]| == 0 then Some(EmptyVector)
    else None
  }

  method AskAll(provider: Provider, texts: seq<Text>) returns (embedded: seq<array<Float32>>, outcome: Outcome)
    ensures outcome == BatchOutcome(Answer(provider, texts), |texts|)
    ensures outcome.None? ==> |embedded| == |texts|
    ensures outcome.None? ==> forall i :: 0 <= i < |embedded| ==>
      fresh(embedded[i]) && embedded[i].Length > 0 && embedded[i][..] == Answer(provider, texts).value[i]
  {
    var answer := Ask(provider, texts);
    outcome := CheckBatch(answer, |texts|);
    embedded := if answer.Ok? then answer.value else [];
    assert answer.Ok? ==> forall i :: 0 <= i < |answer.value| ==> answer.value[i].Length == |Answer(provider, texts).value[i]|;
  }

  /** The upstream request: new arrays holding what the provider answers. */
  method Ask(provider: Provider, texts: seq<Text>) returns (r: Result<seq<array<Float32>>, Failure>)
    ensures r.Err? <==> Answer(provider, texts).Err?
    ensures r.Err? ==> r.error == Answer(provider, texts).error
    ensures r.Ok? ==> |r.value| == |Answer(provider, texts).value|
    ensures r.Ok? ==> forall i :: 0 <= i < |r.value| ==> fresh(r.value[i]) && r.value[i][..] == Answer(provider, texts).value[i]
  {
    var answer := Answer(provider, texts);
    if answer.Err? {
      return Err(answer.error);
    }
    var arrays: seq<array<Float32>> := [];
    while |arrays| < |answer.value|
      invariant |arrays| <= |answer.value|
      invariant forall i :: 0 <= i < |arrays| ==> fresh(arrays[i]) && arrays[i][..] == answer.value[i]
    {
      var v := answer.value[|arrays|];
      var a := new Float32[|v|](i requires 0 <= i < |v| => v[i]);
      assert a[..] == v;
      arrays := arrays + [a];
    }
    return Ok(arrays);
  }

  /** One text asked for on its own: a new array with the answer, or what `finish` is told. */
  method AskOne(embed: Text -> Result<Vector, Failure>, text: Text) returns (vector: array<Float32>, outcome: Outcome)
    ensures fresh(vector)
    ensures outcome.None? <==> embed(text).Ok? && |embed(text).value| > 0
    ensures outcome.None? ==> vector[..] == embed(text).value
    ensures outcome == OneOutcome(embed(text))
  {
    var answer := embed(text);
    var v := if answer.Ok? then answer.value else [];
    vector := new Float32[|v|](i requires 0 <= i < |v| => v[i]);
    assert vector[..] == v;
    outcome := if answer.Err? then Some(answer.error) else if |v| == 0 then Some(EmptyVector) else None;
  }

  /** Either a provider that takes a batch, or one asked for each text in turn. */
  datatype Provider =
    | Batching(batch: seq<Text> -> Result<seq<Vector>, Failure>)
    | Single(embed: Text -> Result<Vector, Failure>)

  function EmbedAll(embed: Text -> Result<Vector, Failure>, texts: seq<Text>): Result<seq<Vector>, Failure> {
    if texts == [] then Ok([])
    else
      match EmbedAll(embed, texts[..|texts| - 1])
      case Err(e) => Err(e)
      case Ok(vectors) =>
        match embed(texts[|texts| - 1])
        case Err(e) => Err(e)
        case Ok(vector) => Ok(vectors + [vector])
  }

  function Answer(provider: Provider, texts: seq<Text>): Result<seq<Vector>, Failure> {
    match provider
    case Batching(batch) => batch(texts)
    case Single(embed) => EmbedAll(embed, texts)
  }

  /** Whatever the provider answers with the right number of vectors, it answers by `truth`. */
  ghost predicate Speaks(provider: Provider, identity: Identity, truth: (Identity, Text) -> Vector) {
    match provider
    case Batching(batch) =>
      forall texts, i :: batch(texts).Ok? && |batch(texts).value| == |texts| && 0 <= i < |texts| ==>
        batch(texts).value[i] == truth(identity, texts[i])
    case Single(embed) =>
      forall text :: embed(text).Ok? ==> embed(text).value == truth(identity, text)
  }

  /** A provider without a batch call is no different: one answer for each text, in order. */
  lemma {:induction false} EmbedAllSpeaks(embed: Text -> Result<Vector, Failure>, identity: Identity,
                                          truth: (Identity, Text) -> Vector, texts: seq<Text>)
    requires Speaks(Single(embed), identity, truth)
    ensures EmbedAll(embed, texts).Ok? ==>
      && |EmbedAll(embed, texts).value| == |texts|
      && forall i :: 0 <= i < |texts| ==> EmbedAll(embed, texts).value[i] == truth(identity, texts[i])
  {
    if texts != [] {
      EmbedAllSpeaks(embed, identity, truth, texts[..|texts| - 1]);
    }
  }

  lemma SpeaksTruth(provider: Provider, identity: Identity, truth: (Identity, Text) -> Vector, texts: seq<Text>)
    requires Speaks(provider, identity, truth)
    requires Answer(provider, texts).Ok? && |Answer(provider, texts).value| == |texts|
    ensures forall i :: 0 <= i < |texts| ==> Answer(provider, texts).value[i] == truth(identity, texts[i])
  {
    if provider.Single? {
      EmbedAllSpeaks(provider.embed, identity, truth, texts);
    }
  }
}
