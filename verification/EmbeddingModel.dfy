/** What the embedding runtime's mutex protects, and what each locked section does to it.

    One function (or, where the program leaves the choice open, one relation) per locked
    section of internal/embedding/runtime.go. The class in EmbeddingRuntime.dfy is proved
    against these, and the interleavings in EmbeddingProtocol.dfy are made of them.

    Go's zero time is `None`: it is after nothing. Clock readings are arguments. */
module EmbeddingModel {
  import opened Common

  type Time = int
  type Identity = string
  type Text = string
  type Key = string

  /** An IEEE-754 single, by its bits. */
  type Float32 = bits: int | 0 <= bits < 0x1_0000_0000
  type Vector = seq<Float32>

  datatype Policy = Policy(failureThreshold: int, cooldown: int, cacheTTL: int, cacheEntries: int) {
    predicate Normal() {
      failureThreshold >= 1 && cooldown > 0 && cacheTTL >= 0 && cacheEntries >= 1
    }

    function Normalized(): (p: Policy)
      ensures p.Normal()
      ensures Normal() ==> p == this
    {
      Policy(
        if failureThreshold < 1 then 2 else failureThreshold,
        if cooldown <= 0 then 60_000_000_000 else cooldown,
        if cacheTTL < 0 then 0 else cacheTTL,
        if cacheEntries < 1 then 1000 else cacheEntries)
    }
  }

  /** A setting out of range is the default: two failures, a minute, no caching, a thousand
      entries. */
  lemma TheDefaults(p: Policy)
    ensures var q := p.Normalized();
            && (if p.failureThreshold < 1 then q.failureThreshold == 2 else q.failureThreshold == p.failureThreshold)
            && (if p.cooldown <= 0 then q.cooldown == 60 * 1_000_000_000 else q.cooldown == p.cooldown)
            && (if p.cacheTTL < 0 then q.cacheTTL == 0 else q.cacheTTL == p.cacheTTL)
            && (if p.cacheEntries < 1 then q.cacheEntries == 1000 else q.cacheEntries == p.cacheEntries)
  {
  }

  datatype Failure = Canceled | EmptyVector | WrongCount | Upstream(message: string)

  /** How an attempt ended, as `finish` is told. */
  type Outcome = Option<Failure>

  // ---- one identity's circuit breaker ----

  datatype Breaker = Breaker(
    consecutiveFailures: nat,
    openUntil: Option<Time>,
    lastSuccess: Option<Time>,
    lastFailure: Option<Time>,
    requests: nat,
    failures: nat,
    hits: nat,
    coalesced: nat,
    halfOpen: bool)

  const NEW_BREAKER := Breaker(0, None, None, None, 0, 0, 0, 0, false)

  datatype Verdict = Rejected(retryAt: Time) | Admitted(probe: bool)

  const SECOND := 1_000_000_000

  function After(t: Option<Time>, now: Time): bool {
    t.Some? && t.value > now
  }

  function Judge(b: Breaker, now: Time): Verdict {
    if After(b.openUntil, now) then Rejected(b.openUntil.value)
    else if b.openUntil.Some? && b.halfOpen then Rejected(now + SECOND)
    else Admitted(b.openUntil.Some?)
  }

  function Allow(b: Breaker, now: Time): Breaker {
    if Judge(b, now) == Admitted(true) then b.(halfOpen := true) else b
  }

  /** `finish` reads the clock once for the failure stamp and once more for the opening. */
  function Finish(b: Breaker, policy: Policy, outcome: Outcome, now: Time, later: Time): Breaker {
    var c := b.(requests := b.requests + 1, halfOpen := false);
    if outcome.None? then
      c.(consecutiveFailures := 0, openUntil := None, lastSuccess := Some(now))
    else if outcome.value.Canceled? then
      c
    else
      var d := c.(failures := c.failures + 1, consecutiveFailures := c.consecutiveFailures + 1, lastFailure := Some(now));
      if d.consecutiveFailures >= policy.failureThreshold then d.(openUntil := Some(later + policy.cooldown)) else d
  }

  datatype Status = Open | HalfOpen | Closed | Idle

  function StatusAt(b: Breaker, now: Time): Status {
    if After(b.openUntil, now) then Open
    else if b.halfOpen then HalfOpen
    else if b.requests > 0 then Closed
    else Idle
  }

  // ---- the whole locked state ----

  datatype Entry = Entry(identity: Identity, vector: Vector, expires: Time)

  /** `F` is how a flight is named: an object in the class, an index in the protocol. */
  datatype Shared<F> = Shared(states: map<Identity, Breaker>, cache: map<Key, Entry>, flights: map<Key, F>)

  function State(states: map<Identity, Breaker>, identity: Identity): Breaker {
    if identity in states then states[identity] else NEW_BREAKER
  }

  /** The text whose digest the program uses; the digest itself is taken to be injective. */
  function CacheKey(identity: Identity, text: Text): Key {
    identity + ['\0'] + text
  }

  predicate NulFree(identity: Identity) {
    '\0' !in identity
  }

  /** The identity and text a key was made from, when the identity holds no NUL. */
  function SplitKey(key: Key): (Identity, Text) {
    if key == "" then ("", "")
    else if key[0] == '\0' then ("", key[1..])
    else
      var rest := SplitKey(key[1..]);
      ([key[0]] + rest.0, rest.1)
  }

  lemma {:induction false} SplitCacheKey(identity: Identity, text: Text)
    requires NulFree(identity)
    ensures SplitKey(CacheKey(identity, text)) == (identity, text)
  {
    var key := CacheKey(identity, text);
    if identity == "" {
      assert key[1..] == text;
    } else {
      assert key[1..] == CacheKey(identity[1..], text);
      SplitCacheKey(identity[1..], text);
      assert identity == [identity[0]] + identity[1..];
    }
  }

  /** Two questions share a cache slot only when they are the same question. */
  lemma CacheKeyInjective(identity: Identity, text: Text, identity': Identity, text': Text)
    requires NulFree(identity) && NulFree(identity')
    requires CacheKey(identity, text) == CacheKey(identity', text')
    ensures identity == identity' && text == text'
  {
    SplitCacheKey(identity, text);
    SplitCacheKey(identity', text');
  }

  /** Without the NUL-free condition two questions can collide. */
  lemma CacheKeyCollides()
    ensures CacheKey("a", "b\0c") == CacheKey("a\0b", "c")
  {
    assert CacheKey("a", "b\0c") == ['a', '\0', 'b', '\0', 'c'];
  }

  function Hit(cache: map<Key, Entry>, key: Key, now: Time): bool {
    key in cache && !(now > cache[key].expires)
  }

  /** `cached`: a hit is counted, a miss drops whatever stale entry was there. */
  function Look<F>(s: Shared<F>, identity: Identity, text: Text, now: Time): (Shared<F>, Option<Vector>) {
    var key := CacheKey(identity, text);
    if Hit(s.cache, key, now) then
      var b := State(s.states, identity);
      (s.(states := s.states[identity := b.(hits := b.hits + 1)]), Some(s.cache[key].vector))
    else
      (s.(cache := s.cache - {key}), None)
  }

  function Unexpired(cache: map<Key, Entry>, now: Time): map<Key, Entry> {
    map k | k in cache && !(now > cache[k].expires) :: cache[k]
  }

  /** `small` is `big` with some keys left out. */
  ghost predicate Submap<K, V>(small: map<K, V>, big: map<K, V>) {
    forall k :: k in small ==> k in big && small[k] == big[k]
  }

  /** What making room may leave: nothing goes while there is room; expired entries go
      first; and live ones go only when that was not enough, and then only just enough. */
  ghost predicate Evicted(before: map<Key, Entry>, room: nat, now: Time, after: map<Key, Entry>) {
    if |before| < room then after == before
    else
      var live := Unexpired(before, now);
      if |live| < room then after == live else Submap(after, live) && |after| == room - 1
  }

  /** `storeVector`, as a relation: which live entries are evicted is map iteration order. */
  ghost predicate Stores<F>(s: Shared<F>, s': Shared<F>, identity: Identity, text: Text, vector: Vector,
                            policy: Policy, now: Time, later: Time) {
    if policy.cacheTTL <= 0 || |vector| == 0 then s' == s
    else
      policy.cacheEntries >= 1 &&
      exists kept ::
        && Evicted(s.cache, policy.cacheEntries, now, kept)
        && s' == s.(cache := kept[CacheKey(identity, text) := Entry(identity, vector, later + policy.cacheTTL)])
  }

  /** `beginFlight`: join the open flight for this question, or open `flight`. */
  function Begin<F>(s: Shared<F>, identity: Identity, text: Text, flight: F): (Shared<F>, F, bool) {
    var key := CacheKey(identity, text);
    if key in s.flights then
      var b := State(s.states, identity);
      (s.(states := s.states[identity := b.(coalesced := b.coalesced + 1)]), s.flights[key], false)
    else
      (s.(flights := s.flights[key := flight]), flight, true)
  }

  function Land<F>(s: Shared<F>, key: Key): Shared<F> {
    s.(flights := s.flights - {key})
  }

  function AllowAt<F>(s: Shared<F>, identity: Identity, now: Time): Shared<F> {
    s.(states := s.states[identity := Allow(State(s.states, identity), now)])
  }

  function FinishAt<F>(s: Shared<F>, identity: Identity, policy: Policy, outcome: Outcome, now: Time, later: Time): Shared<F> {
    s.(states := s.states[identity := Finish(State(s.states, identity), policy, outcome, now, later)])
  }

  // ---- facts about the cache every model needs ----

  /** Every entry is what `truth` answers for the question its key stands for. */
  ghost predicate Faithful(cache: map<Key, Entry>, truth: (Identity, Text) -> Vector) {
    forall k :: k in cache ==>
      && cache[k].vector == truth(SplitKey(k).0, SplitKey(k).1)
      && cache[k].identity == SplitKey(k).0
      && |cache[k].vector| > 0
  }

  /** A store leaves at most the configured number of entries, whatever was there before. */
  lemma StoreIsBounded<F>(s: Shared<F>, s': Shared<F>, identity: Identity, text: Text, vector: Vector,
                          policy: Policy, now: Time, later: Time)
    requires Stores(s, s', identity, text, vector, policy, now, later)
    requires policy.cacheTTL > 0 && |vector| > 0
    ensures |s'.cache| <= policy.cacheEntries
    ensures CacheKey(identity, text) in s'.cache
    ensures s'.cache[CacheKey(identity, text)].vector == vector
    ensures s'.cache[CacheKey(identity, text)].expires == later + policy.cacheTTL
    ensures forall k :: k in s'.cache && k != CacheKey(identity, text) ==>
      k in s.cache && s'.cache[k] == s.cache[k] && (|s.cache| >= policy.cacheEntries ==> now <= s.cache[k].expires)
    ensures |s.cache| < policy.cacheEntries ==> s'.cache == s.cache[CacheKey(identity, text) := s'.cache[CacheKey(identity, text)]]
    ensures |s.cache| >= policy.cacheEntries && |set k | k in s.cache && now <= s.cache[k].expires| < policy.cacheEntries ==>
      forall k :: k in s.cache && now <= s.cache[k].expires ==> k in s'.cache
    ensures |set k | k in s.cache && now <= s.cache[k].expires| >= policy.cacheEntries ==> |s'.cache| >= policy.cacheEntries - 1
    ensures s'.states == s.states && s'.flights == s.flights
  {
    UnexpiredAre(s.cache, now);
    var kept :| Evicted(s.cache, policy.cacheEntries, now, kept)
      && s' == s.(cache := kept[CacheKey(identity, text) := Entry(identity, vector, later + policy.cacheTTL)]);
    OneMoreEntry(kept, CacheKey(identity, text), Entry(identity, vector, later + policy.cacheTTL));
  }

  lemma OneMoreEntry<K, V>(m: map<K, V>, k: K, v: V)
    ensures |m| <= |m[k := v]| <= |m| + 1
  {
    assert m[k := v].Keys == m.Keys + {k};
  }

  lemma UnexpiredAre(cache: map<Key, Entry>, now: Time)
    ensures |Unexpired(cache, now)| == |set k | k in cache && now <= cache[k].expires| <= |cache|
  {
    var live := set k | k in cache && now <= cache[k].expires;
    assert Unexpired(cache, now).Keys == live;
    SubsetSize(live, cache.Keys);
  }

  lemma StoreKeepsFaithful<F>(s: Shared<F>, s': Shared<F>, identity: Identity, text: Text, vector: Vector,
                              policy: Policy, now: Time, later: Time, truth: (Identity, Text) -> Vector)
    requires Faithful(s.cache, truth) && NulFree(identity)
    requires vector == truth(identity, text)
    requires Stores(s, s', identity, text, vector, policy, now, later)
    ensures Faithful(s'.cache, truth)
  {
    SplitCacheKey(identity, text);
    if policy.cacheTTL > 0 && |vector| > 0 {
      var kept :| Evicted(s.cache, policy.cacheEntries, now, kept)
        && s' == s.(cache := kept[CacheKey(identity, text) := Entry(identity, vector, later + policy.cacheTTL)]);
      FewerAreFaithful(s.cache, kept, truth);
      OneMoreIsFaithful(kept, CacheKey(identity, text), Entry(identity, vector, later + policy.cacheTTL), truth);
    }
  }

  lemma FewerAreFaithful(cache: map<Key, Entry>, kept: map<Key, Entry>, truth: (Identity, Text) -> Vector)
    requires Faithful(cache, truth) && Submap(kept, cache)
    ensures Faithful(kept, truth)
  {
  }

  lemma OneMoreIsFaithful(cache: map<Key, Entry>, k: Key, e: Entry, truth: (Identity, Text) -> Vector)
    requires Faithful(cache, truth) && |e.vector| > 0
    requires e.vector == truth(SplitKey(k).0, SplitKey(k).1) && e.identity == SplitKey(k).0
    ensures Faithful(cache[k := e], truth)
  {
  }

  /** A lookup that answers, answers the provider's vector, and from an entry still in date. */
  lemma LookIsFaithful<F>(s: Shared<F>, identity: Identity, text: Text, now: Time, truth: (Identity, Text) -> Vector)
    requires Faithful(s.cache, truth) && NulFree(identity)
    ensures var (s', answer) := Look(s, identity, text, now);
            && Faithful(s'.cache, truth)
            && (answer.Some? ==>
                  && answer.value == truth(identity, text)
                  && |answer.value| > 0
                  && now <= s.cache[CacheKey(identity, text)].expires
                  && State(s'.states, identity).hits == State(s.states, identity).hits + 1)
            && (answer.None? ==> s'.states == s.states && CacheKey(identity, text) !in s'.cache)
            && (answer.Some? <==> CacheKey(identity, text) in s.cache && now <= s.cache[CacheKey(identity, text)].expires)
            && s'.flights == s.flights
            && (forall k :: k != CacheKey(identity, text) ==> (k in s'.cache <==> k in s.cache) && (k in s.cache ==> s'.cache[k] == s.cache[k]))
            && (forall other :: other != identity ==> State(s'.states, other) == State(s.states, other))
  {
    SplitCacheKey(identity, text);
  }

  /** Some choice of victims always exists, so a store is never stuck. */
  lemma RoomCanBeMade(cache: map<Key, Entry>, room: nat, now: Time)
    requires room >= 1
    ensures exists after :: Evicted(cache, room, now, after)
  {
    if |cache| < room {
      assert Evicted(cache, room, now, cache);
    } else {
      var live := Unexpired(cache, now);
      if |live| < room {
        assert Evicted(cache, room, now, live);
      } else {
        var after := Shrink(live, room - 1);
        assert Evicted(cache, room, now, after);
      }
    }
  }

  ghost function Shrink<K, V>(m: map<K, V>, size: nat): (r: map<K, V>)
    requires size <= |m|
    ensures Submap(r, m) && |r| == size
    decreases |m|
  {
    if |m| == size then m
    else
      var k :| k in m;
      assert (m - {k}).Keys == m.Keys - {k};
      Shrink(m - {k}, size)
  }
}
