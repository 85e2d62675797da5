/** Fixed-window rate limits of API keys: three buckets, minute, hour and day, checked in that
    order, each check one atomic increment in the database.

    Requests of all keys interleave check by check. A key's limits do not change; a limit of
    zero or less is no limit. Times are seconds, and a request uses one clock reading for all
    its checks. */
module ApiRates {
  import opened Common

  type KeyId = string

  datatype Kind = Minute | Hour | Day

  datatype Limits = Limits(perMinute: int, perHour: int, perDay: int)

  const KINDS: seq<Kind> := [Minute, Hour, Day]

  function Length(kind: Kind): int {
    match kind
    case Minute => 60
    case Hour => 3600
    case Day => 86400
  }

  function LimitOf(limits: Limits, kind: Kind): int {
    match kind
    case Minute => limits.perMinute
    case Hour => limits.perHour
    case Day => limits.perDay
  }

  function Start(kind: Kind, now: int): int {
    now - now % Length(kind)
  }

  datatype Bucket = Bucket(key: KeyId, kind: Kind, start: int)

  type Usage = map<Bucket, nat>

  function Used(usage: Usage, b: Bucket): nat {
    if b in usage then usage[b] else 0
  }

  function Bump(usage: Usage, b: Bucket): Usage {
    usage[b := Used(usage, b) + 1]
  }

  // ---- one request on its own ----

  /** The checks from `stage` on: the kind that refused, if one did, and the counts after. */
  function Checked(usage: Usage, key: KeyId, limits: Limits, now: int, stage: nat): (Option<Kind>, Usage)
    decreases 3 - stage
  {
    if stage >= 3 then (None, usage)
    else
      var kind := KINDS[stage];
      if LimitOf(limits, kind) <= 0 then Checked(usage, key, limits, now, stage + 1)
      else
        var b := Bucket(key, kind, Start(kind, now));
        var more := Bump(usage, b);
        if Used(more, b) > LimitOf(limits, kind) then (Some(kind), more)
        else Checked(more, key, limits, now, stage + 1)
  }

  // ---- the same in numbers ----

  /** A limit of that many in that many seconds is used up. */
  predicate UsedUp(usage: Usage, key: KeyId, kind: Kind, length: int, limit: int, now: int)
    requires length > 0
  {
    limit > 0 && Used(usage, Bucket(key, kind, now - now % length)) >= limit
  }

  /** The first of the three that is used up refuses. */
  function Refusal(usage: Usage, key: KeyId, limits: Limits, now: int): Option<Kind> {
    if UsedUp(usage, key, Minute, 60, limits.perMinute, now) then Some(Minute)
    else if UsedUp(usage, key, Hour, 3600, limits.perHour, now) then Some(Hour)
    else if UsedUp(usage, key, Day, 86400, limits.perDay, now) then Some(Day)
    else None
  }

  /** A request is counted in the buckets of the limits there are, up to the one that
      refuses. */
  predicate CountedIn(usage: Usage, key: KeyId, limits: Limits, now: int, b: Bucket) {
    var refusal := Refusal(usage, key, limits, now);
    || (limits.perMinute > 0 && b == Bucket(key, Minute, now - now % 60))
    || (limits.perHour > 0 && refusal != Some(Minute) && b == Bucket(key, Hour, now - now % 3600))
    || (limits.perDay > 0 && refusal != Some(Minute) && refusal != Some(Hour) && b == Bucket(key, Day, now - now % 86400))
  }

  /** One check of the three. */
  lemma OneCheck(usage: Usage, key: KeyId, limits: Limits, now: int, stage: nat, kind: Kind, length: int, limit: int)
    requires (stage, kind, length, limit) in {(0, Minute, 60, limits.perMinute), (1, Hour, 3600, limits.perHour), (2, Day, 86400, limits.perDay)}
    ensures var b := Bucket(key, kind, now - now % length);
            Checked(usage, key, limits, now, stage) ==
              if limit <= 0 then Checked(usage, key, limits, now, stage + 1)
              else if UsedUp(usage, key, kind, length, limit, now) then (Some(kind), Bump(usage, b))
              else Checked(Bump(usage, b), key, limits, now, stage + 1)
  {
  }

  lemma BumpsOne(usage: Usage, bucket: Bucket, b: Bucket)
    ensures Used(Bump(usage, bucket), b) == Used(usage, b) + (if b == bucket then 1 else 0)
  {
  }

  lemma TheDayCheck(usage: Usage, key: KeyId, limits: Limits, now: int, b: Bucket)
    ensures var (day, (refused, after)) := (Bucket(key, Day, now - now % 86400), Checked(usage, key, limits, now, 2));
            && refused == (if UsedUp(usage, key, Day, 86400, limits.perDay, now) then Some(Day) else None)
            && Used(after, b) == Used(usage, b) + (if limits.perDay > 0 && b == day then 1 else 0)
  {
    OneCheck(usage, key, limits, now, 2, Day, 86400, limits.perDay);
    BumpsOne(usage, Bucket(key, Day, now - now % 86400), b);
  }

  lemma TheHourCheck(usage: Usage, key: KeyId, limits: Limits, now: int, b: Bucket)
    ensures var (hour, (refused, after)) := (Bucket(key, Hour, now - now % 3600), Checked(usage, key, limits, now, 1));
            && refused == (if UsedUp(usage, key, Hour, 3600, limits.perHour, now) then Some(Hour)
                           else if UsedUp(usage, key, Day, 86400, limits.perDay, now) then Some(Day) else None)
            && Used(after, b) ==
               Used(usage, b) + (if limits.perHour > 0 && b == hour then 1 else 0)
               + (if limits.perDay > 0 && refused != Some(Hour) && b == Bucket(key, Day, now - now % 86400) then 1 else 0)
  {
    var hour := Bucket(key, Hour, now - now % 3600);
    OneCheck(usage, key, limits, now, 1, Hour, 3600, limits.perHour);
    BumpsOne(usage, hour, b);
    BumpsOne(usage, hour, Bucket(key, Day, now - now % 86400));
    TheDayCheck(if limits.perHour > 0 then Bump(usage, hour) else usage, key, limits, now, b);
  }

  lemma RefusedInNumbers(usage: Usage, key: KeyId, limits: Limits, now: int)
    ensures Checked(usage, key, limits, now, 0).0 == Refusal(usage, key, limits, now)
  {
    var minute := Bucket(key, Minute, now - now % 60);
    OneCheck(usage, key, limits, now, 0, Minute, 60, limits.perMinute);
    BumpsOne(usage, minute, Bucket(key, Hour, now - now % 3600));
    BumpsOne(usage, minute, Bucket(key, Day, now - now % 86400));
    TheHourCheck(if limits.perMinute > 0 then Bump(usage, minute) else usage, key, limits, now, minute);
  }

  lemma CountedInNumbers(usage: Usage, key: KeyId, limits: Limits, now: int, b: Bucket)
    ensures Used(Checked(usage, key, limits, now, 0).1, b) == Used(usage, b) + (if CountedIn(usage, key, limits, now, b) then 1 else 0)
  {
    RefusedInNumbers(usage, key, limits, now);
    var minute := Bucket(key, Minute, now - now % 60);
    OneCheck(usage, key, limits, now, 0, Minute, 60, limits.perMinute);
    if UsedUp(usage, key, Minute, 60, limits.perMinute, now) {
      BumpsOne(usage, minute, b);
    } else {
      CountedPastTheMinute(usage, key, limits, now, b);
    }
  }

  lemma CountedPastTheMinute(usage: Usage, key: KeyId, limits: Limits, now: int, b: Bucket)
    requires !UsedUp(usage, key, Minute, 60, limits.perMinute, now)
    ensures var minute := Bucket(key, Minute, now - now % 60);
            var next := if limits.perMinute > 0 then Bump(usage, minute) else usage;
            Used(Checked(next, key, limits, now, 1).1, b) == Used(usage, b) + (if CountedIn(usage, key, limits, now, b) then 1 else 0)
  {
    var minute := Bucket(key, Minute, now - now % 60);
    BumpsOne(usage, minute, b);
    BumpsOne(usage, minute, Bucket(key, Hour, now - now % 3600));
    BumpsOne(usage, minute, Bucket(key, Day, now - now % 86400));
    TheHourCheck(if limits.perMinute > 0 then Bump(usage, minute) else usage, key, limits, now, b);
  }

  class Limiter {
    var usage: Usage

    constructor ()
      ensures usage == map[]
    {
      usage := map[];
    }

    /** Add one to a bucket, making it if need be, and say how full it is now. */
    method Upsert(b: Bucket) returns (count: nat)
      modifies this
      ensures usage == Bump(old(usage), b) && count == Used(usage, b)
    {
      count := (if b in usage then usage[b] else 0) + 1;
      usage := usage[b := count];
    }

    method ApplyRateLimits(key: KeyId, limits: Limits, now: int) returns (refused: Option<Kind>)
      modifies this
      ensures (refused, usage) == Checked(old(usage), key, limits, now, 0)
      ensures refused == Refusal(old(usage), key, limits, now)
      ensures forall b :: Used(usage, b) == Used(old(usage), b) + (if CountedIn(old(usage), key, limits, now, b) then 1 else 0)
    {
      forall b ensures Used(Checked(usage, key, limits, now, 0).1, b) == Used(usage, b) + (if CountedIn(usage, key, limits, now, b) then 1 else 0) {
        CountedInNumbers(usage, key, limits, now, b);
      }
      RefusedInNumbers(usage, key, limits, now);
      var i := 0;
      while i < 3
        invariant 0 <= i <= 3
        invariant Checked(usage, key, limits, now, i) == Checked(old(usage), key, limits, now, 0)
      {
        var kind := KINDS[i];
        var limit := LimitOf(limits, kind);
        if limit > 0 {
          var count := Upsert(Bucket(key, kind, Start(kind, now)));
          if count > limit {
            return Some(kind);
          }
        }
        i := i + 1;
      }
      refused := None;
    }
  }

  // ---- requests interleaved, check by check ----

  datatype Outcome = Going | Accepted | Refused(kind: Kind)

  /** `stage` checks are behind it. */
  datatype Request = Request(key: KeyId, now: int, stage: nat, outcome: Outcome)

  datatype World = World(usage: Usage, requests: seq<Request>)

  type Policy = KeyId -> Limits

  datatype Step = Arrives(key: KeyId, now: int) | Checks(i: nat)

  predicate Enabled(w: World, step: Step) {
    match step
    case Arrives(_, _) => true
    case Checks(i) => i < |w.requests| && w.requests[i].outcome.Going?
  }

  function BucketOf(r: Request, kind: Kind): Bucket {
    Bucket(r.key, kind, Start(kind, r.now))
  }

  /** After a check passed or there was none to make. */
  function Onward(r: Request): Request {
    r.(stage := r.stage + 1, outcome := if r.stage + 1 >= 3 then Accepted else Going)
  }

  function Effect(w: World, policy: Policy, step: Step): World
    requires Enabled(w, step)
  {
    match step
    case Arrives(key, now) => w.(requests := w.requests + [Request(key, now, 0, Going)])
    case Checks(i) =>
      var r := w.requests[i];
      if r.stage >= 3 then w.(requests := w.requests[i := r.(outcome := Accepted)])
      else
        var kind := KINDS[r.stage];
        var limit := LimitOf(policy(r.key), kind);
        if limit <= 0 then w.(requests := w.requests[i := Onward(r)])
        else
          var more := Bump(w.usage, BucketOf(r, kind));
          World(more, w.requests[i := if Used(more, BucketOf(r, kind)) > limit then r.(outcome := Refused(kind)) else Onward(r)])
  }

  /** Request `i` with nothing going on beside it. */
  function Alone(w: World, policy: Policy, i: nat): (out: World)
    requires i < |w.requests| && w.requests[i].stage <= 3
    ensures |out.requests| == |w.requests|
    decreases 3 - w.requests[i].stage, w.requests[i].outcome.Going?
  {
    if w.requests[i].outcome.Going? then Alone(Effect(w, policy, Checks(i)), policy, i) else w
  }

  /** Its checks, made one by one, are the loop's. */
  lemma {:induction false} AloneIsTheLoop(w: World, policy: Policy, i: nat)
    requires i < |w.requests| && w.requests[i].stage <= 3 && w.requests[i].outcome.Going?
    ensures var r := w.requests[i];
            var (refused, usage) := Checked(w.usage, r.key, policy(r.key), r.now, r.stage);
            && Alone(w, policy, i).usage == usage
            && Alone(w, policy, i).requests[i].outcome == (if refused.Some? then Refused(refused.value) else Accepted)
    decreases 3 - w.requests[i].stage
  {
    var next := Effect(w, policy, Checks(i));
    if next.requests[i].outcome.Going? {
      AloneIsTheLoop(next, policy, i);
    }
  }

  ghost predicate Run(policy: Policy, worlds: seq<World>, steps: seq<Step>) {
    && |worlds| == |steps| + 1 && worlds[0] == World(map[], [])
    && forall k :: 0 <= k < |steps| ==> Enabled(worlds[k], steps[k]) && worlds[k + 1] == Effect(worlds[k], policy, steps[k])
  }

  function Rank(kind: Kind): nat {
    match kind case Minute => 0 case Hour => 1 case Day => 2
  }

  /** The request got past the checks before `kind` and made that one: it is in the bucket. */
  predicate Reached(r: Request, b: Bucket) {
    BucketOf(r, b.kind) == b && (r.stage > Rank(b.kind) || r.outcome == Refused(b.kind))
  }

  predicate Passed(r: Request, b: Bucket) {
    BucketOf(r, b.kind) == b && r.stage > Rank(b.kind)
  }

  function InBucket(b: Bucket): Request -> bool {
    (r: Request) => Reached(r, b)
  }

  function PastBucket(b: Bucket): Request -> bool {
    (r: Request) => Passed(r, b)
  }

  /** A bucket counts exactly the requests that passed the checks before it, and of them the
      first `limit` passed it. */
  ghost predicate BucketInv(w: World, policy: Policy, b: Bucket) {
    var limit := LimitOf(policy(b.key), b.kind);
    limit > 0 ==>
      && Used(w.usage, b) == Count(w.requests, InBucket(b))
      && Count(w.requests, PastBucket(b)) == Min(Used(w.usage, b), limit)
  }

  predicate RequestInv(r: Request) {
    && r.stage <= 3
    && (r.outcome.Accepted? ==> r.stage == 3)
    && (r.outcome.Refused? ==> r.stage == Rank(r.outcome.kind))
  }

  ghost predicate Inv(w: World, policy: Policy) {
    && (forall b :: BucketInv(w, policy, b))
    && (forall i :: 0 <= i < |w.requests| ==> RequestInv(w.requests[i]))
  }

  /** What one check does to one bucket: a request that newly reaches it is counted, and gets
      past it if that is not more than the limit. */
  lemma CheckOnBucket(w: World, policy: Policy, i: nat, b: Bucket)
    requires Enabled(w, Checks(i)) && RequestInv(w.requests[i]) && LimitOf(policy(b.key), b.kind) > 0
    ensures var w' := Effect(w, policy, Checks(i));
            var r, r' := w.requests[i], w'.requests[i];
            && w'.requests == w.requests[i := r']
            && (Reached(r, b) ==> Reached(r', b)) && (Passed(r, b) ==> Passed(r', b))
            && Used(w'.usage, b) == Used(w.usage, b) + (if Reached(r', b) && !Reached(r, b) then 1 else 0)
            && (Passed(r', b) && !Passed(r, b) <==>
                  Reached(r', b) && !Reached(r, b) && Used(w'.usage, b) <= LimitOf(policy(b.key), b.kind))
  {
  }

  lemma StepKeepsBucket(w: World, policy: Policy, i: nat, b: Bucket)
    requires BucketInv(w, policy, b) && Enabled(w, Checks(i)) && RequestInv(w.requests[i])
    ensures BucketInv(Effect(w, policy, Checks(i)), policy, b)
  {
    if LimitOf(policy(b.key), b.kind) > 0 {
      var r' := Effect(w, policy, Checks(i)).requests[i];
      CheckOnBucket(w, policy, i, b);
      CountUpdate(w.requests, i, r', InBucket(b));
      CountUpdate(w.requests, i, r', PastBucket(b));
    }
  }

  lemma StepKeepsInv(w: World, policy: Policy, step: Step)
    requires Inv(w, policy) && Enabled(w, step)
    ensures Inv(Effect(w, policy, step), policy)
  {
    var w' := Effect(w, policy, step);
    forall b ensures BucketInv(w', policy, b) {
      match step
      case Arrives(key, now) =>
        assert BucketInv(w, policy, b);
        CountAppend(w.requests, Request(key, now, 0, Going), InBucket(b));
        CountAppend(w.requests, Request(key, now, 0, Going), PastBucket(b));
      case Checks(i) =>
        assert BucketInv(w, policy, b) && RequestInv(w.requests[i]);
        StepKeepsBucket(w, policy, i, b);
    }
  }

  lemma {:induction false} RunKeepsInv(policy: Policy, worlds: seq<World>, steps: seq<Step>, k: nat)
    requires Run(policy, worlds, steps) && k < |worlds|
    ensures Inv(worlds[k], policy)
  {
    if k > 0 {
      RunKeepsInv(policy, worlds, steps, k - 1);
      StepKeepsInv(worlds[k - 1], policy, steps[k - 1]);
    }
  }

  // ---- what that bounds ----

  /** Accepted requests of a key whose time is in [from, from + length). */
  function AcceptedIn(key: KeyId, from: int, length: int): Request -> bool {
    (r: Request) => r.key == key && r.outcome.Accepted? && from <= r.now < from + length
  }

  lemma {:induction false} CountImplies<T>(s: seq<T>, p: T -> bool, q: T -> bool)
    requires forall x :: x in s && p(x) ==> q(x)
    ensures Count(s, p) <= Count(s, q)
  {
    if s != [] {
      CountImplies(s[..|s| - 1], p, q);
      assert s[|s| - 1] in s;
    }
  }

  lemma {:induction false} CountEither<T>(s: seq<T>, p: T -> bool, q: T -> bool, r: T -> bool)
    requires forall x :: x in s && p(x) ==> q(x) || r(x)
    ensures Count(s, p) <= Count(s, q) + Count(s, r)
  {
    if s != [] {
      CountEither(s[..|s| - 1], p, q, r);
      assert s[|s| - 1] in s;
    }
  }

  /** The quotients of two times less than one length apart differ by at most one. */
  lemma Quotients(length: int, p: int, r: int, q: int, s: int)
    requires length > 0 && 0 <= r < length && 0 <= s < length
    requires length * p + r <= length * q + s < length * p + r + length
    ensures q == p || q == p + 1
    ensures r == 0 ==> q == p
  {
    assert q < p ==> length * q <= length * (p - 1);
    assert q > p + 1 ==> length * q >= length * (p + 2);
    assert length * (p + 1) == length * p + length && length * (p + 2) == length * p + 2 * length;
    assert length * (p - 1) == length * p - length;
  }

  /** A time is at or after the start of its bucket, by its remainder. */
  lemma StartOf(kind: Kind, now: int)
    ensures Start(kind, now) == Length(kind) * (now / Length(kind))
    ensures now == Length(kind) * (now / Length(kind)) + now % Length(kind) && 0 <= now % Length(kind) < Length(kind)
  {
  }

  lemma TwoBuckets(kind: Kind, from: int, now: int)
    requires from <= now < from + Length(kind)
    ensures Start(kind, now) == Start(kind, from) || Start(kind, now) == Start(kind, from) + Length(kind)
    ensures from % Length(kind) == 0 ==> Start(kind, now) == Start(kind, from) == from
  {
    var length, p, q := Length(kind), from / Length(kind), now / Length(kind);
    StartOf(kind, from);
    StartOf(kind, now);
    Quotients(length, p, from % length, q, now % length);
    assert q == p + 1 ==> length * q == length * p + length;
  }

  /** No aligned minute, hour or day takes more accepted requests of a key than its limit,
      and no other interval of that length more than twice as many. */
  lemma NeverMoreThanTwice(policy: Policy, worlds: seq<World>, steps: seq<Step>, k: nat, key: KeyId, kind: Kind, from: int)
    requires Run(policy, worlds, steps) && k < |worlds| && LimitOf(policy(key), kind) > 0
    ensures from % Length(kind) == 0 ==>
      Count(worlds[k].requests, AcceptedIn(key, from, Length(kind))) <= LimitOf(policy(key), kind)
    ensures Count(worlds[k].requests, AcceptedIn(key, from, Length(kind))) <= 2 * LimitOf(policy(key), kind)
  {
    RunKeepsInv(policy, worlds, steps, k);
    var requests, accepted := worlds[k].requests, AcceptedIn(key, from, Length(kind));
    var first := Bucket(key, kind, Start(kind, from));
    var second := Bucket(key, kind, Start(kind, from) + Length(kind));
    assert BucketInv(worlds[k], policy, first) && BucketInv(worlds[k], policy, second);
    forall r | r in requests && accepted(r) ensures Passed(r, first) || Passed(r, second) {
      var i :| 0 <= i < |requests| && requests[i] == r;
      assert RequestInv(requests[i]);
      TwoBuckets(kind, from, r.now);
    }
    CountEither(requests, accepted, PastBucket(first), PastBucket(second));
    if from % Length(kind) == 0 {
      forall r | r in requests && accepted(r) ensures Passed(r, first) {
        var i :| 0 <= i < |requests| && requests[i] == r;
        assert RequestInv(requests[i]);
        TwoBuckets(kind, from, r.now);
      }
      CountImplies(requests, accepted, PastBucket(first));
    }
  }

  /** A bucket with a limit has counted exactly the requests that got as far as its check, and
      let exactly the first `limit` of them on. */
  lemma BucketsCountWhoPassed(policy: Policy, worlds: seq<World>, steps: seq<Step>, k: nat, b: Bucket)
    requires Run(policy, worlds, steps) && k < |worlds| && LimitOf(policy(b.key), b.kind) > 0
    ensures Used(worlds[k].usage, b) == Count(worlds[k].requests, InBucket(b))
    ensures Count(worlds[k].requests, PastBucket(b)) == Min(Used(worlds[k].usage, b), LimitOf(policy(b.key), b.kind))
  {
    RunKeepsInv(policy, worlds, steps, k);
    assert BucketInv(worlds[k], policy, b);
  }

  /** The three limits, each over its own number of seconds. */
  lemma TheThreeLimits(policy: Policy, worlds: seq<World>, steps: seq<Step>, k: nat, key: KeyId, from: int)
    requires Run(policy, worlds, steps) && k < |worlds|
    ensures policy(key).perMinute > 0 ==> WithinTwice(worlds[k].requests, key, from, 60, policy(key).perMinute)
    ensures policy(key).perHour > 0 ==> WithinTwice(worlds[k].requests, key, from, 3600, policy(key).perHour)
    ensures policy(key).perDay > 0 ==> WithinTwice(worlds[k].requests, key, from, 86400, policy(key).perDay)
  {
    if policy(key).perMinute > 0 {
      NeverMoreThanTwice(policy, worlds, steps, k, key, Minute, from);
    }
    if policy(key).perHour > 0 {
      NeverMoreThanTwice(policy, worlds, steps, k, key, Hour, from);
    }
    if policy(key).perDay > 0 {
      NeverMoreThanTwice(policy, worlds, steps, k, key, Day, from);
    }
  }

  /** At most `limit` accepted requests in an interval that starts at a multiple of its length,
      and at most twice as many in any other. */
  ghost predicate WithinTwice(requests: seq<Request>, key: KeyId, from: int, length: int, limit: int)
    requires length > 0
  {
    && (from % length == 0 ==> Count(requests, AcceptedIn(key, from, length)) <= limit)
    && Count(requests, AcceptedIn(key, from, length)) <= 2 * limit
  }
}
