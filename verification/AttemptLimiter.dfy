/** The sliding-window limiter on credential attempts: times kept per key, filtered in place
    on every attempt. */
module AttemptLimiter {
  import opened Common

  // ---- one attempt ----

  /** The times still inside the window, in order. */
  function Within(times: seq<int>, now: int, window: int): seq<int> {
    if times == [] then []
    else
      Within(times[..|times| - 1], now, window)
      + (if now - times[|times| - 1] < window then [times[|times| - 1]] else [])
  }

  function Recent(now: int, window: int): int -> bool {
    t => now - t < window
  }

  /** They are those times of the list that are less than a window ago, each as often. */
  lemma {:induction false} WithinAre(times: seq<int>, now: int, window: int)
    ensures |Within(times, now, window)| == Count(times, Recent(now, window))
    ensures forall t :: multiset(Within(times, now, window))[t] == if now - t < window then multiset(times)[t] else 0
  {
    if times != [] {
      var front, last := times[..|times| - 1], times[|times| - 1];
      WithinAre(front, now, window);
      assert times == front + [last];
    }
  }

  function Times(attempts: map<string, seq<int>>, key: string): seq<int> {
    if key in attempts then attempts[key] else []
  }

  predicate Admits(attempts: map<string, seq<int>>, key: string, limit: int, window: int, now: int) {
    |Within(Times(attempts, key), now, window)| < limit
  }

  function Recorded(attempts: map<string, seq<int>>, key: string, limit: int, window: int, now: int): map<string, seq<int>> {
    attempts[key := Within(Times(attempts, key), now, window)
                    + (if Admits(attempts, key, limit, window, now) then [now] else [])]
  }

  /** Keep in `a[..n]` only the times inside the window, moving them to the front. */
  method FilterInPlace(a: array<int>, n: nat, now: int, window: int) returns (kept: nat)
    requires n <= a.Length
    modifies a
    ensures kept <= n && a[..kept] == Within(old(a[..n]), now, window)
  {
    kept := 0;
    ghost var was := a[..n];
    for i := 0 to n
      invariant kept <= i
      invariant a[i..n] == was[i..]
      invariant a[..kept] == Within(was[..i], now, window)
    {
      assert a[i] == was[i] by { assert a[i..n][0] == was[i..][0]; }
      assert was[..i + 1][..i] == was[..i];
      ghost var rest := a[i + 1..n];
      assert rest == was[i + 1..] by { assert a[i..n][1..] == was[i..][1..]; }
      if now - a[i] < window {
        ghost var front := a[..kept];
        a[kept] := a[i];
        kept := kept + 1;
        assert a[..kept] == front + [was[i]];
      }
    }
    assert was[..n] == was;
  }

  class Limiter {
    var buffers: map<string, array<int>>
    var lengths: map<string, nat>
    /** What the buffers hold. */
    ghost var contents: map<string, seq<int>>

    constructor ()
      ensures Valid() && contents == map[] && buffers == map[]
    {
      buffers, lengths, contents := map[], map[], map[];
    }

    ghost predicate Holds(key: string)
      reads this, set k | k in buffers :: buffers[k]
    {
      && key in buffers && key in lengths && key in contents
      && lengths[key] <= buffers[key].Length && contents[key] == buffers[key][..lengths[key]]
    }

    /** Everything is in order for every key but `except`, and no buffer serves two keys. */
    ghost predicate ValidBut(except: set<string>)
      reads this, set k | k in buffers :: buffers[k]
    {
      && buffers.Keys == lengths.Keys && buffers.Keys == contents.Keys
      && (forall key :: key in buffers && key !in except ==> Holds(key))
      && (forall key, other :: key in buffers && other in buffers && key != other ==> buffers[key] != buffers[other])
    }

    ghost predicate Valid()
      reads this, set k | k in buffers :: buffers[k]
    {
      ValidBut({})
    }

    method Set(key: string, a: array<int>, n: nat, ghost times: seq<int>)
      requires ValidBut({key}) && n <= a.Length && a[..n] == times
      requires forall k :: k in buffers && k != key ==> buffers[k] != a
      modifies this
      ensures Valid() && buffers == old(buffers)[key := a] && contents == old(contents)[key := times]
    {
      buffers, lengths, contents := buffers[key := a], lengths[key := n], contents[key := times];
    }

    /** One more at the end, in place when there is room. */
    static method Append(a: array<int>, n: nat, x: int) returns (b: array<int>)
      requires n <= a.Length
      modifies a
      ensures b == a || fresh(b)
      ensures n < b.Length && b[..n + 1] == old(a[..n]) + [x]
    {
      b := a;
      ghost var was := a[..n];
      if n == a.Length {
        b := new int[2 * n + 1];
        for i := 0 to n
          invariant a[..n] == was && b[..i] == was[..i]
        {
          assert a[i] == was[i];
          b[i] := a[i];
        }
      }
      assert b[..n] == was;
      b[n] := x;
      assert b[..n] == was;
    }

    method AppendTo(key: string, a: array<int>, n: nat, ghost times: seq<int>, x: int)
      requires ValidBut({key}) && n <= a.Length && a[..n] == times
      requires forall k :: k in buffers && k != key ==> buffers[k] != a
      modifies this, a
      ensures Valid() && contents == old(contents)[key := times + [x]]
      ensures key in buffers && (buffers[key] == a || fresh(buffers[key])) && buffers == old(buffers)[key := buffers[key]]
    {
      var b := Append(a, n, x);
      assert forall k :: k in buffers && k != key ==> old(Holds(k));
      Set(key, b, n + 1, times + [x]);
    }

    /** The times of `key` still inside the window, in its own buffer. */
    method Filter(key: string, window: int, now: int) returns (a: array<int>, kept: nat, ghost times: seq<int>)
      requires Valid()
      modifies set k | k in buffers :: buffers[k]
      ensures ValidBut({key}) && kept <= a.Length && a[..kept] == times
      ensures times == Within(Times(contents, key), now, window)
      ensures if key in buffers then a == buffers[key] else fresh(a)
    {
      times := Within(Times(contents, key), now, window);
      kept := 0;
      if key in buffers {
        assert Holds(key);
        a := buffers[key];
        kept := FilterInPlace(a, lengths[key], now, window);
      } else {
        a := new int[0];
      }
      assert forall k :: k in buffers && k != key ==> old(Holds(k));
    }

    /** Take out a key. */
    method Remove(key: string)
      requires ValidBut({key})
      modifies this
      ensures ValidBut({key})
      ensures buffers == old(buffers) - {key} && contents == old(contents) - {key}
    {
      buffers, lengths, contents := buffers - {key}, lengths - {key}, contents - {key};
    }

    /** Take out the key of a list that has emptied. */
    method RemoveIdle(key: string, kept: nat)
      requires ValidBut({key})
      modifies this
      ensures ValidBut({key})
      ensures forall k :: k != key ==> (k in buffers <==> k in old(buffers)) && (k in buffers ==> buffers[k] == old(buffers)[k])
      ensures contents - {key} == old(contents) - {key}
      ensures kept == 0 ==> key !in contents
    {
      if kept == 0 {
        Remove(key);
      }
    }

    /** Record an attempt and say whether it stays within the window. A key whose list has
        emptied is taken out on the way, and is back in at the end on either path. */
    method Allow(key: string, limit: int, window: int, now: int) returns (ok: bool)
      requires Valid()
      modifies this, set k | k in buffers :: buffers[k]
      ensures Valid()
      ensures forall k :: k in buffers ==> fresh(buffers[k]) || (k in old(buffers) && buffers[k] == old(buffers[k]))
      ensures ok <==> Admits(old(contents), key, limit, window, now)
      ensures contents == Recorded(old(contents), key, limit, window, now)
    {
      ghost var times, before := [], contents;
      var a, kept;
      a, kept, times := Filter(key, window, now);
      RemoveIdle(key, kept);
      if kept >= limit {
        PutBack(before, contents, key, times);
        assert times + [] == times;
        Set(key, a, kept, times);
        return false;
      }
      PutBack(before, contents, key, times + [now]);
      AppendTo(key, a, kept, times, now);
      ok := true;
    }
  }

  /** Taking a key out first makes no difference to what is put in for it. */
  lemma PutBack<V>(before: map<string, V>, without: map<string, V>, key: string, v: V)
    requires without - {key} == before - {key}
    ensures without[key := v] == before[key := v]
  {
    assert without[key := v] == (without - {key})[key := v];
    assert before[key := v] == (before - {key})[key := v];
  }

  // ---- runs, under one limit and one window ----

  /** `admitted` are the times of all admissions ever, per key. */
  datatype World = World(attempts: map<string, seq<int>>, admitted: map<string, seq<int>>, clock: int)

  datatype Policy = Policy(limit: int, window: int)

  function Attempted(w: World, p: Policy, key: string, now: int): World {
    World(Recorded(w.attempts, key, p.limit, p.window, now),
          if Admits(w.attempts, key, p.limit, p.window, now) then w.admitted[key := Times(w.admitted, key) + [now]] else w.admitted,
          now)
  }

  ghost predicate Run(p: Policy, worlds: seq<World>, keys: seq<string>) {
    && |worlds| == |keys| + 1
    && worlds[0].attempts == map[] && worlds[0].admitted == map[]
    && forall k :: 0 <= k < |keys| ==>
         worlds[k].clock <= worlds[k + 1].clock && worlds[k + 1] == Attempted(worlds[k], p, keys[k], worlds[k + 1].clock)
  }

  predicate Sorted(times: seq<int>) {
    forall i, j :: 0 <= i < j < |times| ==> times[i] <= times[j]
  }

  /** Any limit + 1 admissions in a row take at least a window. */
  predicate Spaced(times: seq<int>, p: Policy) {
    forall i :: 0 <= i <= i + p.limit < |times| ==> times[i + p.limit] - times[i] >= p.window
  }

  /** What is kept stands for everything ever admitted, from `clock` on. */
  ghost predicate Enough(kept: seq<int>, admitted: seq<int>, clock: int, window: int) {
    forall now :: now >= clock ==> Within(kept, now, window) == Within(admitted, now, window)
  }

  ghost predicate ListInv(kept: seq<int>, admitted: seq<int>, clock: int, p: Policy) {
    && Sorted(admitted) && (forall i :: 0 <= i < |admitted| ==> admitted[i] <= clock)
    && Enough(kept, admitted, clock, p.window)
    && |kept| <= p.limit
    && Spaced(admitted, p)
  }

  ghost predicate KeyInv(w: World, p: Policy, key: string) {
    ListInv(Times(w.attempts, key), Times(w.admitted, key), w.clock, p)
  }

  ghost predicate Inv(w: World, p: Policy) {
    forall key :: KeyInv(w, p, key)
  }

  lemma {:induction false} WithinTwice(times: seq<int>, first: int, now: int, window: int)
    requires first <= now
    ensures Within(Within(times, first, window), now, window) == Within(times, now, window)
    ensures |Within(times, now, window)| <= |times|
  {
    if times != [] {
      var front, last := times[..|times| - 1], times[|times| - 1];
      WithinTwice(front, first, now, window);
      var kept := Within(front, first, window);
      if first - last < window {
        WithinSnoc(kept, last, now, window);
      } else {
        assert kept + [] == kept;
        assert Within(front, now, window) + [] == Within(front, now, window);
      }
    }
  }

  lemma WithinSnoc(times: seq<int>, last: int, now: int, window: int)
    ensures Within(times + [last], now, window) == Within(times, now, window) + (if now - last < window then [last] else [])
  {
    assert (times + [last])[..|times|] == times;
  }

  /** In a sorted list, one time inside the window has all later ones inside with it. */
  lemma {:induction false} LaterOnesAreWithin(times: seq<int>, j: nat, now: int, window: int)
    requires Sorted(times) && j < |times| && now - times[j] < window
    ensures |Within(times, now, window)| >= |times| - j
  {
    var last := |times| - 1;
    if j < last {
      LaterOnesAreWithin(times[..last], j, now, window);
    }
  }

  lemma AdmissionIsSpaced(admitted: seq<int>, p: Policy, now: int)
    requires p.limit >= 1 && Sorted(admitted) && Spaced(admitted, p)
    requires |Within(admitted, now, p.window)| < p.limit
    ensures Spaced(admitted + [now], p)
  {
    var more := admitted + [now];
    forall i | 0 <= i <= i + p.limit < |more| ensures more[i + p.limit] - more[i] >= p.window {
      if i + p.limit == |admitted| && now - admitted[i] < p.window {
        LaterOnesAreWithin(admitted, i, now, p.window);
      }
    }
  }

  /** What is kept is as good as everything ever admitted, from now on. */
  lemma KeptIsEnough(kept: seq<int>, admitted: seq<int>, now: int, later: int, window: int)
    requires now <= later && Within(kept, later, window) == Within(admitted, later, window)
    ensures Within(Within(kept, now, window), later, window) == Within(admitted, later, window)
    ensures Within(Within(kept, now, window) + [now], later, window) == Within(admitted + [now], later, window)
  {
    WithinTwice(kept, now, later, window);
    WithinSnoc(Within(kept, now, window), now, later, window);
    WithinSnoc(admitted, now, later, window);
  }

  lemma StillEnough(kept: seq<int>, admitted: seq<int>, clock: int, now: int, window: int)
    requires Enough(kept, admitted, clock, window) && clock <= now
    ensures Enough(Within(kept, now, window), admitted, now, window)
    ensures Enough(Within(kept, now, window) + [now], admitted + [now], now, window)
  {
    forall later | later >= now
      ensures Within(Within(kept, now, window), later, window) == Within(admitted, later, window)
      ensures Within(Within(kept, now, window) + [now], later, window) == Within(admitted + [now], later, window)
    {
      KeptIsEnough(kept, admitted, now, later, window);
    }
  }

  lemma AttemptKeepsList(kept: seq<int>, admitted: seq<int>, clock: int, p: Policy, now: int)
    requires ListInv(kept, admitted, clock, p) && p.limit >= 1 && clock <= now
    ensures var within := Within(kept, now, p.window);
            if |within| < p.limit then ListInv(within + [now], admitted + [now], now, p)
            else ListInv(within, admitted, now, p)
  {
    WithinTwice(kept, now, now, p.window);
    StillEnough(kept, admitted, clock, now, p.window);
    if |Within(kept, now, p.window)| < p.limit {
      AdmissionIsSpaced(admitted, p, now);
    }
  }

  lemma AttemptKeepsKey(w: World, p: Policy, key: string, now: int)
    requires KeyInv(w, p, key) && p.limit >= 1 && w.clock <= now
    ensures KeyInv(Attempted(w, p, key, now), p, key)
  {
    var kept := Times(w.attempts, key);
    AttemptKeepsList(kept, Times(w.admitted, key), w.clock, p, now);
    assert Within(kept, now, p.window) + [] == Within(kept, now, p.window);
  }

  lemma StepKeepsInv(w: World, p: Policy, key: string, now: int)
    requires Inv(w, p) && p.limit >= 1 && w.clock <= now
    ensures Inv(Attempted(w, p, key, now), p)
  {
    forall other ensures KeyInv(Attempted(w, p, key, now), p, other) {
      assert KeyInv(w, p, other);
      if other == key {
        AttemptKeepsKey(w, p, key, now);
      }
    }
  }

  lemma {:induction false} RunKeepsInv(p: Policy, worlds: seq<World>, keys: seq<string>, k: nat)
    requires Run(p, worlds, keys) && p.limit >= 1 && k < |worlds|
    ensures Inv(worlds[k], p)
  {
    if k > 0 {
      RunKeepsInv(p, worlds, keys, k - 1);
      StepKeepsInv(worlds[k - 1], p, keys[k - 1], worlds[k].clock);
    }
  }

  /** In every run: an attempt is refused exactly when `limit` admissions of its key lie
      inside the window ending now; any limit + 1 admissions of a key in a row take at least
      a window; and no list grows beyond the limit. */
  lemma TheWindowHolds(p: Policy, worlds: seq<World>, keys: seq<string>, k: nat, key: string, now: int)
    requires Run(p, worlds, keys) && p.limit >= 1 && k < |worlds| && worlds[k].clock <= now
    ensures Admits(worlds[k].attempts, key, p.limit, p.window, now) <==>
      Count(Times(worlds[k].admitted, key), Recent(now, p.window)) < p.limit
    ensures Spaced(Times(worlds[k].admitted, key), p)
    ensures |Times(worlds[k].attempts, key)| <= p.limit
  {
    RunKeepsInv(p, worlds, keys, k);
    assert KeyInv(worlds[k], p, key);
    WithinAre(Times(worlds[k].admitted, key), now, p.window);
  }

  /** The list of a key may empty, but the key is never given up again. */
  lemma {:induction false} KeysAccumulate(p: Policy, worlds: seq<World>, keys: seq<string>, k: nat)
    requires Run(p, worlds, keys) && k < |worlds|
    ensures worlds[k].attempts.Keys == set i | 0 <= i < k :: keys[i]
  {
    if k > 0 {
      KeysAccumulate(p, worlds, keys, k - 1);
      assert worlds[k].attempts.Keys == worlds[k - 1].attempts.Keys + {keys[k - 1]};
    }
  }
}
