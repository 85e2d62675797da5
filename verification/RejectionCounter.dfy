/** Counting rejected credentials per address: a bounded map of windows, swept from time to
    time, the overflow counted together. */
module RejectionCounter {
  import opened Common

  const TRACKED := 4096
  const SHARED := "(more addresses than are tracked individually)"

  datatype Win = Win(start: int, count: nat)

  /** `nextPrune` is unset before the first sweep. */
  datatype State = State(nextPrune: Option<int>, windows: map<string, Win>)

  datatype Answer = Answer(attempts: nat, notable: bool, tracked: string)

  // ---- one rejection ----

  /** Go's integer division, which rounds toward zero. */
  function Eighth(window: int): int {
    if window >= 0 then window / 8 else -(-window / 8)
  }

  predicate Due(s: State, now: int) {
    |s.windows| >= TRACKED && (s.nextPrune.None? || now >= s.nextPrune.value)
  }

  predicate Expired(w: Win, window: int, now: int) {
    now - w.start >= window
  }

  function Unexpired(windows: map<string, Win>, window: int, now: int): map<string, Win> {
    map k | k in windows && !Expired(windows[k], window, now) :: windows[k]
  }

  function Swept(s: State, window: int, now: int): State {
    if Due(s, now) then State(Some(now + Eighth(window)), Unexpired(s.windows, window, now)) else s
  }

  function EntryFor(windows: map<string, Win>, address: string): string {
    if address in windows || |windows| < TRACKED then address else SHARED
  }

  function Bumped(windows: map<string, Win>, entry: string, window: int, now: int): Win {
    if entry in windows && !Expired(windows[entry], window, now) then Win(windows[entry].start, windows[entry].count + 1)
    else Win(now, 1)
  }

  predicate Notable(count: nat) {
    count == 1 || count == 10 || count == 100 || count == 1000
  }

  function Counted(s: State, address: string, window: int, now: int): (State, Answer) {
    var swept := Swept(s, window, now);
    var entry := EntryFor(swept.windows, address);
    var win := Bumped(swept.windows, entry, window, now);
    (swept.(windows := swept.windows[entry := win]), Answer(win.count, Notable(win.count), entry))
  }

  /** The windows but for the expired ones, of which those of `left` are still there. */
  predicate SweptSo(before: map<string, Win>, after: map<string, Win>, left: set<string>, window: int, now: int) {
    && after.Keys <= before.Keys
    && (forall k :: k in before ==> (k in after <==> k in left || !Expired(before[k], window, now)))
    && (forall k :: k in after ==> after[k] == before[k])
  }

  lemma SweepOne(before: map<string, Win>, after: map<string, Win>, left: set<string>, other: string, window: int, now: int)
    requires SweptSo(before, after, left, window, now) && other in left && other in after
    ensures SweptSo(before, if Expired(after[other], window, now) then after - {other} else after, left - {other}, window, now)
  {
  }

  lemma SweptAll(before: map<string, Win>, after: map<string, Win>, window: int, now: int)
    requires SweptSo(before, after, {}, window, now)
    ensures after == Unexpired(before, window, now)
  {
  }

  class Window {
    var start: int
    var count: nat

    constructor (start: int)
      ensures this.start == start && count == 0
    {
      this.start, count := start, 0;
    }
  }

  class Counter {
    var nextPrune: Option<int>
    var windows: map<string, Window>
    /** What the windows hold. */
    ghost var contents: map<string, Win>

    constructor ()
      ensures Valid() && Now() == State(None, map[]) && windows == map[]
    {
      nextPrune, windows, contents := None, map[], map[];
    }

    ghost predicate Valid()
      reads this, set k | k in windows :: windows[k]
    {
      && windows.Keys == contents.Keys
      && (forall k :: k in windows ==> contents[k] == Win(windows[k].start, windows[k].count))
      && (forall k, l :: k in windows && l in windows && k != l ==> windows[k] != windows[l])
    }

    ghost function Now(): State
      reads this
    {
      State(nextPrune, contents)
    }

    method DropExpired(other: string, window: int, now: int)
      requires Valid() && other in windows
      modifies this`windows, this`contents
      ensures Valid() && contents == if Expired(old(contents)[other], window, now) then old(contents) - {other} else old(contents)
      ensures windows.Keys <= old(windows.Keys) && forall k :: k in windows ==> windows[k] == old(windows[k])
    {
      if now - windows[other].start >= window {
        windows, contents := windows - {other}, contents - {other};
      }
    }

    method Sweep(window: int, now: int)
      requires Valid()
      modifies this`windows, this`contents
      ensures Valid() && contents == Unexpired(old(contents), window, now)
      ensures forall k :: k in windows ==> k in old(windows) && windows[k] == old(windows[k])
    {
      ghost var before := contents;
      var left := windows.Keys;
      while left != {}
        invariant left <= windows.Keys && Valid() && SweptSo(before, contents, left, window, now)
        invariant windows.Keys <= old(windows.Keys) && forall k :: k in windows ==> windows[k] == old(windows[k])
        decreases |left|
      {
        var other :| other in left;
        SweepOne(before, contents, left, other, window, now);
        left := left - {other};
        DropExpired(other, window, now);
      }
      SweptAll(before, contents, window, now);
    }

    /** One more in a window, which is there or is made. */
    method Bump(entry: string, window: int, now: int) returns (attempts: nat)
      requires Valid()
      modifies this`windows, this`contents, set k | k in windows :: windows[k]
      ensures Valid()
      ensures contents == old(contents)[entry := Bumped(old(contents), entry, window, now)]
      ensures attempts == contents[entry].count
      ensures forall k :: k in windows ==> fresh(windows[k]) || (k in old(windows) && windows[k] == old(windows[k]))
    {
      var seen;
      if entry !in windows {
        seen := new Window(now);
        windows := windows[entry := seen];
      } else {
        seen := windows[entry];
        if now - seen.start >= window {
          seen.start, seen.count := now, 0;
        }
      }
      seen.count := seen.count + 1;
      contents := contents[entry := Win(seen.start, seen.count)];
      attempts := seen.count;
    }

    method SweepIfDue(window: int, now: int)
      requires Valid()
      modifies this
      ensures Valid() && Now() == Swept(old(Now()), window, now)
      ensures forall k :: k in windows ==> k in old(windows) && windows[k] == old(windows[k])
    {
      SameSize();
      if |windows| >= TRACKED && (nextPrune.None? || now >= nextPrune.value) {
        Sweep(window, now);
        nextPrune := Some(now + Eighth(window));
      }
    }

    static method IsNotable(count: nat) returns (notable: bool)
      ensures notable <==> Notable(count)
    {
      notable := false;
      var decade := 1;
      while decade <= 1000
        invariant decade in {1, 10, 100, 1000, 10000}
        invariant !notable && (Notable(count) ==> count >= decade)
        decreases 10000 - decade
      {
        if count == decade {
          return true;
        }
        decade := decade * 10;
      }
    }

    /** Count one rejection. */
    method Count(address: string, window: int, now: int) returns (answer: Answer)
      requires Valid()
      modifies this, set k | k in windows :: windows[k]
      ensures Valid()
      ensures (Now(), answer) == Counted(old(Now()), address, window, now)
      ensures forall k :: k in windows ==> fresh(windows[k]) || (k in old(windows) && windows[k] == old(windows[k]))
    {
      SweepIfDue(window, now);
      SameSize();
      var tracked := if address !in windows && |windows| >= TRACKED then SHARED else address;
      var attempts := Bump(tracked, window, now);
      var notable := IsNotable(attempts);
      answer := Answer(attempts, notable, tracked);
    }

    lemma SameSize()
      requires Valid()
      ensures |windows| == |contents|
    {
      assert |windows| == |windows.Keys| && |contents| == |contents.Keys|;
    }
  }

  // ---- runs, under one window ----

  datatype Event = Event(entry: string, notable: bool, at: int)

  /** `log` has every rejection, `since` where in it each entry's window starts, `sweeps` the
      times of all sweeps. */
  datatype World = World(state: State, log: seq<Event>, since: map<string, nat>, sweeps: seq<int>, clock: int)

  function Rejected(w: World, window: int, address: string, now: int): World {
    var (state, answer) := Counted(w.state, address, window, now);
    World(state, w.log + [Event(answer.tracked, answer.notable, now)],
          if answer.attempts == 1 then w.since[answer.tracked := |w.log|] else w.since,
          if Due(w.state, now) then w.sweeps + [now] else w.sweeps,
          now)
  }

  ghost predicate Run(window: int, worlds: seq<World>, addresses: seq<string>) {
    && |worlds| == |addresses| + 1
    && worlds[0].state == State(None, map[]) && worlds[0].log == [] && worlds[0].since == map[] && worlds[0].sweeps == []
    && forall k :: 0 <= k < |addresses| ==>
         worlds[k].clock <= worlds[k + 1].clock && worlds[k + 1] == Rejected(worlds[k], window, addresses[k], worlds[k + 1].clock)
  }

  function Under(entry: string): Event -> bool {
    (e: Event) => e.entry == entry
  }

  function NotableUnder(entry: string): Event -> bool {
    (e: Event) => e.entry == entry && e.notable
  }

  /** How many of 1, 10, 100 and 1000 are at most `n`. */
  function Decades(n: nat): nat {
    if n >= 1000 then 4 else if n >= 100 then 3 else if n >= 10 then 2 else if n >= 1 then 1 else 0
  }

  /** An entry's count is the rejections under it since its window opened, and its notable
      ones are those the decades call for. */
  ghost predicate EntryInv(w: World, window: int, entry: string)
    requires entry in w.state.windows
  {
    && entry in w.since && Tallied(w.log, w.since[entry], entry, w.state.windows[entry].count)
    && InOneWindow(w.log, w.since[entry], entry, window) && w.log[w.since[entry]].at == w.state.windows[entry].start
    && w.state.windows[entry].count >= 1
  }

  /** From the one at `from` on, the rejections under an entry are less than a window after it,
      or at the same time. */
  predicate InOneWindow(log: seq<Event>, from: nat, entry: string, window: int) {
    && from < |log| && log[from].entry == entry
    && forall i :: from <= i < |log| && log[i].entry == entry ==> log[i].at == log[from].at || log[i].at - log[from].at < window
  }

  ghost predicate Tallied(log: seq<Event>, from: nat, entry: string, count: nat) {
    && from < |log|
    && count == Count(log[from..], Under(entry))
    && Count(log[from..], NotableUnder(entry)) == Decades(count)
  }

  /** Beside one entry that always finds room, no more than are tracked. */
  predicate Fits(keys: set<string>, always: string) {
    |keys - {always}| <= TRACKED
  }

  predicate SweepsInv(w: World, window: int) {
    && (forall i :: 0 < i < |w.sweeps| ==> w.sweeps[i] - w.sweeps[i - 1] >= Eighth(window))
    && (w.sweeps != [] ==> w.state.nextPrune == Some(w.sweeps[|w.sweeps| - 1] + Eighth(window)))
  }

  ghost predicate Inv(w: World, window: int) {
    && Fits(w.state.windows.Keys, SHARED) && SweepsInv(w, window)
    && forall entry :: entry in w.state.windows ==> EntryInv(w, window, entry)
  }

  lemma SmallerFits(keys: set<string>, smaller: set<string>, always: string)
    requires Fits(keys, always) && smaller <= keys
    ensures Fits(smaller, always)
  {
    SubsetSize(smaller - {always}, keys - {always});
  }

  lemma OneMoreFits(keys: set<string>, entry: string, always: string)
    requires Fits(keys, always)
    requires entry in keys || entry == always || |keys| < TRACKED
    ensures Fits(keys + {entry}, always)
  {
    if entry == always || entry in keys {
      assert keys + {entry} - {always} == keys - {always};
    } else {
      SubsetSize(keys - {always}, keys);
      assert keys + {entry} - {always} == (keys - {always}) + {entry};
    }
  }

  lemma SweptIsSmaller(s: State, window: int, now: int)
    ensures Swept(s, window, now).windows.Keys <= s.windows.Keys
  {
  }

  lemma EntryFits(windows: map<string, Win>, address: string, win: Win)
    requires Fits(windows.Keys, SHARED)
    ensures Fits(windows[EntryFor(windows, address) := win].Keys, SHARED)
  {
    var entry := EntryFor(windows, address);
    assert |windows.Keys| == |windows|;
    OneMoreFits(windows.Keys, entry, SHARED);
    assert windows[entry := win].Keys == windows.Keys + {entry};
  }

  lemma CountedFits(s: State, address: string, window: int, now: int)
    requires Fits(s.windows.Keys, SHARED)
    ensures Fits(Counted(s, address, window, now).0.windows.Keys, SHARED)
  {
    var swept := Swept(s, window, now);
    SweptIsSmaller(s, window, now);
    SmallerFits(s.windows.Keys, swept.windows.Keys, SHARED);
    EntryFits(swept.windows, address, Bumped(swept.windows, EntryFor(swept.windows, address), window, now));
  }

  lemma DecadesStep(n: nat)
    ensures Decades(n + 1) == Decades(n) + (if Notable(n + 1) then 1 else 0)
  {
  }

  /** One more event in the log, seen from one entry. */
  lemma SinceGrows(log: seq<Event>, from: nat, e: Event, entry: string)
    requires from <= |log|
    ensures (log + [e])[from..] == log[from..] + [e]
    ensures Count((log + [e])[from..], Under(entry)) == Count(log[from..], Under(entry)) + (if e.entry == entry then 1 else 0)
    ensures Count((log + [e])[from..], NotableUnder(entry))
            == Count(log[from..], NotableUnder(entry)) + (if e.entry == entry && e.notable then 1 else 0)
  {
    CountAppend(log[from..], e, Under(entry));
    CountAppend(log[from..], e, NotableUnder(entry));
  }

  lemma TallyOpens(log: seq<Event>, entry: string, now: int)
    ensures Tallied(log + [Event(entry, true, now)], |log|, entry, 1)
  {
    SinceGrows(log, |log|, Event(entry, true, now), entry);
  }

  lemma TallyGrows(log: seq<Event>, from: nat, entry: string, count: nat, e: Event)
    requires Tallied(log, from, entry, count)
    requires e.entry == entry ==> e.notable == Notable(count + 1)
    ensures Tallied(log + [e], from, entry, if e.entry == entry then count + 1 else count)
  {
    SinceGrows(log, from, e, entry);
    DecadesStep(count);
  }

  lemma EntryKept(w: World, window: int, address: string, now: int, entry: string)
    requires entry in w.state.windows ==> EntryInv(w, window, entry)
    requires entry in Rejected(w, window, address, now).state.windows
    ensures EntryInv(Rejected(w, window, address, now), window, entry)
  {
    var answer := Counted(w.state, address, window, now).1;
    if entry == answer.tracked && answer.attempts == 1 {
      TallyOpens(w.log, entry, now);
    } else {
      TallyGrows(w.log, w.since[entry], entry, w.state.windows[entry].count, Event(answer.tracked, answer.notable, now));
    }
  }

  lemma SweepsStep(w: World, window: int, address: string, now: int)
    requires SweepsInv(w, window)
    ensures SweepsInv(Rejected(w, window, address, now), window)
  {
  }

  lemma StepKeepsInv(w: World, window: int, address: string, now: int)
    requires Inv(w, window) && w.clock <= now
    ensures Inv(Rejected(w, window, address, now), window)
  {
    CountedFits(w.state, address, window, now);
    SweepsStep(w, window, address, now);
    var w' := Rejected(w, window, address, now);
    forall entry | entry in w'.state.windows ensures EntryInv(w', window, entry) {
      EntryKept(w, window, address, now, entry);
    }
  }

  lemma {:induction false} RunKeepsInv(window: int, worlds: seq<World>, addresses: seq<string>, k: nat)
    requires Run(window, worlds, addresses) && k < |worlds|
    ensures Inv(worlds[k], window)
    ensures |worlds[k].log| == k
  {
    if k == 0 {
      assert worlds[0].state.windows.Keys - {SHARED} == {};
    } else {
      RunKeepsInv(window, worlds, addresses, k - 1);
      StepKeepsInv(worlds[k - 1], window, addresses[k - 1], worlds[k].clock);
    }
  }

  /** In every run there are at most 4097 entries, an entry's notable rejections are as
      many as the decades its count has reached, and sweeps keep their distance. */
  lemma TheCounterIsBounded(window: int, worlds: seq<World>, addresses: seq<string>, k: nat)
    requires Run(window, worlds, addresses) && k < |worlds|
    ensures |worlds[k].state.windows| <= 4097
    ensures forall entry :: entry in worlds[k].state.windows ==> EntryInv(worlds[k], window, entry)
    ensures window >= 0 ==> forall i :: 0 < i < |worlds[k].sweeps| ==> worlds[k].sweeps[i] - worlds[k].sweeps[i - 1] >= window / 8
  {
    RunKeepsInv(window, worlds, addresses, k);
    var keys := worlds[k].state.windows.Keys;
    SubsetSize(keys, (keys - {SHARED}) + {SHARED});
  }

  /** One rejection: an entry is given up, or its count begun again, only when its window is
      over. */
  lemma NotBeforeItIsOver(w: World, window: int, address: string, now: int, entry: string)
    requires entry in w.state.windows && EntryInv(w, window, entry)
    ensures var w' := Rejected(w, window, address, now);
            entry !in w'.state.windows || w'.since[entry] != w.since[entry] ==> now - w.log[w.since[entry]].at >= window
  {
  }

  /** One rejection when a sweep is due. */
  lemma OverIsGone(w: World, window: int, address: string, now: int, entry: string)
    requires Due(w.state, now) && entry in Rejected(w, window, address, now).state.windows
    ensures var start := Rejected(w, window, address, now).state.windows[entry].start; now - start < window || start == now
  {
  }

  /** A window is one window: an entry's count is of rejections less than a window after its
      first, and it is only given up, or begun again, a whole window after that. */
  lemma ACountIsOneWindow(window: int, worlds: seq<World>, addresses: seq<string>, k: nat, entry: string)
    requires Run(window, worlds, addresses) && k < |addresses| && entry in worlds[k].state.windows
    ensures entry in worlds[k].since && InOneWindow(worlds[k].log, worlds[k].since[entry], entry, window)
    ensures worlds[k].state.windows[entry].count == Count(worlds[k].log[worlds[k].since[entry]..], Under(entry))
    ensures entry !in worlds[k + 1].state.windows || worlds[k + 1].since[entry] != worlds[k].since[entry] ==>
      worlds[k + 1].clock - worlds[k].log[worlds[k].since[entry]].at >= window
  {
    RunKeepsInv(window, worlds, addresses, k);
    var w := worlds[k];
    assert EntryInv(w, window, entry);
    NotBeforeItIsOver(w, window, addresses[k], worlds[k + 1].clock, entry);
  }

  /** When 4096 addresses are tracked and the last sweep is an eighth of a window ago, or there
      has been none, what is older than a window goes. */
  lemma AFullMapIsSwept(window: int, worlds: seq<World>, addresses: seq<string>, k: nat, entry: string)
    requires Run(window, worlds, addresses) && k < |addresses| && window >= 0 && |worlds[k].state.windows| >= 4096
    requires worlds[k].sweeps != [] ==> worlds[k + 1].clock - worlds[k].sweeps[|worlds[k].sweeps| - 1] >= window / 8
    requires entry in worlds[k + 1].state.windows
    ensures var (w, since) := (worlds[k + 1], worlds[k + 1].state.windows[entry].start);
            w.clock - since < window || since == w.clock
  {
    RunKeepsInv(window, worlds, addresses, k);
    SweptBefore(window, worlds, addresses, k);
    var w, w' := worlds[k], worlds[k + 1];
    DueAnEighthLater(w, window, w'.clock);
    assert w' == Rejected(w, window, addresses[k], w'.clock);
    OverIsGone(w, window, addresses[k], w'.clock, entry);
  }

  lemma DueAnEighthLater(w: World, window: int, now: int)
    requires SweepsInv(w, window) && window >= 0 && |w.state.windows| >= 4096
    requires if w.sweeps == [] then w.state.nextPrune.None? else now - w.sweeps[|w.sweeps| - 1] >= window / 8
    ensures Due(w.state, now)
  {
  }

  /** Before the first sweep there is no time set for the next. */
  lemma {:induction false} SweptBefore(window: int, worlds: seq<World>, addresses: seq<string>, k: nat)
    requires Run(window, worlds, addresses) && k < |worlds|
    ensures worlds[k].sweeps == [] ==> worlds[k].state.nextPrune.None?
  {
    if k > 0 {
      SweptBefore(window, worlds, addresses, k - 1);
    }
  }

  /** A rejection is counted under its own address or, when that is new and the map is full,
      under the shared entry; under that entry only, and nothing but a sweep touches another. */
  lemma CountedUnderOneEntry(s: State, address: string, window: int, now: int, other: string)
    requires other != Counted(s, address, window, now).1.tracked
    ensures var (s', answer) := Counted(s, address, window, now);
            && (answer.tracked == address
                || (answer.tracked == SHARED && address !in s'.windows && |s'.windows| >= 4096))
            && (other in s'.windows <==> other in s.windows && (Due(s, now) ==> !Expired(s.windows[other], window, now)))
            && (other in s'.windows ==> s'.windows[other] == s.windows[other])
            && answer.tracked in s'.windows && s'.windows[answer.tracked].count == answer.attempts
  {
  }
}
