/** The cached source adapters over the versioned settings.

    A call reads the live version, looks in the cache, and on a miss loads the setting and
    installs what it built, each at its own instant; the settings move on in between. An
    adapter is identified with the setting value it was built from. `log` keeps the live
    rows of every instant, the last entry being now. */
module AdapterCache {
  import opened Common
  import opened SettingsTree
  import Guard = SettingsGuard
  import Store = SettingsStore

  type Category = Store.Category

  type Adapter = Fields

  // ---- the cache itself ----

  datatype Cached = Cached(adapter: Adapter, version: nat)

  /** A hit is an entry under the version that was read. */
  function Hit(adapters: map<Category, Cached>, c: Category, version: nat): Option<Adapter> {
    if c in adapters && adapters[c].version == version then Some(adapters[c].adapter) else None
  }

  class Adapters {
    var adapters: map<Category, Cached>

    constructor ()
      ensures adapters == map[]
    {
      adapters := map[];
    }

    /** One call with nothing going on beside it: the adapter of the live setting, kept under
        its version, and whatever the cache holds for that version when it holds something.
        `builds` says whether an adapter can be made of a value. */
    method SourceAdapter(settings: Store.Settings, c: Category, builds: Fields -> bool) returns (r: Option<Adapter>)
      modifies this
      ensures r.None? ==> adapters == old(adapters)
      ensures r.None? <==> c !in settings.live
                           || (Hit(old(adapters), c, settings.live[c].version).None? && !builds(settings.live[c].value))
      ensures r.Some? ==> Hit(adapters, c, settings.live[c].version) == r && adapters == old(adapters)[c := adapters[c]]
      ensures r.Some? && Hit(old(adapters), c, settings.live[c].version).None? ==> r.value == settings.live[c].value
      ensures r.Some? && Hit(old(adapters), c, settings.live[c].version).Some? ==> adapters == old(adapters)
      ensures c in settings.live && c in old(adapters) && old(adapters)[c].version == settings.live[c].version ==>
        r == Some(old(adapters)[c].adapter)
      ensures c in settings.live && !(c in old(adapters) && old(adapters)[c].version == settings.live[c].version) ==>
        r == if builds(settings.live[c].value) then Some(settings.live[c].value) else None
    {
      if c !in settings.live {
        return None;
      }
      var version := settings.live[c].version;
      if c in adapters && adapters[c].version == version {
        assert adapters == adapters[c := adapters[c]];
        return Some(adapters[c].adapter);
      }
      var value := settings.live[c].value;
      if !builds(value) {
        return None;
      }
      adapters := adapters[c := Cached(value, version)];
      r := Some(value);
    }
  }

  // ---- calls, interleaved with each other and with the settings ----

  /** `loaded` is the instant the adapter's value was read. */
  datatype Entry = Entry(cached: Cached, loaded: nat)

  /** `start`, `at` and `end` are instants; `when` is one at which the adapter's value was
      live. */
  datatype Call =
    | Started(c: Category, start: nat)
    | Read(c: Category, start: nat, version: nat, at: nat)
    | Missed(c: Category, start: nat, version: nat, at: nat)
    | Loaded(c: Category, start: nat, version: nat, adapter: Adapter, at: nat)
    | Returned(c: Category, start: nat, adapter: Adapter, end: nat, when: nat)
    | Failed

  datatype World = World(settings: Store.World, log: seq<map<Category, Store.Live>>, cache: map<Category, Entry>, calls: seq<Call>)

  datatype Step =
    | Moves(step: Store.Step)
    | Starts(c: Category)
    | Reads(i: nat)
    | Looks(i: nat)
    | Loads(i: nat)
    | Fails(i: nat)
    | Installs(i: nat)

  function Now(w: World): nat {
    if w.log == [] then 0 else |w.log| - 1
  }

  function Live(w: World): map<Category, Store.Live> {
    w.settings.store.live
  }

  function With(w: World, i: nat, call: Call): World
    requires i < |w.calls|
  {
    w.(calls := w.calls[i := call])
  }

  ghost predicate Enabled(norm: Store.Normal, w: World, step: Step) {
    match step
    case Moves(s) => Store.Enabled(norm, w.settings, s)
    case Starts(c) => true
    case Reads(i) => i < |w.calls| && w.calls[i].Started?
    case Looks(i) => i < |w.calls| && w.calls[i].Read?
    case Loads(i) => i < |w.calls| && w.calls[i].Missed?
    case Fails(i) => i < |w.calls| && !w.calls[i].Returned?
    case Installs(i) => i < |w.calls| && w.calls[i].Loaded?
  }

  function Acted(norm: Store.Normal, w: World, step: Step): World
    requires Enabled(norm, w, step)
  {
    match step
    case Moves(s) => w.(settings := Store.Effect(w.settings, s))
    case Starts(c) => w.(calls := w.calls + [Started(c, Now(w))])
    case Reads(i) =>
      var Started(c, start) := w.calls[i];
      With(w, i, if c in Live(w) then Read(c, start, Live(w)[c].version, Now(w)) else Failed)
    case Looks(i) =>
      var Read(c, start, version, at) := w.calls[i];
      if c in w.cache && w.cache[c].cached.version == version then
        With(w, i, Returned(c, start, w.cache[c].cached.adapter, Now(w), Max(w.cache[c].loaded, at)))
      else With(w, i, Missed(c, start, version, at))
    case Loads(i) =>
      var Missed(c, start, version, _) := w.calls[i];
      With(w, i, if c in Live(w) then Loaded(c, start, version, Live(w)[c].value, Now(w)) else Failed)
    case Fails(i) => With(w, i, Failed)
    case Installs(i) =>
      var Loaded(c, start, version, adapter, at) := w.calls[i];
      With(w, i, Returned(c, start, adapter, Now(w), at)).(cache := w.cache[c := Entry(Cached(adapter, version), at)])
  }

  function Effect(norm: Store.Normal, w: World, step: Step): World
    requires Enabled(norm, w, step)
  {
    var w' := Acted(norm, w, step);
    w'.(log := w'.log + [Live(w')])
  }

  const START := World(Store.START, [map[]], map[], [])

  ghost predicate Run(norm: Store.Normal, worlds: seq<World>, steps: seq<Step>) {
    && |worlds| == |steps| + 1 && worlds[0] == START
    && forall k :: 0 <= k < |steps| ==> Enabled(norm, worlds[k], steps[k]) && worlds[k + 1] == Effect(norm, worlds[k], steps[k])
  }

  // ---- what every run keeps ----

  predicate Serves(log: seq<map<Category, Store.Live>>, c: Category, t: nat, value: Fields) {
    t < |log| && c in log[t] && log[t][c].value == value
  }

  /** Of two instants the later one is at the same version or a newer one. */
  predicate Grows(log: seq<map<Category, Store.Live>>, c: Category) {
    forall a, b :: 0 <= a <= b < |log| && c in log[a] && c in log[b] ==>
      log[a][c].version <= log[b][c].version && (log[a][c].version == log[b][c].version ==> log[a][c] == log[b][c])
  }

  predicate LogInv(s: Store.Store, log: seq<map<Category, Store.Live>>, c: Category) {
    Grows(log, c) && forall t :: 0 <= t < |log| && c in log[t] ==> Store.InHistory(s, c, log[t][c])
  }

  /** A cached adapter is under its own version or an older one. */
  predicate EntryInv(log: seq<map<Category, Store.Live>>, c: Category, e: Entry) {
    Serves(log, c, e.loaded, e.cached.adapter) && e.cached.version <= log[e.loaded][c].version
  }

  predicate CallInv(log: seq<map<Category, Store.Live>>, call: Call) {
    match call
    case Started(c, start) => start < |log|
    case Read(c, start, version, at) => start <= at < |log| && c in log[at] && log[at][c].version == version
    case Missed(c, start, version, at) => start <= at < |log| && c in log[at] && log[at][c].version == version
    case Loaded(c, start, version, adapter, at) => start <= at && Serves(log, c, at, adapter) && version <= log[at][c].version
    case Returned(c, start, adapter, end, when) => start <= when <= end < |log| && Serves(log, c, when, adapter)
    case Failed => true
  }

  ghost predicate Inv(norm: Store.Normal, w: World) {
    && Store.Inv(norm, w.settings)
    && w.log != [] && w.log[|w.log| - 1] == Live(w)
    && (forall c :: LogInv(w.settings.store, w.log, c))
    && (forall c :: c in w.cache ==> EntryInv(w.log, c, w.cache[c]))
    && (forall i :: 0 <= i < |w.calls| ==> CallInv(w.log, w.calls[i]))
  }

  /** The settings moved, or nothing did: the log takes the new live rows. */
  lemma LogKeepsInv(norm: Store.Normal, before: Store.Store, after: Store.World, log: seq<map<Category, Store.Live>>, c: Category)
    requires LogInv(before, log, c) && Store.Inv(norm, after)
    requires Store.History(before, c) <= Store.History(after.store, c)
    ensures LogInv(after.store, log + [after.store.live], c)
  {
    var h := Store.History(after.store, c);
    assert Store.CategoryInv(after.store, c);
    forall t | 0 <= t < |log| && c in log[t]
      ensures Store.InHistory(after.store, c, log[t][c])
      ensures c in after.store.live ==>
        log[t][c].version <= after.store.live[c].version
        && (log[t][c].version == after.store.live[c].version ==> log[t][c] == after.store.live[c])
    {
      assert Store.InHistory(before, c, log[t][c]);
      var k :| 0 <= k < |Store.History(before, c)| && Store.History(before, c)[k] == Store.Version(log[t][c].version, log[t][c].value);
      assert h[k] == Store.Version(log[t][c].version, log[t][c].value);
    }
  }

  /** Nothing said about a log is undone by what comes after. */
  lemma LogGrows(log: seq<map<Category, Store.Live>>, row: map<Category, Store.Live>)
    ensures forall call :: CallInv(log, call) ==> CallInv(log + [row], call)
    ensures forall c, e :: EntryInv(log, c, e) ==> EntryInv(log + [row], c, e)
  {
  }

  /** A hit: the entry's value was live when it was loaded, and that was after the version
      was read unless the two are the same version. */
  lemma HitIsLive(log: seq<map<Category, Store.Live>>, call: Call, e: Entry, end: nat)
    requires call.Read? && CallInv(log, call) && EntryInv(log, call.c, e) && Grows(log, call.c)
    requires e.cached.version == call.version && end == |log| - 1
    ensures CallInv(log, Returned(call.c, call.start, e.cached.adapter, end, Max(e.loaded, call.at)))
  {
    if e.loaded <= call.at {
      assert log[e.loaded][call.c].version <= log[call.at][call.c].version;
    }
  }

  lemma ActedKeepsCalls(norm: Store.Normal, w: World, step: Step)
    requires Inv(norm, w) && Enabled(norm, w, step)
    ensures var w' := Acted(norm, w, step);
            && (forall i :: 0 <= i < |w'.calls| ==> CallInv(w.log, w'.calls[i]))
            && (forall c :: c in w'.cache ==> EntryInv(w.log, c, w'.cache[c]))
  {
    match step
    case Looks(i) =>
      var call := w.calls[i];
      assert LogInv(w.settings.store, w.log, call.c) && CallInv(w.log, call);
      if call.c in w.cache && w.cache[call.c].cached.version == call.version {
        HitIsLive(w.log, call, w.cache[call.c], Now(w));
      }
    case Loads(i) =>
      assert LogInv(w.settings.store, w.log, w.calls[i].c) && CallInv(w.log, w.calls[i]);
    case Reads(i) => assert CallInv(w.log, w.calls[i]);
    case Installs(i) => assert CallInv(w.log, w.calls[i]);
    case _ =>
  }

  lemma StepKeepsInv(norm: Store.Normal, w: World, step: Step)
    requires Inv(norm, w) && Enabled(norm, w, step)
    ensures Inv(norm, Effect(norm, w, step))
  {
    var w' := Effect(norm, w, step);
    if step.Moves? {
      Store.StepKeepsInv(norm, w.settings, step.step);
    }
    forall c ensures LogInv(w'.settings.store, w'.log, c) {
      if step.Moves? {
        Store.StepGrows(norm, w.settings, step.step, c);
      }
      assert LogInv(w.settings.store, w.log, c);
      LogKeepsInv(norm, w.settings.store, w'.settings, w.log, c);
    }
    ActedKeepsCalls(norm, w, step);
    LogGrows(w.log, Live(w'));
  }

  lemma {:induction false} RunKeepsInv(norm: Store.Normal, worlds: seq<World>, steps: seq<Step>, k: nat)
    requires Run(norm, worlds, steps) && k < |worlds|
    ensures Inv(norm, worlds[k])
    ensures |worlds[k].log| == k + 1 && worlds[k].log[k] == Live(worlds[k])
  {
    if k > 0 {
      RunKeepsInv(norm, worlds, steps, k - 1);
      StepKeepsInv(norm, worlds[k - 1], steps[k - 1]);
    }
  }

  /** Every adapter a call returns, hit or miss, was built from a value that was live at some
      instant between the call's start and its return. */
  lemma EveryAdapterWasLive(norm: Store.Normal, worlds: seq<World>, steps: seq<Step>, i: nat)
    requires Run(norm, worlds, steps)
    requires i < |worlds[|steps|].calls| && worlds[|steps|].calls[i].Returned?
    ensures var w := worlds[|steps|];
            var call := w.calls[i];
            exists t :: call.start <= t <= call.end && Serves(w.log, call.c, t, call.adapter)
  {
    RunKeepsInv(norm, worlds, steps, |steps|);
    assert CallInv(worlds[|steps|].log, worlds[|steps|].calls[i]);
  }

  /** So a call that starts after a save was committed never returns anything older than it. */
  lemma ASaveReachesTheNextCall(norm: Store.Normal, worlds: seq<World>, steps: seq<Step>, i: nat)
    requires Run(norm, worlds, steps)
    requires i < |worlds[|steps|].calls| && worlds[|steps|].calls[i].Returned?
    requires var w := worlds[|steps|];
             w.calls[i].start < |w.log| && w.calls[i].c in w.log[w.calls[i].start]
    ensures var w := worlds[|steps|];
            var call := w.calls[i];
            exists t :: call.start <= t <= call.end && Serves(w.log, call.c, t, call.adapter)
                        && w.log[t][call.c].version >= w.log[call.start][call.c].version
  {
    var w := worlds[|steps|];
    var call := w.calls[i];
    RunKeepsInv(norm, worlds, steps, |steps|);
    assert CallInv(w.log, call) && LogInv(w.settings.store, w.log, call.c);
    assert Serves(w.log, call.c, call.when, call.adapter);
  }

  // ---- what one step of a call does ----

  /** A look finds exactly what is kept under the version that was read; a load takes the
      setting that is live then; and what is built is kept under the version read before. */
  lemma WhatACallDoes(norm: Store.Normal, w: World, step: Step)
    requires Enabled(norm, w, step)
    ensures step.Looks? ==>
      var (call, next) := (w.calls[step.i], Effect(norm, w, step).calls[step.i]);
      if call.c in w.cache && w.cache[call.c].cached.version == call.version then
        next.Returned? && next.c == call.c && next.adapter == w.cache[call.c].cached.adapter
      else next == Missed(call.c, call.start, call.version, call.at)
    ensures step.Loads? ==>
      var (call, next) := (w.calls[step.i], Effect(norm, w, step).calls[step.i]);
      if call.c in w.settings.store.live then
        next.Loaded? && next.c == call.c && next.version == call.version && next.adapter == w.settings.store.live[call.c].value
      else next == Failed
    ensures step.Installs? ==>
      var (call, w') := (w.calls[step.i], Effect(norm, w, step));
      && w'.calls[step.i].Returned? && w'.calls[step.i].adapter == call.adapter
      && call.c in w'.cache && w'.cache[call.c].cached == Cached(call.adapter, call.version)
    ensures !step.Installs? ==> Effect(norm, w, step).cache == w.cache
  {
  }

  // ---- a label can be older than what it stands on ----

  ghost function Next(norm: Store.Normal): (World, Step, World) -> bool {
    (w: World, step: Step, w': World) => Enabled(norm, w, step) && w' == Effect(norm, w, step)
  }

  lemma OneStep(norm: Store.Normal, w: World, step: Step)
    requires Enabled(norm, w, step)
    ensures Leads(Next(norm), w, [step], Effect(norm, w, step))
  {
    LeadsOne(Next(norm), w, step, Effect(norm, w, step));
  }

  /** The settings move while no call does anything. */
  lemma {:induction false} SettingsMove(norm: Store.Normal, w: World, moves: seq<Store.Step>, settings: Store.World)
    returns (steps: seq<Step>, last: World)
    requires Leads(Store.Next(norm), w.settings, moves, settings)
    ensures Leads(Next(norm), w, steps, last)
    ensures last.settings == settings && last.cache == w.cache && last.calls == w.calls
    decreases |moves|
  {
    if moves == [] {
      steps, last := [], w;
    } else {
      var moved :| Store.Next(norm)(w.settings, moves[0], moved) && Leads(Store.Next(norm), moved, moves[1..], settings);
      var next := Effect(norm, w, Moves(moves[0]));
      OneStep(norm, w, Moves(moves[0]));
      var more, end := SettingsMove(norm, next, moves[1..], settings);
      LeadsThen(Next(norm), w, [Moves(moves[0])], next, more, end);
      steps, last := [Moves(moves[0])] + more, end;
    }
  }

  /** A whole save, from its arrival to its commit. */
  lemma SavedThrough(w: World, c: Category, text: string) returns (steps: seq<Step>, last: World)
    requires text != "********"
    ensures Leads(Next(Guard.Plainly()), w, steps, last)
    ensures last.settings.store == Store.Write(w.settings.store, c, Guard.Token(text))
    ensures last.cache == w.cache && last.calls == w.calls
  {
    var moves, settings := Store.SaveThrough(Guard.Plainly(), w.settings, c, Guard.Token(text), Guard.Token(text));
    steps, last := SettingsMove(Guard.Plainly(), w, moves, settings);
  }

  /** A call that read its version before a save and its setting after it leaves the new
      setting's adapter under the old version. */
  lemma AnAdapterCanOutrunItsLabel(c: Category, first: string, second: string) returns (steps: seq<Step>, last: World)
    requires first != "********" && second != "********" && first != second
    ensures Leads(Next(Guard.Plainly()), START, steps, last)
    ensures c in last.cache && last.cache[c].cached == Cached(Guard.Token(second), 1)
    ensures c in Live(last) && Live(last)[c] == Store.Live(2, Guard.Token(second))
  {
    var next := Next(Guard.Plainly());
    var s1, w1 := SavedThrough(START, c, first);
    Store.WriteKeeps(START.settings.store, c, Guard.Token(first));
    var s2, w2 := ReadsAndMisses(w1, c);
    var s3, w3 := SavedThrough(w2, c, second);
    Store.WriteKeeps(w2.settings.store, c, Guard.Token(second));
    var s4, w4 := LoadsAndInstalls(w3);
    LeadsThen(next, START, s1, w1, s2, w2);
    LeadsThen(next, START, s1 + s2, w2, s3, w3);
    LeadsThen(next, START, s1 + s2 + s3, w3, s4, w4);
    steps, last := s1 + s2 + s3 + s4, w4;
  }

  lemma ReadsAndMisses(w: World, c: Category) returns (steps: seq<Step>, last: World)
    requires w.calls == [] && w.cache == map[] && c in Live(w)
    ensures Leads(Next(Guard.Plainly()), w, steps, last)
    ensures last.settings == w.settings && last.cache == w.cache
    ensures |last.calls| == 1 && last.calls[0].Missed? && last.calls[0].c == c && last.calls[0].version == Live(w)[c].version
  {
    var n := Guard.Plainly();
    var x := Effect(n, w, Starts(c));
    var y := Effect(n, x, Reads(0));
    last := Effect(n, y, Looks(0));
    OneStep(n, w, Starts(c));
    OneStep(n, x, Reads(0));
    OneStep(n, y, Looks(0));
    LeadsThen(Next(n), w, [Starts(c)], x, [Reads(0)], y);
    LeadsThen(Next(n), w, [Starts(c)] + [Reads(0)], y, [Looks(0)], last);
    steps := [Starts(c)] + [Reads(0)] + [Looks(0)];
  }

  lemma LoadsAndInstalls(w: World) returns (steps: seq<Step>, last: World)
    requires |w.calls| == 1 && w.calls[0].Missed? && w.calls[0].c in Live(w)
    ensures Leads(Next(Guard.Plainly()), w, steps, last)
    ensures last.settings == w.settings
    ensures var c := w.calls[0].c; c in last.cache && last.cache[c].cached == Cached(Live(w)[c].value, w.calls[0].version)
  {
    var n := Guard.Plainly();
    var x := Effect(n, w, Loads(0));
    last := Effect(n, x, Installs(0));
    OneStep(n, w, Loads(0));
    OneStep(n, x, Installs(0));
    LeadsThen(Next(n), w, [Loads(0)], x, [Installs(0)], last);
    steps := [Loads(0)] + [Installs(0)];
  }
}
