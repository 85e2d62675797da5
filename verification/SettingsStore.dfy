/** The versioned settings: what one transaction does, and what any interleaving of saves,
    imports, restores and deletes keeps.

    A save arrives, reads the stored setting to put masked secrets back, is normalized and
    validated, and commits in one transaction; anything may happen between those steps. What
    a merged value may be normalized to and be accepted as is a parameter. */
module SettingsStore {
  import opened Common
  import opened SettingsTree

  type Category = string

  datatype Live = Live(version: nat, value: Fields)

  datatype Version = Version(number: nat, value: Fields)

  datatype Store = Store(live: map<Category, Live>, history: map<Category, seq<Version>>)

  // ---- one transaction ----

  function LiveVersion(s: Store, c: Category): nat {
    if c in s.live then s.live[c].version else 0
  }

  function History(s: Store, c: Category): seq<Version> {
    if c in s.history then s.history[c] else []
  }

  /** The newest number in a history, 0 if there is none. */
  function Newest(versions: seq<Version>): nat {
    if versions == [] then 0
    else
      var before := Newest(versions[..|versions| - 1]);
      if versions[|versions| - 1].number > before then versions[|versions| - 1].number else before
  }

  lemma {:induction false} NewestIsNewest(versions: seq<Version>)
    ensures forall v :: v in versions ==> v.number <= Newest(versions)
    ensures Newest(versions) != 0 ==> exists v :: v in versions && v.number == Newest(versions)
  {
    if versions != [] {
      var front, last := versions[..|versions| - 1], versions[|versions| - 1];
      NewestIsNewest(front);
      assert versions == front + [last];
      if last.number > Newest(front) {
        assert last in versions;
      }
    }
  }

  /** Both rows of a commit, under the number after everything there is. */
  function Write(s: Store, c: Category, value: Fields): Store {
    var next := Max(LiveVersion(s, c), Newest(History(s, c))) + 1;
    Store(s.live[c := Live(next, value)], s.history[c := History(s, c) + [Version(next, value)]])
  }

  predicate Conflicts(s: Store, c: Category, expected: int) {
    expected > 0 && expected != LiveVersion(s, c)
  }

  function Erase(s: Store, c: Category): Store {
    s.(live := s.live - {c})
  }

  class Settings {
    var live: map<Category, Live>
    var history: map<Category, seq<Version>>

    constructor ()
      ensures Now() == Store(map[], map[])
    {
      live, history := map[], map[];
    }

    ghost function Now(): Store
      reads this
    {
      Store(live, history)
    }

    method MaxVersion(c: Category) returns (newest: nat)
      ensures newest == Newest(History(Now(), c))
    {
      newest := 0;
      if c in history {
        var versions := history[c];
        for i := 0 to |versions|
          invariant newest == Newest(versions[..i])
        {
          assert versions[..i + 1][..i] == versions[..i];
          if versions[i].number > newest {
            newest := versions[i].number;
          }
        }
        assert versions[..|versions|] == versions;
      }
    }

    /** The transaction of a save (and, with `expected` 0, of an import). */
    method Save(c: Category, expected: int, value: Fields) returns (version: Option<nat>)
      modifies this
      ensures version.None? <==> Conflicts(old(Now()), c, expected)
      ensures Now() == if version.Some? then Write(old(Now()), c, value) else old(Now())
      ensures version.Some? ==> c in live && live[c] == Live(version.value, value)
      ensures version.None? <==> expected > 0 && (if c in old(live) then expected != old(live)[c].version else true)
      ensures version.Some? ==> (c in old(live) ==> version.value > old(live)[c].version)
      ensures version.Some? && c in old(history) ==> forall v :: v in old(history)[c] ==> version.value > v.number
      ensures version.Some? && c in old(history) ==> c in history && history[c] == old(history)[c] + [Version(version.value, value)]
      ensures version.Some? && c !in old(history) ==> c in history && history[c] == [Version(version.value, value)]
      ensures version.Some? ==> forall d :: d != c ==> Row(Now(), d) == Row(old(Now()), d) && History(Now(), d) == History(old(Now()), d)
    {
      var current := if c in live then live[c].version else 0;
      var newest := MaxVersion(c);
      if expected > 0 && expected != current {
        return None;
      }
      if c in history {
        NewestIsNewest(history[c]);
      }
      var next := Max(current, newest) + 1;
      history := history[c := (if c in history then history[c] else []) + [Version(next, value)]];
      live := live[c := Live(next, value)];
      version := Some(next);
    }

    method Delete(c: Category) returns (found: bool)
      modifies this
      ensures found <==> c in old(live)
      ensures Now() == Erase(old(Now()), c)
      ensures c !in live && history == old(history)
      ensures forall d :: d != c ==> (d in live <==> d in old(live)) && (d in live ==> live[d] == old(live)[d])
    {
      found := c in live;
      live := live - {c};
    }
  }

  // ---- requests, interleaved ----

  datatype Origin = FromPut | FromImport | FromRestore(row: nat)

  /** What arrived. `known` is the newest version then. */
  datatype Ask = Ask(c: Category, expected: int, body: Fields, known: nat, origin: Origin)

  /** `seen` is the row whose secrets were put back and `newest` the newest version then;
      `over` is the row that was replaced and `at` the place of the new one. */
  datatype Request =
    | Asked(ask: Ask)
    | Merged(ask: Ask, seen: Option<Live>, newest: nat, value: Fields)
    | Committed(ask: Ask, seen: Option<Live>, value: Fields, over: Option<Live>, at: nat)
    | Conflicted(ask: Ask)
    | Refused(ask: Ask)

  /** `authors` says which request wrote each row of a history. */
  datatype World = World(store: Store, requests: seq<Request>, authors: map<Category, seq<nat>>)

  datatype Step =
    | Puts(c: Category, raw: Fields)
    | Imports(c: Category, raw: Fields)
    | Restores(c: Category, row: nat)
    | Merges(i: nat, value: Fields)
    | Refuses(i: nat)
    | Commits(i: nat)
    | Deletes(c: Category)

  /** What a merged value may be normalized to and then accepted as by validation. */
  type Normal = (Category, Fields, Fields) -> bool

  const EXPECTED_VERSION := "expectedVersion"

  /** Go's conversion of a float to an int. */
  function Truncated(n: real): int {
    if n >= 0.0 then n.Floor else -(-n).Floor
  }

  function ExpectedIn(raw: Fields): int {
    if EXPECTED_VERSION in raw && raw[EXPECTED_VERSION].Num? then Truncated(raw[EXPECTED_VERSION].number) else 0
  }

  /** A number that is sent as the guard loses its fraction, toward zero; anything else that is
      sent there is no guard. */
  lemma TheGuardSent(raw: Fields)
    ensures "expectedVersion" in raw && raw["expectedVersion"].Num? ==>
      var (n, expected) := (raw["expectedVersion"].number, ExpectedIn(raw));
      && (n >= 0.0 ==> expected as real <= n < expected as real + 1.0)
      && (n <= 0.0 ==> expected as real - 1.0 < n <= expected as real)
    ensures !("expectedVersion" in raw && raw["expectedVersion"].Num?) ==> ExpectedIn(raw) == 0
  {
  }

  function Row(s: Store, c: Category): Option<Live> {
    if c in s.live then Some(s.live[c]) else None
  }

  function Previous(row: Option<Live>): Fields {
    if row.Some? then row.value.value else map[]
  }

  function NewestOf(s: Store, c: Category): nat {
    Newest(History(s, c))
  }

  function Authors(w: World, c: Category): seq<nat> {
    if c in w.authors then w.authors[c] else []
  }

  /** A save takes the guard out of what it is sent; an import has none and leaves it in. */
  function PutAsk(s: Store, c: Category, raw: Fields, origin: Origin): Ask {
    Ask(c, ExpectedIn(raw), raw - {EXPECTED_VERSION}, NewestOf(s, c), origin)
  }

  function Merging(w: World, i: nat): Fields
    requires i < |w.requests|
  {
    Preserved(Previous(Row(w.store, w.requests[i].ask.c)), w.requests[i].ask.body)
  }

  ghost predicate Enabled(norm: Normal, w: World, step: Step) {
    match step
    case Puts(c, raw) => true
    case Imports(c, raw) => true
    case Restores(c, row) => row < |History(w.store, c)|
    case Merges(i, value) => i < |w.requests| && w.requests[i].Asked? && norm(w.requests[i].ask.c, Merging(w, i), value)
    case Refuses(i) => i < |w.requests| && (w.requests[i].Asked? || w.requests[i].Merged?)
    case Commits(i) => i < |w.requests| && w.requests[i].Merged?
    case Deletes(c) => true
  }

  function With(w: World, i: nat, r: Request): World
    requires i < |w.requests|
  {
    w.(requests := w.requests[i := r])
  }

  function Arrived(w: World, ask: Ask): World {
    w.(requests := w.requests + [Asked(ask)])
  }

  function Effect(w: World, step: Step): World
    requires step.Merges? || step.Refuses? ==> step.i < |w.requests|
    requires step.Commits? ==> step.i < |w.requests| && w.requests[step.i].Merged?
    requires step.Restores? ==> step.row < |History(w.store, step.c)|
  {
    match step
    case Puts(c, raw) => Arrived(w, PutAsk(w.store, c, raw, FromPut))
    case Imports(c, raw) => Arrived(w, Ask(c, 0, raw, NewestOf(w.store, c), FromImport))
    case Restores(c, row) => Arrived(w, PutAsk(w.store, c, History(w.store, c)[row].value, FromRestore(row)))
    case Merges(i, value) =>
      var ask := w.requests[i].ask;
      With(w, i, Merged(ask, Row(w.store, ask.c), NewestOf(w.store, ask.c), value))
    case Refuses(i) => With(w, i, Refused(w.requests[i].ask))
    case Commits(i) =>
      var r := w.requests[i];
      if Conflicts(w.store, r.ask.c, r.ask.expected) then With(w, i, Conflicted(r.ask)) else Saved(w, i)
    case Deletes(c) => w.(store := Erase(w.store, c))
  }

  function Saved(w: World, i: nat): World
    requires i < |w.requests| && w.requests[i].Merged?
  {
    var r := w.requests[i];
    var c := r.ask.c;
    World(Write(w.store, c, r.value),
          w.requests[i := Committed(r.ask, r.seen, r.value, Row(w.store, c), |History(w.store, c)|)],
          w.authors[c := Authors(w, c) + [i]])
  }

  /** One step of a run. */
  ghost function Next(norm: Normal): (World, Step, World) -> bool {
    (w: World, step: Step, w': World) => Enabled(norm, w, step) && w' == Effect(w, step)
  }

  const START := World(Store(map[], map[]), [], map[])

  /** The worlds of a run from the start. */
  ghost predicate Run(norm: Normal, worlds: seq<World>, steps: seq<Step>) {
    && |worlds| == |steps| + 1 && worlds[0] == START
    && forall k :: 0 <= k < |steps| ==> Enabled(norm, worlds[k], steps[k]) && worlds[k + 1] == Effect(worlds[k], steps[k])
  }

  // ---- what every run keeps ----

  predicate Increasing(versions: seq<Version>) {
    && (forall i :: 0 <= i < |versions| ==> versions[i].number > 0)
    && (forall i, j :: 0 <= i < j < |versions| ==> versions[i].number < versions[j].number)
  }

  lemma NewestIsLast(versions: seq<Version>)
    requires Increasing(versions) && versions != []
    ensures Newest(versions) == versions[|versions| - 1].number
  {
    var front := versions[..|versions| - 1];
    if front != [] {
      NewestIsLast(front);
    }
  }

  /** Versions go up, and what is live is the newest of them. */
  predicate CategoryInv(s: Store, c: Category) {
    var h := History(s, c);
    && Increasing(h)
    && (c in s.live ==> h != [] && h[|h| - 1] == Version(s.live[c].version, s.live[c].value))
  }

  /** A restore asks for what its row asked for, and has the rest of it; a save's body never
      carries a guard; an import never has one. */
  predicate AskInv(s: Store, ask: Ask) {
    && ask.known <= NewestOf(s, ask.c)
    && match ask.origin
       case FromPut => EXPECTED_VERSION !in ask.body
       case FromImport => ask.expected == 0
       case FromRestore(row) =>
         && row < |History(s, ask.c)|
         && ask.expected == ExpectedIn(History(s, ask.c)[row].value)
         && ask.body == History(s, ask.c)[row].value - {EXPECTED_VERSION}
  }

  /** The row seen when merging is the row still there, if it is, while no version came in. */
  ghost predicate MergedInv(norm: Normal, s: Store, r: Request)
    requires r.Merged?
  {
    && r.ask.known <= r.newest <= NewestOf(s, r.ask.c)
    && (NewestOf(s, r.ask.c) == r.newest && r.ask.c in s.live ==> r.seen == Row(s, r.ask.c))
    && norm(r.ask.c, Preserved(Previous(r.seen), r.ask.body), r.value)
    && (r.seen.Some? ==> InHistory(s, r.ask.c, r.seen.value))
  }

  predicate InHistory(s: Store, c: Category, row: Live) {
    Version(row.version, row.value) in History(s, c)
  }

  ghost predicate CommittedInv(norm: Normal, w: World, i: nat, r: Request)
    requires r.Committed?
  {
    var h := History(w.store, r.ask.c);
    && r.at < |h| && |Authors(w, r.ask.c)| == |h| && Authors(w, r.ask.c)[r.at] == i
    && h[r.at].value == r.value
    && (r.over.Some? ==> r.at > 0 && h[r.at - 1] == Version(r.over.value.version, r.over.value.value))
    && (r.ask.expected > 0 ==> r.over.Some? && r.over.value.version == r.ask.expected)
    && (0 < r.ask.expected <= r.ask.known ==> r.seen == r.over)
    && norm(r.ask.c, Preserved(Previous(r.seen), r.ask.body), r.value)
    && (r.seen.Some? ==> InHistory(w.store, r.ask.c, r.seen.value))
  }

  ghost predicate RequestInv(norm: Normal, w: World, i: nat, r: Request) {
    && AskInv(w.store, r.ask)
    && (r.Merged? ==> MergedInv(norm, w.store, r))
    && (r.Committed? ==> CommittedInv(norm, w, i, r))
  }

  /** Every row of a history is what the request that wrote it committed. */
  predicate AuthorsInv(w: World, c: Category) {
    && |Authors(w, c)| == |History(w.store, c)|
    && forall k :: 0 <= k < |Authors(w, c)| ==>
         && Authors(w, c)[k] < |w.requests|
         && var r := w.requests[Authors(w, c)[k]];
         && r.Committed? && r.ask.c == c && r.at == k
  }

  ghost predicate Inv(norm: Normal, w: World) {
    && (forall c :: CategoryInv(w.store, c) && AuthorsInv(w, c))
    && (forall i :: 0 <= i < |w.requests| ==> RequestInv(norm, w, i, w.requests[i]))
  }

  lemma WriteKeeps(s: Store, c: Category, value: Fields)
    requires CategoryInv(s, c)
    ensures CategoryInv(Write(s, c, value), c)
    ensures NewestOf(Write(s, c, value), c) == NewestOf(s, c) + 1 == LiveVersion(Write(s, c, value), c)
    ensures NewestOf(s, c) >= LiveVersion(s, c)
    ensures History(Write(s, c, value), c) == History(s, c) + [Version(NewestOf(s, c) + 1, value)]
  {
    var h := History(s, c);
    if h != [] {
      NewestIsLast(h);
    }
    NewestIsLast(History(Write(s, c, value), c));
  }

  /** A write to one category is nothing to another. */
  lemma WriteElsewhere(s: Store, c: Category, value: Fields, d: Category)
    requires c != d
    ensures History(Write(s, c, value), d) == History(s, d) && Row(Write(s, c, value), d) == Row(s, d)
  {
  }

  lemma HistoryKept(s: Store, c: Category, value: Fields, d: Category, row: Live)
    requires CategoryInv(s, c) && InHistory(s, d, row)
    ensures InHistory(Write(s, c, value), d, row)
  {
    if c == d {
      WriteKeeps(s, c, value);
      var v := Version(row.version, row.value);
      var k :| 0 <= k < |History(s, d)| && History(s, d)[k] == v;
      assert History(Write(s, c, value), d)[k] == v;
    } else {
      WriteElsewhere(s, c, value, d);
    }
  }

  lemma AskAfterWrite(s: Store, c: Category, value: Fields, ask: Ask)
    requires CategoryInv(s, c) && AskInv(s, ask)
    ensures AskInv(Write(s, c, value), ask)
  {
    WriteKeeps(s, c, value);
    if ask.c != c {
      WriteElsewhere(s, c, value, ask.c);
    }
  }

  lemma MergedAfterWrite(norm: Normal, s: Store, c: Category, value: Fields, q: Request)
    requires q.Merged? && CategoryInv(s, c) && MergedInv(norm, s, q)
    ensures MergedInv(norm, Write(s, c, value), q)
  {
    WriteKeeps(s, c, value);
    if q.ask.c != c {
      WriteElsewhere(s, c, value, q.ask.c);
    }
    if q.seen.Some? {
      HistoryKept(s, c, value, q.ask.c, q.seen.value);
    }
  }

  lemma CommittedAfterWrite(norm: Normal, w: World, i: nat, k: nat)
    requires Inv(norm, w) && i < |w.requests| && w.requests[i].Merged?
    requires k < |w.requests| && k != i && w.requests[k].Committed? && CommittedInv(norm, w, k, w.requests[k])
    ensures CommittedInv(norm, Saved(w, i), k, w.requests[k])
  {
    var r, q := w.requests[i], w.requests[k];
    assert CategoryInv(w.store, r.ask.c) && AuthorsInv(w, r.ask.c);
    WriteKeeps(w.store, r.ask.c, r.value);
    if q.ask.c != r.ask.c {
      WriteElsewhere(w.store, r.ask.c, r.value, q.ask.c);
    }
    if q.seen.Some? {
      HistoryKept(w.store, r.ask.c, r.value, q.ask.c, q.seen.value);
    }
  }

  lemma RequestsAfterWrite(norm: Normal, w: World, i: nat, k: nat)
    requires Inv(norm, w) && i < |w.requests| && w.requests[i].Merged?
    requires k < |w.requests| && k != i
    ensures RequestInv(norm, Saved(w, i), k, w.requests[k])
  {
    var r, q := w.requests[i], w.requests[k];
    assert CategoryInv(w.store, r.ask.c) && RequestInv(norm, w, k, q);
    AskAfterWrite(w.store, r.ask.c, r.value, q.ask);
    if q.Merged? {
      MergedAfterWrite(norm, w.store, r.ask.c, r.value, q);
    } else if q.Committed? {
      CommittedAfterWrite(norm, w, i, k);
    }
  }

  lemma AuthorsAfterSave(w: World, i: nat, c: Category)
    requires i < |w.requests| && w.requests[i].Merged? && CategoryInv(w.store, w.requests[i].ask.c)
    requires AuthorsInv(w, c)
    ensures AuthorsInv(Saved(w, i), c)
  {
    var r := w.requests[i];
    var authors := Authors(Saved(w, i), c);
    WriteKeeps(w.store, r.ask.c, r.value);
    if c == r.ask.c {
      assert authors == Authors(w, c) + [i];
    } else {
      WriteElsewhere(w.store, r.ask.c, r.value, c);
      assert authors == Authors(w, c);
    }
    forall k | 0 <= k < |authors| ensures authors[k] < |w.requests|
    {
      assert k < |Authors(w, c)| ==> authors[k] == Authors(w, c)[k];
    }
    forall k | 0 <= k < |authors|
      ensures var r := Saved(w, i).requests[authors[k]]; r.Committed? && r.ask.c == c && r.at == k
    {
      assert k < |Authors(w, c)| ==> authors[k] == Authors(w, c)[k];
    }
  }

  lemma RowsAfterSave(norm: Normal, w: World, i: nat, c: Category)
    requires Inv(norm, w) && i < |w.requests| && w.requests[i].Merged?
    ensures CategoryInv(Saved(w, i).store, c) && AuthorsInv(Saved(w, i), c)
  {
    var r := w.requests[i];
    assert CategoryInv(w.store, c) && AuthorsInv(w, c);
    assert CategoryInv(w.store, r.ask.c);
    AuthorsAfterSave(w, i, c);
    if c == r.ask.c {
      WriteKeeps(w.store, c, r.value);
    } else {
      WriteElsewhere(w.store, r.ask.c, r.value, c);
    }
  }

  lemma RequestsAfterSave(norm: Normal, w: World, i: nat)
    requires Inv(norm, w) && i < |w.requests| && w.requests[i].Merged?
    requires !Conflicts(w.store, w.requests[i].ask.c, w.requests[i].ask.expected)
    ensures forall k :: 0 <= k < |w.requests| ==> RequestInv(norm, Saved(w, i), k, Saved(w, i).requests[k])
  {
    forall k | 0 <= k < |w.requests| ensures RequestInv(norm, Saved(w, i), k, Saved(w, i).requests[k]) {
      if k == i {
        CommittedHolds(norm, w, i);
      } else {
        RequestsAfterWrite(norm, w, i, k);
        assert Saved(w, i).requests[k] == w.requests[k];
      }
    }
  }

  lemma SaveKeepsInv(norm: Normal, w: World, i: nat)
    requires Inv(norm, w)
    requires i < |w.requests| && w.requests[i].Merged? && !Conflicts(w.store, w.requests[i].ask.c, w.requests[i].ask.expected)
    ensures Inv(norm, Saved(w, i))
  {
    RequestsAfterSave(norm, w, i);
    forall c ensures CategoryInv(Saved(w, i).store, c) && AuthorsInv(Saved(w, i), c) {
      RowsAfterSave(norm, w, i, c);
    }
  }

  lemma CommittedHolds(norm: Normal, w: World, i: nat)
    requires Inv(norm, w) && i < |w.requests| && w.requests[i].Merged?
    requires !Conflicts(w.store, w.requests[i].ask.c, w.requests[i].ask.expected)
    ensures RequestInv(norm, Saved(w, i), i, Saved(w, i).requests[i])
  {
    var r := w.requests[i];
    assert RequestInv(norm, w, i, r) && CategoryInv(w.store, r.ask.c) && AuthorsInv(w, r.ask.c);
    WriteKeeps(w.store, r.ask.c, r.value);
    if History(w.store, r.ask.c) != [] {
      NewestIsLast(History(w.store, r.ask.c));
    }
    if r.seen.Some? {
      HistoryKept(w.store, r.ask.c, r.value, r.ask.c, r.seen.value);
    }
  }

  lemma ArrivalKeepsInv(norm: Normal, w: World, ask: Ask)
    requires Inv(norm, w) && AskInv(w.store, ask)
    ensures Inv(norm, Arrived(w, ask))
  {
    var w' := Arrived(w, ask);
    forall c ensures CategoryInv(w'.store, c) && AuthorsInv(w', c) {
      assert CategoryInv(w.store, c) && AuthorsInv(w, c);
    }
    forall k | 0 <= k < |w'.requests| ensures RequestInv(norm, w', k, w'.requests[k]) {
      assert k < |w.requests| ==> RequestInv(norm, w, k, w.requests[k]);
    }
  }

  /** A request moves on without writing. */
  lemma MoveKeepsInv(norm: Normal, w: World, i: nat, r: Request)
    requires Inv(norm, w) && i < |w.requests| && !w.requests[i].Committed? && !r.Committed?
    requires RequestInv(norm, w, i, r)
    ensures Inv(norm, With(w, i, r))
  {
    var w' := With(w, i, r);
    forall c ensures CategoryInv(w'.store, c) && AuthorsInv(w', c) {
      assert CategoryInv(w.store, c) && AuthorsInv(w, c);
    }
    forall k | 0 <= k < |w'.requests| ensures RequestInv(norm, w', k, w'.requests[k]) {
      assert RequestInv(norm, w, k, w.requests[k]);
    }
  }

  lemma DeleteKeepsInv(norm: Normal, w: World, c: Category)
    requires Inv(norm, w)
    ensures Inv(norm, Effect(w, Deletes(c)))
  {
    var w' := Effect(w, Deletes(c));
    forall d ensures CategoryInv(w'.store, d) && AuthorsInv(w', d) {
      assert CategoryInv(w.store, d) && AuthorsInv(w, d);
    }
    forall k | 0 <= k < |w'.requests| ensures RequestInv(norm, w', k, w'.requests[k]) {
      assert RequestInv(norm, w, k, w.requests[k]);
    }
  }

  lemma MergeHolds(norm: Normal, w: World, i: nat, value: Fields)
    requires Inv(norm, w) && Enabled(norm, w, Merges(i, value))
    ensures RequestInv(norm, w, i, Effect(w, Merges(i, value)).requests[i])
  {
    var ask := w.requests[i].ask;
    assert RequestInv(norm, w, i, w.requests[i]) && CategoryInv(w.store, ask.c);
    var h := History(w.store, ask.c);
    if ask.c in w.store.live {
      assert h[|h| - 1] in h;
    }
  }

  lemma StepKeepsInv(norm: Normal, w: World, step: Step)
    requires Inv(norm, w) && Enabled(norm, w, step)
    ensures Inv(norm, Effect(w, step))
  {
    match step
    case Puts(c, raw) => ArrivalKeepsInv(norm, w, PutAsk(w.store, c, raw, FromPut));
    case Imports(c, raw) => ArrivalKeepsInv(norm, w, Ask(c, 0, raw, NewestOf(w.store, c), FromImport));
    case Restores(c, row) => ArrivalKeepsInv(norm, w, PutAsk(w.store, c, History(w.store, c)[row].value, FromRestore(row)));
    case Merges(i, value) =>
      MergeHolds(norm, w, i, value);
      MoveKeepsInv(norm, w, i, Effect(w, step).requests[i]);
    case Refuses(i) =>
      assert RequestInv(norm, w, i, w.requests[i]);
      MoveKeepsInv(norm, w, i, Refused(w.requests[i].ask));
    case Commits(i) =>
      assert RequestInv(norm, w, i, w.requests[i]);
      if Conflicts(w.store, w.requests[i].ask.c, w.requests[i].ask.expected) {
        MoveKeepsInv(norm, w, i, Conflicted(w.requests[i].ask));
      } else {
        SaveKeepsInv(norm, w, i);
      }
    case Deletes(c) => DeleteKeepsInv(norm, w, c);
  }

  lemma {:induction false} RunKeepsInv(norm: Normal, worlds: seq<World>, steps: seq<Step>, k: nat)
    requires Run(norm, worlds, steps) && k < |worlds|
    ensures Inv(norm, worlds[k])
  {
    if k > 0 {
      RunKeepsInv(norm, worlds, steps, k - 1);
      StepKeepsInv(norm, worlds[k - 1], steps[k - 1]);
    }
  }

  // ---- what follows ----

  /** Two requests that named the same version cannot both have been saved. */
  lemma OneSavePerVersion(norm: Normal, worlds: seq<World>, steps: seq<Step>, i: nat, j: nat)
    requires Run(norm, worlds, steps)
    requires var requests := worlds[|steps|].requests;
             && i < |requests| && j < |requests| && requests[i].Committed? && requests[j].Committed?
             && requests[i].ask.c == requests[j].ask.c && requests[i].ask.expected == requests[j].ask.expected > 0
    ensures i == j
  {
    var w := worlds[|steps|];
    RunKeepsInv(norm, worlds, steps, |steps|);
    var r, q := w.requests[i], w.requests[j];
    assert RequestInv(norm, w, i, r) && RequestInv(norm, w, j, q) && CategoryInv(w.store, r.ask.c);
    var h := History(w.store, r.ask.c);
    assert h[r.at - 1].number == h[q.at - 1].number;
    assert r.at == q.at;
  }

  lemma StepGrows(norm: Normal, w: World, step: Step, c: Category)
    requires Enabled(norm, w, step)
    ensures History(w.store, c) <= History(Effect(w, step).store, c)
  {
  }

  lemma {:induction false} HistoriesGrow(norm: Normal, worlds: seq<World>, steps: seq<Step>, a: nat, b: nat, c: Category)
    requires Run(norm, worlds, steps) && a <= b < |worlds|
    ensures History(worlds[a].store, c) <= History(worlds[b].store, c)
    decreases b - a
  {
    if a < b {
      HistoriesGrow(norm, worlds, steps, a, b - 1, c);
      StepGrows(norm, worlds[b - 1], steps[b - 1], c);
    }
  }

  /** A number, once used, stands for the same value for ever, and a live version is always
      the newest. */
  lemma VersionsAreForGood(norm: Normal, worlds: seq<World>, steps: seq<Step>, a: nat, b: nat, c: Category)
    requires Run(norm, worlds, steps) && a <= b < |worlds|
    ensures History(worlds[a].store, c) <= History(worlds[b].store, c)
    ensures forall x, y :: x in History(worlds[a].store, c) && y in History(worlds[b].store, c) && x.number == y.number ==> x == y
    ensures c in worlds[b].store.live ==> LiveVersion(worlds[b].store, c) == NewestOf(worlds[b].store, c)
  {
    HistoriesGrow(norm, worlds, steps, a, b, c);
    RunKeepsInv(norm, worlds, steps, b);
    assert CategoryInv(worlds[b].store, c);
    if c in worlds[b].store.live {
      NewestIsLast(History(worlds[b].store, c));
    }
  }

  // ---- a whole save by somebody else ----

  predicate MaskFree(fields: Fields) {
    forall key :: key in fields ==> fields[key] != MASK && !fields[key].Obj?
  }

  lemma PlainMerges(previous: Fields, fields: Fields)
    requires MaskFree(fields)
    ensures Preserved(previous, fields) == fields
  {
  }

  lemma OneStep(norm: Normal, w: World, step: Step)
    requires Enabled(norm, w, step)
    ensures Leads(Next(norm), w, [step], Effect(w, step))
  {
    LeadsOne(Next(norm), w, step, Effect(w, step));
  }

  /** From its arrival to its commit, with nothing in between. */
  lemma SaveThrough(norm: Normal, w: World, c: Category, body: Fields, value: Fields) returns (steps: seq<Step>, last: World)
    requires MaskFree(body) && EXPECTED_VERSION !in body && norm(c, body, value)
    ensures Leads(Next(norm), w, steps, last)
    ensures last.store == Write(w.store, c, value)
    ensures |last.requests| == |w.requests| + 1 && last.requests[..|w.requests|] == w.requests
  {
    var i := |w.requests|;
    assert body - {EXPECTED_VERSION} == body;
    PlainMerges(Previous(Row(w.store, c)), body);
    var asked := Effect(w, Puts(c, body));
    var merged := Effect(asked, Merges(i, value));
    last := Effect(merged, Commits(i));
    OneStep(norm, w, Puts(c, body));
    OneStep(norm, asked, Merges(i, value));
    OneStep(norm, merged, Commits(i));
    LeadsThen(Next(norm), w, [Puts(c, body)], asked, [Merges(i, value)], merged);
    LeadsThen(Next(norm), w, [Puts(c, body)] + [Merges(i, value)], merged, [Commits(i)], last);
    steps := [Puts(c, body)] + [Merges(i, value)] + [Commits(i)];
  }

  /** What a request asked for never changes. */
  predicate SameAsks(w: World, w': World) {
    |w'.requests| >= |w.requests| && forall i :: 0 <= i < |w.requests| ==> w'.requests[i].ask == w.requests[i].ask
  }

  lemma StepKeepsAsks(norm: Normal, w: World, step: Step)
    requires Enabled(norm, w, step)
    ensures SameAsks(w, Effect(w, step))
  {
  }

  lemma {:induction false} LeadsKeepsInv(norm: Normal, w: World, steps: seq<Step>, last: World)
    requires Inv(norm, w) && Leads(Next(norm), w, steps, last)
    ensures Inv(norm, last) && SameAsks(w, last)
    decreases |steps|
  {
    if steps != [] {
      var middle :| Next(norm)(w, steps[0], middle) && Leads(Next(norm), middle, steps[1..], last);
      StepKeepsInv(norm, w, steps[0]);
      StepKeepsAsks(norm, w, steps[0]);
      LeadsKeepsInv(norm, middle, steps[1..], last);
    }
  }
}
