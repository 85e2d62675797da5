/** Where a process gets the keys its data is sealed with.

    Sealing is ideal: a box opens under the key and for the purpose it was sealed with and
    no other, and different recovery keys give different wrapping keys. What the connection
    string gives, a master key and a pepper, is a parameter of every start. */
module PlatformKeys {
  import opened Common

  datatype Key = Wrapping(recovery: string) | Master(secret: string)

  datatype Purpose = KeyRow | Bootstrap | Setting

  datatype Box = Box(key: Key, purpose: Purpose, content: string) | Torn

  function OpenBox(box: Box, key: Key, purpose: Purpose): Option<string> {
    if box.Box? && box.key == key && box.purpose == purpose then Some(box.content) else None
  }

  datatype Pair = Pair(master: string, pepper: string)

  datatype Row = Row(master: Box, pepper: Box)

  /** The key row, what a start looks at to tell whether a master key is right, and the other
      things sealed under it, which no start looks at. */
  datatype Db = Db(row: Option<Row>, bootstrap: Option<Box>, settings: seq<Box>, secrets: seq<Box>)

  /** `previous` is empty when no rotation is going on; `pick` is the setting the database
      happens to give. */
  datatype Start = Start(recovery: string, previous: string, derived: Pair, pick: nat)

  /** AES takes keys of these lengths only. */
  predicate Usable(master: string) {
    |master| == 16 || |master| == 24 || |master| == 32
  }

  function Wrap(recovery: string, pair: Pair): Row {
    Row(Box(Wrapping(recovery), KeyRow, pair.master), Box(Wrapping(recovery), KeyRow, pair.pepper))
  }

  /** What a recovery key makes of the key row. */
  function Unwrapped(db: Db, recovery: string): Option<Pair> {
    if db.row.None? then None
    else
      match (OpenBox(db.row.value.master, Wrapping(recovery), KeyRow), OpenBox(db.row.value.pepper, Wrapping(recovery), KeyRow))
      case (Some(master), Some(pepper)) => Some(Pair(master, pepper))
      case _ => None
  }

  predicate DataOpensWith(db: Db, master: string, pick: nat) {
    && Usable(master)
    && match db.bootstrap
       case Some(box) => OpenBox(box, Master(master), Bootstrap).Some?
       case None => db.settings == [] || (pick < |db.settings| && OpenBox(db.settings[pick], Master(master), Setting).Some?)
  }

  /** The pair a start works with, if it can start at all. */
  function Resolved(db: Db, s: Start): Option<Pair> {
    if Unwrapped(db, s.recovery).Some? then Unwrapped(db, s.recovery)
    else if s.previous != "" && Unwrapped(db, s.previous).Some? then Unwrapped(db, s.previous)
    else if DataOpensWith(db, s.derived.master, s.pick) then Some(s.derived)
    else None
  }

  /** And the database it leaves: the pair wrapped under its own recovery key. */
  function After(db: Db, s: Start): Db {
    if Unwrapped(db, s.recovery).Some? || Resolved(db, s).None? then db
    else db.(row := Some(Wrap(s.recovery, Resolved(db, s).value)))
  }

  class Installation {
    var db: Db

    constructor (db: Db)
      ensures this.db == db
    {
      this.db := db;
    }

    method StoreKeys(recovery: string, pair: Pair)
      modifies this
      ensures db == old(db).(row := Some(Wrap(recovery, pair)))
    {
      var master := Box(Wrapping(recovery), KeyRow, pair.master);
      var pepper := Box(Wrapping(recovery), KeyRow, pair.pepper);
      db := db.(row := Some(Row(master, pepper)));
    }

    method SealedDataOpensWith(master: string, pick: nat) returns (opens: bool)
      ensures opens <==> DataOpensWith(db, master, pick)
      ensures opens ==> |master| in {16, 24, 32}
      ensures |master| in {16, 24, 32} && db.bootstrap.Some? ==> (opens <==> Under(db.bootstrap.value, master, Bootstrap))
      ensures |master| in {16, 24, 32} && db.bootstrap.None? && db.settings != [] ==>
        (opens <==> pick < |db.settings| && Under(db.settings[pick], master, Setting))
      ensures |master| in {16, 24, 32} && db.bootstrap.None? && db.settings == [] ==> opens
    {
      if !Usable(master) {
        return false;
      }
      if db.bootstrap.Some? {
        return OpenBox(db.bootstrap.value, Master(master), Bootstrap).Some?;
      }
      if |db.settings| == 0 {
        return true;
      }
      if pick >= |db.settings| {
        return false;
      }
      return OpenBox(db.settings[pick], Master(master), Setting).Some?;
    }

    method ResolveKeys(s: Start) returns (pair: Option<Pair>)
      modifies this
      ensures pair == Resolved(old(db), s) && db == After(old(db), s)
    {
      if db.row.Some? {
        var row := db.row.value;
        var master := OpenBox(row.master, Wrapping(s.recovery), KeyRow);
        var pepper := OpenBox(row.pepper, Wrapping(s.recovery), KeyRow);
        if master.Some? && pepper.Some? {
          return Some(Pair(master.value, pepper.value));
        }
        if s.previous != "" {
          master := OpenBox(row.master, Wrapping(s.previous), KeyRow);
          pepper := OpenBox(row.pepper, Wrapping(s.previous), KeyRow);
          if master.Some? && pepper.Some? {
            StoreKeys(s.recovery, Pair(master.value, pepper.value));
            return Some(Pair(master.value, pepper.value));
          }
        }
      }
      var opens := SealedDataOpensWith(s.derived.master, s.pick);
      if !opens {
        return None;
      }
      StoreKeys(s.recovery, s.derived);
      pair := Some(s.derived);
    }
  }

  /** A running process: its own keys, and what it was configured with. */
  class Process {
    const installation: Installation
    const recovery: string
    const previous: string
    var keys: Pair

    constructor (installation: Installation, recovery: string, previous: string, keys: Pair)
      ensures this.installation == installation && this.recovery == recovery && this.previous == previous && this.keys == keys
    {
      this.installation, this.recovery, this.previous, this.keys := installation, recovery, previous, keys;
    }

    /** After a restore: take the keys that came with the database. They are resolved as a
        start would, the keys in hand standing in for the connection string's. */
    method ReloadKeys(pick: nat) returns (ok: bool)
      modifies this, installation
      ensures var s := Start(recovery, previous, old(keys), pick);
              && (ok <==>
                    && Resolved(old(installation.db), s).Some?
                    && (Resolved(old(installation.db), s).value == old(keys) || Usable(Resolved(old(installation.db), s).value.master)))
              && keys == (if ok then Resolved(old(installation.db), s).value else old(keys))
              && installation.db == After(old(installation.db), s)
      ensures keys == old(keys) || (ok && |keys.master| in {16, 24, 32})
    {
      var pair := installation.ResolveKeys(Start(recovery, previous, keys, pick));
      if pair.None? {
        return false;
      }
      if pair.value == keys {
        return true;
      }
      if !Usable(pair.value.master) {
        return false;
      }
      keys := pair.value;
      ok := true;
    }
  }

  // ---- one start ----

  predicate Under(box: Box, master: string, purpose: Purpose) {
    box.Box? && box.key == Master(master) && box.purpose == purpose
  }

  /** Everything sealed is sealed under `master`. */
  predicate SealedUnder(db: Db, master: string) {
    && (db.bootstrap.Some? ==> Under(db.bootstrap.value, master, Bootstrap))
    && (forall i :: 0 <= i < |db.settings| ==> Under(db.settings[i], master, Setting))
    && (forall i :: 0 <= i < |db.secrets| ==> Under(db.secrets[i], master, Setting))
  }

  /** There is something a start looks at. */
  predicate Sealed(db: Db) {
    db.bootstrap.Some? || db.settings != []
  }

  predicate Possible(db: Db, s: Start) {
    db.settings != [] ==> s.pick < |db.settings|
  }

  /** The database's keys are `pair`, written down under some recovery key or not at all. */
  ghost predicate Keeps(db: Db, pair: Pair) {
    && SealedUnder(db, pair.master) && Usable(pair.master)
    && (db.row.Some? ==> exists r :: db.row == Some(Wrap(r, pair)))
  }

  lemma UnwrappedIs(db: Db, pair: Pair, r: string, recovery: string)
    requires db.row == Some(Wrap(r, pair))
    ensures Unwrapped(db, recovery) == if recovery == r then Some(pair) else None
  {
  }

  /** The data opens with the right master key, and with any usable key when there is none
      to look at. */
  lemma OpensWithTheRightKey(db: Db, pair: Pair, s: Start)
    requires Keeps(db, pair) && Possible(db, s)
    ensures DataOpensWith(db, s.derived.master, s.pick) <==>
      Usable(s.derived.master) && (!Sealed(db) || s.derived.master == pair.master)
  {
    if db.bootstrap.None? && db.settings != [] {
      assert Under(db.settings[s.pick], pair.master, Setting);
    }
  }

  /** The key row opens for this start, with its own recovery key or the previous one. */
  predicate HasWorkingKey(db: Db, s: Start) {
    Unwrapped(db, s.recovery).Some? || (s.previous != "" && Unwrapped(db, s.previous).Some?)
  }

  /** While something is sealed, and a master key is derived together with one pepper only: a
      start either changes nothing, or it works with the pair everything is sealed under and
      leaves it wrapped under its own recovery key; and it does so exactly when it has a
      working recovery key or the connection string gives that master key. */
  lemma StartWhileSealed(db: Db, pair: Pair, s: Start)
    requires Keeps(db, pair) && Sealed(db) && Possible(db, s)
    requires s.derived.master == pair.master ==> s.derived.pepper == pair.pepper
    ensures Resolved(db, s).Some? <==> HasWorkingKey(db, s) || s.derived.master == pair.master
    ensures Resolved(db, s).Some? ==>
      Resolved(db, s).value == pair && Unwrapped(After(db, s), s.recovery) == Some(pair) && Keeps(After(db, s), pair)
    ensures Resolved(db, s).None? ==> After(db, s) == db
    ensures After(db, s) == db.(row := After(db, s).row)
  {
    OpensWithTheRightKey(db, pair, s);
    if db.row.Some? {
      var r :| db.row == Some(Wrap(r, pair));
      UnwrappedIs(db, pair, r, s.recovery);
      UnwrappedIs(db, pair, r, s.previous);
    }
  }

  /** A box under a wrapping key, in a key row. */
  predicate WrappedUnder(box: Box, recovery: string, content: string) {
    box == Box(Wrapping(recovery), KeyRow, content)
  }

  /** A key row that its own recovery key opens decides by itself. One that only the previous
      key opens does too, and is wrapped again under the new one; without a previous key, or
      with another, the connection string is all there is. */
  lemma TheKeyRowDecides(db: Db, s: Start, wrapped: string, pair: Pair)
    requires db.row.Some? && WrappedUnder(db.row.value.master, wrapped, pair.master) && WrappedUnder(db.row.value.pepper, wrapped, pair.pepper)
    ensures s.recovery == wrapped ==> Resolved(db, s) == Some(pair) && After(db, s) == db
    ensures s.recovery != wrapped && s.previous == wrapped && s.previous != "" ==>
      && Resolved(db, s) == Some(pair) && After(db, s) == db.(row := After(db, s).row) && After(db, s).row.Some?
      && WrappedUnder(After(db, s).row.value.master, s.recovery, pair.master)
      && WrappedUnder(After(db, s).row.value.pepper, s.recovery, pair.pepper)
    ensures s.recovery != wrapped && (s.previous != wrapped || s.previous == "") ==>
      Resolved(db, s) == if DataOpensWith(db, s.derived.master, s.pick) then Some(s.derived) else None
  {
  }

  /** After such a start, the next one with the same recovery key succeeds whatever its
      connection string gives, and writes nothing. */
  lemma TheNextStartNeedsNoDsn(db: Db, pair: Pair, s: Start, next: Start)
    requires Unwrapped(db, s.recovery) == Some(pair) && next.recovery == s.recovery
    ensures Resolved(db, next) == Some(pair) && After(db, next) == db
  {
  }

  /** Exactly when a start comes up with other keys than the ones written down: it has no
      working recovery key, what it derives is something else, and nothing it looks at says
      no. */
  lemma StartWithOtherKeysIff(db: Db, pair: Pair, s: Start)
    requires Keeps(db, pair) && db.row.Some? && Possible(db, s)
    ensures (Resolved(db, s).Some? && Resolved(db, s).value != pair) <==>
      && !HasWorkingKey(db, s) && s.derived != pair
      && Usable(s.derived.master) && (!Sealed(db) || s.derived.master == pair.master)
  {
    OpensWithTheRightKey(db, pair, s);
    var r :| db.row == Some(Wrap(r, pair));
    UnwrappedIs(db, pair, r, s.recovery);
    UnwrappedIs(db, pair, r, s.previous);
  }

  /** Managed secrets are not looked at: with no setting and no bootstrap token, a start that
      has neither the recovery key nor the connection string takes over, and no secret opens
      under the key it goes on with. */
  lemma AStartCanOrphanSecrets(db: Db, pair: Pair, s: Start, i: nat)
    requires Keeps(db, pair) && db.row.Some? && !Sealed(db) && i < |db.secrets|
    requires !HasWorkingKey(db, s) && Usable(s.derived.master) && s.derived.master != pair.master
    ensures Resolved(db, s) == Some(s.derived)
    ensures OpenBox(After(db, s).secrets[i], Master(s.derived.master), Setting) == None
    ensures forall r :: Unwrapped(After(db, s), r) != Some(pair)
  {
    assert Under(db.secrets[i], pair.master, Setting);
  }

  // ---- runs ----

  /** `running` are the pairs of the processes at work. */
  datatype World = World(db: Db, running: seq<Pair>)

  datatype Step =
    | Starts(start: Start)
    | Stops(p: nat)
    | Reloads(p: nat, recovery: string, previous: string, pick: nat)
    | Seals(p: nat, content: string)
    | KeepsSecret(p: nat, content: string)
    | Issues(p: nat, token: string)
    | Removes(i: nat)
    | Forgets(i: nat)
    | Uses

  predicate Enabled(w: World, step: Step) {
    match step
    case Starts(s) => Possible(w.db, s)
    case Stops(p) => p < |w.running|
    case Reloads(p, recovery, previous, pick) => p < |w.running| && Possible(w.db, Start(recovery, previous, w.running[p], pick))
    case Seals(p, _) => p < |w.running|
    case KeepsSecret(p, _) => p < |w.running|
    case Issues(p, _) => p < |w.running| && w.db.bootstrap.None?
    case Removes(i) => i < |w.db.settings|
    case Forgets(i) => i < |w.db.secrets|
    case Uses => w.db.bootstrap.Some?
  }

  function SealedBy(w: World, p: nat, purpose: Purpose, content: string): Box
    requires p < |w.running|
  {
    Box(Master(w.running[p].master), purpose, content)
  }

  function Effect(w: World, step: Step): World
    requires Enabled(w, step)
  {
    match step
    case Starts(s) =>
      World(After(w.db, s), if Resolved(w.db, s).Some? then w.running + [Resolved(w.db, s).value] else w.running)
    case Stops(p) => w.(running := w.running[..p] + w.running[p + 1..])
    case Reloads(p, recovery, previous, pick) =>
      var s := Start(recovery, previous, w.running[p], pick);
      World(After(w.db, s), if Resolved(w.db, s).Some? && Usable(Resolved(w.db, s).value.master)
                            then w.running[p := Resolved(w.db, s).value] else w.running)
    case Seals(p, content) => w.(db := w.db.(settings := w.db.settings + [SealedBy(w, p, Setting, content)]))
    case KeepsSecret(p, content) => w.(db := w.db.(secrets := w.db.secrets + [SealedBy(w, p, Setting, content)]))
    case Issues(p, token) => w.(db := w.db.(bootstrap := Some(SealedBy(w, p, Bootstrap, token))))
    case Removes(i) => w.(db := w.db.(settings := w.db.settings[..i] + w.db.settings[i + 1..]))
    case Forgets(i) => w.(db := w.db.(secrets := w.db.secrets[..i] + w.db.secrets[i + 1..]))
    case Uses => w.(db := w.db.(bootstrap := None))
  }

  /** A run in which a master key is derived together with one pepper only, and something
      stays sealed throughout. */
  ghost predicate SealedRun(worlds: seq<World>, steps: seq<Step>, pair: Pair) {
    && |worlds| == |steps| + 1
    && (forall k :: 0 <= k < |steps| ==>
          && Enabled(worlds[k], steps[k]) && worlds[k + 1] == Effect(worlds[k], steps[k])
          && Sealed(worlds[k].db)
          && (steps[k].Starts? && steps[k].start.derived.master == pair.master ==> steps[k].start.derived.pepper == pair.pepper))
  }

  ghost predicate Inv(w: World, pair: Pair) {
    Keeps(w.db, pair) && forall p :: 0 <= p < |w.running| ==> w.running[p] == pair
  }

  lemma StepKeepsInv(w: World, pair: Pair, step: Step)
    requires Inv(w, pair) && Sealed(w.db) && Enabled(w, step)
    requires step.Starts? && step.start.derived.master == pair.master ==> step.start.derived.pepper == pair.pepper
    ensures Inv(Effect(w, step), pair)
  {
    match step
    case Starts(s) => StartWhileSealed(w.db, pair, s);
    case Reloads(p, recovery, previous, pick) => StartWhileSealed(w.db, pair, Start(recovery, previous, w.running[p], pick));
    case _ =>
      if w.db.row.Some? {
        var r :| w.db.row == Some(Wrap(r, pair));
        assert Effect(w, step).db.row == Some(Wrap(r, pair));
      }
  }

  lemma {:induction false} SealedRunKeepsInv(worlds: seq<World>, steps: seq<Step>, pair: Pair, k: nat)
    requires SealedRun(worlds, steps, pair) && Inv(worlds[0], pair) && k < |worlds|
    ensures Inv(worlds[k], pair)
  {
    if k > 0 {
      SealedRunKeepsInv(worlds, steps, pair, k - 1);
      StepKeepsInv(worlds[k - 1], pair, steps[k - 1]);
    }
  }

  /** However often it is restarted, moved, rotated and reloaded, an installation with
      something sealed stays on one pair of keys: every start that succeeds returns it and
      leaves it readable under its own recovery key, every one that does not changes nothing,
      and every process works with it. */
  lemma OnePairForEver(worlds: seq<World>, steps: seq<Step>, pair: Pair, k: nat)
    requires SealedRun(worlds, steps, pair) && Inv(worlds[0], pair) && k < |steps|
    ensures forall p :: 0 <= p < |worlds[k].running| ==> worlds[k].running[p] == pair
    ensures steps[k].Starts? && Resolved(worlds[k].db, steps[k].start).Some? ==>
      Resolved(worlds[k].db, steps[k].start).value == pair && Unwrapped(worlds[k + 1].db, steps[k].start.recovery) == Some(pair)
    ensures steps[k].Starts? && Resolved(worlds[k].db, steps[k].start).None? ==> worlds[k + 1] == worlds[k]
    ensures steps[k].Reloads? ==> worlds[k + 1].running == worlds[k].running
  {
    SealedRunKeepsInv(worlds, steps, pair, k);
    var w := worlds[k];
    match steps[k]
    case Starts(s) => StartWhileSealed(w.db, pair, s);
    case Reloads(p, recovery, previous, pick) => StartWhileSealed(w.db, pair, Start(recovery, previous, w.running[p], pick));
    case _ =>
  }

  // ---- where a run begins, and what a restore does to it ----

  const NEW := World(Db(None, None, [], []), [])

  /** On an empty database a start settles on what its connection string gives, if AES takes
      that, and once a bootstrap token is issued something is sealed. */
  lemma AFirstStartSettlesThePair(s: Start, token: string)
    ensures Enabled(NEW, Starts(s)) && (!Usable(s.derived.master) ==> Effect(NEW, Starts(s)) == NEW)
    ensures Usable(s.derived.master) ==>
      var started := Effect(NEW, Starts(s));
      && Inv(started, s.derived) && started.running == [s.derived] && Enabled(started, Issues(0, token))
      && Inv(Effect(started, Issues(0, token)), s.derived) && Sealed(Effect(started, Issues(0, token)).db)
  {
    if Usable(s.derived.master) {
      var started := Effect(NEW, Starts(s));
      assert started.db.row == Some(Wrap(s.recovery, s.derived));
      assert Effect(started, Issues(0, token)).db.row == Some(Wrap(s.recovery, s.derived));
    }
  }

  /** So the pair of the first start is the pair of every process and of every start after. */
  lemma OnePairSinceTheFirstStart(s: Start, token: string, worlds: seq<World>, steps: seq<Step>, k: nat)
    requires Usable(s.derived.master) && SealedRun(worlds, steps, s.derived) && k < |steps|
    requires worlds[0].db == Effect(NEW, Starts(s)).db.(bootstrap := Some(Box(Master(s.derived.master), Bootstrap, token)))
    requires worlds[0].running == [s.derived]
    ensures forall p :: 0 <= p < |worlds[k].running| ==> worlds[k].running[p] == s.derived
    ensures steps[k].Starts? && Resolved(worlds[k].db, steps[k].start).Some? ==>
      Resolved(worlds[k].db, steps[k].start).value == s.derived
  {
    AFirstStartSettlesThePair(s, token);
    var started := Effect(NEW, Starts(s));
    assert worlds[0] == Effect(started, Issues(0, token));
    OnePairForEver(worlds, steps, s.derived, k);
  }

  /** A reload leaves a process with the keys in hand or with ones AES takes. */
  lemma AReloadTakesUsableKeys(w: World, p: nat, recovery: string, previous: string, pick: nat)
    requires Enabled(w, Reloads(p, recovery, previous, pick))
    ensures var running := Effect(w, Reloads(p, recovery, previous, pick)).running;
            && |running| == |w.running| && (running[p] == w.running[p] || |running[p].master| in {16, 24, 32})
            && forall q :: 0 <= q < |running| && q != p ==> running[q] == w.running[q]
  {
  }

  /** A restore puts another database, with a pair of its own, under a running process. Its
      reload takes it over to that pair exactly when a recovery key of its opens the row that
      came along, or it had that master key all the time; otherwise nothing moves. */
  lemma AReloadFollowsARestore(restored: Db, pair: Pair, inHand: Pair, recovery: string, previous: string, pick: nat)
    requires Keeps(restored, pair) && Sealed(restored) && Possible(restored, Start(recovery, previous, inHand, pick))
    requires inHand.master == pair.master ==> inHand.pepper == pair.pepper
    ensures var w := World(restored, [inHand]);
            var s := Start(recovery, previous, inHand, pick);
            && (Inv(Effect(w, Reloads(0, recovery, previous, pick)), pair) <==> HasWorkingKey(restored, s) || inHand.master == pair.master)
            && (!Inv(Effect(w, Reloads(0, recovery, previous, pick)), pair) ==> Effect(w, Reloads(0, recovery, previous, pick)) == w)
  {
    var w := World(restored, [inHand]);
    var s := Start(recovery, previous, inHand, pick);
    StartWhileSealed(restored, pair, s);
    if Resolved(restored, s).None? {
      assert w.running[0] != pair;
      assert Effect(w, Reloads(0, recovery, previous, pick)).running[0] == inHand;
    }
  }
}
