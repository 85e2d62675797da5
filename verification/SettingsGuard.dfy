/** What naming a version does for a save: exactly when the secrets put back are those of the
    row that is replaced, and where a guard comes from that nobody named. */
module SettingsGuard {
  import opened Common
  import opened SettingsTree
  import opened SettingsStore

  // ---- a request that names a version it could have read ----

  /** The secrets put back are those of the row that was replaced. */
  lemma GuardedSavesMergeWhatTheyReplace(norm: Normal, worlds: seq<World>, steps: seq<Step>, i: nat)
    requires Run(norm, worlds, steps)
    requires var requests := worlds[|steps|].requests;
             i < |requests| && requests[i].Committed? && 0 < requests[i].ask.expected <= requests[i].ask.known
    ensures var r := worlds[|steps|].requests[i];
            r.seen == r.over && norm(r.ask.c, Preserved(Previous(r.over), r.ask.body), r.value)
  {
    RunKeepsInv(norm, worlds, steps, |steps|);
    assert RequestInv(norm, worlds[|steps|], i, worlds[|steps|].requests[i]);
  }

  /** In every continuation. */
  ghost predicate AlwaysMergesWhatItReplaces(norm: Normal, w: World, i: nat) {
    forall steps, last ::
      Leads(Next(norm), w, steps, last) && i < |last.requests| && last.requests[i].Committed? ==>
        last.requests[i].seen == last.requests[i].over
  }

  lemma ContinuationIsGuarded(norm: Normal, w: World, i: nat, steps: seq<Step>, last: World)
    requires Inv(norm, w) && Leads(Next(norm), w, steps, last)
    requires i < |w.requests| && 0 < w.requests[i].ask.expected <= w.requests[i].ask.known
    requires i < |last.requests| && last.requests[i].Committed?
    ensures last.requests[i].seen == last.requests[i].over
  {
    LeadsKeepsInv(norm, w, steps, last);
    assert RequestInv(norm, last, i, last.requests[i]);
  }

  /** Somebody else saves `n` times. */
  lemma {:induction false} SavesThrough(norm: Normal, w: World, c: Category, body: Fields, value: Fields, n: nat)
    returns (steps: seq<Step>, last: World)
    requires MaskFree(body) && EXPECTED_VERSION !in body && norm(c, body, value)
    requires CategoryInv(w.store, c) && n > 0
    ensures Leads(Next(norm), w, steps, last)
    ensures CategoryInv(last.store, c) && NewestOf(last.store, c) == LiveVersion(last.store, c) == NewestOf(w.store, c) + n
    ensures |last.requests| >= |w.requests| && last.requests[..|w.requests|] == w.requests
    decreases n
  {
    var first, middle := SaveThrough(norm, w, c, body, value);
    WriteKeeps(w.store, c, value);
    if n == 1 {
      steps, last := first, middle;
    } else {
      var more;
      more, last := SavesThrough(norm, middle, c, body, value, n - 1);
      LeadsThen(Next(norm), w, first, middle, more, last);
      steps := first + more;
      assert last.requests[..|w.requests|] == last.requests[..|middle.requests|][..|w.requests|];
    }
  }

  /** Merged now and committed after `n` other saves, if its guard is then met. */
  lemma OvertakenBy(norm: Normal, w: World, i: nat, merged: Fields, body: Fields, value: Fields, n: nat)
    returns (steps: seq<Step>, last: World)
    requires Inv(norm, w) && i < |w.requests| && w.requests[i].Asked? && norm(w.requests[i].ask.c, Merging(w, i), merged)
    requires MaskFree(body) && EXPECTED_VERSION !in body && norm(w.requests[i].ask.c, body, value)
    requires n > 0 && (w.requests[i].ask.expected <= 0 || w.requests[i].ask.expected == NewestOf(w.store, w.requests[i].ask.c) + n)
    ensures Leads(Next(norm), w, steps, last)
    ensures i < |last.requests| && last.requests[i].Committed? && last.requests[i].seen != last.requests[i].over
  {
    var ask := w.requests[i].ask;
    var x := Effect(w, Merges(i, merged));
    assert CategoryInv(w.store, ask.c);
    OneStep(norm, w, Merges(i, merged));
    var more, y := SavesThrough(norm, x, ask.c, body, value, n);
    assert y.requests[i] == y.requests[..|x.requests|][i];
    last := Effect(y, Commits(i));
    OneStep(norm, y, Commits(i));
    LeadsThen(Next(norm), w, [Merges(i, merged)], x, more, y);
    LeadsThen(Next(norm), w, [Merges(i, merged)] + more, y, [Commits(i)], last);
    steps := [Merges(i, merged)] + more + [Commits(i)];
    if ask.c in w.store.live {
      NewestIsLast(History(w.store, ask.c));
    }
  }

  /** A request that has just arrived, that can be merged, and in whose category something
      can be saved: whatever happens from here on, it replaces the row whose secrets it was
      given, if and only if it names a version no newer than what there was. */
  lemma MergesWhatItReplacesIff(norm: Normal, worlds: seq<World>, steps: seq<Step>, i: nat,
                                merged: Fields, body: Fields, value: Fields)
    requires Run(norm, worlds, steps)
    requires var w := worlds[|steps|];
             && i < |w.requests| && w.requests[i].Asked? && w.requests[i].ask.known == NewestOf(w.store, w.requests[i].ask.c)
             && norm(w.requests[i].ask.c, Merging(w, i), merged) && norm(w.requests[i].ask.c, body, value)
    requires MaskFree(body) && EXPECTED_VERSION !in body
    ensures var w := worlds[|steps|];
            AlwaysMergesWhatItReplaces(norm, w, i) <==> 0 < w.requests[i].ask.expected <= w.requests[i].ask.known
  {
    var w := worlds[|steps|];
    var ask := w.requests[i].ask;
    RunKeepsInv(norm, worlds, steps, |steps|);
    if 0 < ask.expected <= ask.known {
      forall more, last | Leads(Next(norm), w, more, last) && i < |last.requests| && last.requests[i].Committed?
        ensures last.requests[i].seen == last.requests[i].over
      {
        ContinuationIsGuarded(norm, w, i, more, last);
      }
    } else {
      var more, last := OvertakenBy(norm, w, i, merged, body, value, if ask.expected <= 0 then 1 else ask.expected - ask.known);
      assert Leads(Next(norm), w, more, last);
    }
  }

  // ---- a run in which one secret comes back ----

  /** A normalization that changes nothing, and a validation that accepts everything. */
  ghost function Plainly(): Normal {
    (c: Category, merged: Fields, value: Fields) => merged == value
  }

  function Token(text: string): Fields {
    map["token" := Str(text)]
  }

  lemma MaskedTokenRestored(text: string)
    ensures Preserved(Token(text), Token("********")) == Token(text)
    ensures Token("********") - {EXPECTED_VERSION} == Token("********")
  {
  }

  /** A save arrives that still shows the mask, and is merged. */
  lemma ShownAgain(w: World, c: Category, first: string) returns (last: World)
    requires c in w.store.live && w.store.live[c].value == Token(first) && |w.requests| == 1
    ensures Leads(Next(Plainly()), w, [Puts(c, Token("********"))] + [Merges(1, Token(first))], last)
    ensures last.store == w.store && |last.requests| == 2 && last.requests[1].Merged?
    ensures last.requests[1].ask.c == c && last.requests[1].ask.expected == 0 && last.requests[1].value == Token(first)
  {
    var puts, merges := Puts(c, Token("********")), Merges(1, Token(first));
    var b := Effect(w, puts);
    MaskedTokenRestored(first);
    last := Effect(b, merges);
    OneStep(Plainly(), w, puts);
    OneStep(Plainly(), b, merges);
    LeadsThen(Next(Plainly()), w, [puts], b, [merges], last);
  }

  /** The first token is saved; then a save arrives that still shows the mask, and is merged. */
  lemma SavedAndShownAgain(c: Category, first: string) returns (steps: seq<Step>, last: World)
    requires first != "********"
    ensures Leads(Next(Plainly()), START, steps, last)
    ensures Puts(c, Token("********")) in steps
    ensures CategoryInv(last.store, c) && History(last.store, c) == [Version(1, Token(first))]
    ensures |last.requests| == 2 && last.requests[1].Merged?
    ensures last.requests[1].ask.c == c && last.requests[1].ask.expected == 0 && last.requests[1].value == Token(first)
  {
    var before, a := SaveThrough(Plainly(), START, c, Token(first), Token(first));
    WriteKeeps(START.store, c, Token(first));
    last := ShownAgain(a, c, first);
    var shown := [Puts(c, Token("********"))] + [Merges(1, Token(first))];
    LeadsThen(Next(Plainly()), START, before, a, shown, last);
    steps := before + shown;
    assert steps[|before|] == Puts(c, Token("********"));
  }

  lemma ThreeRows(rows: seq<Version>, first: Fields, second: Fields)
    requires rows == [Version(1, first)] + [Version(2, second)]
    ensures Newest(rows) == 2
    ensures rows + [Version(3, first)] == [Version(1, first), Version(2, second), Version(3, first)]
  {
    NewestIsLast(rows);
  }

  /** A save that names no version, merged before another administrator replaced the token
      and committed after, undoes the replacement. */
  lemma AnUnguardedSaveCanReviveASecret(c: Category, first: string, second: string) returns (steps: seq<Step>, last: World)
    requires first != "********" && second != "********" && first != second
    ensures Leads(Next(Plainly()), START, steps, last)
    ensures Puts(c, Token("********")) in steps
    ensures History(last.store, c) == [Version(1, Token(first)), Version(2, Token(second)), Version(3, Token(first))]
  {
    var before, a := SavedAndShownAgain(c, first);
    var other, b := SaveThrough(Plainly(), a, c, Token(second), Token(second));
    WriteKeeps(a.store, c, Token(second));
    NewestIsLast(History(a.store, c));
    assert b.requests[1] == b.requests[..2][1];
    last := Effect(b, Commits(1));
    assert last.store == Write(b.store, c, Token(first));
    WriteKeeps(b.store, c, Token(first));
    ThreeRows(History(b.store, c), Token(first), Token(second));
    OneStep(Plainly(), b, Commits(1));
    LeadsThen(Next(Plainly()), START, before, a, other, b);
    LeadsThen(Next(Plainly()), START, before + other, b, [Commits(1)], last);
    steps := before + other + [Commits(1)];
  }

  // ---- a guard that nobody named ----

  /** Steps of a run, one after the other. */
  lemma OneAfterAnother(norm: Normal, worlds: seq<World>, steps: seq<Step>)
    requires |worlds| == |steps| + 1
    requires forall k :: 0 <= k < |steps| ==> Enabled(norm, worlds[k], steps[k]) && worlds[k + 1] == Effect(worlds[k], steps[k])
    ensures Leads(Next(norm), worlds[0], steps, worlds[|steps|])
  {
    LeadsAlong(Next(norm), worlds, steps);
  }

  lemma FirstWrite(c: Category, value: Fields)
    ensures Write(START.store, c, value) == Store(map[c := Live(1, value)], map[c := [Version(1, value)]])
  {
    assert History(START.store, c) + [Version(1, value)] == [Version(1, value)];
    assert START.store.live[c := Live(1, value)] == map[c := Live(1, value)];
    assert START.store.history[c := [Version(1, value)]] == map[c := [Version(1, value)]];
  }

  /** The first document of a category is imported. */
  lemma ImportThrough(norm: Normal, c: Category, document: Fields, stored: Fields) returns (last: World)
    requires MaskFree(document) && norm(c, document, stored)
    ensures Leads(Next(norm), START, [Imports(c, document), Merges(0, stored), Commits(0)], last)
    ensures last.store == Store(map[c := Live(1, stored)], map[c := [Version(1, stored)]])
    ensures |last.requests| == 1 && last.requests[0].Committed?
  {
    PlainMerges(map[], document);
    var x := Effect(START, Imports(c, document));
    var y := Effect(x, Merges(0, stored));
    last := Effect(y, Commits(0));
    assert y.requests[0].Merged? && y.requests[0].ask.c == c && !Conflicts(y.store, c, 0);
    FirstWrite(c, stored);
    OneAfterAnother(norm, [START, x, y, last], [Imports(c, document), Merges(0, stored), Commits(0)]);
  }

  /** It is restored, and that is refused. */
  lemma RestoreRefused(norm: Normal, w: World, c: Category, stored: Fields, again: Fields) returns (last: World)
    requires w.store == Store(map[c := Live(1, stored)], map[c := [Version(1, stored)]]) && |w.requests| == 1
    requires MaskFree(stored) && norm(c, stored - {EXPECTED_VERSION}, again) && ExpectedIn(stored) > 1
    ensures Leads(Next(norm), w, [Restores(c, 0), Merges(1, again), Commits(1)], last)
    ensures last.store == w.store && |last.requests| == 2 && last.requests[0] == w.requests[0] && last.requests[1].Conflicted?
  {
    PlainMerges(stored, stored - {EXPECTED_VERSION});
    assert History(w.store, c) == [Version(1, stored)];
    var x := Effect(w, Restores(c, 0));
    var y := Effect(x, Merges(1, again));
    last := Effect(y, Commits(1));
    assert y.requests[1].Merged? && Conflicts(y.store, c, y.requests[1].ask.expected);
    OneAfterAnother(norm, [w, x, y, last], [Restores(c, 0), Merges(1, again), Commits(1)]);
  }

  /** An imported document keeps the version it carries, and restoring its row names that
      version: the restore of the only row there is, with nothing else going on, is refused. */
  lemma AnImportedVersionRefusesItsRestore(norm: Normal, c: Category, document: Fields, stored: Fields, again: Fields)
    returns (last: World)
    requires MaskFree(document) && norm(c, document, stored)
    requires MaskFree(stored) && norm(c, stored - {EXPECTED_VERSION}, again) && ExpectedIn(stored) > 1
    ensures Leads(Next(norm), START, [Imports(c, document), Merges(0, stored), Commits(0),
                                      Restores(c, 0), Merges(1, again), Commits(1)], last)
    ensures |last.requests| == 2 && last.requests[0].Committed? && last.requests[1].Conflicted?
    ensures last.store == Store(map[c := Live(1, stored)], map[c := [Version(1, stored)]])
  {
    var first, second := [Imports(c, document), Merges(0, stored), Commits(0)], [Restores(c, 0), Merges(1, again), Commits(1)];
    var w := ImportThrough(norm, c, document, stored);
    last := RestoreRefused(norm, w, c, stored, again);
    LeadsThen(Next(norm), START, first, w, second, last);
    assert first + second == [Imports(c, document), Merges(0, stored), Commits(0), Restores(c, 0), Merges(1, again), Commits(1)];
  }

  /** In every run: what a restore is refused for is what its row carries. */
  lemma ARestoreIsRefusedForItsVersionIff(norm: Normal, worlds: seq<World>, steps: seq<Step>, i: nat)
    requires Run(norm, worlds, steps) && steps != [] && steps[|steps| - 1] == Commits(i)
    requires worlds[|steps| - 1].requests[i].ask.origin.FromRestore?
    ensures var w := worlds[|steps| - 1];
            var ask := w.requests[i].ask;
            && ask.origin.row < |History(w.store, ask.c)|
            && var named := ExpectedIn(History(w.store, ask.c)[ask.origin.row].value);
               (worlds[|steps|].requests[i].Conflicted? <==> named > 0 && named != LiveVersion(w.store, ask.c))
  {
    RunKeepsInv(norm, worlds, steps, |steps| - 1);
    var w := worlds[|steps| - 1];
    assert Enabled(norm, w, Commits(i)) && worlds[|steps|] == Effect(w, Commits(i));
    assert RequestInv(norm, w, i, w.requests[i]);
  }

  /** A normalization that does not put a version in where there was none. */
  ghost predicate AddsNoVersion(norm: Normal) {
    forall c, merged, value :: norm(c, merged, value) && EXPECTED_VERSION in value ==> EXPECTED_VERSION in merged
  }

  /** Then no row written by a save or a restore carries one, in any run. */
  lemma OnlyImportsCarryAVersion(norm: Normal, worlds: seq<World>, steps: seq<Step>, c: Category, k: nat)
    requires Run(norm, worlds, steps) && AddsNoVersion(norm)
    requires k < |History(worlds[|steps|].store, c)| && EXPECTED_VERSION in History(worlds[|steps|].store, c)[k].value
    ensures var w := worlds[|steps|];
            k < |Authors(w, c)| && Authors(w, c)[k] < |w.requests| && w.requests[Authors(w, c)[k]].ask.origin.FromImport?
  {
    RunKeepsInv(norm, worlds, steps, |steps|);
    var w := worlds[|steps|];
    assert AuthorsInv(w, c);
    var i := Authors(w, c)[k];
    assert RequestInv(norm, w, i, w.requests[i]);
    assert norm(c, Preserved(Previous(w.requests[i].seen), w.requests[i].ask.body), w.requests[i].value);
    assert EXPECTED_VERSION in w.requests[i].ask.body;
  }
}
