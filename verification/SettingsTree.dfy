/** A setting as a tree, hiding its secrets before it is shown, and putting the stored ones
    back into what is sent in.

    Paths are lists of keys; nothing here looks inside an array, as the source does not. */
module SettingsTree {
  import opened Common

  datatype V =
    | Null
    | Str(text: string)
    | Num(number: real)
    | Bool(truth: bool)
    | Arr(items: seq<V>)
    | Obj(fields: map<string, V>)

  type Fields = map<string, V>

  type Path = seq<string>

  const MASK: V := Str("********")

  // ---- which keys hold secrets ----

  function LowerChar(c: char): char {
    if 'A' <= c <= 'Z' then c - 'A' + 'a' else c
  }

  function Lower(s: string): string {
    seq(|s|, i requires 0 <= i < |s| => LowerChar(s[i]))
  }

  predicate HasPrefix(s: string, prefix: string) {
    |prefix| <= |s| && s[..|prefix|] == prefix
  }

  predicate HasSuffix(s: string, suffix: string) {
    |suffix| <= |s| && s[|s| - |suffix|..] == suffix
  }

  predicate Contains(s: string, part: string) {
    exists i :: 0 <= i <= |s| && HasPrefix(s[i..], part)
  }

  predicate SecretName(key: string) {
    var lower := Lower(key);
    || lower == "dsn"
    || Contains(lower, "secret") || Contains(lower, "password") || Contains(lower, "token") || Contains(lower, "apikey")
    || Contains(lower, "api-key") || Contains(lower, "authorization") || HasSuffix(lower, "pat")
  }

  predicate Reference(item: V) {
    item.Str? && HasPrefix(item.text, "secret://")
  }

  predicate Blank(item: V) {
    item == Null || item == Str("")
  }

  // ---- hiding ----

  /** A field whose content is replaced: a secret's name, and something to hide. */
  predicate Hidden(key: string, item: V) {
    !Reference(item) && SecretName(key) && !Blank(item)
  }

  /** A field that is looked into: an object under any other name. */
  predicate Entered(key: string, item: V) {
    item.Obj? && !SecretName(key)
  }

  function Masked(fields: Fields): Fields
    decreases Obj(fields), 0
  {
    map key | key in fields :: MaskedField(key, fields[key])
  }

  function MaskedField(key: string, item: V): V
    decreases item, 1
  {
    if Hidden(key, item) then MASK
    else if Entered(key, item) then Obj(Masked(item.fields))
    else item
  }

  // ---- the names, spelled out ----

  /** `c` is the small letter `d` in either case, or the character `d`. */
  predicate Spells(c: char, d: char) {
    c == d || ('A' <= c <= 'Z' && c as int + 32 == d as int)
  }

  /** The word is in the key, from `i` on, in any mixture of cases. */
  predicate SpelledAt(key: string, word: string, i: int) {
    0 <= i <= |key| - |word| && forall j :: 0 <= j < |word| ==> Spells(key[i + j], word[j])
  }

  predicate HoldsWord(key: string, word: string) {
    exists i :: 0 <= i <= |key| && SpelledAt(key, word, i)
  }

  /** Names of secrets: six words anywhere, one at the end, and one on its own. */
  predicate NamesASecret(key: string) {
    || HoldsWord(key, "secret") || HoldsWord(key, "password") || HoldsWord(key, "token") || HoldsWord(key, "apikey")
    || HoldsWord(key, "api-key") || HoldsWord(key, "authorization")
    || SpelledAt(key, "pat", |key| - 3) || (|key| == 3 && SpelledAt(key, "dsn", 0))
  }

  predicate NoCapitals(word: string) {
    forall j :: 0 <= j < |word| ==> !('A' <= word[j] <= 'Z')
  }

  lemma SpelledIsPrefix(key: string, word: string, i: nat)
    requires NoCapitals(word) && i <= |key|
    ensures SpelledAt(key, word, i) <==> HasPrefix(Lower(key)[i..], word)
  {
    forall j | 0 <= j < |word| && i + j < |key| ensures Spells(key[i + j], word[j]) <==> Lower(key)[i..][j] == word[j] {
      assert Lower(key)[i..][j] == LowerChar(key[i + j]);
    }
    if HasPrefix(Lower(key)[i..], word) {
      assert forall j :: 0 <= j < |word| ==> Lower(key)[i..][j] == word[j];
    }
  }

  lemma HoldsIsContains(key: string, word: string)
    requires NoCapitals(word)
    ensures HoldsWord(key, word) <==> Contains(Lower(key), word)
  {
    forall i | 0 <= i <= |key| ensures SpelledAt(key, word, i) <==> HasPrefix(Lower(key)[i..], word) {
      SpelledIsPrefix(key, word, i);
    }
  }

  lemma SecretNameIff(key: string)
    ensures SecretName(key) <==> NamesASecret(key)
  {
    HoldsIsContains(key, "secret");
    HoldsIsContains(key, "password");
    HoldsIsContains(key, "token");
    HoldsIsContains(key, "apikey");
    HoldsIsContains(key, "api-key");
    HoldsIsContains(key, "authorization");
    SpelledIsPrefix(key, "dsn", 0);
    assert Lower(key)[0..] == Lower(key);
    if |key| >= 3 {
      SpelledIsPrefix(key, "pat", |key| - 3);
      assert |Lower(key)[|key| - 3..]| == 3;
    }
  }

  /** A field under a secret's name shows the mask, unless it is empty or says where the secret
      is kept; a field under any other name stays, and an object is looked into. */
  lemma WhatIsShown(fields: Fields, key: string)
    requires key in fields
    ensures key in Masked(fields)
    ensures var item := fields[key];
            Masked(fields)[key] ==
              if item.Str? && |item.text| >= 9 && item.text[..9] == "secret://" then item
              else if NamesASecret(key) then (if item.Null? || (item.Str? && |item.text| == 0) then item else Str("********"))
              else if item.Obj? then Obj(Masked(item.fields))
              else item
  {
    SecretNameIff(key);
  }

  // ---- putting back ----

  function ObjectAt(fields: Fields, key: string): Fields {
    if key in fields && fields[key].Obj? then fields[key].fields else map[]
  }

  function Preserved(previous: Fields, incoming: Fields): Fields
    decreases Obj(incoming), 0
  {
    map key | key in incoming && (incoming[key] == MASK ==> key in previous) ::
      if incoming[key] == MASK then previous[key]
      else PreservedField(ObjectAt(previous, key), incoming[key])
  }

  function PreservedField(previous: Fields, item: V): V
    decreases item, 1
  {
    if item.Obj? then Obj(Preserved(previous, item.fields)) else item
  }

  // ---- what is where ----

  /** What a path leads to, through objects only. */
  function At(fields: Fields, path: Path): Option<V>
    decreases |path|
  {
    if path == [] then Some(Obj(fields))
    else if path[0] !in fields then None
    else if |path| == 1 then Some(fields[path[0]])
    else At(ObjectAt(fields, path[0]), path[1..])
  }

  /** The literal mask at no path. */
  ghost predicate NoMask(fields: Fields) {
    forall path: Path :: At(fields, path) != Some(MASK)
  }

  /** Nothing at a secret's name is left readable: at every path ending in one there is the
      mask, nothing, or a reference to where the secret is kept. */
  ghost predicate NothingShows(fields: Fields) {
    forall path: Path :: path != [] && SecretName(path[|path| - 1]) && At(fields, path).Some? ==>
      var item := At(fields, path).value; item == MASK || Blank(item) || Reference(item)
  }

  // ---- masking ----

  lemma NothingInNothing(path: Path)
    requires path != []
    ensures At(map[], path) == None
  {
  }

  /** Masking what is masked changes nothing. */
  lemma {:induction false} MaskedTwice(fields: Fields)
    ensures Masked(Masked(fields)) == Masked(fields)
    decreases Obj(fields)
  {
    forall key | key in fields
      ensures MaskedField(key, MaskedField(key, fields[key])) == MaskedField(key, fields[key])
    {
      if Entered(key, fields[key]) {
        MaskedTwice(fields[key].fields);
      }
    }
  }

  lemma {:induction false} MaskedShowsNothing(fields: Fields)
    ensures NothingShows(Masked(fields))
  {
    forall path: Path | path != [] && SecretName(path[|path| - 1]) && At(Masked(fields), path).Some?
      ensures var item := At(Masked(fields), path).value; item == MASK || Blank(item) || Reference(item)
    {
      MaskedShowsNothingAt(fields, path);
    }
  }

  lemma {:induction false} MaskedShowsNothingAt(fields: Fields, path: Path)
    requires path != [] && SecretName(path[|path| - 1]) && At(Masked(fields), path).Some?
    ensures var item := At(Masked(fields), path).value; item == MASK || Blank(item) || Reference(item)
    decreases |path|
  {
    if |path| > 1 {
      var key := path[0];
      assert ObjectAt(Masked(fields), key) == if Entered(key, fields[key]) then Masked(fields[key].fields) else map[];
      if Entered(key, fields[key]) {
        MaskedShowsNothingAt(fields[key].fields, path[1..]);
      }
    }
  }

  /** The paths that masking reports: where a secret's name now holds the mask. */
  ghost predicate Reported(fields: Fields, path: Path) {
    path != [] && SecretName(path[|path| - 1]) && At(Masked(fields), path) == Some(MASK)
  }

  lemma ReportedSplit(fields: Fields, key: string, rest: Path)
    ensures Reported(fields, [key] + rest) <==>
      key in fields && if rest == [] then Hidden(key, fields[key])
                       else Entered(key, fields[key]) && Reported(fields[key].fields, rest)
  {
    var path := [key] + rest;
    assert path[1..] == rest;
    if rest != [] {
      assert path[|path| - 1] == rest[|rest| - 1];
      NothingInNothing(rest);
      if key in fields {
        assert ObjectAt(Masked(fields), key) == if Entered(key, fields[key]) then Masked(fields[key].fields) else map[];
      }
    } else if key in fields {
      assert At(Masked(fields), path) == Some(MaskedField(key, fields[key]));
    }
  }

  predicate NoneTwice(paths: seq<Path>) {
    forall i, j :: 0 <= i < j < |paths| ==> paths[i] != paths[j]
  }

  /** `paths` are, each once, those under `prefix` that satisfy `wanted` below one of `keys`. */
  ghost predicate ListsBelow(paths: seq<Path>, prefix: Path, keys: set<string>, wanted: Path -> bool) {
    && NoneTwice(paths)
    && (forall p :: p in paths ==> prefix < p && p[|prefix|] in keys && wanted(p[|prefix|..]))
    && (forall rest :: rest != [] && rest[0] in keys && wanted(rest) ==> prefix + rest in paths)
  }

  /** Those below one key. */
  ghost predicate ListsAt(more: seq<Path>, prefix: Path, key: string, wanted: Path -> bool) {
    && NoneTwice(more)
    && (forall p :: p in more ==> prefix < p && p[|prefix|] == key && wanted(p[|prefix|..]))
    && (forall rest :: rest != [] && rest[0] == key && wanted(rest) ==> prefix + rest in more)
  }

  /** What one more key adds to the list. */
  lemma ListsOneMore(paths: seq<Path>, more: seq<Path>, prefix: Path, keys: set<string>, key: string, wanted: Path -> bool)
    requires ListsBelow(paths, prefix, keys, wanted) && key !in keys
    requires ListsAt(more, prefix, key, wanted)
    ensures ListsBelow(paths + more, prefix, keys + {key}, wanted)
  {
    forall i, j | 0 <= i < j < |paths + more| ensures (paths + more)[i] != (paths + more)[j] {
      if i < |paths| <= j {
        assert paths[i] in paths && more[j - |paths|] in more;
      }
    }
  }

  ghost function Reports(fields: Fields): Path -> bool {
    path => Reported(fields, path)
  }

  /** One field: what is shown of it, and the paths hidden in it. */
  method MaskItem(ghost value: Fields, key: string, item: V, prefix: Path) returns (shown: V, more: seq<Path>)
    requires key in value && item == value[key]
    ensures shown == MaskedField(key, item)
    ensures ListsAt(more, prefix, key, Reports(value))
    decreases item, 2
  {
    shown, more := item, [];
    if Reference(item) {
    } else if SecretName(key) {
      if !Blank(item) {
        shown, more := MASK, [prefix + [key]];
      }
    } else if item.Obj? {
      var nested;
      nested, more := MaskSecretPaths(item.fields, prefix + [key]);
      shown := Obj(nested);
    }
    MaskedKey(value, prefix, key, more);
  }

  /** The walk so far: the keys of `left` are still to come. */
  ghost predicate MaskedBut(value: Fields, out: Fields, masked: seq<Path>, prefix: Path, left: set<string>) {
    && left <= value.Keys == out.Keys
    && (forall key :: key in value ==> out[key] == if key in left then value[key] else MaskedField(key, value[key]))
    && ListsBelow(masked, prefix, value.Keys - left, Reports(value))
  }

  method MaskNext(value: Fields, out: Fields, masked: seq<Path>, prefix: Path, ghost left: set<string>, key: string)
    returns (next: Fields, more: seq<Path>)
    requires MaskedBut(value, out, masked, prefix, left) && key in left
    ensures MaskedBut(value, next, more, prefix, left - {key})
    decreases Obj(value), 0
  {
    var shown, paths := MaskItem(value, key, value[key], prefix);
    ListsOneMore(masked, paths, prefix, value.Keys - left, key, Reports(value));
    assert value.Keys - (left - {key}) == (value.Keys - left) + {key};
    next, more := out[key := shown], masked + paths;
  }

  lemma MaskedStart(value: Fields, prefix: Path)
    ensures MaskedBut(value, value, [], prefix, value.Keys)
  {
    assert value.Keys - value.Keys == {};
  }

  lemma MaskedEnd(value: Fields, out: Fields, masked: seq<Path>, prefix: Path)
    requires MaskedBut(value, out, masked, prefix, {})
    ensures out == Masked(value) && ListsBelow(masked, prefix, value.Keys, Reports(value))
  {
    assert value.Keys - {} == value.Keys;
  }

  /** The recursive walk over the keys, in whatever order they come. */
  method MaskSecretPaths(value: Fields, prefix: Path) returns (out: Fields, masked: seq<Path>)
    ensures out == Masked(value)
    ensures ListsBelow(masked, prefix, value.Keys, Reports(value))
    decreases Obj(value), 1
  {
    MaskedStart(value, prefix);
    out, masked := value, [];
    var left := value.Keys;
    while left != {}
      invariant MaskedBut(value, out, masked, prefix, left)
      decreases |left|
    {
      var key :| key in left;
      out, masked := MaskNext(value, out, masked, prefix, left, key);
      left := left - {key};
    }
    MaskedEnd(value, out, masked, prefix);
  }

  /** The paths one key contributes. */
  lemma MaskedKey(value: Fields, prefix: Path, key: string, more: seq<Path>)
    requires key in value
    requires
      if Hidden(key, value[key]) then more == [prefix + [key]]
      else if Entered(key, value[key]) then
        ListsBelow(more, prefix + [key], value[key].fields.Keys, Reports(value[key].fields))
      else more == []
    ensures ListsAt(more, prefix, key, Reports(value))
  {
    var path := prefix + [key];
    forall p | p in more ensures prefix < p && p[|prefix|] == key && Reported(value, p[|prefix|..]) {
      var rest := p[|path|..];
      assert p[|prefix|..] == [key] + rest;
      ReportedSplit(value, key, rest);
    }
    forall rest | rest != [] && rest[0] == key && Reported(value, rest) ensures prefix + rest in more {
      assert rest == [key] + rest[1..];
      ReportedSplit(value, key, rest[1..]);
      if rest[1..] == [] {
        assert prefix + rest == path;
      } else {
        ReportedStarts(value[key].fields, rest[1..]);
        assert prefix + rest == path + rest[1..];
      }
    }
  }

  lemma ReportedStarts(fields: Fields, path: Path)
    requires Reported(fields, path)
    ensures path[0] in fields
  {
  }

  // ---- putting back ----

  /** What was hidden comes back: sending a masked setting in gives the stored one. */
  lemma {:induction false} PreserveRestores(stored: Fields)
    ensures Preserved(stored, Masked(stored)) == stored
    decreases Obj(stored)
  {
    forall key | key in stored
      ensures (if MaskedField(key, stored[key]) == MASK then stored[key]
               else PreservedField(ObjectAt(stored, key), MaskedField(key, stored[key]))) == stored[key]
    {
      if Entered(key, stored[key]) {
        PreserveRestores(stored[key].fields);
      }
    }
  }

  /** A mask is reported when there is nothing stored to put in its place. */
  ghost predicate Missing(previous: Fields, incoming: Fields, path: Path) {
    path != [] && At(incoming, path) == Some(MASK) && At(previous, path) == None
  }

  lemma {:induction false} NothingMissing(stored: Fields, path: Path)
    ensures !Missing(stored, Masked(stored), path)
    decreases |path|
  {
    if path != [] && path[0] in stored && |path| > 1 {
      var key := path[0];
      assert ObjectAt(Masked(stored), key) == if Entered(key, stored[key]) then Masked(stored[key].fields) else map[];
      NothingInNothing(path[1..]);
      if Entered(key, stored[key]) {
        NothingMissing(stored[key].fields, path[1..]);
      }
    }
  }

  /** A mask on the way to a path, or at its end. */
  ghost predicate UnderMask(incoming: Fields, path: Path) {
    exists n :: 0 < n <= |path| && At(incoming, path[..n]) == Some(MASK)
  }

  lemma UnderMaskStep(incoming: Fields, path: Path)
    requires path != []
    ensures UnderMask(incoming, path) <==>
      path[0] in incoming && (incoming[path[0]] == MASK || UnderMask(ObjectAt(incoming, path[0]), path[1..]))
  {
    var key := path[0];
    if UnderMask(incoming, path) {
      var n :| 0 < n <= |path| && At(incoming, path[..n]) == Some(MASK);
      if n > 1 {
        assert path[..n][1..] == path[1..][..n - 1];
        assert At(ObjectAt(incoming, key), path[1..][..n - 1]) == Some(MASK);
      }
    }
    if key in incoming && incoming[key] == MASK {
      assert At(incoming, path[..1]) == Some(MASK);
    }
    if key in incoming && UnderMask(ObjectAt(incoming, key), path[1..]) {
      var n :| 0 < n <= |path[1..]| && At(ObjectAt(incoming, key), path[1..][..n]) == Some(MASK);
      assert path[..n + 1][1..] == path[1..][..n];
      assert At(incoming, path[..n + 1]) == Some(MASK);
    }
  }

  predicate SameShape(a: Option<V>, b: Option<V>) {
    a == b || (a.Some? && b.Some? && a.value.Obj? && b.value.Obj?)
  }

  /** Path by path: under a mask there is what was stored there, and everywhere else what was
      sent. */
  lemma {:induction false} PreservedAt(previous: Fields, incoming: Fields, path: Path)
    requires path != []
    ensures
      if UnderMask(incoming, path) then At(Preserved(previous, incoming), path) == At(previous, path)
      else SameShape(At(Preserved(previous, incoming), path), At(incoming, path))
    decreases |path|
  {
    UnderMaskStep(incoming, path);
    var key := path[0];
    if key in incoming && |path| > 1 {
      if incoming[key] == MASK {
        assert ObjectAt(Preserved(previous, incoming), key) == ObjectAt(previous, key);
      } else if incoming[key].Obj? {
        PreservedAt(ObjectAt(previous, key), incoming[key].fields, path[1..]);
      }
    }
  }

  /** As long as nothing stored is the literal mask, nothing to be stored is. */
  lemma PreservedHasNoMask(previous: Fields, incoming: Fields)
    requires NoMask(previous)
    ensures NoMask(Preserved(previous, incoming))
  {
    forall path: Path ensures At(Preserved(previous, incoming), path) != Some(MASK) {
      if path != [] {
        PreservedAt(previous, incoming, path);
        if At(incoming, path) == Some(MASK) {
          assert path[..|path|] == path;
        }
      }
    }
  }

  lemma MissingSplit(previous: Fields, incoming: Fields, key: string, rest: Path)
    ensures Missing(previous, incoming, [key] + rest) <==>
      key in incoming && if rest == [] then incoming[key] == MASK && key !in previous
                         else incoming[key].Obj? && Missing(ObjectAt(previous, key), incoming[key].fields, rest)
  {
    assert ([key] + rest)[1..] == rest;
    if rest != [] && key !in previous {
      NothingInNothing(rest);
    }
    if rest != [] && key in incoming && !incoming[key].Obj? {
      NothingInNothing(rest);
    }
  }

  ghost function Misses(previous: Fields, incoming: Fields): Path -> bool {
    path => Missing(previous, incoming, path)
  }

  ghost predicate Placed(previous: Fields, incoming: Fields, out: Fields, key: string) {
    var all := Preserved(previous, incoming);
    (key in out <==> key in all) && (key in all ==> key in out && out[key] == all[key])
  }

  lemma AllPlaced(previous: Fields, incoming: Fields, out: Fields)
    requires out.Keys <= incoming.Keys && forall key :: key in incoming.Keys ==> Placed(previous, incoming, out, key)
    ensures out == Preserved(previous, incoming)
  {
    assert Preserved(previous, incoming).Keys <= incoming.Keys;
    assert forall key :: key in out <==> key in Preserved(previous, incoming);
  }

  /** One key of what is sent: what becomes of it, and the masks left without a value. */
  method PreserveKey(previous: Fields, incoming: Fields, out: Fields, key: string, prefix: Path)
    returns (next: Fields, more: seq<Path>)
    requires key in incoming && out.Keys <= incoming.Keys
    requires key in out && out[key] == incoming[key]
    ensures next.Keys <= incoming.Keys && Placed(previous, incoming, next, key)
    ensures next - {key} == out - {key}
    ensures ListsAt(more, prefix, key, Misses(previous, incoming))
    decreases incoming[key], 2
  {
    next, more := out, [];
    if incoming[key] == MASK {
      if key in previous {
        next := out[key := previous[key]];
      } else {
        next, more := out - {key}, [prefix + [key]];
      }
    } else if incoming[key].Obj? {
      var nested;
      nested, more := PreserveMaskedPaths(ObjectAt(previous, key), incoming[key].fields, prefix + [key]);
      next := out[key := Obj(nested)];
    }
    MissedKey(previous, incoming, prefix, key, more);
  }

  ghost predicate PreservedBut(previous: Fields, incoming: Fields, out: Fields, unresolved: seq<Path>, prefix: Path, left: set<string>) {
    && left <= incoming.Keys && out.Keys <= incoming.Keys
    && (forall key :: key in left ==> key in out && out[key] == incoming[key])
    && (forall key :: key in incoming.Keys - left ==> Placed(previous, incoming, out, key))
    && ListsBelow(unresolved, prefix, incoming.Keys - left, Misses(previous, incoming))
  }

  method PreserveNext(previous: Fields, incoming: Fields, out: Fields, unresolved: seq<Path>, prefix: Path, ghost left: set<string>, key: string)
    returns (next: Fields, more: seq<Path>)
    requires PreservedBut(previous, incoming, out, unresolved, prefix, left) && key in left
    ensures PreservedBut(previous, incoming, next, more, prefix, left - {key})
    decreases Obj(incoming), 0
  {
    var paths;
    next, paths := PreserveKey(previous, incoming, out, key, prefix);
    OthersKept(out, next, key);
    ListsOneMore(unresolved, paths, prefix, incoming.Keys - left, key, Misses(previous, incoming));
    assert incoming.Keys - (left - {key}) == (incoming.Keys - left) + {key};
    more := unresolved + paths;
  }

  lemma PreservedStart(previous: Fields, incoming: Fields, prefix: Path)
    ensures PreservedBut(previous, incoming, incoming, [], prefix, incoming.Keys)
  {
    assert incoming.Keys - incoming.Keys == {};
  }

  lemma PreservedEnd(previous: Fields, incoming: Fields, out: Fields, unresolved: seq<Path>, prefix: Path)
    requires PreservedBut(previous, incoming, out, unresolved, prefix, {})
    ensures out == Preserved(previous, incoming)
    ensures ListsBelow(unresolved, prefix, incoming.Keys, Misses(previous, incoming))
  {
    assert incoming.Keys - {} == incoming.Keys;
    AllPlaced(previous, incoming, out);
  }

  method PreserveMaskedPaths(previous: Fields, incoming: Fields, prefix: Path) returns (out: Fields, unresolved: seq<Path>)
    ensures out == Preserved(previous, incoming)
    ensures ListsBelow(unresolved, prefix, incoming.Keys, Misses(previous, incoming))
    decreases Obj(incoming), 1
  {
    PreservedStart(previous, incoming, prefix);
    out, unresolved := incoming, [];
    var left := incoming.Keys;
    while left != {}
      invariant PreservedBut(previous, incoming, out, unresolved, prefix, left)
      decreases |left|
    {
      var key :| key in left;
      out, unresolved := PreserveNext(previous, incoming, out, unresolved, prefix, left, key);
      left := left - {key};
    }
    PreservedEnd(previous, incoming, out, unresolved, prefix);
  }

  lemma OthersKept(before: Fields, after: Fields, key: string)
    requires after - {key} == before - {key}
    ensures forall k :: k != key ==> (k in after <==> k in before) && (k in before ==> k in after && after[k] == before[k])
  {
    forall k | k != key
      ensures (k in after <==> k in before) && (k in before ==> k in after && after[k] == before[k])
    {
      assert k in after - {key} <==> k in after;
      assert k in before - {key} <==> k in before;
      if k in before {
        assert (after - {key})[k] == (before - {key})[k];
      }
    }
  }

  lemma MissedKey(previous: Fields, incoming: Fields, prefix: Path, key: string, more: seq<Path>)
    requires key in incoming
    requires
      if incoming[key] == MASK then more == if key in previous then [] else [prefix + [key]]
      else if incoming[key].Obj? then
        ListsBelow(more, prefix + [key], incoming[key].fields.Keys, Misses(ObjectAt(previous, key), incoming[key].fields))
      else more == []
    ensures ListsAt(more, prefix, key, Misses(previous, incoming))
  {
    var path := prefix + [key];
    forall p | p in more ensures prefix < p && p[|prefix|] == key && Missing(previous, incoming, p[|prefix|..]) {
      var rest := p[|path|..];
      assert p[|prefix|..] == [key] + rest;
      MissingSplit(previous, incoming, key, rest);
    }
    forall rest | rest != [] && rest[0] == key && Missing(previous, incoming, rest) ensures prefix + rest in more {
      assert rest == [key] + rest[1..];
      MissingSplit(previous, incoming, key, rest[1..]);
      if rest[1..] == [] {
        assert prefix + rest == path;
      } else {
        assert rest[1..][0] in incoming[key].fields;
        assert prefix + rest == path + rest[1..];
      }
    }
  }

  /** Settings exported from one installation and imported into another: every secret is the
      importing side's own, and the ones it has none for are exactly those reported. */
  lemma ImportKeepsItsOwnSecrets(source: Fields, target: Fields, path: Path)
    requires NoMask(source)
    ensures Reported(source, path) ==> At(Preserved(target, Masked(source)), path) == At(target, path)
    ensures Missing(target, Masked(source), path) <==> Reported(source, path) && At(target, path) == None
  {
    if path != [] {
      if Reported(source, path) {
        assert path[..|path|] == path;
        assert UnderMask(Masked(source), path);
        PreservedAt(target, Masked(source), path);
      }
      if At(Masked(source), path) == Some(MASK) {
        MaskIsReported(source, path);
      }
    }
  }

  /** In what was stored without it, the mask marks secrets and nothing else. */
  lemma {:induction false} MaskIsReported(fields: Fields, path: Path)
    requires NoMask(fields) && At(Masked(fields), path) == Some(MASK)
    ensures Reported(fields, path)
    decreases |path|
  {
    var key := path[0];
    if |path| == 1 {
      assert At(fields, [key]) == Some(fields[key]);
    } else {
      assert ObjectAt(Masked(fields), key) == if Entered(key, fields[key]) then Masked(fields[key].fields) else map[];
      NothingInNothing(path[1..]);
      NoMaskBelow(fields, key);
      MaskIsReported(fields[key].fields, path[1..]);
    }
  }

  lemma NoMaskBelow(fields: Fields, key: string)
    requires NoMask(fields) && key in fields && fields[key].Obj?
    ensures NoMask(fields[key].fields)
  {
    forall path: Path ensures At(fields[key].fields, path) != Some(MASK) {
      if path != [] {
        assert ([key] + path)[1..] == path;
        assert At(fields, [key] + path) == At(fields[key].fields, path);
      }
    }
  }
}
