/** The life of API keys: issued, used, disabled and enabled, rotated, revoked, expired.

    Every statement or transaction on the database is one step; a rotation takes three, and
    other calls come in between. Hashing is ideal: a stored hash matches the credential it was
    made from and no other, so a row keeps the credential itself. The address check and the
    rate limits are a parameter of a use, `admitted`. Texts are their bytes. */
module ApiKeys {
  import opened Common

  type KeyId = string

  datatype Restrictions = Restrictions(cidrs: seq<string>, repositories: seq<string>, perMinute: int, perHour: int, perDay: int)

  datatype Row = Row(user: string, name: string, prefix: string, plain: string, scopes: seq<string>, restrictions: Restrictions,
                     expires: Option<int>, disabled: bool, revoked: bool, replacedBy: Option<KeyId>)

  /** The tools there are, and which texts are address ranges. */
  datatype Rules = Rules(supported: set<string>, isRange: string -> bool)

  type Keys = map<KeyId, Row>

  const DAY := 86400

  predicate Past(row: Row, now: int) {
    row.expires.Some? && now > row.expires.value
  }

  predicate Active(row: Row, now: int) {
    !row.disabled && !row.revoked && !Past(row, now)
  }

  // ---- what may be asked for ----

  const DEFAULT_SCOPES := ["resolve-library-id", "query-docs"]

  function Wanted(scopes: seq<string>): seq<string> {
    if scopes == [] then DEFAULT_SCOPES else scopes
  }

  predicate ValidScopes(rules: Rules, scopes: seq<string>) {
    && scopes != []
    && (forall i :: 0 <= i < |scopes| ==> scopes[i] in rules.supported)
    && (forall i, j :: 0 <= i < j < |scopes| ==> scopes[i] != scopes[j])
  }

  /** At least one, each of a tool there is, and none twice. */
  ghost predicate SoundScopes(rules: Rules, scopes: seq<string>) {
    && |scopes| >= 1
    && (forall scope :: scope in scopes ==> scope in rules.supported)
    && (forall i, j :: 0 <= i < |scopes| && 0 <= j < |scopes| && scopes[i] == scopes[j] ==> i == j)
  }

  /** A project and a repository, with a slash between them and perhaps one in front. */
  predicate NamesRepository(text: string) {
    var path := if text != "" && text[0] == '/' then text[1..] else text;
    exists i :: 0 < i < |path| - 1 && path[i] == '/' && '/' !in path[..i] && '/' !in path[i + 1..]
  }

  /** The same, with the parts named. */
  ghost predicate IsAPath(text: string) {
    exists project, name :: PathOf(text, project, name)
  }

  predicate PathOf(text: string, project: string, name: string) {
    && project != "" && name != "" && '/' !in project && '/' !in name
    && (text == project + "/" + name || text == "/" + (project + "/" + name))
  }

  lemma NamesRepositoryIff(text: string)
    ensures NamesRepository(text) <==> IsAPath(text)
  {
    if NamesRepository(text) {
      RepositoryIsAPath(text);
    }
    if IsAPath(text) {
      var project, name :| PathOf(text, project, name);
      PathNamesRepository(project, name);
    }
  }

  lemma CutAtSlash(path: string, i: nat)
    requires i < |path| && path[i] == '/'
    ensures path == path[..i] + "/" + path[i + 1..]
  {
  }

  lemma RepositoryIsAPath(text: string)
    requires NamesRepository(text)
    ensures IsAPath(text)
  {
    var path := if text != "" && text[0] == '/' then text[1..] else text;
    var i :| 0 < i < |path| - 1 && path[i] == '/' && '/' !in path[..i] && '/' !in path[i + 1..];
    CutAtSlash(path, i);
    assert text == path || text == "/" + path;
    PathIsOne(text, path, path[..i], path[i + 1..]);
  }

  lemma PathIsOne(text: string, path: string, project: string, name: string)
    requires path == project + "/" + name && (text == path || text == "/" + path)
    requires project != "" && name != "" && '/' !in project && '/' !in name
    ensures IsAPath(text)
  {
    assert PathOf(text, project, name);
  }

  lemma PathNamesRepository(project: string, name: string)
    requires project != "" && name != "" && '/' !in project && '/' !in name
    ensures NamesRepository(project + "/" + name) && NamesRepository("/" + (project + "/" + name))
  {
    var path, i := project + "/" + name, |project|;
    assert path[i] == '/' && path[..i] == project && path[i + 1..] == name;
    assert path[0] == project[0];
    assert ("/" + path)[1..] == path;
  }

  /** No limit is below zero, every range is one, and every repository has its project. */
  ghost predicate SoundRestrictions(rules: Rules, r: Restrictions) {
    && r.perMinute >= 0 && r.perHour >= 0 && r.perDay >= 0
    && (forall i :: 0 <= i < |r.cidrs| ==> rules.isRange(r.cidrs[i]))
    && (forall i :: 0 <= i < |r.repositories| ==> IsAPath(r.repositories[i]))
  }

  lemma SoundIsValid(rules: Rules, r: Restrictions)
    ensures SoundRestrictions(rules, r) <==> ValidRestrictions(rules, r)
  {
    forall i | 0 <= i < |r.repositories| ensures NamesRepository(r.repositories[i]) <==> IsAPath(r.repositories[i]) {
      NamesRepositoryIff(r.repositories[i]);
    }
    if ValidRestrictions(rules, r) {
      assert forall i :: 0 <= i < |r.repositories| ==> r.repositories[i] in r.repositories;
    }
  }

  predicate ValidRestrictions(rules: Rules, r: Restrictions) {
    && (forall cidr :: cidr in r.cidrs ==> rules.isRange(cidr))
    && (forall repo :: repo in r.repositories ==> NamesRepository(repo))
    && r.perMinute >= 0 && r.perHour >= 0 && r.perDay >= 0
  }

  // ---- the credential ----

  /** Where the first underscore is. */
  function Underscore(s: string): Option<nat> {
    if s == "" then None
    else if s[0] == '_' then Some(0)
    else match Underscore(s[1..]) case None => None case Some(n) => Some(n + 1)
  }

  function UpTo(s: string, n: Option<nat>): string {
    if n.Some? && n.value <= |s| then s[..n.value] else s
  }

  function Beyond(s: string, n: Option<nat>): Option<string> {
    if n.Some? && n.value < |s| then Some(s[n.value + 1..]) else None
  }

  /** The third of four parts, when the first two are the ones every key starts with. */
  function PrefixOf(raw: string): Option<string> {
    if UpTo(raw, Underscore(raw)) != "bctx" then None
    else
      match Beyond(raw, Underscore(raw))
      case None => None
      case Some(second) =>
        if UpTo(second, Underscore(second)) != "live" then None
        else
          match Beyond(second, Underscore(second))
          case None => None
          case Some(third) => if Underscore(third).None? then None else Some(UpTo(third, Underscore(third)))
  }

  function Credential(prefix: string, secret: string): string {
    "bctx_live_" + prefix + "_" + secret
  }

  lemma {:induction false} UnderscoreAfter(front: string, rest: string)
    requires '_' !in front
    ensures Underscore(front + "_" + rest) == Some(|front|)
    ensures UpTo(front + "_" + rest, Some(|front|)) == front
    ensures Beyond(front + "_" + rest, Some(|front|)) == Some(rest)
  {
    var s := front + "_" + rest;
    if front != "" {
      UnderscoreAfter(front[1..], rest);
      assert s[1..] == front[1..] + "_" + rest;
    }
    assert s[..|front|] == front && s[|front| + 1..] == rest;
  }

  /** The secret may hold underscores; the prefix read back is the prefix all the same. */
  lemma PrefixRoundTrip(prefix: string, secret: string)
    requires '_' !in prefix
    ensures PrefixOf(Credential(prefix, secret)) == Some(prefix)
  {
    var third := prefix + "_" + secret;
    var second := "live" + "_" + third;
    assert Credential(prefix, secret) == "bctx" + "_" + second;
    UnderscoreAfter("bctx", second);
    UnderscoreAfter("live", third);
    UnderscoreAfter(prefix, secret);
  }

  lemma {:induction false} UnderscoreIsFirst(s: string)
    ensures Underscore(s).Some? ==> Underscore(s).value < |s| && s[Underscore(s).value] == '_' && '_' !in s[..Underscore(s).value]
    ensures Underscore(s).None? ==> '_' !in s
  {
    if s != "" && s[0] != '_' {
      UnderscoreIsFirst(s[1..]);
      if Underscore(s).Some? {
        assert s[..Underscore(s).value] == [s[0]] + s[1..][..Underscore(s).value - 1];
      } else {
        assert s == [s[0]] + s[1..];
      }
    }
  }

  lemma CutAtUnderscore(s: string)
    requires Underscore(s).Some?
    ensures var front := UpTo(s, Underscore(s));
            '_' !in front && Beyond(s, Underscore(s)).Some? && s == front + "_" + Beyond(s, Underscore(s)).value
  {
    UnderscoreIsFirst(s);
  }

  lemma ThePartsOf(raw: string) returns (secret: string)
    requires PrefixOf(raw).Some?
    ensures '_' !in PrefixOf(raw).value
    ensures raw == "bctx" + "_" + ("live" + "_" + (PrefixOf(raw).value + "_" + secret))
  {
    assert Underscore(raw).Some?;
    CutAtUnderscore(raw);
    var second := Beyond(raw, Underscore(raw)).value;
    assert Underscore(second).Some?;
    CutAtUnderscore(second);
    var third := Beyond(second, Underscore(second)).value;
    CutAtUnderscore(third);
    secret := Beyond(third, Underscore(third)).value;
  }

  lemma Regrouped(prefix: string, secret: string)
    ensures "bctx" + "_" + ("live" + "_" + (prefix + "_" + secret)) == "bctx_live_" + prefix + "_" + secret
  {
  }

  /** A prefix is read from exactly the texts that have the shape of a credential with it. */
  lemma PrefixIsReadIff(raw: string, prefix: string)
    ensures PrefixOf(raw) == Some(prefix) <==> '_' !in prefix && exists secret :: raw == "bctx_live_" + prefix + "_" + secret
  {
    if PrefixOf(raw) == Some(prefix) {
      var secret := ThePartsOf(raw);
      Regrouped(prefix, secret);
    }
    if '_' !in prefix && exists secret :: raw == "bctx_live_" + prefix + "_" + secret {
      var secret :| raw == "bctx_live_" + prefix + "_" + secret;
      PrefixRoundTrip(prefix, secret);
    }
  }

  // ---- what the calls do ----

  /** Ids and prefixes are unique columns. */
  predicate UniquePrefixes(keys: Keys) {
    forall a, b :: a in keys && b in keys && keys[a].prefix == keys[b].prefix ==> a == b
  }

  predicate Free(keys: Keys, id: KeyId, prefix: string) {
    id !in keys && forall other :: other in keys ==> keys[other].prefix != prefix
  }

  /** What a key is to be, before it has an id and a credential. */
  datatype Wish = Wish(user: string, name: string, scopes: seq<string>, restrictions: Restrictions, expires: Option<int>)

  function Issued(wish: Wish, prefix: string, plain: string): Row {
    Row(wish.user, wish.name, prefix, plain, Wanted(wish.scopes), wish.restrictions, wish.expires, false, false, None)
  }

  predicate Creatable(rules: Rules, keys: Keys, wish: Wish, id: KeyId, prefix: string) {
    && 0 < |wish.name| <= 100 && ValidScopes(rules, Wanted(wish.scopes)) && ValidRestrictions(rules, wish.restrictions)
    && Free(keys, id, prefix)
  }

  datatype Status = Disabled | Enabled | Revoked

  predicate Settable(keys: Keys, user: string, id: KeyId, status: Status, now: int) {
    && id in keys && keys[id].user == user
    && match status
       case Disabled => !keys[id].revoked
       case Enabled => !keys[id].revoked && (keys[id].expires.None? || keys[id].expires.value > now)
       case Revoked => true
  }

  predicate Rescopable(rules: Rules, keys: Keys, user: string, id: KeyId, scopes: seq<string>, administrator: bool) {
    ValidScopes(rules, scopes) && id in keys && !keys[id].revoked && (administrator || keys[id].user == user)
  }

  function WithStatus(row: Row, status: Status): Row {
    match status
    case Disabled => row.(disabled := true)
    case Enabled => row.(disabled := false)
    case Revoked => row.(revoked := true)
  }

  predicate Rotatable(keys: Keys, user: string, id: KeyId, overlap: int, now: int) {
    0 <= overlap <= DAY && id in keys && keys[id].user == user && Active(keys[id], now)
  }

  /** When a key that is being replaced stops working. */
  function OldEnd(row: Row, overlap: int, now: int): int {
    if row.expires.Some? && row.expires.value < now + overlap then row.expires.value else now + overlap
  }

  function Replacement(row: Row): Wish {
    Wish(row.user, row.name + " (rotated)", row.scopes, row.restrictions, row.expires)
  }

  function Ended(row: Row, expires: int, next: KeyId): Row {
    row.(expires := Some(expires), replacedBy := Some(next))
  }

  function Rotated(keys: Keys, id: KeyId, overlap: int, now: int, next: KeyId, prefix: string, plain: string): Keys
    requires id in keys
  {
    keys[next := Issued(Replacement(keys[id]), prefix, plain)][id := Ended(keys[id], OldEnd(keys[id], overlap, now), next)]
  }

  class Service {
    var keys: Keys

    constructor ()
      ensures keys == map[]
    {
      keys := map[];
    }

    static method CheckScopes(rules: Rules, scopes: seq<string>) returns (ok: bool)
      ensures ok <==> ValidScopes(rules, scopes)
    {
      if |scopes| == 0 {
        return false;
      }
      var seen: set<string> := {};
      for i := 0 to |scopes|
        invariant forall k :: 0 <= k < i ==> scopes[k] in rules.supported
        invariant seen == set k | 0 <= k < i :: scopes[k]
        invariant forall j, k :: 0 <= j < k < i ==> scopes[j] != scopes[k]
      {
        if scopes[i] !in rules.supported || scopes[i] in seen {
          return false;
        }
        seen := seen + {scopes[i]};
      }
      ok := true;
    }

    method Create(rules: Rules, wish: Wish, id: KeyId, prefix: string, plain: string) returns (ok: bool)
      requires UniquePrefixes(keys)
      modifies this
      ensures UniquePrefixes(keys)
      ensures ok <==> Creatable(rules, old(keys), wish, id, prefix)
      ensures keys == if ok then old(keys)[id := Issued(wish, prefix, plain)] else old(keys)
      ensures ok <==>
                && 1 <= |wish.name| <= 100 && SoundScopes(rules, if wish.scopes == [] then ["resolve-library-id", "query-docs"] else wish.scopes)
                && SoundRestrictions(rules, wish.restrictions)
                && id !in old(keys) && !exists other :: other in old(keys) && old(keys)[other].prefix == prefix
      ensures ok ==> keys[id].scopes == if wish.scopes == [] then ["resolve-library-id", "query-docs"] else wish.scopes
    {
      SoundIsValid(rules, wish.restrictions);
      if |wish.name| == 0 || |wish.name| > 100 {
        return false;
      }
      var scopes := if |wish.scopes| == 0 then DEFAULT_SCOPES else wish.scopes;
      ok := CheckScopes(rules, scopes);
      if !ok || !ValidRestrictions(rules, wish.restrictions) {
        return false;
      }
      if id in keys || exists other :: other in keys && keys[other].prefix == prefix {
        return false;
      }
      keys := keys[id := Row(wish.user, wish.name, prefix, plain, scopes, wish.restrictions, wish.expires, false, false, None)];
    }

    method SetStatus(user: string, id: KeyId, status: Status, now: int) returns (ok: bool)
      modifies this
      ensures ok <==> Settable(old(keys), user, id, status, now)
      ensures keys == if ok then old(keys)[id := WithStatus(old(keys)[id], status)] else old(keys)
      ensures ok <==>
                && id in old(keys) && old(keys)[id].user == user
                && (status.Revoked? || !old(keys)[id].revoked)
                && (status.Enabled? ==> old(keys)[id].expires.None? || old(keys)[id].expires.value > now)
      ensures ok && !status.Enabled? ==> forall raw, at :: !Authenticates(keys, raw, at, id)
      ensures ok && status.Enabled? ==> Active(keys[id], now)
    {
      if id !in keys || keys[id].user != user {
        return false;
      }
      var row := keys[id];
      if status.Disabled? {
        if row.revoked { return false; }
        keys := keys[id := row.(disabled := true)];
      } else if status.Enabled? {
        if row.revoked || (row.expires.Some? && row.expires.value <= now) { return false; }
        keys := keys[id := row.(disabled := false)];
      } else {
        keys := keys[id := row.(revoked := true)];
      }
      ok := true;
    }

    method UpdateScopes(rules: Rules, user: string, id: KeyId, scopes: seq<string>, administrator: bool) returns (ok: bool)
      modifies this
      ensures ok <==> Rescopable(rules, old(keys), user, id, scopes, administrator)
      ensures keys == if ok then old(keys)[id := old(keys)[id].(scopes := scopes)] else old(keys)
      ensures ok <==>
                && SoundScopes(rules, scopes) && id in old(keys) && !old(keys)[id].revoked
                && (administrator || old(keys)[id].user == user)
    {
      ok := CheckScopes(rules, scopes);
      if !ok || id !in keys || keys[id].revoked || !(administrator || keys[id].user == user) {
        return false;
      }
      keys := keys[id := keys[id].(scopes := scopes)];
    }

    /** A rotation with nothing else going on: a new key beside the old one, which ends after
        the overlap or when it would have ended anyway. `later` is the second look at the clock. */
    method Rotate(rules: Rules, user: string, id: KeyId, overlap: int, now: int, later: int, next: KeyId, prefix: string, plain: string)
      returns (ok: bool)
      requires UniquePrefixes(keys)
      modifies this
      ensures UniquePrefixes(keys)
      ensures ok <==>
                Rotatable(old(keys), user, id, overlap, now) && Creatable(rules, old(keys), Replacement(old(keys)[id]), next, prefix)
      ensures keys == if ok then Rotated(old(keys), id, overlap, later, next, prefix, plain) else old(keys)
      ensures ok ==> 0 <= overlap <= 86400 && keys[id].expires.Some? && keys[id].expires.value <= later + 86400
    {
      if overlap < 0 || overlap > DAY {
        return false;
      }
      if id !in keys || keys[id].user != user {
        return false;
      }
      var row := keys[id];
      if row.disabled || row.revoked || (row.expires.Some? && now > row.expires.value) {
        return false;
      }
      ok := Create(rules, Wish(user, row.name + " (rotated)", row.scopes, row.restrictions, row.expires), next, prefix, plain);
      if !ok {
        return;
      }
      var oldEnd := later + overlap;
      if row.expires.Some? && row.expires.value < oldEnd {
        oldEnd := row.expires.value;
      }
      keys := keys[id := row.(expires := Some(oldEnd), replacedBy := Some(next))];
    }

    /** The row that carries a prefix, if there is one. */
    method WithPrefix(prefix: string) returns (id: Option<KeyId>)
      requires UniquePrefixes(keys)
      ensures id.Some? ==> id.value in keys && keys[id.value].prefix == prefix
      ensures id.None? ==> forall k :: k in keys ==> keys[k].prefix != prefix
    {
      var left := keys.Keys;
      while left != {}
        invariant left <= keys.Keys
        invariant forall k :: k in keys && k !in left ==> keys[k].prefix != prefix
        decreases |left|
      {
        var k :| k in left;
        if keys[k].prefix == prefix {
          return Some(k);
        }
        left := left - {k};
      }
      id := None;
    }

    /** The key a credential proves, when it is active and admitted. */
    method AuthenticateRequest(raw: string, now: int, admitted: KeyId -> bool) returns (id: Option<KeyId>)
      requires UniquePrefixes(keys)
      ensures forall k :: id == Some(k) <==> Authenticates(keys, raw, now, k) && admitted(k)
      ensures forall k :: id == Some(k) <==>
                && k in keys && keys[k].plain == raw && PrefixOf(raw) == Some(keys[k].prefix) && admitted(k)
                && !keys[k].disabled && !keys[k].revoked && (keys[k].expires.None? || now <= keys[k].expires.value)
    {
      var prefix := PrefixOf(raw);
      if prefix.None? {
        return None;
      }
      var found := WithPrefix(prefix.value);
      if found.None? || keys[found.value].plain != raw {
        return None;
      }
      var row := keys[found.value];
      if row.disabled || row.revoked || (row.expires.Some? && now > row.expires.value) {
        return None;
      }
      if !admitted(found.value) {
        return None;
      }
      id := found;
    }
  }

  /** The credential is the key's own and the key is active. */
  predicate Authenticates(keys: Keys, raw: string, now: int, id: KeyId) {
    id in keys && PrefixOf(raw) == Some(keys[id].prefix) && keys[id].plain == raw && Active(keys[id], now)
  }

  // ---- calls, interleaved ----

  /** A rotation that is under way: the row as it was read, and the replacement once there is
      one. */
  datatype Rotation =
    | Reading(user: string, id: KeyId, overlap: int, row: Row)
    | Replaced(user: string, id: KeyId, overlap: int, row: Row, next: KeyId)
    | Over

  /** `issued` is the expiry each key was created with. */
  datatype World = World(keys: Keys, rotations: seq<Rotation>, issued: map<KeyId, Option<int>>)

  datatype Step =
    | Creates(wish: Wish, id: KeyId, prefix: string, plain: string)
    | Sets(user: string, id: KeyId, status: Status)
    | Scopes(user: string, id: KeyId, scopes: seq<string>, administrator: bool)
    | Reads(user: string, id: KeyId, overlap: int)
    | Replaces(r: nat, next: KeyId, prefix: string, plain: string)
    | Ends(r: nat)
    | Fails(r: nat)

  predicate Possible(w: World, step: Step) {
    match step
    case Replaces(r, _, _, _) => r < |w.rotations| && w.rotations[r].Reading?
    case Ends(r) => r < |w.rotations| && w.rotations[r].Replaced?
    case Fails(r) => r < |w.rotations|
    case _ => true
  }

  function Made(w: World, wish: Wish, id: KeyId, prefix: string, plain: string): World {
    w.(keys := w.keys[id := Issued(wish, prefix, plain)], issued := w.issued[id := wish.expires])
  }

  /** A step that does not succeed leaves the keys alone. */
  function Effect(rules: Rules, w: World, step: Step, now: int): World
    requires Possible(w, step)
  {
    match step
    case Creates(wish, id, prefix, plain) => if Creatable(rules, w.keys, wish, id, prefix) then Made(w, wish, id, prefix, plain) else w
    case Sets(user, id, status) =>
      if Settable(w.keys, user, id, status, now) then w.(keys := w.keys[id := WithStatus(w.keys[id], status)]) else w
    case Scopes(user, id, scopes, administrator) =>
      if Rescopable(rules, w.keys, user, id, scopes, administrator) then w.(keys := w.keys[id := w.keys[id].(scopes := scopes)]) else w
    case Reads(user, id, overlap) =>
      if Rotatable(w.keys, user, id, overlap, now) then w.(rotations := w.rotations + [Reading(user, id, overlap, w.keys[id])]) else w
    case Replaces(r, next, prefix, plain) =>
      var Reading(user, id, overlap, row) := w.rotations[r];
      if Creatable(rules, w.keys, Replacement(row), next, prefix) then
        Made(w, Replacement(row), next, prefix, plain).(rotations := w.rotations[r := Replaced(user, id, overlap, row, next)])
      else w.(rotations := w.rotations[r := Over])
    case Ends(r) =>
      var Replaced(user, id, overlap, row, next) := w.rotations[r];
      var over := w.(rotations := w.rotations[r := Over]);
      if id in w.keys && w.keys[id].user == user then
        over.(keys := w.keys[id := Ended(w.keys[id], OldEnd(row, overlap, now), next)])
      else over
    case Fails(r) => w.(rotations := w.rotations[r := Over])
  }

  const START := World(map[], [], map[])

  /** Worlds and the times of the steps between them, never going back. */
  ghost predicate Run(rules: Rules, worlds: seq<World>, steps: seq<Step>, times: seq<int>) {
    && |worlds| == |steps| + 1 == |times| + 1 && worlds[0] == START
    && (forall k :: 0 <= k < |steps| ==> Possible(worlds[k], steps[k]) && worlds[k + 1] == Effect(rules, worlds[k], steps[k], times[k]))
    && (forall i, j :: 0 <= i < j < |times| ==> times[i] <= times[j])
  }

  // ---- what every run keeps ----

  predicate NotLater(a: Option<int>, b: Option<int>) {
    b.None? || (a.Some? && a.value <= b.value)
  }

  /** No key ends later than it was issued for, and no rotation has read that it would. */
  predicate RotationInv(w: World, rotation: Rotation) {
    rotation.Over? || (rotation.id in w.issued && rotation.overlap >= 0 && NotLater(rotation.row.expires, w.issued[rotation.id]))
  }

  predicate Inv(w: World) {
    && UniquePrefixes(w.keys) && w.keys.Keys == w.issued.Keys
    && (forall id :: id in w.keys ==> NotLater(w.keys[id].expires, w.issued[id]))
    && (forall r :: 0 <= r < |w.rotations| ==> RotationInv(w, w.rotations[r]))
  }

  lemma MadeKeepsInv(rules: Rules, w: World, wish: Wish, id: KeyId, prefix: string, plain: string)
    requires Inv(w) && Creatable(rules, w.keys, wish, id, prefix)
    ensures Inv(Made(w, wish, id, prefix, plain))
  {
    var w' := Made(w, wish, id, prefix, plain);
    forall r | 0 <= r < |w.rotations| ensures RotationInv(w', w.rotations[r]) {
      assert RotationInv(w, w.rotations[r]);
    }
  }

  lemma MovedKeepsInv(w: World, r: nat, rotation: Rotation)
    requires Inv(w) && r < |w.rotations| && RotationInv(w, rotation)
    ensures Inv(w.(rotations := w.rotations[r := rotation]))
  {
  }

  lemma ChangedKeepsInv(w: World, id: KeyId, row: Row)
    requires Inv(w) && id in w.keys && row.prefix == w.keys[id].prefix && NotLater(row.expires, w.issued[id])
    ensures Inv(w.(keys := w.keys[id := row]))
  {
    var w' := w.(keys := w.keys[id := row]);
    assert w'.keys.Keys == w.keys.Keys;
    forall r | 0 <= r < |w.rotations| ensures RotationInv(w', w.rotations[r]) {
      assert RotationInv(w, w.rotations[r]);
    }
  }

  lemma StepKeepsInv(rules: Rules, w: World, step: Step, now: int)
    requires Inv(w) && Possible(w, step)
    ensures Inv(Effect(rules, w, step, now))
  {
    match step
    case Creates(wish, id, prefix, plain) =>
      if Creatable(rules, w.keys, wish, id, prefix) {
        MadeKeepsInv(rules, w, wish, id, prefix, plain);
      }
    case Sets(user, id, status) =>
      if Settable(w.keys, user, id, status, now) {
        ChangedKeepsInv(w, id, WithStatus(w.keys[id], status));
      }
    case Scopes(user, id, scopes, administrator) =>
      if Rescopable(rules, w.keys, user, id, scopes, administrator) {
        ChangedKeepsInv(w, id, w.keys[id].(scopes := scopes));
      }
    case Reads(user, id, overlap) =>
    case Replaces(r, next, prefix, plain) =>
      assert RotationInv(w, w.rotations[r]);
      var Reading(user, id, overlap, row) := w.rotations[r];
      if Creatable(rules, w.keys, Replacement(row), next, prefix) {
        MadeKeepsInv(rules, w, Replacement(row), next, prefix, plain);
        MovedKeepsInv(Made(w, Replacement(row), next, prefix, plain), r, Replaced(user, id, overlap, row, next));
      } else {
        MovedKeepsInv(w, r, Over);
      }
    case Ends(r) =>
      assert RotationInv(w, w.rotations[r]);
      var Replaced(user, id, overlap, row, next) := w.rotations[r];
      MovedKeepsInv(w, r, Over);
      if id in w.keys && w.keys[id].user == user {
        ChangedKeepsInv(w.(rotations := w.rotations[r := Over]), id, Ended(w.keys[id], OldEnd(row, overlap, now), next));
      }
    case Fails(r) => MovedKeepsInv(w, r, Over);
  }

  lemma {:induction false} RunKeepsInv(rules: Rules, worlds: seq<World>, steps: seq<Step>, times: seq<int>, k: nat)
    requires Run(rules, worlds, steps, times) && k < |worlds|
    ensures Inv(worlds[k])
  {
    if k > 0 {
      RunKeepsInv(rules, worlds, steps, times, k - 1);
      StepKeepsInv(rules, worlds[k - 1], steps[k - 1], times[k - 1]);
    }
  }

  /** Revoked, or past the expiry it was issued with. */
  predicate Gone(w: World, id: KeyId, now: int) {
    id in w.keys && id in w.issued && (w.keys[id].revoked || (w.issued[id].Some? && now > w.issued[id].value))
  }

  /** What one step can do to one row: nothing, or what it says. */
  lemma StepOnRow(rules: Rules, w: World, step: Step, now: int, id: KeyId)
    requires Possible(w, step) && id in w.keys && id in w.issued
    ensures var w' := Effect(rules, w, step, now);
            && id in w'.keys && id in w'.issued && w'.issued[id] == w.issued[id]
            && var row, row' := w.keys[id], w'.keys[id];
               || row' == row
               || (step.Sets? && step.id == id && Settable(w.keys, step.user, id, step.status, now) && row' == WithStatus(row, step.status))
               || (step.Scopes? && row' == row.(scopes := step.scopes))
               || (step.Ends? && EndsKey(w, step.r, id)
                   && row' == Ended(row, OldEnd(w.rotations[step.r].row, w.rotations[step.r].overlap, now), w.rotations[step.r].next))
    ensures step.Ends? && EndsKey(w, step.r, id) ==>
      Effect(rules, w, step, now).keys[id]
      == Ended(w.keys[id], OldEnd(w.rotations[step.r].row, w.rotations[step.r].overlap, now), w.rotations[step.r].next)
  {
    match step
    case Ends(r) =>
    case Replaces(r, next, prefix, plain) =>
    case _ =>
  }

  predicate EndsKey(w: World, r: nat, id: KeyId)
    requires r < |w.rotations| && w.rotations[r].Replaced? && id in w.keys
  {
    w.rotations[r].id == id && w.keys[id].user == w.rotations[r].user
  }

  lemma StepKeepsGone(rules: Rules, w: World, step: Step, now: int, id: KeyId)
    requires Possible(w, step) && Gone(w, id, now)
    ensures var w' := Effect(rules, w, step, now);
            Gone(w', id, now) && w'.keys[id].plain == w.keys[id].plain && w'.keys[id].prefix == w.keys[id].prefix
  {
    StepOnRow(rules, w, step, now, id);
  }

  lemma {:induction false} GoneStaysGone(rules: Rules, worlds: seq<World>, steps: seq<Step>, times: seq<int>, a: nat, b: nat,
                                         id: KeyId, since: int, now: int)
    requires Run(rules, worlds, steps, times) && a <= b < |worlds| && since <= now
    requires forall k :: a <= k < b ==> since <= times[k] <= now
    requires Gone(worlds[a], id, since)
    ensures Gone(worlds[b], id, now)
    ensures worlds[b].keys[id].plain == worlds[a].keys[id].plain && worlds[b].keys[id].prefix == worlds[a].keys[id].prefix
    decreases b - a
  {
    if a < b {
      assert Gone(worlds[a], id, times[a]);
      StepKeepsGone(rules, worlds[a], steps[a], times[a], id);
      GoneStaysGone(rules, worlds, steps, times, a + 1, b, id, times[a], now);
    }
  }

  /** Once a key is revoked, or past the expiry it was issued with, no run of calls brings it
      back: from then on its credential authenticates as nothing. */
  lemma GoneIsForEver(rules: Rules, worlds: seq<World>, steps: seq<Step>, times: seq<int>, a: nat, b: nat,
                      id: KeyId, since: int, now: int, other: KeyId)
    requires Run(rules, worlds, steps, times) && a <= b < |worlds| && since <= now
    requires forall k :: a <= k < b ==> since <= times[k] <= now
    requires Gone(worlds[a], id, since) && PrefixOf(worlds[a].keys[id].plain) == Some(worlds[a].keys[id].prefix)
    ensures !Authenticates(worlds[b].keys, worlds[a].keys[id].plain, now, other)
  {
    GoneStaysGone(rules, worlds, steps, times, a, b, id, since, now);
    RunKeepsInv(rules, worlds, steps, times, b);
  }

  // ---- disabled until enabled ----

  /** Its owner enables the key. */
  predicate Enables(step: Step, id: KeyId) {
    step.Sets? && step.id == id && step.status.Enabled?
  }

  lemma {:induction false} StaysDisabled(rules: Rules, worlds: seq<World>, steps: seq<Step>, times: seq<int>, a: nat, b: nat, id: KeyId)
    requires Run(rules, worlds, steps, times) && a <= b < |worlds|
    requires id in worlds[a].keys && worlds[a].keys[id].disabled
    requires forall k :: a <= k < b ==> !Enables(steps[k], id)
    ensures id in worlds[b].keys && worlds[b].keys[id].disabled
    ensures worlds[b].keys[id].plain == worlds[a].keys[id].plain && worlds[b].keys[id].prefix == worlds[a].keys[id].prefix
    decreases b - a
  {
    if a < b {
      StaysDisabled(rules, worlds, steps, times, a, b - 1, id);
      RunKeepsInv(rules, worlds, steps, times, b - 1);
      StepOnRow(rules, worlds[b - 1], steps[b - 1], times[b - 1], id);
    }
  }

  /** When the owner of a key that is not revoked disables it, its credential authenticates as
      nothing, whatever else is called, until the key is enabled; when the owner revokes it,
      for good. */
  lemma DisabledUntilEnabled(rules: Rules, worlds: seq<World>, steps: seq<Step>, times: seq<int>, a: nat, b: nat,
                             id: KeyId, now: int, other: KeyId)
    requires Run(rules, worlds, steps, times) && a < b < |worlds| && id in worlds[a].keys
    requires PrefixOf(worlds[a].keys[id].plain) == Some(worlds[a].keys[id].prefix)
    requires steps[a] == Sets(worlds[a].keys[id].user, id, Disabled) && !worlds[a].keys[id].revoked
    requires forall k :: a < k < b ==> !Enables(steps[k], id)
    ensures !Authenticates(worlds[b].keys, worlds[a].keys[id].plain, now, other)
  {
    StaysDisabled(rules, worlds, steps, times, a + 1, b, id);
    RunKeepsInv(rules, worlds, steps, times, b);
  }

  lemma RevokedForGood(rules: Rules, worlds: seq<World>, steps: seq<Step>, times: seq<int>, a: nat, b: nat,
                       id: KeyId, now: int, other: KeyId)
    requires Run(rules, worlds, steps, times) && a < b < |worlds| && id in worlds[a].keys
    requires PrefixOf(worlds[a].keys[id].plain) == Some(worlds[a].keys[id].prefix)
    requires steps[a] == Sets(worlds[a].keys[id].user, id, Revoked)
    requires forall k :: a <= k < b ==> times[a] <= times[k] <= now
    ensures !Authenticates(worlds[b].keys, worlds[a].keys[id].plain, now, other)
  {
    RunKeepsInv(rules, worlds, steps, times, a);
    RevokedIsGone(rules, worlds[a], id, times[a]);
    GoneIsForEver(rules, worlds, steps, times, a + 1, b, id, times[a], now, other);
  }

  lemma RevokedIsGone(rules: Rules, w: World, id: KeyId, now: int)
    requires Inv(w) && id in w.keys
    ensures var w' := Effect(rules, w, Sets(w.keys[id].user, id, Revoked), now);
            Gone(w', id, now) && w'.keys[id].plain == w.keys[id].plain && w'.keys[id].prefix == w.keys[id].prefix
  {
  }

  /** An enabled key that is not revoked and not at its expiry works. */
  lemma EnabledWorks(rules: Rules, worlds: seq<World>, steps: seq<Step>, times: seq<int>, a: nat, id: KeyId)
    requires Run(rules, worlds, steps, times) && a < |steps| && id in worlds[a].keys
    requires PrefixOf(worlds[a].keys[id].plain) == Some(worlds[a].keys[id].prefix)
    requires steps[a] == Sets(worlds[a].keys[id].user, id, Enabled) && !worlds[a].keys[id].revoked
    requires worlds[a].keys[id].expires.Some? ==> times[a] < worlds[a].keys[id].expires.value
    ensures Authenticates(worlds[a + 1].keys, worlds[a].keys[id].plain, times[a], id)
  {
  }

  /** Whatever is called, every key has sound scopes. */
  lemma {:induction false} ScopesAreSound(rules: Rules, worlds: seq<World>, steps: seq<Step>, times: seq<int>, k: nat, id: KeyId)
    requires Run(rules, worlds, steps, times) && k < |worlds| && id in worlds[k].keys
    ensures SoundScopes(rules, worlds[k].keys[id].scopes)
  {
    if k > 0 {
      RunKeepsInv(rules, worlds, steps, times, k - 1);
      if id in worlds[k - 1].keys {
        ScopesAreSound(rules, worlds, steps, times, k - 1, id);
      }
      StepKeepsScopes(rules, worlds[k - 1], steps[k - 1], times[k - 1], id);
    }
  }

  lemma StepKeepsScopes(rules: Rules, w: World, step: Step, now: int, id: KeyId)
    requires Possible(w, step) && id in Effect(rules, w, step, now).keys
    requires id in w.keys ==> SoundScopes(rules, w.keys[id].scopes)
    ensures SoundScopes(rules, Effect(rules, w, step, now).keys[id].scopes)
  {
  }

  // ---- an end that a rotation brought forward ----

  /** Revoked, or past the expiry it now has. */
  predicate Dead(w: World, id: KeyId, now: int) {
    id in w.keys && (w.keys[id].revoked || Past(w.keys[id], now))
  }

  /** Exactly when a step brings a dead key back: it is the end of a rotation of that very
      key, which is not revoked, and the expiry that the rotation read is still ahead. */
  lemma ComesBackIff(rules: Rules, w: World, step: Step, now: int, id: KeyId)
    requires Inv(w) && Possible(w, step) && Dead(w, id, now)
    ensures !Dead(Effect(rules, w, step, now), id, now) <==>
      step.Ends? && EndsKey(w, step.r, id) && !w.keys[id].revoked && !Past(w.rotations[step.r].row, now)
  {
    StepOnRow(rules, w, step, now, id);
    if step.Ends? {
      assert RotationInv(w, w.rotations[step.r]);
    }
  }

  /** Of two rotations that read the same row, the one that ends second moves the key's end
      to later exactly when its own overlap reaches further and the row's expiry was beyond
      the first end. */
  lemma SecondEndIsLaterIff(row: Row, first: int, firstNow: int, second: int, secondNow: int)
    ensures OldEnd(row, second, secondNow) > OldEnd(row, first, firstNow) <==>
      && secondNow + second > firstNow + first
      && (row.expires.None? || row.expires.value > firstNow + first)
  {
  }

  ghost function Next(rules: Rules): (World, (Step, int), World) -> bool {
    (w: World, step: (Step, int), w': World) => Possible(w, step.0) && w' == Effect(rules, w, step.0, step.1)
  }

  /** A key is created, two rotations read it, and the second of them ends it at 10. */
  lemma RotatedTwiceAtOnce(rules: Rules, wish: Wish) returns (steps: seq<(Step, int)>, last: World)
    requires wish.expires == None && 0 < |wish.name| <= 90
    requires ValidScopes(rules, wish.scopes) && ValidRestrictions(rules, wish.restrictions)
    ensures steps == [(Creates(wish, "a", "A", Credential("A", "s")), 0), (Reads(wish.user, "a", 5), 1), (Reads(wish.user, "a", 0), 2),
                      (Replaces(1, "b", "B", Credential("B", "t")), 3), (Ends(1), 10)]
    ensures Leads(Next(rules), START, steps, last)
    ensures last.keys.Keys == {"a", "b"} && last.keys["b"].prefix == "B"
    ensures last.keys["a"] == Ended(Issued(wish, "A", Credential("A", "s")), 10, "b")
    ensures last.rotations == [Reading(wish.user, "a", 5, Issued(wish, "A", Credential("A", "s"))), Over]
  {
    var row := Issued(wish, "A", Credential("A", "s"));
    var w1 := Effect(rules, START, Creates(wish, "a", "A", Credential("A", "s")), 0);
    assert w1.keys == map["a" := row];
    var w2 := Effect(rules, w1, Reads(wish.user, "a", 5), 1);
    assert w2.rotations == [Reading(wish.user, "a", 5, row)];
    var w3 := Effect(rules, w2, Reads(wish.user, "a", 0), 2);
    assert w3.rotations[1] == Reading(wish.user, "a", 0, row);
    var w4 := Effect(rules, w3, Replaces(1, "b", "B", Credential("B", "t")), 3);
    assert Creatable(rules, w3.keys, Replacement(row), "b", "B");
    last := Effect(rules, w4, Ends(1), 10);
    steps := [(Creates(wish, "a", "A", Credential("A", "s")), 0), (Reads(wish.user, "a", 5), 1), (Reads(wish.user, "a", 0), 2),
              (Replaces(1, "b", "B", Credential("B", "t")), 3), (Ends(1), 10)];
    LeadsAlong(Next(rules), [START, w1, w2, w3, w4, last], steps);
  }

  /** At 15 it is dead; at 20 the first rotation ends, and it works again until 25. */
  lemma ARotationCanReviveAKey(rules: Rules, wish: Wish) returns (first: seq<(Step, int)>, middle: World, second: seq<(Step, int)>, last: World)
    requires wish.expires == None && 0 < |wish.name| <= 90
    requires ValidScopes(rules, wish.scopes) && ValidRestrictions(rules, wish.restrictions)
    ensures Leads(Next(rules), START, first, middle) && Leads(Next(rules), middle, second, last)
    ensures Dead(middle, "a", 15) && second == [(Replaces(0, "c", "C", Credential("C", "u")), 16), (Ends(0), 20)]
    ensures Authenticates(last.keys, Credential("A", "s"), 25, "a")
  {
    first, middle := RotatedTwiceAtOnce(rules, wish);
    var row := Issued(wish, "A", Credential("A", "s"));
    assert Creatable(rules, middle.keys, Replacement(row), "c", "C");
    var w := Effect(rules, middle, Replaces(0, "c", "C", Credential("C", "u")), 16);
    last := Effect(rules, w, Ends(0), 20);
    second := [(Replaces(0, "c", "C", Credential("C", "u")), 16), (Ends(0), 20)];
    LeadsAlong(Next(rules), [middle, w, last], second);
    assert last.keys["a"] == Ended(Ended(row, 10, "b"), 25, "c");
    PrefixRoundTrip("A", "s");
  }

  // ---- a rotation on its own ----

  /** While a rotation overlaps both keys work; the old one ends exactly at the end of the
      overlap, or when it would have ended anyway, never later. */
  lemma RotationOverlaps(keys: Keys, user: string, id: KeyId, overlap: int, now: int, next: KeyId, prefix: string, plain: string, later: int)
    requires Rotatable(keys, user, id, overlap, now) && Free(keys, next, prefix) && keys[id].scopes != [] && now <= later
    ensures var after := Rotated(keys, id, overlap, now, next, prefix, plain);
            && (Active(after[id], later) <==> later <= now + overlap && Active(keys[id], later))
            && (Active(after[next], later) <==> Active(keys[id], later))
            && after[next].scopes == keys[id].scopes && after[next].user == keys[id].user
            && after[next].restrictions == keys[id].restrictions && after[next].name == keys[id].name + " (rotated)"
            && after[id].replacedBy == Some(next) && after[next].plain == plain && after[next].prefix == prefix
            && forall other :: other in keys && other != id ==> after[other] == keys[other]
  {
  }

  /** The three steps of a rotation, with nothing in between, are that call. */
  lemma AloneIsTheCall(rules: Rules, w: World, user: string, id: KeyId, overlap: int, now: int, later: int,
                       next: KeyId, prefix: string, plain: string)
    requires Rotatable(w.keys, user, id, overlap, now) && Creatable(rules, w.keys, Replacement(w.keys[id]), next, prefix)
    ensures var r := |w.rotations|;
            var read := Effect(rules, w, Reads(user, id, overlap), now);
            && Possible(read, Replaces(r, next, prefix, plain))
            && var replaced := Effect(rules, read, Replaces(r, next, prefix, plain), now);
            && Possible(replaced, Ends(r))
            && Effect(rules, replaced, Ends(r), later).keys == Rotated(w.keys, id, overlap, later, next, prefix, plain)
  {
  }
}
