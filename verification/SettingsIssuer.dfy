/** Which issuer the validation of a single sign-on setting reads, and what that lets through.

    A setting is marshalled with its keys in order and read back into a structure whose field
    names match in any case: the last spelling in that order wins, and null is skipped.
    Normalization writes to one spelling only. */
module SettingsIssuer {
  import opened Common
  import opened SettingsTree
  import opened SettingsStore
  import opened SettingsGuard
  import opened SettingsNormal

  const KEYCLOAK := "keycloak"
  const ISSUER := "issuerUrl"

  // ---- spellings ----

  /** The characters that fold to an upper-case letter are its own lower case, and two more. */
  function FoldChar(c: char): char {
    if 'a' <= c <= 'z' then c - 'a' + 'A'
    else if c == '\U{17F}' then 'S'
    else if c == '\U{212A}' then 'K'
    else c
  }

  function Folded(s: string): string {
    seq(|s|, i requires 0 <= i < |s| => FoldChar(s[i]))
  }

  predicate NamesIssuer(key: string) {
    Folded(key) == "ISSUERURL"
  }

  /** Letter by letter: in either case, and the long s besides. */
  lemma TheSpellings(key: string)
    ensures NamesIssuer(key) <==>
      |key| == 9 && forall i :: 0 <= i < 9 ==>
        key[i] == "ISSUERURL"[i] || key[i] == "issuerurl"[i] || (1 <= i <= 2 && key[i] == '\U{17F}')
  {
    if |key| == 9 {
      assert forall i :: 0 <= i < 9 ==> Folded(key)[i] == FoldChar(key[i]);
    }
    assert |Folded(key)| == |key| && |"ISSUERURL"| == 9;
  }

  /** The order of the keys in a marshalled object. */
  predicate Before(a: string, b: string) {
    b != "" && (a == "" || a[0] < b[0] || (a[0] == b[0] && Before(a[1..], b[1..])))
  }

  lemma {:induction false} BeforeBehind(front: string, a: string, b: string)
    ensures Before(front + a, front + b) <==> Before(a, b)
  {
    if front == "" {
      assert front + a == a && front + b == b;
    } else {
      assert (front + a)[1..] == front[1..] + a && (front + b)[1..] == front[1..] + b;
      BeforeBehind(front[1..], a, b);
    }
  }

  lemma {:induction false} BeforeOrders(a: string, b: string)
    ensures !(Before(a, b) && Before(b, a))
    ensures a == b || Before(a, b) || Before(b, a)
  {
    if a != "" && b != "" && a[0] == b[0] {
      BeforeOrders(a[1..], b[1..]);
      assert a == [a[0]] + a[1..] && b == [b[0]] + b[1..];
    }
  }

  lemma {:induction false} BeforeGoesOn(a: string, b: string, c: string)
    requires Before(a, b) && Before(b, c)
    ensures Before(a, c)
  {
    if a != "" && a[0] == b[0] == c[0] {
      BeforeGoesOn(a[1..], b[1..], c[1..]);
    }
  }

  // ---- what is read ----

  predicate Counts(fields: Fields, key: string) {
    key in fields && NamesIssuer(key) && fields[key] != Null
  }

  /** The spelling that is read: the last in order that is not null. */
  ghost predicate IsRead(fields: Fields, key: string) {
    Counts(fields, key) && forall other :: Counts(fields, other) && other != key ==> Before(other, key)
  }

  lemma OneIsRead(fields: Fields, key: string, other: string)
    requires IsRead(fields, key) && IsRead(fields, other)
    ensures key == other
  {
    BeforeOrders(key, other);
  }

  lemma {:induction false} LastOf(keys: set<string>) returns (last: string)
    requires keys != {}
    ensures last in keys && forall other :: other in keys && other != last ==> Before(other, last)
    decreases |keys|
  {
    last :| last in keys;
    var others := keys - {last};
    assert forall other :: other in keys && other != last ==> other in others;
    if others != {} {
      var next := LastOf(others);
      BeforeOrders(last, next);
      if Before(last, next) {
        last := next;
      } else {
        forall other | other in keys && other != last ensures Before(other, last) {
          if other != next {
            BeforeGoesOn(other, next, last);
          }
        }
      }
    }
  }

  /** As soon as one spelling counts, one is read and no other. */
  lemma ExactlyOneIsRead(fields: Fields, key: string)
    requires Counts(fields, key)
    ensures exists last :: IsRead(fields, last) && forall other :: IsRead(fields, other) ==> other == last
  {
    var keys := set k | k in fields && Counts(fields, k);
    assert key in keys;
    var last := LastOf(keys);
    assert IsRead(fields, last);
    forall other | IsRead(fields, other) ensures other == last {
      OneIsRead(fields, other, last);
    }
  }

  /** What a reference to a managed secret stands for, and all else that validation asks, of
      other fields and of the network. */
  datatype Check = Check(secret: string -> Option<string>, others: (Category, Fields) -> bool)

  function Shown(check: Check, item: V): Option<string> {
    if !item.Str? then None
    else if Reference(item) then check.secret(item.text)
    else Some(item.text)
  }

  /** No spelling holds anything but a text or null, and every reference can be followed. */
  ghost predicate Decodes(check: Check, fields: Fields) {
    forall key :: Counts(fields, key) ==> Shown(check, fields[key]).Some?
  }

  predicate GoodIssuer(web: Web, text: string) {
    && text != "" && web.parse(Trim(text)).Some?
    && var url := web.parse(Trim(text)).value;
    && url.scheme != "" && url.host != "" && !url.user && url.fragment == ""
    && (url.scheme == "https" || url.hostname == "localhost" || url.hostname == "127.0.0.1" || url.hostname == "::1")
  }

  ghost predicate ReadsAs(web: Web, check: Check, fields: Fields, key: string) {
    && IsRead(fields, key)
    && Shown(check, fields[key]).Some? && GoodIssuer(web, Shown(check, fields[key]).value)
  }

  ghost predicate IssuerPasses(web: Web, check: Check, fields: Fields) {
    Decodes(check, fields) && exists key :: ReadsAs(web, check, fields, key)
  }

  /** The program's validation. */
  ghost function Validation(web: Web, check: Check): (Category, Fields) -> bool {
    (c, fields) => (c == KEYCLOAK ==> IssuerPasses(web, check, fields)) && check.others(c, fields)
  }

  /** An issuer passes as one text, alone or behind a reference, with a scheme and a host and
      neither user nor fragment, over a protected connection or on the machine itself; and it
      is the last in order of those there are. */
  lemma WhatPasses(web: Web, check: Check, fields: Fields) returns (key: string, text: string)
    requires IssuerPasses(web, check, fields)
    ensures key in fields && Folded(key) == "ISSUERURL"
    ensures forall other :: other in fields && Folded(other) == "ISSUERURL" && fields[other] != Null && other != key ==> Before(other, key)
    ensures fields[key].Str? && (if HasPrefix(fields[key].text, "secret://") then check.secret(fields[key].text) == Some(text)
                                 else text == fields[key].text)
    ensures web.parse(Trim(text)).Some?
    ensures var url := web.parse(Trim(text)).value;
            && |url.host| > 0 && |url.fragment| == 0 && !url.user
            && (url.scheme == "https" || (|url.scheme| > 0 && url.hostname in {"localhost", "127.0.0.1", "::1"}))
  {
    key :| ReadsAs(web, check, fields, key);
    text := Shown(check, fields[key]).value;
    forall other | other in fields && Folded(other) == "ISSUERURL" && fields[other] != Null && other != key ensures Before(other, key) {
      assert Counts(fields, other);
    }
  }

  /** And one given once, in its own spelling, passes as soon as it is such a text. */
  lemma OneGoodIssuerPasses(web: Web, check: Check, fields: Fields, text: string)
    requires "issuerUrl" in fields && fields["issuerUrl"] == Str(text) && !HasPrefix(text, "secret://") && |text| > 0
    requires forall other :: other in fields && Folded(other) == "ISSUERURL" ==> other == "issuerUrl"
    requires web.parse(Trim(text)).Some?
    requires var url := web.parse(Trim(text)).value;
             && |url.scheme| > 0 && |url.host| > 0 && |url.fragment| == 0 && !url.user
             && (url.scheme == "https" || url.hostname in {"localhost", "127.0.0.1", "::1"})
    ensures IssuerPasses(web, check, fields)
  {
    IssuerNamesIssuer();
    assert ReadsAs(web, check, fields, "issuerUrl");
  }

  /** Another spelling holds a good issuer and is the one that is read. */
  ghost predicate Overridden(web: Web, check: Check, fields: Fields) {
    Decodes(check, fields) && exists key :: key != ISSUER && ReadsAs(web, check, fields, key)
  }

  // ---- which disguised settings pass ----

  /** What stands before the colon is the scheme (section 3 of RFC 3986). */
  ghost predicate SchemesEndInAColon(web: Web) {
    forall text :: web.parse(text).Some? && web.parse(text).value.scheme != "" ==> ':' in text
  }

  lemma TheMaskIsNoIssuer(web: Web)
    requires SchemesEndInAColon(web)
    ensures !GoodIssuer(web, MASK.text)
  {
    NoSpaceIn("********");
  }

  lemma FoldsToLength(key: string)
    requires NamesIssuer(key)
    ensures |key| == 9 && FoldChar(key[0]) == 'I'
  {
    assert Folded(key)[0] == FoldChar(key[0]);
  }

  /** Normalization touches one spelling. */
  lemma DerivedKeepsSpellings(fields: Fields, issuer: string, public: string, key: string)
    requires NamesIssuer(key) && key != ISSUER
    ensures key in Derived(fields, issuer, public) <==> key in fields
    ensures key in fields ==> Derived(fields, issuer, public)[key] == fields[key]
  {
    FoldsToLength(key);
    assert key != "tlsVerify" && |"issuerMode"| == 10 && |"redirectMode"| == 12 && |"redirectUrl"| == 11 && |"postLogoutRedirectUrl"| == 21;
    assert |"caCertificate"| == 13 && |"proxyUrl"| == 8 && |"timeoutSeconds"| == 14;
  }

  lemma IssuerNamesIssuer()
    ensures NamesIssuer(ISSUER)
  {
    assert Folded("issuerUrl") == "ISSUERURL";
  }

  lemma DisguisedIsNoReference(fields: Fields)
    requires Disguised(KEYCLOAK, fields)
    ensures ISSUER in fields && fields[ISSUER].Str? && !Reference(fields[ISSUER]) && !Reference(MASK)
  {
    var text := Text(fields, ISSUER);
    TrimLeftEnds(text);
    TrimRightEnds(TrimLeft(text));
    assert MASK.text[0] == '*' && "secret://"[0] == 's';
  }

  /** Before and after, the same spellings count. */
  lemma SameSpellings(web: Web, public: string, merged: Fields)
    requires Disguised(KEYCLOAK, merged) && Normalize(web, public, KEYCLOAK, merged).Some?
    ensures var value := Normalize(web, public, KEYCLOAK, merged).value;
            && ISSUER in value && value[ISSUER] == MASK
            && (forall key :: Counts(value, key) <==> Counts(merged, key))
            && (forall key :: key != ISSUER && Counts(merged, key) ==> value[key] == merged[key])
  {
    IssuerIsTheMaskIff(web, merged);
    DisguisedIsNoReference(merged);
    IssuerNamesIssuer();
    var value := Normalize(web, public, KEYCLOAK, merged).value;
    var issuer := Issuer(web, merged).value;
    assert value == Derived(merged, issuer, TrimSlashes(public));
    forall key | NamesIssuer(key) && key != ISSUER
      ensures (key in value <==> key in merged) && (key in merged ==> value[key] == merged[key])
    {
      DerivedKeepsSpellings(merged, issuer, TrimSlashes(public), key);
    }
  }

  /** Exactly the disguised settings that spell the issuer another way, later in order and
      with a good one, get past validation. */
  lemma ADisguisedSettingPassesIff(web: Web, check: Check, public: string, merged: Fields)
    requires SchemesEndInAColon(web)
    requires Disguised(KEYCLOAK, merged) && Normalize(web, public, KEYCLOAK, merged).Some?
    ensures IssuerPasses(web, check, Normalize(web, public, KEYCLOAK, merged).value) <==> Overridden(web, check, merged)
  {
    var value := Normalize(web, public, KEYCLOAK, merged).value;
    SameSpellings(web, public, merged);
    DisguisedIsNoReference(merged);
    TheMaskIsNoIssuer(web);
    assert Decodes(check, value) <==> Decodes(check, merged);
    forall key ensures ReadsAs(web, check, value, key) <==> key != ISSUER && ReadsAs(web, check, merged, key) {
      assert IsRead(value, key) <==> IsRead(merged, key);
    }
  }

  // ---- in runs ----

  /** The program's runs: the mask is stored exactly by those that commit a disguised setting
      whose issuer is overridden. */
  lemma TheProgramStoresTheMaskIff(web: Web, check: Check, worlds: seq<World>, steps: seq<Step>)
    requires SchemesEndInAColon(web) && Run(Program(web, Validation(web, check)), worlds, steps)
    ensures var w := worlds[|steps|];
            NothingIsTheMask(w.store) <==>
            forall i :: 0 <= i < |w.requests| && w.requests[i].Committed? ==>
              !(Disguised(w.requests[i].ask.c, MergedOf(w.requests[i])) && Overridden(web, check, MergedOf(w.requests[i])))
  {
    var w := worlds[|steps|];
    TheMaskIsStoredIff(web, Validation(web, check), worlds, steps);
    forall i | 0 <= i < |w.requests| && w.requests[i].Committed? && Disguised(w.requests[i].ask.c, MergedOf(w.requests[i]))
      ensures Overridden(web, check, MergedOf(w.requests[i]))
    {
      CommittedIsOverridden(web, check, worlds, steps, i);
    }
  }

  lemma CommittedIsOverridden(web: Web, check: Check, worlds: seq<World>, steps: seq<Step>, i: nat)
    requires SchemesEndInAColon(web) && Run(Program(web, Validation(web, check)), worlds, steps)
    requires var requests := worlds[|steps|].requests;
             i < |requests| && requests[i].Committed? && Disguised(requests[i].ask.c, MergedOf(requests[i]))
    ensures Overridden(web, check, MergedOf(worlds[|steps|].requests[i]))
  {
    var norm := Program(web, Validation(web, check));
    var w := worlds[|steps|];
    var r := w.requests[i];
    RunKeepsInv(norm, worlds, steps, |steps|);
    assert RequestInv(norm, w, i, r);
    ProgramIs(web, Validation(web, check), r.ask.c, MergedOf(r), r.value);
    var public :| Normalize(web, public, r.ask.c, MergedOf(r)) == Some(r.value);
    ADisguisedSettingPassesIff(web, check, public, MergedOf(r));
  }

  /** So validation keeps the mask out as long as nobody spells the issuer another way. */
  lemma ValidationKeepsTheMaskOut(web: Web, check: Check, worlds: seq<World>, steps: seq<Step>)
    requires SchemesEndInAColon(web) && Run(Program(web, Validation(web, check)), worlds, steps)
    requires forall i, key :: 0 <= i < |worlds[|steps|].requests| && worlds[|steps|].requests[i].Committed? ==>
               key in MergedOf(worlds[|steps|].requests[i]) && NamesIssuer(key) ==> key == ISSUER
    ensures NothingIsTheMask(worlds[|steps|].store)
  {
    TheProgramStoresTheMaskIff(web, check, worlds, steps);
  }

  /** A setting that shows validation another issuer than the one it leaves. */
  function TwoSpellings(good: string): Fields {
    map["clientId" := Str("git-ctx"), "issuerUrl" := Str(" ********"), "issuerurl" := Str(good)]
  }

  lemma TwoSpellingsAreDisguised(good: string)
    ensures Disguised(KEYCLOAK, TwoSpellings(good)) && Trim(Text(TwoSpellings(good), "clientId")) != ""
  {
    NoSpaceIn("git-ctx");
    NoSpaceIn("********");
    assert TrimLeft(" ********") == TrimLeft("********");
  }

  lemma TheSecondIsRead(good: string)
    ensures IsRead(TwoSpellings(good), "issuerurl")
  {
    var fields := TwoSpellings(good);
    assert Folded("issuerurl") == "ISSUERURL" && |"clientId"| == 8;
    forall other | Counts(fields, other) && other != "issuerurl" ensures Before(other, "issuerurl") {
      FoldsToLength(other);
      assert other == "issuer" + "Url" && "issuerurl" == "issuer" + "url";
      BeforeBehind("issuer", "Url", "url");
    }
  }

  lemma TwoSpellingsDecode(check: Check, good: string)
    requires !HasPrefix(good, "secret://")
    ensures Decodes(check, TwoSpellings(good)) && Shown(check, TwoSpellings(good)["issuerurl"]) == Some(good)
  {
    var fields := TwoSpellings(good);
    TwoSpellingsAreDisguised(good);
    DisguisedIsNoReference(fields);
    forall key | Counts(fields, key) ensures Shown(check, fields[key]).Some? {
      FoldsToLength(key);
      assert |"clientId"| == 8;
    }
  }

  lemma TwoSpellingsPass(web: Web, check: Check, public: string, good: string) returns (value: Fields)
    requires SchemesEndInAColon(web) && GoodIssuer(web, good) && !HasPrefix(good, "secret://")
    ensures Normalize(web, public, KEYCLOAK, TwoSpellings(good)) == Some(value)
    ensures IssuerPasses(web, check, value) && ISSUER in value && value[ISSUER] == MASK
  {
    var fields := TwoSpellings(good);
    TwoSpellingsAreDisguised(good);
    assert Trim(Text(fields, "issuerUrl")) != "";
    value := Normalize(web, public, KEYCLOAK, fields).value;
    SameSpellings(web, public, fields);
    TheSecondIsRead(good);
    TwoSpellingsDecode(check, good);
    assert ReadsAs(web, check, fields, "issuerurl");
    ADisguisedSettingPassesIff(web, check, public, fields);
  }

  lemma ProgramTakes(web: Web, check: Check, public: string, fields: Fields, value: Fields)
    requires Normalize(web, public, KEYCLOAK, fields) == Some(value)
    requires IssuerPasses(web, check, value) && check.others(KEYCLOAK, value)
    ensures Program(web, Validation(web, check))(KEYCLOAK, fields, value)
  {
    assert NormalizesTo(web, KEYCLOAK, fields, value);
    ProgramIs(web, Validation(web, check), KEYCLOAK, fields, value);
  }

  lemma TwoSpellingsHaveNoMask(web: Web, good: string)
    requires SchemesEndInAColon(web) && GoodIssuer(web, good)
    ensures MaskFree(TwoSpellings(good)) && EXPECTED_VERSION !in TwoSpellings(good)
  {
    TheMaskIsNoIssuer(web);
    assert good != MASK.text && |" ********"| == 9 && |MASK.text| == 8 && |"git-ctx"| == 7;
  }

  /** A run that stores the mask: one save of such a setting, with nothing else going on. */
  lemma ASecondSpellingStoresTheMask(web: Web, check: Check, public: string, good: string) returns (value: Fields, last: World)
    requires SchemesEndInAColon(web) && GoodIssuer(web, good) && !HasPrefix(good, "secret://")
    requires forall v :: Normalize(web, public, KEYCLOAK, TwoSpellings(good)) == Some(v) ==> check.others(KEYCLOAK, v)
    ensures Leads(Next(Program(web, Validation(web, check))), START,
                  [Puts(KEYCLOAK, TwoSpellings(good)), Merges(0, value), Commits(0)], last)
    ensures last.store == Store(map[KEYCLOAK := Live(1, value)], map[KEYCLOAK := [Version(1, value)]])
    ensures ISSUER in value && value[ISSUER] == MASK && !NothingIsTheMask(last.store)
  {
    value := TwoSpellingsPass(web, check, public, good);
    ProgramTakes(web, check, public, TwoSpellings(good), value);
    TwoSpellingsHaveNoMask(web, good);
    last := PutThrough(Program(web, Validation(web, check)), KEYCLOAK, TwoSpellings(good), value);
    MaskIsLive(last.store, value);
  }

  lemma MaskIsLive(s: Store, value: Fields)
    requires KEYCLOAK in s.live && s.live[KEYCLOAK].value == value && ISSUER in value && value[ISSUER] == MASK
    ensures !NothingIsTheMask(s)
  {
    assert At(value, [ISSUER]) == Some(MASK);
  }

  /** The first setting of a category is saved. */
  lemma PutThrough(norm: Normal, c: Category, body: Fields, value: Fields) returns (last: World)
    requires MaskFree(body) && EXPECTED_VERSION !in body && norm(c, body, value)
    ensures Leads(Next(norm), START, [Puts(c, body), Merges(0, value), Commits(0)], last)
    ensures last.store == Store(map[c := Live(1, value)], map[c := [Version(1, value)]])
  {
    assert body - {EXPECTED_VERSION} == body;
    PlainMerges(map[], body);
    var x := Effect(START, Puts(c, body));
    var y := Effect(x, Merges(0, value));
    last := Effect(y, Commits(0));
    assert y.requests[0].Merged? && y.requests[0].ask.c == c && !Conflicts(y.store, c, 0);
    FirstWrite(c, value);
    OneAfterAnother(norm, [START, x, y, last], [Puts(c, body), Merges(0, value), Commits(0)]);
  }
}
