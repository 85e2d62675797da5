/** What the program's own normalization does to the literal mask, and exactly when a run
    stores it.

    Reading and escaping URLs are parameters, and so is here validation, which may refuse
    anything; what it reads of an issuer is the subject of `SettingsIssuer`. */
module SettingsNormal {
  import opened Common
  import opened SettingsTree
  import opened SettingsStore
  import opened SettingsGuard

  // ---- trimming ----

  predicate Space(c: char) {
    || c == ' ' || '\t' <= c <= '\r' || c == '\U{85}' || c == '\U{A0}' || c == '\U{1680}'
    || '\U{2000}' <= c <= '\U{200A}' || c == '\U{2028}' || c == '\U{2029}' || c == '\U{202F}' || c == '\U{205F}' || c == '\U{3000}'
  }

  function TrimLeft(s: string): string {
    if s != [] && Space(s[0]) then TrimLeft(s[1..]) else s
  }

  function TrimRight(s: string): string {
    if s != [] && Space(s[|s| - 1]) then TrimRight(s[..|s| - 1]) else s
  }

  function Trim(s: string): string {
    TrimRight(TrimLeft(s))
  }

  function TrimSlashes(s: string): string {
    if s != [] && s[|s| - 1] == '/' then TrimSlashes(s[..|s| - 1]) else s
  }

  // ---- normalization ----

  datatype Url = Url(scheme: string, host: string, hostname: string, user: bool, fragment: string, text: string)

  datatype Web = Web(parse: string -> Option<Url>, escape: string -> string)

  const KEYWORD_ONLY := "keyword-only"
  const HYBRID_REQUIRED := "hybrid-required"
  const HYBRID_FALLBACK := "hybrid-fallback"

  function Text(fields: Fields, key: string): string {
    if key in fields && fields[key].Str? then fields[key].text else ""
  }

  function RetrievalMode(fields: Fields): string {
    if "retrievalMode" in fields && fields["retrievalMode"].Str? then
      var mode := Lower(Trim(fields["retrievalMode"].text));
      if mode == KEYWORD_ONLY || mode == HYBRID_REQUIRED then mode else HYBRID_FALLBACK
    else if "embeddingEnabled" in fields && fields["embeddingEnabled"] == Bool(false) then KEYWORD_ONLY
    else HYBRID_FALLBACK
  }

  /** The issuer, or none when it cannot be told. */
  function Issuer(web: Web, fields: Fields): Option<string> {
    var base, realm, issuer := Trim(Text(fields, "baseUrl")), Trim(Text(fields, "realm")), Trim(Text(fields, "issuerUrl"));
    if base != "" || realm != "" then
      if base == "" || realm == "" then None
      else
        var url := web.parse(base);
        if url.None? || url.value.scheme == "" || url.value.host == "" || url.value.user || url.value.fragment != "" then None
        else Some(TrimSlashes(url.value.text) + "/realms/" + web.escape(realm))
    else if issuer == "" then None
    else Some(issuer)
  }

  /** `public` is the platform's own address at that moment. */
  function Normalize(web: Web, public: string, c: Category, fields: Fields): Option<Fields> {
    if c == "search" then
      Some(fields["retrievalMode" := Str(RetrievalMode(fields))] - {"embeddingEnabled"})
    else if c != "keycloak" then Some(fields)
    else if Trim(Text(fields, "clientId")) == "" then None
    else
      var issuer := Issuer(web, fields);
      if issuer.None? then None
      else Some(Derived(fields, issuer.value, TrimSlashes(public)))
  }

  function Derived(fields: Fields, issuer: string, public: string): Fields {
    fields["issuerMode" := Str("auto")]["issuerUrl" := Str(issuer)]["redirectMode" := Str("auto")]
          ["redirectUrl" := Str(public + "/auth/callback")]["postLogoutRedirectUrl" := Str(public + "/")]
          ["tlsVerify" := Bool(true)]
      - {"caCertificate", "proxyUrl", "timeoutSeconds"}
  }

  // ---- what normalization leaves ----

  /** What is trimmed is all white space, and what is left begins and ends with none. */
  lemma TrimIs(s: string) returns (front: string, back: string)
    ensures s == front + Trim(s) + back
    ensures (forall c :: c in front ==> Space(c)) && (forall c :: c in back ==> Space(c))
    ensures Trim(s) != "" ==> !Space(Trim(s)[0]) && !Space(Trim(s)[|Trim(s)| - 1])
  {
    front := TrimLeftIs(s);
    back := TrimRightIs(TrimLeft(s));
    TrimLeftEnds(s);
    TrimRightEnds(TrimLeft(s));
    assert front + (Trim(s) + back) == front + Trim(s) + back;
  }

  lemma {:induction false} TrimLeftIs(s: string) returns (front: string)
    ensures s == front + TrimLeft(s) && forall c :: c in front ==> Space(c)
  {
    front := "";
    if s != [] && Space(s[0]) {
      var more := TrimLeftIs(s[1..]);
      front := [s[0]] + more;
    }
  }

  lemma {:induction false} TrimRightIs(s: string) returns (back: string)
    ensures s == TrimRight(s) + back && forall c :: c in back ==> Space(c)
  {
    back := "";
    if s != [] && Space(s[|s| - 1]) {
      var more := TrimRightIs(s[..|s| - 1]);
      back := more + [s[|s| - 1]];
    }
  }

  lemma {:induction false} SlashesAreTrimmed(s: string) returns (back: string)
    ensures s == TrimSlashes(s) + back && forall c :: c in back ==> c == '/'
    ensures TrimSlashes(s) != "" ==> TrimSlashes(s)[|TrimSlashes(s)| - 1] != '/'
  {
    back := "";
    if s != [] && s[|s| - 1] == '/' {
      var more := SlashesAreTrimmed(s[..|s| - 1]);
      back := more + "/";
    }
  }

  ghost predicate OthersAreTheSame(before: Fields, after: Fields, touched: set<string>) {
    forall key :: key !in touched ==> (key in after <==> key in before) && (key in before ==> after[key] == before[key])
  }

  /** Search: one of three modes, the one that is named if it is one of them; without a name
      the old switch decides, and goes. */
  lemma TheSearchMode(web: Web, public: string, fields: Fields)
    ensures Normalize(web, public, "search", fields).Some?
    ensures var after := Normalize(web, public, "search", fields).value;
            && "embeddingEnabled" !in after && OthersAreTheSame(fields, after, {"retrievalMode", "embeddingEnabled"})
            && "retrievalMode" in after
            && after["retrievalMode"] in {Str("keyword-only"), Str("hybrid-required"), Str("hybrid-fallback")}
            && (if "retrievalMode" in fields && fields["retrievalMode"].Str? then
                  var named := Lower(Trim(fields["retrievalMode"].text));
                  && (after["retrievalMode"] == Str("keyword-only") <==> named == "keyword-only")
                  && (after["retrievalMode"] == Str("hybrid-required") <==> named == "hybrid-required")
                else
                  && after["retrievalMode"] != Str("hybrid-required")
                  && (after["retrievalMode"] == Str("keyword-only") <==>
                        "embeddingEnabled" in fields && fields["embeddingEnabled"] == Bool(false)))
  {
    assert KEYWORD_ONLY[0] == 'k' && HYBRID_REQUIRED[0] == 'h' && HYBRID_FALLBACK[0] == 'h';
    assert HYBRID_REQUIRED[7] == 'r' && HYBRID_FALLBACK[7] == 'f';
  }

  /** Single sign-on: needs a client; the addresses are the platform's own, the certificate is
      checked, what could change that goes, and the rest stays. */
  lemma TheSignOn(web: Web, public: string, fields: Fields)
    requires Normalize(web, public, "keycloak", fields).Some?
    ensures Trim(Text(fields, "clientId")) != ""
    ensures var after := Normalize(web, public, "keycloak", fields).value;
            && Text(after, "issuerMode") == Text(after, "redirectMode") == "auto"
            && Text(after, "redirectUrl") == TrimSlashes(public) + "/auth/callback"
            && Text(after, "postLogoutRedirectUrl") == TrimSlashes(public) + "/"
            && "tlsVerify" in after && after["tlsVerify"] == Bool(true)
            && "caCertificate" !in after && "proxyUrl" !in after && "timeoutSeconds" !in after
  {
    DerivedAre(fields, Issuer(web, fields).value, TrimSlashes(public));
  }

  lemma DerivedAre(fields: Fields, issuer: string, public: string)
    ensures var after := Derived(fields, issuer, public);
            && Text(after, "issuerMode") == Text(after, "redirectMode") == "auto"
            && Text(after, "redirectUrl") == public + "/auth/callback"
            && Text(after, "postLogoutRedirectUrl") == public + "/"
            && "tlsVerify" in after && after["tlsVerify"] == Bool(true)
            && "caCertificate" !in after && "proxyUrl" !in after && "timeoutSeconds" !in after
  {
  }

  const TOUCHED: set<string> :=
    {"issuerMode", "issuerUrl", "redirectMode", "redirectUrl", "postLogoutRedirectUrl", "tlsVerify"}
    + {"caCertificate", "proxyUrl", "timeoutSeconds"}

  lemma DerivedKeepsOthers(fields: Fields, issuer: string, public: string, key: string)
    requires key !in TOUCHED
    ensures var after := Derived(fields, issuer, public);
            (key in after <==> key in fields) && (key in fields ==> after[key] == fields[key])
  {
  }

  lemma TheRestOfTheSignOn(web: Web, public: string, fields: Fields, key: string)
    requires Normalize(web, public, "keycloak", fields).Some? && key !in TOUCHED
    ensures var after := Normalize(web, public, "keycloak", fields).value;
            (key in after <==> key in fields) && (key in fields ==> after[key] == fields[key])
  {
    DerivedKeepsOthers(fields, Issuer(web, fields).value, TrimSlashes(public), key);
  }

  /** The issuer: from a base address with a scheme and a host and neither user nor fragment,
      together with a realm; or as it is given, when there is neither; and nothing else. */
  lemma TheIssuer(web: Web, public: string, fields: Fields)
    requires Trim(Text(fields, "clientId")) != ""
    ensures var (base, realm, issuer) := (Trim(Text(fields, "baseUrl")), Trim(Text(fields, "realm")), Trim(Text(fields, "issuerUrl")));
            var after := Normalize(web, public, "keycloak", fields);
            && (after.Some? ==> "issuerUrl" in after.value)
            && (base == "" && realm == "" ==> (after.Some? <==> issuer != "") && (after.Some? ==> after.value["issuerUrl"] == Str(issuer)))
            && ((base == "") != (realm == "") ==> after.None?)
            && (base != "" && realm != "" ==>
                  && (after.Some? <==>
                        && web.parse(base).Some?
                        && var url := web.parse(base).value;
                           |url.scheme| > 0 && |url.host| > 0 && |url.fragment| == 0 && !url.user)
                  && (after.Some? ==> after.value["issuerUrl"] == Str(TrimSlashes(web.parse(base).value.text) + "/realms/" + web.escape(realm))))
  {
  }

  lemma OthersAreLeftAlone(web: Web, public: string, c: Category, fields: Fields)
    ensures c !in {"search", "keycloak"} ==> Normalize(web, public, c, fields) == Some(fields)
    ensures c == "keycloak" && Trim(Text(fields, "clientId")) == "" ==> Normalize(web, public, c, fields).None?
  {
  }

  // ---- a normalized setting stays as it is ----

  lemma {:induction false} TrimLeftEnds(s: string)
    ensures TrimLeft(s) != [] ==> !Space(TrimLeft(s)[0])
  {
    if s != [] && Space(s[0]) {
      TrimLeftEnds(s[1..]);
    }
  }

  lemma {:induction false} TrimRightEnds(s: string)
    ensures TrimRight(s) <= s
    ensures TrimRight(s) != [] ==> !Space(TrimRight(s)[|TrimRight(s)| - 1])
    ensures s != [] && !Space(s[0]) ==> TrimRight(s) != []
  {
    if s != [] && Space(s[|s| - 1]) {
      TrimRightEnds(s[..|s| - 1]);
    }
  }

  lemma TrimmedTwice(s: string)
    ensures Trim(Trim(s)) == Trim(s)
  {
    TrimLeftEnds(s);
    TrimRightEnds(TrimLeft(s));
  }

  lemma ModeTwice(fields: Fields)
    ensures RetrievalMode(fields["retrievalMode" := Str(RetrievalMode(fields))] - {"embeddingEnabled"}) == RetrievalMode(fields)
  {
    var mode := RetrievalMode(fields);
    assert mode in [KEYWORD_ONLY, HYBRID_REQUIRED, HYBRID_FALLBACK];
    NoSpaceInModes();
    assert (fields["retrievalMode" := Str(mode)] - {"embeddingEnabled"})["retrievalMode"] == Str(mode);
  }

  lemma NoSpaceIn(s: string)
    requires s != [] && !Space(s[0]) && !Space(s[|s| - 1])
    ensures Trim(s) == s
  {
  }

  lemma NoSpaceInModes()
    ensures Lower(Trim(KEYWORD_ONLY)) == KEYWORD_ONLY && Lower(Trim(HYBRID_REQUIRED)) == HYBRID_REQUIRED
  {
    NoSpaceIn(KEYWORD_ONLY);
    NoSpaceIn(HYBRID_REQUIRED);
  }

  lemma DerivedTwice(fields: Fields, issuer: string, public: string)
    ensures Derived(Derived(fields, issuer, public), issuer, public) == Derived(fields, issuer, public)
  {
  }

  lemma DerivedKeeps(fields: Fields, issuer: string, public: string)
    ensures var once := Derived(fields, issuer, public);
            && Text(once, "issuerUrl") == issuer && Text(once, "clientId") == Text(fields, "clientId")
            && Text(once, "baseUrl") == Text(fields, "baseUrl") && Text(once, "realm") == Text(fields, "realm")
  {
  }

  lemma SignOnTwice(web: Web, public: string, fields: Fields)
    requires Normalize(web, public, "keycloak", fields).Some?
    ensures Normalize(web, public, "keycloak", Normalize(web, public, "keycloak", fields).value) == Normalize(web, public, "keycloak", fields)
  {
    var issuer := Issuer(web, fields).value;
    TrimmedTwice(Text(fields, "issuerUrl"));
    DerivedKeeps(fields, issuer, TrimSlashes(public));
    assert Issuer(web, Derived(fields, issuer, TrimSlashes(public))) == Some(issuer);
    DerivedTwice(fields, issuer, TrimSlashes(public));
  }

  /** The program normalizes what it loads again: with the same address that changes nothing. */
  lemma NormalizedTwice(web: Web, public: string, c: Category, fields: Fields)
    requires Normalize(web, public, c, fields).Some?
    ensures Normalize(web, public, c, Normalize(web, public, c, fields).value) == Normalize(web, public, c, fields)
  {
    var once := Normalize(web, public, c, fields).value;
    if c == "search" {
      ModeTwice(fields);
      assert once["retrievalMode" := Str(RetrievalMode(once))] - {"embeddingEnabled"} == once;
    } else if c == "keycloak" {
      SignOnTwice(web, public, fields);
    }
  }

  // ---- the mask ----

  /** A single sign-on setting without base URL and realm whose issuer is the mask but for
      the space around it. It is not the mask, so nothing stored is put in its place. */
  predicate Disguised(c: Category, fields: Fields) {
    && c == "keycloak"
    && Trim(Text(fields, "baseUrl")) == "" && Trim(Text(fields, "realm")) == ""
    && Trim(Text(fields, "issuerUrl")) == MASK.text
  }

  /** Fields replaced by texts other than the mask bring none in. */
  lemma OthersBringNoMask(before: Fields, after: Fields)
    requires NoMask(before)
    requires forall key :: key in after ==> after[key] != MASK && (after[key].Obj? ==> key in before && after[key] == before[key])
    ensures NoMask(after)
  {
    forall path: Path ensures At(after, path) != Some(MASK) {
      if |path| > 1 && path[0] in after {
        NothingInNothing(path[1..]);
        if after[path[0]].Obj? {
          assert At(before, path) != Some(MASK);
        }
      } else if |path| > 1 {
        assert At(after, path) == None;
      }
    }
  }

  lemma NoMaskAtTop(fields: Fields, key: string)
    requires NoMask(fields) && key in fields
    ensures fields[key] != MASK
  {
    assert At(fields, [key]) == Some(fields[key]);
  }

  lemma NotTheMask(text: string, rest: string)
    requires |rest| > 0 && rest[0] == '/'
    ensures text + rest != MASK.text
  {
    assert (text + rest)[|text|] == '/';
  }

  lemma IssuerIsTheMaskIff(web: Web, fields: Fields)
    requires Issuer(web, fields).Some?
    ensures Issuer(web, fields).value == MASK.text <==> Disguised("keycloak", fields)
  {
    var base, realm := Trim(Text(fields, "baseUrl")), Trim(Text(fields, "realm"));
    if base != "" || realm != "" {
      var text, more := TrimSlashes(web.parse(base).value.text), "/realms/" + web.escape(realm);
      NotTheMask(text, more);
      assert text + "/realms/" + web.escape(realm) == text + more;
    }
  }

  /** Exactly the disguised settings are normalized to one that holds the mask. */
  lemma NormalizeLetsTheMaskInIff(web: Web, public: string, c: Category, fields: Fields)
    requires Normalize(web, public, c, fields).Some? && NoMask(fields)
    ensures NoMask(Normalize(web, public, c, fields).value) <==> !Disguised(c, fields)
  {
    var after := Normalize(web, public, c, fields).value;
    if Disguised(c, fields) {
      DisguisedHoldsTheMask(web, public, c, fields);
    } else {
      forall key | key in after
        ensures after[key] != MASK && (after[key].Obj? ==> key in fields && after[key] == fields[key])
      {
        if key in fields {
          NoMaskAtTop(fields, key);
        }
        if c == "keycloak" {
          IssuerIsTheMaskIff(web, fields);
          DerivedIsNotTheMask(fields, Issuer(web, fields).value, TrimSlashes(public), key);
        }
      }
      OthersBringNoMask(fields, after);
    }
  }

  lemma DerivedIsNotTheMask(fields: Fields, issuer: string, public: string, key: string)
    requires key in Derived(fields, issuer, public) && issuer != MASK.text && (key in fields ==> fields[key] != MASK)
    ensures var item := Derived(fields, issuer, public)[key];
            item != MASK && (item.Obj? ==> key in fields && item == fields[key])
  {
    NotTheMask(public, "/auth/callback");
    NotTheMask(public, "/");
  }

  lemma DisguisedHoldsTheMask(web: Web, public: string, c: Category, fields: Fields)
    requires Normalize(web, public, c, fields).Some? && Disguised(c, fields)
    ensures !NoMask(Normalize(web, public, c, fields).value)
  {
    IssuerIsTheMaskIff(web, fields);
    assert At(Normalize(web, public, c, fields).value, ["issuerUrl"]) == Some(MASK);
  }

  // ---- in runs ----

  ghost predicate NormalizesTo(web: Web, c: Category, merged: Fields, value: Fields) {
    exists public :: Normalize(web, public, c, merged) == Some(value)
  }

  /** The program's: normalized, whatever its address is then, and accepted by validation. */
  ghost function Program(web: Web, accepts: (Category, Fields) -> bool): Normal {
    (c: Category, merged: Fields, value: Fields) => NormalizesTo(web, c, merged, value) && accepts(c, value)
  }

  lemma ProgramIs(web: Web, accepts: (Category, Fields) -> bool, c: Category, merged: Fields, value: Fields)
    ensures Program(web, accepts)(c, merged, value) <==> NormalizesTo(web, c, merged, value) && accepts(c, value)
  {
  }

  ghost predicate NothingIsTheMask(s: Store) {
    && (forall c, k :: 0 <= k < |History(s, c)| ==> NoMask(History(s, c)[k].value))
    && (forall c :: c in s.live ==> NoMask(s.live[c].value))
  }

  function MergedOf(r: Request): Fields
    requires r.Committed?
  {
    Preserved(Previous(r.seen), r.ask.body)
  }

  /** Normalizing what was committed let no mask in. */
  ghost predicate LetNoneIn(w: World) {
    forall i :: 0 <= i < |w.requests| && w.requests[i].Committed? ==>
      NoMask(MergedOf(w.requests[i])) ==> NoMask(w.requests[i].value)
  }

  lemma SeenHasNoMask(s: Store, c: Category, seen: Option<Live>)
    requires NothingIsTheMask(s) && (seen.Some? ==> InHistory(s, c, seen.value))
    ensures NoMask(Previous(seen))
  {
    if seen.None? {
      forall path: Path ensures At(map[], path) != Some(MASK) {
        if path != [] {
          NothingInNothing(path);
        }
      }
    } else {
      var k :| 0 <= k < |History(s, c)| && History(s, c)[k] == Version(seen.value.version, seen.value.value);
    }
  }

  lemma StepKeepsCommitted(norm: Normal, w: World, step: Step)
    requires Enabled(norm, w, step) && LetNoneIn(Effect(w, step))
    ensures LetNoneIn(w)
  {
    forall i | 0 <= i < |w.requests| && w.requests[i].Committed?
      ensures Effect(w, step).requests[i] == w.requests[i]
    {
    }
  }

  lemma WriteLetsNoneIn(s: Store, c: Category, value: Fields)
    requires CategoryInv(s, c) && NothingIsTheMask(s) && NoMask(value)
    ensures NothingIsTheMask(Write(s, c, value))
  {
    var s' := Write(s, c, value);
    WriteKeeps(s, c, value);
    forall d, k | 0 <= k < |History(s', d)| ensures NoMask(History(s', d)[k].value) {
      if d != c {
        WriteElsewhere(s, c, value, d);
      }
    }
  }

  lemma StepLetsNoneIn(norm: Normal, w: World, step: Step)
    requires Inv(norm, w) && NothingIsTheMask(w.store) && Enabled(norm, w, step) && LetNoneIn(Effect(w, step))
    ensures NothingIsTheMask(Effect(w, step).store)
  {
    if step.Commits? && Effect(w, step).requests[step.i].Committed? {
      var r := w.requests[step.i];
      assert RequestInv(norm, w, step.i, r) && CategoryInv(w.store, r.ask.c);
      SeenHasNoMask(w.store, r.ask.c, r.seen);
      PreservedHasNoMask(Previous(r.seen), r.ask.body);
      assert Effect(w, step) == Saved(w, step.i);
      assert Saved(w, step.i).requests[step.i] == Committed(r.ask, r.seen, r.value, Row(w.store, r.ask.c), |History(w.store, r.ask.c)|);
      WriteLetsNoneIn(w.store, r.ask.c, r.value);
    } else {
      assert Effect(w, step).store.history == w.store.history;
      forall c, k | 0 <= k < |History(Effect(w, step).store, c)| ensures NoMask(History(Effect(w, step).store, c)[k].value) {
        assert History(Effect(w, step).store, c) == History(w.store, c);
      }
    }
  }

  lemma {:induction false} RunLetsNoneIn(norm: Normal, worlds: seq<World>, steps: seq<Step>, k: nat)
    requires Run(norm, worlds, steps) && k < |worlds| && LetNoneIn(worlds[k])
    ensures NothingIsTheMask(worlds[k].store)
  {
    if k > 0 {
      assert Enabled(norm, worlds[k - 1], steps[k - 1]) && worlds[k] == Effect(worlds[k - 1], steps[k - 1]);
      StepKeepsCommitted(norm, worlds[k - 1], steps[k - 1]);
      RunLetsNoneIn(norm, worlds, steps, k - 1);
      RunKeepsInv(norm, worlds, steps, k - 1);
      StepLetsNoneIn(norm, worlds[k - 1], steps[k - 1]);
    }
  }

  /** A normalization that turns nothing into the mask. */
  ghost predicate KeepsMasksOut(norm: Normal) {
    forall c, merged, value :: norm(c, merged, value) && NoMask(merged) ==> NoMask(value)
  }

  /** With one, no run stores the mask anywhere. */
  lemma NothingStoredIsTheMask(norm: Normal, worlds: seq<World>, steps: seq<Step>)
    requires Run(norm, worlds, steps) && KeepsMasksOut(norm)
    ensures NothingIsTheMask(worlds[|steps|].store)
  {
    var w := worlds[|steps|];
    RunKeepsInv(norm, worlds, steps, |steps|);
    forall i | 0 <= i < |w.requests| && w.requests[i].Committed? && NoMask(MergedOf(w.requests[i]))
      ensures NoMask(w.requests[i].value)
    {
      assert RequestInv(norm, w, i, w.requests[i]);
    }
    RunLetsNoneIn(norm, worlds, steps, |steps|);
  }

  /** The program: exactly the runs that commit a disguised setting have the mask stored. */
  lemma TheMaskIsStoredIff(web: Web, accepts: (Category, Fields) -> bool, worlds: seq<World>, steps: seq<Step>)
    requires Run(Program(web, accepts), worlds, steps)
    ensures var w := worlds[|steps|];
            NothingIsTheMask(w.store) <==>
            forall i :: 0 <= i < |w.requests| && w.requests[i].Committed? ==> !Disguised(w.requests[i].ask.c, MergedOf(w.requests[i]))
  {
    var w := worlds[|steps|];
    RunKeepsInv(Program(web, accepts), worlds, steps, |steps|);
    forall i | 0 <= i < |w.requests| && w.requests[i].Committed?
      ensures Disguised(w.requests[i].ask.c, MergedOf(w.requests[i])) ==> !NothingIsTheMask(w.store)
      ensures !Disguised(w.requests[i].ask.c, MergedOf(w.requests[i])) && NoMask(MergedOf(w.requests[i])) ==> NoMask(w.requests[i].value)
    {
      var r := w.requests[i];
      assert RequestInv(Program(web, accepts), w, i, r);
      ProgramIs(web, accepts, r.ask.c, MergedOf(r), r.value);
      var public :| Normalize(web, public, r.ask.c, MergedOf(r)) == Some(r.value);
      if Disguised(r.ask.c, MergedOf(r)) {
        DisguisedHoldsTheMask(web, public, r.ask.c, MergedOf(r));
        assert History(w.store, r.ask.c)[r.at].value == r.value;
      } else if NoMask(MergedOf(r)) {
        NormalizeLetsTheMaskInIff(web, public, r.ask.c, MergedOf(r));
      }
    }
    if forall i :: 0 <= i < |w.requests| && w.requests[i].Committed? ==> !Disguised(w.requests[i].ask.c, MergedOf(w.requests[i])) {
      RunLetsNoneIn(Program(web, accepts), worlds, steps, |steps|);
    }
  }

  /** An issuer that is the mask behind a space: not the mask when it arrives, and the mask
      when it is normalized. */
  lemma ASpaceDisguisesTheMask(web: Web, public: string)
    ensures var fields: Fields := map["clientId" := Str("git-ctx"), "issuerUrl" := Str(" ********")];
            && NoMask(fields) && Disguised("keycloak", fields)
            && Normalize(web, public, "keycloak", fields).Some?
            && !NoMask(Normalize(web, public, "keycloak", fields).value)
  {
    var fields: Fields := map["clientId" := Str("git-ctx"), "issuerUrl" := Str(" ********")];
    forall path: Path ensures At(fields, path) != Some(MASK) {
      if |path| > 1 {
        NothingInNothing(path[1..]);
      }
    }
    NoSpaceIn("git-ctx");
    NoSpaceIn("********");
    assert TrimLeft(" ********") == TrimLeft("********");
    assert Issuer(web, fields) == Some("********");
    DisguisedHoldsTheMask(web, public, "keycloak", fields);
  }

  // ---- a version in a setting ----

  lemma ProgramAddsNoVersion(web: Web, accepts: (Category, Fields) -> bool)
    ensures AddsNoVersion(Program(web, accepts))
  {
    forall c, merged, value | Program(web, accepts)(c, merged, value) && EXPECTED_VERSION in value
      ensures EXPECTED_VERSION in merged
    {
      ProgramIs(web, accepts, c, merged, value);
      var public :| Normalize(web, public, c, merged) == Some(value);
      NormalizeAddsNoVersion(web, public, c, merged);
    }
  }

  lemma NormalizeAddsNoVersion(web: Web, public: string, c: Category, fields: Fields)
    requires Normalize(web, public, c, fields).Some?
    ensures EXPECTED_VERSION in Normalize(web, public, c, fields).value <==> EXPECTED_VERSION in fields
  {
  }

  /** In the program: a document imported with a version above one, and accepted with it and
      without it, cannot be restored while it is the newest. */
  lemma AnImportedDocumentCannotBeRestored(web: Web, accepts: (Category, Fields) -> bool, c: Category, document: Fields)
    returns (last: World)
    requires c != "search" && c != "keycloak" && MaskFree(document) && ExpectedIn(document) > 1
    requires accepts(c, document) && accepts(c, document - {EXPECTED_VERSION})
    ensures Leads(Next(Program(web, accepts)), START,
                  [Imports(c, document), Merges(0, document), Commits(0),
                   Restores(c, 0), Merges(1, document - {EXPECTED_VERSION}), Commits(1)], last)
    ensures |last.requests| == 2 && last.requests[0].Committed? && last.requests[1].Conflicted?
    ensures last.store == Store(map[c := Live(1, document)], map[c := [Version(1, document)]])
  {
    var rest := document - {EXPECTED_VERSION};
    assert Normalize(web, "", c, document) == Some(document) && Normalize(web, "", c, rest) == Some(rest);
    ProgramIs(web, accepts, c, document, document);
    ProgramIs(web, accepts, c, rest, rest);
    last := AnImportedVersionRefusesItsRestore(Program(web, accepts), c, document, document, rest);
  }
}
