/** The program's own lists of tables, and what the results about backups say of them. */
module BackupCatalog {
  import opened Common
  import opened BackupText
  import opened Parts
  import opened BackupJson
  import opened BackupValues
  import opened BackupArchive
  import opened BackupSnapshot
  import opened BackupRestore
  import opened BackupRoundTrip

  /** Lower-case letters and underscores. */
  type TableName = t: Text | |t| >= 5 && forall i :: 0 <= i < |t| ==> '_' as int <= t[i] <= 'z' as int
    witness Ascii("users")

  function Named(s: string): (t: TableName)
    requires |s| >= 5 && forall i :: 0 <= i < |s| ==> '_' <= s[i] <= 'z'
    ensures t == Ascii(s)
  {
    Ascii(s)
  }

  const PEOPLE: seq<TableName> := [
    Named("users"), Named("roles"), Named("user_identities"), Named("user_roles"), Named("api_keys"),
    Named("api_key_restrictions"), Named("api_key_usage_buckets")]

  const REPOSITORIES: seq<TableName> := [
    Named("repositories"), Named("repository_permissions"), Named("repository_index_policies"),
    Named("repository_files")]

  const CONTENT: seq<TableName> := [
    Named("document_chunks"), Named("repository_ref_states"), Named("repository_ref_changes"),
    Named("search_projection_states")]

  const SYMBOLS: seq<TableName> := [
    Named("code_symbols"), Named("code_dependencies"), Named("repository_maps"), Named("repository_packages")]

  const PACKS: seq<TableName> := [
    Named("context_packs"), Named("context_pack_items"), Named("context_pack_entrypoints")]

  const QUALITY: seq<TableName> := [
    Named("quality_benchmark_cases"), Named("quality_benchmark_runs"), Named("quality_benchmark_results")]

  const SETTINGS: seq<TableName> := [
    Named("system_settings"), Named("setting_versions"), Named("audit_logs"), Named("mcp_calls"),
    Named("mcp_call_steps"), Named("index_jobs")]

  const EVENTS: seq<TableName> := [
    Named("webhook_events"), Named("index_security_events"), Named("mcp_tools"), Named("notifications"),
    Named("notification_deliveries")]

  const SECRETS: seq<TableName> := [
    Named("managed_secrets"), Named("managed_secret_versions"), Named("platform_keys"),
    Named("platform_bootstrap")]

  const EARLY := PEOPLE + REPOSITORIES + CONTENT + SYMBOLS + PACKS

  const LATE := QUALITY + SETTINGS + EVENTS + SECRETS

  /** In the order they are written. */
  const TABLE_NAMES: seq<TableName> := EARLY + LATE

  const SESSIONS := Named("user_sessions")
  const FLOWS := Named("auth_flows")
  const BOOTSTRAP := Named("platform_bootstrap")
  const PLATFORM_KEYS := Named("platform_keys")
  const ENTRYPOINTS := Named("context_pack_entrypoints")
  const FILES := Named("repository_files")
  const STEPS := Named("mcp_call_steps")
  const VECTOR := Ascii("search_vector")

  /** What the releases before did not write, the latest of them first. */
  const OMITTED: seq<seq<TableName>> := [
    [ENTRYPOINTS],
    [PLATFORM_KEYS, BOOTSTRAP, ENTRYPOINTS],
    [FILES, STEPS, PLATFORM_KEYS, BOOTSTRAP, ENTRYPOINTS]]

  const CATALOG := Catalog(TABLE_NAMES, [SESSIONS, FLOWS, BOOTSTRAP],
                           map[Named("document_chunks") := {VECTOR}], OMITTED)

  // ---- no two names are the same ----

  /** What tells the names apart, two hexadecimal digits each: the length, and the fifth and
      the fourth letter from the end. */
  function Code(t: TableName): int {
    |t| * 0x1_00_00 + t[|t| - 5] as int * 0x1_00 + t[|t| - 4] as int
  }

  function Codes(names: seq<TableName>): seq<int> {
    seq(|names|, i requires 0 <= i < |names| => Code(names[i]))
  }

  const PEOPLE_CODES: seq<int> := [0x05_75_73, 0x05_72_6F, 0x0F_69_74, 0x0A_72_6F, 0x08_5F_6B, 0x14_74_69, 0x15_63_6B]

  const REPOSITORIES_CODES: seq<int> := [0x0C_6F_72, 0x16_73_69, 0x19_69_63, 0x10_66_69]

  const CONTENT_CODES: seq<int> := [0x0F_68_75, 0x15_74_61, 0x16_61_6E, 0x18_74_61]

  const SYMBOLS_CODES: seq<int> := [0x0C_6D_62, 0x11_6E_63, 0x0F_5F_6D, 0x13_6B_61]

  const PACKS_CODES: seq<int> := [0x0D_70_61, 0x12_69_74, 0x18_6F_69]

  const QUALITY_CODES: seq<int> := [0x17_63_61, 0x16_5F_72, 0x19_73_75]

  const SETTINGS_CODES: seq<int> := [0x0F_74_69, 0x10_73_69, 0x0A_5F_6C, 0x09_63_61, 0x0E_73_74, 0x0A_5F_6A]

  const EVENTS_CODES: seq<int> := [0x0E_76_65, 0x15_76_65, 0x09_74_6F, 0x0D_74_69, 0x17_65_72]

  const SECRETS_CODES: seq<int> := [0x0F_63_72, 0x17_73_69, 0x0D_5F_6B, 0x12_73_74]

  const EARLY_CODES := PEOPLE_CODES + REPOSITORIES_CODES + CONTENT_CODES + SYMBOLS_CODES + PACKS_CODES

  const LATE_CODES := QUALITY_CODES + SETTINGS_CODES + EVENTS_CODES + SECRETS_CODES

  lemma PeopleCodes()
    ensures Codes(PEOPLE) == PEOPLE_CODES
  {
  }

  lemma RepositoriesCodes()
    ensures Codes(REPOSITORIES) == REPOSITORIES_CODES
  {
  }

  lemma ContentCodes()
    ensures Codes(CONTENT) == CONTENT_CODES
  {
  }

  lemma SymbolsCodes()
    ensures Codes(SYMBOLS) == SYMBOLS_CODES
  {
  }

  lemma PacksCodes()
    ensures Codes(PACKS) == PACKS_CODES
  {
  }

  lemma QualityCodes()
    ensures Codes(QUALITY) == QUALITY_CODES
  {
  }

  lemma SettingsCodes()
    ensures Codes(SETTINGS) == SETTINGS_CODES
  {
  }

  lemma EventsCodes()
    ensures Codes(EVENTS) == EVENTS_CODES
  {
  }

  lemma SecretsCodes()
    ensures Codes(SECRETS) == SECRETS_CODES
  {
  }

  predicate Apart(codes: seq<int>) {
    forall i, j :: 0 <= i < j < |codes| ==> codes[i] != codes[j]
  }

  lemma CodesOfBoth(a: seq<TableName>, b: seq<TableName>)
    ensures Codes(a + b) == Codes(a) + Codes(b)
  {
  }

  lemma CodesOfEarly()
    ensures Codes(EARLY) == EARLY_CODES
  {
    CodesOfBoth(PEOPLE, REPOSITORIES);
    CodesOfBoth(PEOPLE + REPOSITORIES, CONTENT);
    CodesOfBoth(PEOPLE + REPOSITORIES + CONTENT, SYMBOLS);
    CodesOfBoth(PEOPLE + REPOSITORIES + CONTENT + SYMBOLS, PACKS);
    PeopleCodes();
    RepositoriesCodes();
    ContentCodes();
    SymbolsCodes();
    PacksCodes();
  }

  lemma CodesOfLate()
    ensures Codes(LATE) == LATE_CODES
  {
    CodesOfBoth(QUALITY, SETTINGS);
    CodesOfBoth(QUALITY + SETTINGS, EVENTS);
    CodesOfBoth(QUALITY + SETTINGS + EVENTS, SECRETS);
    QualityCodes();
    SettingsCodes();
    EventsCodes();
    SecretsCodes();
  }

  lemma EarlyApart()
    ensures Apart(EARLY_CODES)
  {
  }

  lemma LateApart()
    ensures Apart(LATE_CODES)
  {
  }

  lemma EarlyFromLate()
    ensures forall i, j :: 0 <= i < |EARLY_CODES| && 0 <= j < |LATE_CODES| ==> EARLY_CODES[i] != LATE_CODES[j]
  {
  }

  lemma NotATable(name: TableName)
    requires Code(name) !in EARLY_CODES && Code(name) !in LATE_CODES
    ensures name !in TABLE_NAMES
  {
    CodesOfEarly();
    CodesOfLate();
    forall i | 0 <= i < |TABLE_NAMES| ensures TABLE_NAMES[i] != name {
      if i < |EARLY| {
        assert TABLE_NAMES[i] == EARLY[i] && Codes(EARLY)[i] == Code(EARLY[i]);
      } else {
        assert TABLE_NAMES[i] == LATE[i - |EARLY|] && Codes(LATE)[i - |EARLY|] == Code(LATE[i - |EARLY|]);
      }
    }
  }

  lemma NamesArePlain(names: seq<TableName>)
    ensures Free(names, NEWLINE) && forall name :: name in names ==> ValidUtf8(name)
  {
    forall name | name in names ensures ValidUtf8(name) {
      ValidAscii(name);
    }
  }

  lemma ApartTogether(a: seq<int>, b: seq<int>)
    requires Apart(a) && Apart(b) && forall i, j :: 0 <= i < |a| && 0 <= j < |b| ==> a[i] != b[j]
    ensures Apart(a + b)
  {
  }

  lemma DistinctByCode(names: seq<TableName>)
    requires Apart(Codes(names))
    ensures Distinct(names)
  {
    assert forall i :: 0 <= i < |names| ==> Codes(names)[i] == Code(names[i]);
  }

  lemma TheNamesAreDistinct()
    ensures Distinct(TABLE_NAMES)
  {
    CodesOfEarly();
    CodesOfLate();
    CodesOfBoth(EARLY, LATE);
    EarlyApart();
    LateApart();
    EarlyFromLate();
    ApartTogether(EARLY_CODES, LATE_CODES);
    DistinctByCode(TABLE_NAMES);
  }

  lemma {:induction false} WithoutIsDistinct(names: seq<Text>, dropped: set<Text>)
    requires Distinct(names)
    ensures Distinct(Without(names, dropped))
  {
    if names != [] {
      assert names[0] !in names[1..] by {
        assert forall i :: 0 <= i < |names[1..]| ==> names[1..][i] == names[i + 1];
      }
      WithoutIsDistinct(names[1..], dropped);
    }
  }

  // ---- the releases ----

  /** The lists of the current release (0) and of the ones before it, the latest first. */
  function Release(n: nat): Catalog
    requires n <= 3
  {
    if n == 0 then CATALOG else CATALOG.(tables := Without(CATALOG.tables, AsSet(OMITTED[n - 1])))
  }

  lemma BootstrapIsListed()
    ensures BOOTSTRAP in TABLE_NAMES
  {
    assert SECRETS[3] == BOOTSTRAP;
  }

  lemma SessionsAreNotListed()
    ensures SESSIONS !in TABLE_NAMES && FLOWS !in TABLE_NAMES
  {
    SessionsHaveOtherCodes();
    NotATable(SESSIONS);
    NotATable(FLOWS);
  }

  lemma SessionsHaveOtherCodes()
    ensures Code(SESSIONS) !in EARLY_CODES && Code(SESSIONS) !in LATE_CODES
    ensures Code(FLOWS) !in EARLY_CODES && Code(FLOWS) !in LATE_CODES
  {
    assert Code(SESSIONS) == 0x0D_73_69 && Code(FLOWS) == 0x0A_66_6C;
  }

  lemma BootstrapIsNotAnother()
    ensures BOOTSTRAP != ENTRYPOINTS
  {
    assert |BOOTSTRAP| == 18 && |ENTRYPOINTS| == 24;
  }

  lemma ReleaseLists(n: nat, name: Text)
    requires n <= 3
    ensures name in Release(n).tables <==> name in TABLE_NAMES && (n > 0 ==> name !in OMITTED[n - 1])
  {
  }

  lemma ReleaseIsKnown(n: nat)
    requires n <= 3
    ensures WroteBy(CATALOG, Release(n)) && Distinct(Release(n).tables)
  {
    TheNamesAreDistinct();
    if n > 0 {
      assert OMITTED[n - 1] in CATALOG.omitted;
      WithoutIsDistinct(TABLE_NAMES, AsSet(OMITTED[n - 1]));
    }
  }

  lemma ReleaseIsPlain(n: nat)
    requires n <= 3
    ensures Free(Release(n).tables, NEWLINE) && forall name :: name in Release(n).tables ==> ValidUtf8(name)
  {
    NamesArePlain(TABLE_NAMES);
    forall name | name in Release(n).tables ensures NEWLINE !in name && ValidUtf8(name) {
      ReleaseLists(n, name);
    }
  }

  /** Each release backed up what the one before it did, and a little more. */
  lemma WhatTheReleasesLack(n: nat, name: Text)
    requires n <= 3 && name in CATALOG.tables
    ensures name !in Release(n).tables <==>
      || (n >= 1 && name == Ascii("context_pack_entrypoints"))
      || (n >= 2 && (name == Ascii("platform_keys") || name == Ascii("platform_bootstrap")))
      || (n >= 3 && (name == Ascii("repository_files") || name == Ascii("mcp_call_steps")))
  {
    ReleaseLists(n, name);
  }

  lemma BootstrapIsOmittedFrom(k: nat)
    requires k < 3
    ensures BOOTSTRAP in OMITTED[k] <==> k >= 1
  {
    BootstrapIsNotAnother();
  }

  /** The bootstrap table is on the two latest lists, and the tables of sessions and sign-ins
      are on none. */
  lemma ReleaseOmits(n: nat)
    requires n <= 3
    ensures BOOTSTRAP in Release(n).tables <==> n <= 1
    ensures SESSIONS !in Release(n).tables && FLOWS !in Release(n).tables
  {
    BootstrapIsListed();
    SessionsAreNotListed();
    ReleaseLists(n, BOOTSTRAP);
    ReleaseLists(n, SESSIONS);
    ReleaseLists(n, FLOWS);
    if n > 0 {
      BootstrapIsOmittedFrom(n - 1);
    }
  }

  /** The conditions under which an accepted table list is a release's hold for the program. */
  lemma AnAcceptedListIsARelease(rules: Rules, db: Database, a: Archive, f: Formats)
    requires Acceptable(CATALOG, rules, db, a, f) && forall name :: name in db.tables ==> NEWLINE !in name
    ensures exists n :: 0 <= n <= 3 && Names(a) == Release(n).tables
  {
    UsersAreInEvery();
    AcceptedTablesAreKnown(CATALOG, rules, db, a, f);
    if Names(a) == CATALOG.tables {
      assert Names(a) == Release(0).tables;
    } else {
      var o :| o in CATALOG.omitted && Names(a) == Without(CATALOG.tables, AsSet(o));
      OmittedIsARelease(o);
    }
  }

  lemma LengthsOfTheOmitted()
    ensures |ENTRYPOINTS| == 24 && |PLATFORM_KEYS| == 13 && |BOOTSTRAP| == 18 && |FILES| == 16 && |STEPS| == 14
  {
  }

  lemma OmittedAreLong(o: seq<TableName>)
    requires o in OMITTED
    ensures forall name :: name in o ==> |name| > 5
  {
    LengthsOfTheOmitted();
  }

  lemma UsersComeFirst()
    ensures CATALOG.tables != [] && |CATALOG.tables[0]| == 5
  {
    assert TABLE_NAMES[0] == PEOPLE[0];
  }

  lemma UsersAreInEvery()
    ensures CATALOG.tables != [] && CATALOG.tables[0] != [] && forall o :: o in CATALOG.omitted ==> CATALOG.tables[0] !in o
  {
    UsersComeFirst();
    forall o | o in OMITTED ensures CATALOG.tables[0] !in o {
      OmittedAreLong(o);
    }
  }

  lemma OmittedIsARelease(o: seq<Text>)
    requires o in CATALOG.omitted
    ensures exists n :: 0 <= n <= 3 && Without(CATALOG.tables, AsSet(o)) == Release(n).tables
  {
    var k :| 0 <= k < |OMITTED| && OMITTED[k] == o;
    assert Without(CATALOG.tables, AsSet(o)) == Release(k + 1).tables;
  }

  /** Every column of every table is carried, in its order, but the search vector of the
      document chunks. */
  lemma OnlyTheSearchVectorIsLeftOut(n: nat, db: Database, name: Text, column: Text)
    requires n <= 3 && name in db.tables
    ensures column in Carrying(Release(n), db, name) <==>
      column in db.tables[name].columns && !(name == Ascii("document_chunks") && column == Ascii("search_vector"))
    ensures name != Ascii("document_chunks") ==> Carrying(Release(n), db, name) == db.tables[name].columns
  {
  }

  // ---- what a restore leaves in the tables it always empties ----

  /** Nothing, exactly when the archive does not list the table or the source had no row in
      it: being cleared first keeps nothing out. */
  lemma EphemeralIsEmptyIff(cat: Catalog, wrote: Catalog, source: Database, target: Database, f: Formats, after: Database, name: Text)
    requires Ready(cat, wrote, source, target, f) && Reproduces(cat, wrote, source, target, after) && name in cat.ephemeral
    ensures name in after.tables && (name in wrote.tables ==> name in source.tables)
    ensures after.tables[name].rows == [] <==> name !in wrote.tables || source.tables[name].rows == []
  {
    assert Cleared(cat, name);
    if name in wrote.tables {
      ReadyAt(cat, wrote, source, target, f, name);
    }
  }

  /** The lists of a release, a source whose tables are good and free of commas, and a target
      at the same schema. */
  ghost predicate Restorable(n: nat, source: Database, target: Database, f: Formats)
    requires n <= 3
  {
    && (forall name :: name in Release(n).tables ==> GoodTable(Release(n), source, name, f) && CommaFree(Release(n), source, name))
    && (forall m :: m in source.migrations ==> ValidUtf8(m))
    && SameSchema(CATALOG, source, target)
  }

  /** The program restores what any of its releases backed up, if the target's constraints
      permit it. No session and no sign-in
      comes back; the bootstrap token's row does, from the two latest, although it is on the
      list of what is never restored. */
  lemma TheBootstrapTokenComesBack(n: nat, source: Database, rules: Rules, target: Database, f: Formats, driver: Text, createdAt: Text)
    requires n <= 3 && Restorable(n, source, target, f)
    ensures Snapshot(Release(n), source, f, driver, createdAt).Some?
    ensures var parsed := ParseDocument(Print(ArchiveJson(Snapshot(Release(n), source, f, driver, createdAt).value)));
            && parsed.Some? && ReadArchive(parsed.value).Some?
            && var a := ReadArchive(parsed.value).value;
            && (Acceptable(CATALOG, rules, target, a, f) <==> Permits(rules, CATALOG, target, a.tables, f))
            && forall after :: Acceptable(CATALOG, rules, target, a, f) && IsRestored(CATALOG, target, after, a.tables, f) ==>
                 Aftermath(n, source, after)
  {
    ReleaseIsKnown(n);
    ReleaseIsPlain(n);
    assert Ready(CATALOG, Release(n), source, target, f);
    SnapshotRestores(CATALOG, Release(n), source, rules, target, f, driver, createdAt);
    var a := ReadArchive(ParseDocument(Print(ArchiveJson(Snapshot(Release(n), source, f, driver, createdAt).value))).value).value;
    forall after | Acceptable(CATALOG, rules, target, a, f) && IsRestored(CATALOG, target, after, a.tables, f)
      ensures Aftermath(n, source, after)
    {
      AftermathHolds(n, source, target, f, after);
    }
  }

  ghost predicate Aftermath(n: nat, source: Database, after: Database) {
    && SESSIONS in after.tables && after.tables[SESSIONS].rows == []
    && FLOWS in after.tables && after.tables[FLOWS].rows == []
    && BOOTSTRAP in after.tables
    && (n <= 1 ==>
          && BOOTSTRAP in source.tables
          && CarriesAll(Carrying(CATALOG, source, BOOTSTRAP), source.tables[BOOTSTRAP].rows, after.tables[BOOTSTRAP].rows))
    && (n > 1 ==> after.tables[BOOTSTRAP].rows == [])
  }

  lemma AftermathHolds(n: nat, source: Database, target: Database, f: Formats, after: Database)
    requires n <= 3 && Ready(CATALOG, Release(n), source, target, f) && Reproduces(CATALOG, Release(n), source, target, after)
    ensures Aftermath(n, source, after)
  {
    ReleaseOmits(n);
    assert SESSIONS in CATALOG.ephemeral && FLOWS in CATALOG.ephemeral && BOOTSTRAP in CATALOG.ephemeral;
    EphemeralIsEmptyIff(CATALOG, Release(n), source, target, f, after, SESSIONS);
    EphemeralIsEmptyIff(CATALOG, Release(n), source, target, f, after, FLOWS);
    EphemeralIsEmptyIff(CATALOG, Release(n), source, target, f, after, BOOTSTRAP);
    if n <= 1 {
      assert Carrying(Release(n), source, BOOTSTRAP) == Carrying(CATALOG, source, BOOTSTRAP);
    }
  }

  // ---- there are such databases ----

  const ID := Ascii("id")

  /** Every table with one column, and a bootstrap token. */
  const INSTALLED := Database(
    map name | name in AsSet(TABLE_NAMES) + {SESSIONS, FLOWS, BOOTSTRAP} ::
      Table([ID], if name == BOOTSTRAP then [map[ID := SText(ID)]] else []),
    [])

  lemma InstalledHas(name: Text)
    requires name in TABLE_NAMES
    ensures name in INSTALLED.tables && INSTALLED.tables[name].columns == [ID]
    ensures INSTALLED.tables[name].rows == [] || INSTALLED.tables[name].rows == [map[ID := SText(ID)]]
  {
  }

  lemma NothingElseIsDerived(n: nat, name: Text)
    requires n <= 3 && name in Release(n).derived
    ensures Release(n).derived[name] == {VECTOR}
  {
  }

  lemma KeepsTheOther(column: Text, dropped: Text)
    requires |column| != |dropped|
    ensures Without([column], {dropped}) == [column]
  {
    assert Without([], {dropped}) == [];
  }

  lemma CarriesItsColumn(n: nat, name: Text)
    requires n <= 3
    ensures CarriedColumns(Release(n), name, [ID]) == [ID]
  {
    if name in Release(n).derived {
      NothingElseIsDerived(n, name);
      assert |VECTOR| == 13 && |ID| == 2;
      KeepsTheOther(ID, VECTOR);
    }
  }

  lemma OneColumnIsGood(cat: Catalog, db: Database, f: Formats, name: Text)
    requires name in db.tables && ValidUtf8(name) && Carrying(cat, db, name) == [ID]
    requires db.tables[name].rows == [] || db.tables[name].rows == [map[ID := SText(ID)]]
    ensures GoodTable(cat, db, name, f) && CommaFree(cat, db, name)
  {
    ValidAscii(ID);
    assert |ID| == 2 && ID[0] == 0x69 && ID[1] == 0x64;
  }

  lemma InstalledIsGood(n: nat, f: Formats, name: Text)
    requires n <= 3 && name in Release(n).tables
    ensures GoodTable(Release(n), INSTALLED, name, f) && CommaFree(Release(n), INSTALLED, name)
  {
    ReleaseIsPlain(n);
    ReleaseLists(n, name);
    InstalledHas(name);
    CarriesItsColumn(n, name);
    OneColumnIsGood(Release(n), INSTALLED, f, name);
  }

  lemma SomethingIsRestorable(n: nat, f: Formats)
    requires n <= 3
    ensures Restorable(n, INSTALLED, INSTALLED, f) && BOOTSTRAP in INSTALLED.tables && |INSTALLED.tables[BOOTSTRAP].rows| == 1
  {
    forall name | name in Release(n).tables
      ensures GoodTable(Release(n), INSTALLED, name, f) && CommaFree(Release(n), INSTALLED, name)
    {
      InstalledIsGood(n, f, name);
    }
  }
}
