/** Making a backup file and getting a database back from it: the configuration bounds, the
    sealing keys, the record beside the file, and what one has to do with the other.

    Encryption, compression and hashing are parameters. `Ideal` is what is asked of them:
    a sealed text opens under its own key and no other, and unpacking undoes packing. The
    directory is a map from names to contents, and writing to it does not fail. */
module BackupService {
  import opened Common
  import opened BackupText
  import opened BackupJson
  import opened BackupValues
  import opened BackupWriter
  import opened BackupArchive
  import opened BackupPrinter
  import opened BackupSnapshot
  import opened BackupRestore
  import opened BackupRoundTrip

  /** AES takes keys of these lengths. */
  type Key = k: Text | |k| == 16 || |k| == 24 || |k| == 32 witness seq(32, _ => 0)

  datatype Crypto = Crypto(
    nonceSize: nat,
    seal: (Key, Text, Text) -> Text, unseal: (Key, Text, Text) -> Option<Text>,
    gzip: Text -> Text, gunzip: Text -> Option<Text>,
    hash: Text -> Text)

  ghost predicate Ideal(c: Crypto) {
    && (forall k, n, p :: c.unseal(k, n, c.seal(k, n, p)) == Some(p))
    && (forall k, l, n, p :: k != l ==> c.unseal(l, n, c.seal(k, n, p)) == None)
    && (forall t :: c.gunzip(c.gzip(t)) == Some(t))
  }

  /** The key in front of the text, and nothing packed. */
  const TRANSPARENT := Crypto(0, WithKey, WithoutKey, (t: Text) => t, (t: Text) => Some(t), (t: Text) => t)

  function WithKey(k: Key, nonce: Text, payload: Text): Text {
    [|k|] + k + payload
  }

  function WithoutKey(k: Key, nonce: Text, data: Text): Option<Text> {
    if [|k|] + k <= data then Some(data[1 + |k|..]) else None
  }

  /** What is asked of encryption and packing can be had. */
  lemma SomethingIsIdeal()
    ensures Ideal(TRANSPARENT)
  {
    forall k: Key, l: Key, n: Text, p: Text
      ensures WithoutKey(l, n, WithKey(k, n, p)) == if k == l then Some(p) else None
    {
      var data := [|k|] + k + p;
      assert data[1..1 + |k|] == k && data[1 + |k|..] == p && [|k|] + k <= data;
      if [|l|] + l <= data {
        assert ([|l|] + l)[0] == data[0] && data[1..1 + |l|] == ([|l|] + l)[1..];
      }
    }
    assert forall t :: TRANSPARENT.gunzip(TRANSPARENT.gzip(t)) == Some(t);
  }

  // ---- keys ----

  /** The key derived from the operator's recovery key, this installation's master key, and
      keys that only open. */
  datatype Keys = Keys(recovery: Option<Key>, master: Option<Key>, alsoOpen: seq<Key>)

  function SealingKey(keys: Keys): Option<Key> {
    if keys.recovery.Some? then keys.recovery else keys.master
  }

  function Listed(key: Option<Key>): seq<Key> {
    if key.Some? then [key.value] else []
  }

  function Candidates(keys: Keys): seq<Key> {
    Listed(keys.recovery) + Listed(keys.master) + keys.alsoOpen
  }

  lemma OwnKeyIsACandidate(keys: Keys)
    requires SealingKey(keys).Some?
    ensures SealingKey(keys).value in Candidates(keys)
    ensures keys.recovery.Some? ==> SealingKey(keys) == keys.recovery
    ensures forall k :: k in Candidates(keys) <==> keys.recovery == Some(k) || keys.master == Some(k) || k in keys.alsoOpen
  {
    var own := SealingKey(keys).value;
    assert own in Listed(keys.recovery) || own in Listed(keys.master);
  }

  const MAGIC: Text := Ascii("GCTXBACKUP1\n")

  function Sealed(c: Crypto, key: Key, nonce: Text, payload: Text): Text {
    MAGIC + nonce + c.seal(key, nonce, payload)
  }

  predicate HasHeader(c: Crypto, data: Text) {
    |data| >= |MAGIC| + c.nonceSize && data[..|MAGIC|] == MAGIC
  }

  /** What `key` makes of a file. */
  function OpenedWith(c: Crypto, key: Key, data: Text): Option<Text> {
    if HasHeader(c, data) then c.unseal(key, data[|MAGIC|..|MAGIC| + c.nonceSize], data[|MAGIC| + c.nonceSize..]) else None
  }

  /** The first candidate that opens the file decides. */
  method Open(c: Crypto, keys: Keys, data: Text) returns (payload: Option<Text>)
    ensures payload == OpenedByAny(c, Candidates(keys), data)
    ensures payload.Some? ==> |data| >= 12 && data[..12] == Ascii("GCTXBACKUP1\n")
  {
    WhatOpens(c, Candidates(keys), data);
    var candidates := Candidates(keys);
    var i := 0;
    while i < |candidates|
      invariant 0 <= i <= |candidates|
      invariant OpenedByAny(c, candidates, data) == OpenedByAny(c, candidates[i..], data)
    {
      payload := OpenedWith(c, candidates[i], data);
      if payload.Some? {
        return;
      }
      i := i + 1;
    }
    payload := None;
  }

  function OpenedByAny(c: Crypto, keys: seq<Key>, data: Text): Option<Text> {
    if keys == [] then None
    else if OpenedWith(c, keys[0], data).Some? then OpenedWith(c, keys[0], data)
    else OpenedByAny(c, keys[1..], data)
  }

  /** A file that opens has the format's name in front, then the nonce, and then what one of
      the keys opens. */
  lemma {:induction false} WhatOpens(c: Crypto, keys: seq<Key>, data: Text)
    ensures OpenedByAny(c, keys, data).Some? ==>
      && |data| >= 12 + c.nonceSize && data[..12] == Ascii("GCTXBACKUP1\n")
      && exists key :: key in keys && OpenedByAny(c, keys, data) == c.unseal(key, data[12..12 + c.nonceSize], data[12 + c.nonceSize..])
  {
    if keys != [] {
      if OpenedWith(c, keys[0], data).Some? {
        assert keys[0] in keys;
      } else {
        WhatOpens(c, keys[1..], data);
        if OpenedByAny(c, keys, data).Some? {
          var key :| key in keys[1..] && OpenedByAny(c, keys, data) == c.unseal(key, data[12..12 + c.nonceSize], data[12 + c.nonceSize..]);
          assert key in keys;
        }
      }
    }
  }

  /** A file opens exactly when the key it was sealed with is one of the candidates, and
      then it opens as what was sealed. */
  lemma {:induction false} OpensIffKeyKnown(c: Crypto, key: Key, nonce: Text, payload: Text, keys: seq<Key>)
    requires Ideal(c) && |nonce| == c.nonceSize
    ensures OpenedByAny(c, keys, Sealed(c, key, nonce, payload)) == if key in keys then Some(payload) else None
  {
    if keys != [] {
      var data := Sealed(c, key, nonce, payload);
      assert data[..|MAGIC|] == MAGIC;
      assert data[|MAGIC|..|MAGIC| + c.nonceSize] == nonce;
      assert data[|MAGIC| + c.nonceSize..] == c.seal(key, nonce, payload);
      OpensIffKeyKnown(c, key, nonce, payload, keys[1..]);
    }
  }

  // ---- configuration and records ----

  datatype Config = Config(enabled: bool, dedicatedDirectory: bool, intervalSeconds: int, retentionCount: int, maxBytes: int)

  predicate ValidConfig(cfg: Config) {
    && cfg.dedicatedDirectory && cfg.intervalSeconds >= 3600
    && 1 <= cfg.retentionCount <= 100
    && 0x10_0000 <= cfg.maxBytes <= 0x2_8000_0000
  }

  datatype Status = Running | Failed | Completed

  datatype Record = Record(status: Status, size: nat, sha256: Text)

  datatype CreateError = BadConfig | Disabled | NotTaken(cause: SnapshotError) | ArchiveTooLarge

  datatype Trigger = Scheduled | Manual

  /** Names the directory lookup takes: no separators, no NUL, no two dots in a row. */
  predicate PlainName(id: Text) {
    && id != []
    && (forall i :: 0 <= i < |id| ==> id[i] != 0x2F && id[i] != 0x5C && id[i] != 0)
    && (forall i :: 0 <= i < |id| - 1 ==> !(id[i] == 0x2E && id[i + 1] == 0x2E))
  }

  /** The size and hash a file is held to: those of its completed record or, when this
      database has none, of the file itself. */
  function Expected(files: map<Text, Text>, records: map<Text, Record>, id: Text): Option<Record> {
    if id in records && records[id].status.Completed? then Some(records[id])
    else if PlainName(id) && id in files then Some(Record(Completed, |files[id]|, []))
    else None
  }

  /** The bytes of a backup, if they pass the checks on size and hash. */
  function Verified(c: Crypto, cfg: Config, files: map<Text, Text>, records: map<Text, Record>, id: Text): Option<Text> {
    match Expected(files, records, id)
    case None => None
    case Some(r) =>
      if id !in files then None
      else if |files[id]| > cfg.maxBytes || |files[id]| != r.size then None
      else if r.sha256 != [] && c.hash(files[id]) != r.sha256 then None
      else Some(files[id])
  }

  /** What a file is held to: the size and, if there is one, the hash in its completed record;
      without such a record its name may not lead anywhere but into the directory. */
  predicate MayBeRead(c: Crypto, data: Text, records: map<Text, Record>, id: Text) {
    if id in records && records[id].status == Completed then
      |data| == records[id].size && (|records[id].sha256| == 0 || c.hash(data) == records[id].sha256)
    else
      |id| > 0 && '/' as int !in id && '\\' as int !in id && 0 !in id && !exists i :: 0 <= i < |id| - 1 && id[i] == '.' as int == id[i + 1]
  }

  /** From the bytes of an archive to the archive. */
  function Unpacked(c: Crypto, cfg: Config, payload: Option<Text>): Option<Archive> {
    match payload
    case None => None
    case Some(packed) =>
      match c.gunzip(packed)
      case None => None
      case Some(raw) => if |raw| > cfg.maxBytes then None else OfFormat(raw)
  }

  function OfFormat(raw: Text): Option<Archive> {
    match ParseDocument(raw)
    case None => None
    case Some(j) =>
      match ReadArchive(j)
      case None => None
      case Some(a) => if a.format == LOGICAL_V1 then Some(a) else None
  }

  /** What `Restore` finds behind an id. */
  function Readable(c: Crypto, cfg: Config, keys: Keys, files: map<Text, Text>, records: map<Text, Record>, id: Text): Option<Archive> {
    match Verified(c, cfg, files, records, id)
    case None => None
    case Some(data) => Unpacked(c, cfg, OpenedByAny(c, Candidates(keys), data))
  }

  /** What is read back has passed every check there is. */
  lemma WhatIsReadBack(c: Crypto, cfg: Config, keys: Keys, files: map<Text, Text>, records: map<Text, Record>, id: Text)
    requires Readable(c, cfg, keys, files, records, id).Some?
    ensures id in files && |files[id]| <= cfg.maxBytes && MayBeRead(c, files[id], records, id)
    ensures |files[id]| >= 12 && files[id][..12] == Ascii("GCTXBACKUP1\n")
    ensures Readable(c, cfg, keys, files, records, id).value.format == Ascii("git-ctx-logical-v1")
  {
    WhatOpens(c, Candidates(keys), files[id]);
  }

  function SealedArchive(c: Crypto, key: Key, nonce: Text, a: Archive): Text {
    Sealed(c, key, nonce, c.gzip(Print(ArchiveJson(a))))
  }

  lemma SealedStarts(c: Crypto, key: Key, nonce: Text, a: Archive)
    ensures |SealedArchive(c, key, nonce, a)| >= 12 + |nonce|
    ensures SealedArchive(c, key, nonce, a)[..12 + |nonce|] == Ascii("GCTXBACKUP1\n") + nonce
  {
    var head := MAGIC + nonce;
    assert |head| == 12 + |nonce|;
  }

  /** Both the printed archive and the sealed file are within the maximum. */
  predicate Fits(c: Crypto, cfg: Config, key: Key, nonce: Text, a: Option<Archive>) {
    a.Some? && |Print(ArchiveJson(a.value))| <= cfg.maxBytes && |SealedArchive(c, key, nonce, a.value)| <= cfg.maxBytes
  }

  /** Why a snapshot is not packed, when it is not. */
  function NotPacked(cfg: Config, piece: Piece): CreateError {
    match Trouble(piece, cfg.maxBytes)
    case Some(cause) => NotTaken(cause)
    case None => ArchiveTooLarge
  }

  /** Why there is no backup, when there is none. */
  function NotCreated(cfg: Config, trigger: Trigger, piece: Piece): CreateError {
    if !ValidConfig(cfg) then BadConfig
    else if trigger.Scheduled? && !cfg.enabled then Disabled
    else NotPacked(cfg, piece)
  }

  lemma Overwrite<K, V>(m: map<K, V>, k: K, first: V, second: V)
    ensures m[k := first][k := second] == m[k := second]
  {
  }

  /** What goes wrong when that is printed within a maximum: the text up to the first fault may
      be too much, and otherwise it is the fault. */
  function Trouble(piece: Piece, maxBytes: int): Option<SnapshotError> {
    if |piece.text| > maxBytes then Some(Writing(TooLarge)) else piece.fault
  }

  /** Onto an empty destination that never fails, nothing else goes wrong. */
  lemma FromNothing(w: LimitWriter, piece: Piece, err: Option<SnapshotError>)
    requires w.destination.healthy && w.limit > 0 && Printed(w, [], piece, err)
    ensures err == Trouble(piece, w.limit)
    ensures err.None? ==> w.destination.data == piece.text
  {
    assert [] + piece.text == piece.text;
  }

  class Service {
    const crypto: Crypto
    const store: Store
    var keys: Keys
    var files: map<Text, Text>
    var records: map<Text, Record>

    constructor (crypto: Crypto, store: Store, recovery: Option<Key>, master: Option<Key>)
      ensures this.crypto == crypto && this.store == store && keys == Keys(recovery, master, [])
      ensures files == map[] && records == map[]
    {
      this.crypto, this.store, keys := crypto, store, Keys(recovery, master, []);
      files, records := map[], map[];
    }

    /** A key that opens archives without sealing new ones. */
    method AlsoOpenWith(key: Option<Key>)
      modifies this`keys
      ensures forall k :: k in Candidates(keys) <==> k in Candidates(old(keys)) || key == Some(k)
      ensures SealingKey(keys) == SealingKey(old(keys))
    {
      if key.Some? {
        keys := keys.(alsoOpen := keys.alsoOpen + [key.value]);
      }
    }

    /** The packed snapshot and how long it was before packing. */
    method SnapshotWithLimit(maxBytes: int, cat: Catalog, f: Formats, driver: Text, now: Text)
      returns (r: Result<Text, SnapshotError>, expanded: nat)
      requires maxBytes > 0
      ensures var a := Snapshot(cat, store.db, f, driver, now);
              && (r.Ok? <==> a.Some? && |Print(ArchiveJson(a.value))| <= maxBytes)
              && (r.Ok? ==> r.value == crypto.gzip(Print(ArchiveJson(a.value))) && expanded == |Print(ArchiveJson(a.value))|)
      ensures Trouble(SnapshotPiece(cat, store.db, f, driver, now), maxBytes) == if r.Ok? then None else Some(r.error)
    {
      var destination := new Destination(true);
      var writer := new LimitWriter(destination, maxBytes);
      var err := WriteSnapshot(writer, cat, store.db, f, driver, now);
      expanded := writer.written;
      FromNothing(writer, SnapshotPiece(cat, store.db, f, driver, now), err);
      SnapshotPieceIs(cat, store.db, f, driver, now);
      r := if err.Some? then Err(err.value) else Ok(crypto.gzip(destination.data));
    }

    /** The sealed bytes of a backup, if they may be that many. */
    method Pack(cfg: Config, cat: Catalog, f: Formats, driver: Text, now: Text, nonce: Text) returns (r: Result<Text, CreateError>)
      requires SealingKey(keys).Some? && cfg.maxBytes > 0
      ensures r.Ok? <==> Fits(crypto, cfg, SealingKey(keys).value, nonce, Snapshot(cat, store.db, f, driver, now))
      ensures r.Ok? ==> r.value == SealedArchive(crypto, SealingKey(keys).value, nonce, Snapshot(cat, store.db, f, driver, now).value)
      ensures r.Err? ==> r.error == NotPacked(cfg, SnapshotPiece(cat, store.db, f, driver, now))
    {
      var payload, expanded := SnapshotWithLimit(cfg.maxBytes, cat, f, driver, now);
      if payload.Err? {
        return Err(NotTaken(payload.error));
      }
      // The source compares `expanded` with the maximum again here; the writer has already
      // refused anything longer.
      assert expanded <= cfg.maxBytes;
      var sealed := Sealed(crypto, SealingKey(keys).value, nonce, payload.value);
      if |sealed| > cfg.maxBytes {
        return Err(ArchiveTooLarge);
      }
      r := Ok(sealed);
    }

    /** A file and a completed record, or an error and a failed one. */
    method Create(cfg: Config, cat: Catalog, f: Formats, driver: Text, now: Text, trigger: Trigger, id: Text, nonce: Text)
      returns (r: Result<Record, CreateError>)
      requires SealingKey(keys).Some? && |nonce| == crypto.nonceSize
      requires id !in records && id !in files
      modifies this`files, this`records
      ensures r.Ok? <==>
                && ValidConfig(cfg) && (trigger.Scheduled? ==> cfg.enabled)
                && Fits(crypto, cfg, SealingKey(keys).value, nonce, Snapshot(cat, store.db, f, driver, now))
      ensures r.Ok? ==> id in files && files == old(files)[id := files[id]]
      ensures r.Ok? ==> files[id] == SealedArchive(crypto, SealingKey(keys).value, nonce, Snapshot(cat, store.db, f, driver, now).value)
      ensures r.Ok? ==> r.value == Record(Completed, |files[id]|, crypto.hash(files[id])) && records == old(records)[id := r.value]
      ensures r.Err? ==> files == old(files)
      ensures r.Err? ==> r.error == NotCreated(cfg, trigger, SnapshotPiece(cat, store.db, f, driver, now))
      ensures (r.Err? && r.error.BadConfig?) <==>
                !cfg.dedicatedDirectory || cfg.intervalSeconds < 3600 || cfg.retentionCount < 1 || cfg.retentionCount > 100
                || cfg.maxBytes < 1048576 || cfg.maxBytes > 10737418240
      ensures r.Err? ==> records == if r.error.BadConfig? || r.error.Disabled? then old(records) else old(records)[id := Record(Failed, 0, [])]
    {
      if !ValidConfig(cfg) {
        return Err(BadConfig);
      }
      if trigger.Scheduled? && !cfg.enabled {
        return Err(Disabled);
      }
      ghost var before := records;
      records := records[id := Record(Running, 0, [])];
      var packed := Pack(cfg, cat, f, driver, now, nonce);
      if packed.Err? {
        Overwrite(before, id, Record(Running, 0, []), Record(Failed, 0, []));
        records := records[id := Record(Failed, 0, [])];
        return Err(packed.error);
      }
      var sealed := packed.value;
      files := files[id := sealed];
      r := Ok(Record(Completed, |sealed|, crypto.hash(sealed)));
      Overwrite(before, id, Record(Running, 0, []), r.value);
      records := records[id := r.value];
    }

    method ReadVerified(cfg: Config, id: Text) returns (data: Option<Text>)
      requires cfg.maxBytes >= 0
      ensures data == Verified(crypto, cfg, files, records, id)
      ensures data.Some? <==> id in files && |files[id]| <= cfg.maxBytes && MayBeRead(crypto, files[id], records, id)
      ensures data.Some? ==> data.value == files[id]
    {
      var record := Record(Completed, 0, []);
      if id in records && records[id].status.Completed? {
        record := records[id];
      } else if PlainName(id) && id in files {
        record := Record(Completed, |files[id]|, []);
      } else {
        return None;
      }
      if id !in files {
        return None;
      }
      var read := files[id][..Min(|files[id]|, cfg.maxBytes + 1)];
      if |read| > cfg.maxBytes || |read| != record.size {
        return None;
      }
      assert read == files[id];
      if record.sha256 != [] && crypto.hash(read) != record.sha256 {
        return None;
      }
      return Some(read);
    }

    /** Restores exactly the archives that can be read and are acceptable; on any error the
        database is what it was. */
    method Restore(cfg: Config, cat: Catalog, f: Formats, id: Text) returns (ok: bool)
      modifies store
      ensures var a := Readable(crypto, cfg, keys, files, records, id);
              && (ok <==> ValidConfig(cfg) && a.Some? && Acceptable(cat, store.rules, old(store.db), a.value, f))
              && (ok ==> IsRestored(cat, old(store.db), store.db, a.value.tables, f))
      ensures ok ==> id in files && |files[id]| <= cfg.maxBytes && MayBeRead(crypto, files[id], records, id)
      ensures !ok ==> store.db == old(store.db)
    {
      if !ValidConfig(cfg) {
        return false;
      }
      var data := ReadVerified(cfg, id);
      if data.None? {
        return false;
      }
      var payload := Open(crypto, keys, data.value);
      if payload.None? {
        return false;
      }
      var stream := crypto.gunzip(payload.value);
      if stream.None? {
        return false;
      }
      var raw := stream.value[..Min(|stream.value|, cfg.maxBytes + 1)];
      if |raw| > cfg.maxBytes {
        return false;
      }
      assert raw == stream.value;
      var a := OfFormat(raw);
      if a.None? {
        return false;
      }
      ok := store.RestoreArchive(cat, a.value, f);
    }
  }

  // ---- what Create promises to Restore ----

  /** `id` is as `Create` left it under `cfg`, and its record is too, or is gone with the
      database it was in. */
  ghost predicate Kept(c: Crypto, cfg: Config, key: Key, nonce: Text, a: Archive, files: map<Text, Text>, records: map<Text, Record>, id: Text) {
    var sealed := SealedArchive(c, key, nonce, a);
    && Fits(c, cfg, key, nonce, Some(a)) && |nonce| == c.nonceSize
    && id in files && files[id] == sealed
    && if id in records then records[id] == Record(Completed, |sealed|, c.hash(sealed)) else PlainName(id)
  }

  /** A completed backup passes every size and hash check on the way back, under any
      configuration that allows at least as much, with its record or without; so it reads
      back as the archive that was taken, texts sanitized, exactly when the key it was sealed
      with is still one of the candidates. */
  lemma CompletedIsReadable(c: Crypto, cfg: Config, later: Config, key: Key, nonce: Text, a: Archive, keys: Keys,
                            files: map<Text, Text>, records: map<Text, Record>, id: Text)
    requires Ideal(c) && later.maxBytes >= cfg.maxBytes
    requires Kept(c, cfg, key, nonce, a, files, records, id)
    requires Sanitize(a.format) == LOGICAL_V1
    ensures Verified(c, later, files, records, id).Some?
    ensures Readable(c, later, keys, files, records, id) == (if key in Candidates(keys) then Some(CleanArchive(a)) else None)
  {
    OpensIffKeyKnown(c, key, nonce, c.gzip(Print(ArchiveJson(a))), Candidates(keys));
    ArchiveRoundTrip(a);
  }

  /** The whole way: a backup taken from `source`, and later restored by an installation
      that knows its key, whatever has become of everything else. */
  lemma BackupRestoresTheDatabase(c: Crypto, cfg: Config, later: Config, key: Key, nonce: Text, keys: Keys,
                                  files: map<Text, Text>, records: map<Text, Record>, id: Text,
                                  cat: Catalog, wrote: Catalog, source: Database, rules: Rules, target: Database, f: Formats,
                                  driver: Text, now: Text)
    requires Ideal(c) && later.maxBytes >= cfg.maxBytes && key in Candidates(keys)
    requires Ready(cat, wrote, source, target, f)
    requires var a := Snapshot(wrote, source, f, driver, now);
             a.Some? && Kept(c, cfg, key, nonce, a.value, files, records, id)
    ensures var b := Readable(c, later, keys, files, records, id);
            && b.Some?
            && (Acceptable(cat, rules, target, b.value, f) <==>
                  && (forall name :: name in wrote.tables ==> CommaFree(wrote, source, name))
                  && Permits(rules, cat, target, b.value.tables, f))
            && (Acceptable(cat, rules, target, b.value, f) ==>
                  forall after :: IsRestored(cat, target, after, b.value.tables, f) ==> Reproduces(cat, wrote, source, target, after))
  {
    var a := Snapshot(wrote, source, f, driver, now).value;
    SanitizeAscii(LOGICAL_V1);
    CompletedIsReadable(c, cfg, later, key, nonce, a, keys, files, records, id);
    SnapshotRestores(cat, wrote, source, rules, target, f, driver, now);
    ArchiveRoundTrip(a);
  }
}
