/**
  * Loading the vault (storage.ts): the framing checks and the migration of a single-account
  * record.
  */
module VaultStorage {
  import opened Wrappers
  import opened VaultTypes

  predicate ValidPayload(p: Payload) { p.cipher == AesGcm && p.iv != "" && p.ciphertext != NoCiphertext }
  predicate ValidKdf(k: KdfParams) { k.kdf != OtherKdf && k.salt != "" }

  /** `validateVaultRecord`. */
  predicate ValidRecord(r: Record) {
    && r.chain != OtherChain && r.address != "" && r.kind != OtherKind
    && ValidKdf(r.kdf) && ValidPayload(r.payload)
  }

  /** `validateVaultAccount`. */
  predicate ValidAccount(a: Account) {
    && a.id != "" && a.name != "" && a.chain != OtherChain && a.address != "" && a.kind != OtherKind
    && ValidPayload(a.payload)
  }

  predicate HasId(accounts: seq<Account>, id: string) {
    exists k :: 0 <= k < |accounts| && accounts[k].id == id
  }

  /** `validateVaultFile`. */
  predicate ValidFile(f: File) {
    && f.version == VAULT_FILE_VERSION && f.accounts != [] && ValidKdf(f.kdf)
    && (forall k :: 0 <= k < |f.accounts| ==> ValidAccount(f.accounts[k]))
    && f.activeId != "" && HasId(f.accounts, f.activeId)
  }

  /** `migrateRecordToFile`; the id is drawn at random. */
  function MigrateRecordToFile(r: Record, id: string): File {
    File(VAULT_FILE_VERSION, id, r.kdf,
         [Account(id, "Account 1", r.chain, r.address, r.kind, r.watchOnly, r.payload, r.createdAt, r.updatedAt)])
  }

  /** What `loadVaultFile` returns and the slot it leaves behind. None is the corrupt-vault error. */
  datatype Loaded = Loaded(result: Option<Option<File>>, blob: Blob)

  function Load(blob: Blob, id: string): Loaded {
    match blob
    case Absent => Loaded(Some(None), blob)
    case V1(record) =>
      if ValidRecord(record) then
        var file := MigrateRecordToFile(record, id);
        Loaded(Some(Some(file)), V2(file))
      else Loaded(None, blob)
    case V2(file) => if ValidFile(file) then Loaded(Some(Some(file)), blob) else Loaded(None, blob)
    case Malformed => Loaded(None, blob)
  }

  /**
    * Loading a valid record gives a valid file whose one account opens with exactly the
    * passphrases that opened the record, onto the same secret; the next load, whatever id it
    * would draw, returns the identical file and writes nothing.
    */
  lemma MigrationLossless(record: Record, id: string, later: string, password: string)
    requires ValidRecord(record) && id != ""
    ensures
      var first := Load(V1(record), id);
      && first.result.Some? && first.result.value.Some?
      && var file := first.result.value.value;
      && ValidFile(file) && |file.accounts| == 1 && first.blob == V2(file)
      && Decrypt(Key(password, file.kdf), file.accounts[0].payload) == Decrypt(Key(password, record.kdf), record.payload)
      && Load(first.blob, later) == first
  {
    hide Decrypt;
    var file := MigrateRecordToFile(record, id);
    assert file.accounts[0].id == id;
    assert ValidFile(file);
  }

  /** Why a file is refused: its version, its key parameters, an account's framing, or its active account. */
  lemma FileRefused(f: File)
    ensures !ValidFile(f) <==>
            || f.version != 2 || |f.accounts| == 0
            || f.kdf.kdf == OtherKdf || f.kdf.salt == ""
            || f.activeId == "" || (forall k :: 0 <= k < |f.accounts| ==> f.accounts[k].id != f.activeId)
            || (exists k :: 0 <= k < |f.accounts| && AccountRefused(f.accounts[k]))
  {
    forall k | 0 <= k < |f.accounts| ensures AccountRefused(f.accounts[k]) <==> !ValidAccount(f.accounts[k]) { }
  }

  /** A field of an account that may not be empty is, or names nothing known. */
  predicate AccountRefused(a: Account) {
    || a.id == "" || a.name == "" || a.address == "" || a.chain == OtherChain || a.kind == OtherKind
    || a.payload.cipher != AesGcm || a.payload.iv == "" || a.payload.ciphertext.NoCiphertext?
  }

  /** Loading never repairs or invents: it succeeds exactly on a valid blob, and changes only records. */
  lemma LoadExactly(blob: Blob, id: string)
    requires id != ""
    ensures Load(blob, id).result.Some? <==>
            blob.Absent? || (blob.V1? && ValidRecord(blob.record)) || (blob.V2? && ValidFile(blob.file))
    ensures Load(blob, id).blob != blob ==> blob.V1? && Load(blob, id).blob.V2? && ValidFile(Load(blob, id).blob.file)
  {
    hide ValidFile;
    if blob.V1? && ValidRecord(blob.record) {
      MigrationLossless(blob.record, id, id, "");
    }
  }
}
