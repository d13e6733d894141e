/**
  * The persisted vault (vault-types.ts, encrypt.ts): secrets, payloads, accounts and files.
  *
  * Cryptography is symbolic. A key is the pair of a passphrase and its derivation parameters;
  * a ciphertext records the key, the initialization vector and the secret it was made from.
  * A field of the wrong JSON type is an empty string or an `Other...` constructor.
  */
module VaultTypes {
  import opened Wrappers

  datatype SecretKind = PrivateKeyKind | MnemonicKind | WatchOnlyKind | OtherKind
  datatype Chain = PearlMainnet | PearlTestnet | OtherChain
  datatype Kdf = Pbkdf2 | Argon2id | OtherKdf
  datatype Cipher = AesGcm | OtherCipher

  datatype Secret = PrivateKey(hex: string) | Mnemonic(words: string, passphrase: Option<string>) | WatchOnly(xpub: string)
  {
    /** `assertDecryptedSecret`. */
    predicate WellFormed() {
      match this
      case PrivateKey(hex) => |hex| == 64 && forall i :: 0 <= i < |hex| ==> '0' <= hex[i] <= '9' || 'a' <= hex[i] <= 'f'
      case Mnemonic(words, _) => words != ""
      case WatchOnly(xpub) => xpub != ""
    }

    function Kind(): SecretKind {
      match this
      case PrivateKey(_) => PrivateKeyKind
      case Mnemonic(_, _) => MnemonicKind
      case WatchOnly(_) => WatchOnlyKind
    }

    /** `backupStringFor`. */
    function Backup(): string {
      match this
      case PrivateKey(hex) => hex
      case Mnemonic(words, _) => words
      case WatchOnly(xpub) => xpub
    }

    /** `zeroSecret`. */
    function Zeroed(): (z: Secret)
      ensures z.Kind() == Kind() && z.Backup() == "" && !z.WellFormed()
      ensures z.Mnemonic? && z.passphrase.Some? ==> z.passphrase.value == ""
    {
      match this
      case PrivateKey(_) => PrivateKey("")
      case Mnemonic(_, passphrase) => Mnemonic("", if passphrase.Some? then Some("") else None)
      case WatchOnly(_) => WatchOnly("")
    }
  }

  datatype KdfParams = KdfParams(kdf: Kdf, salt: string)
  datatype Key = Key(password: string, params: KdfParams)
  datatype Ciphertext = NoCiphertext | Garbage | Sealed(iv: string, key: Key, secret: Secret)
  datatype Payload = Payload(cipher: Cipher, iv: string, ciphertext: Ciphertext)

  function Encrypt(key: Key, iv: string, secret: Secret): Payload {
    Payload(AesGcm, iv, Sealed(iv, key, secret))
  }

  /** `decryptSecret`: only the equal key opens a payload, and only onto a well-formed secret. */
  function Decrypt(key: Key, p: Payload): Option<Secret> {
    if p.cipher == AesGcm && p.ciphertext.Sealed? && p.ciphertext.iv == p.iv && p.ciphertext.key == key
       && p.ciphertext.secret.WellFormed()
    then Some(p.ciphertext.secret)
    else None
  }

  datatype Account = Account(id: string, name: string, chain: Chain, address: string, kind: SecretKind,
                             watchOnly: bool, payload: Payload, createdAt: int, updatedAt: int)

  const VAULT_FILE_VERSION: int := 2

  datatype File = File(version: int, activeId: string, kdf: KdfParams, accounts: seq<Account>)

  /** The single-account record of version 1. */
  datatype Record = Record(chain: Chain, address: string, kind: SecretKind, watchOnly: bool, kdf: KdfParams,
                           payload: Payload, createdAt: int, updatedAt: int)

  /** What the storage slot holds. `Malformed` stands for anything that is neither shape. */
  datatype Blob = Absent | V1(record: Record) | V2(file: File) | Malformed

  /** The errors of the vault operations; `StorageFailed` is a storage access that failed. */
  datatype VaultError =
    | NoVault | VaultExists | NoSuchAccount | LastAccount | WalletLocked | WrongPassword | CorruptVault
    | WatchOnlyAccount | WeakPassphrase | InvalidKey | EmptyName | BadTimeout | NotInSession | StorageFailed
}
