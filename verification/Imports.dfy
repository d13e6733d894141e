/**
  * `parseImport` of the signing adapter, and which secrets decryption lets through. The
  * library checks of private keys, mnemonics and extended public keys are parameters.
  */
module Imports {
  import opened Wrappers
  import opened Hex
  import opened VaultTypes
  import Ascii

  datatype ImportKind = Wif | RawHex | MnemonicWords | Xpub | WatchOnlyXpub

  /** The library checks: the 32 bytes of a private key, a valid mnemonic, a usable public key. */
  datatype Checks = Checks(key: string -> Option<bytes>, mnemonic: string -> bool, xpub: string -> bool)

  /** Keys have 32 bytes, and nothing is made of no text. */
  ghost predicate Sane(checks: Checks) {
    && (forall text :: checks.key(text).Some? ==> |checks.key(text).value| == 32)
    && !checks.mnemonic("") && !checks.xpub("")
  }

  function ParseImport(checks: Checks, kind: ImportKind, secret: string, passphrase: Option<string>): Option<Secret> {
    var value := Ascii.Trim(secret);
    match kind
    case Wif => KeySecret(checks.key(value))
    case RawHex => KeySecret(checks.key(value))
    case MnemonicWords =>
      if !checks.mnemonic(value) then None
      else Some(Mnemonic(value, if passphrase.Some? && passphrase.value != "" then passphrase else None))
    case Xpub => if checks.xpub(value) then Some(WatchOnly(value)) else None
    case WatchOnlyXpub => if checks.xpub(value) then Some(WatchOnly(value)) else None
  }

  function KeySecret(key: Option<bytes>): Option<Secret> {
    if key.None? then None else Some(PrivateKey(ToHex(key.value)))
  }

  /** A key passes decryption exactly when it is the text of 32 bytes; other secrets when they are not empty. */
  lemma WellFormedExactly(secret: Secret)
    ensures secret.PrivateKey? ==> (secret.WellFormed() <==> exists key: bytes :: |key| == 32 && secret.hex == ToHex(key))
    ensures secret.Mnemonic? ==> (secret.WellFormed() <==> secret.words != "")
    ensures secret.WatchOnly? ==> (secret.WellFormed() <==> secret.xpub != "")
  {
    if secret.PrivateKey? {
      hide ToHex, FromHex;
      if secret.WellFormed() {
        LowerText(secret.hex);
        ToFromHex(secret.hex);
      }
      forall key: bytes | |key| == 32 && secret.hex == ToHex(key) ensures secret.WellFormed() { KeyWellFormed(key); }
    }
  }

  lemma LowerText(hex: string)
    requires PrivateKey(hex).WellFormed()
    ensures IsLowerHex(hex)
  {
  }

  lemma KeyWellFormed(key: bytes)
    requires |key| == 32
    ensures PrivateKey(ToHex(key)).WellFormed()
  {
    hide ToHex;
    ToHexIsLowerHex(key);
  }

  /** Every secret that import accepts passes decryption later. */
  lemma ImportedWellFormed(checks: Checks, kind: ImportKind, secret: string, passphrase: Option<string>)
    requires Sane(checks) && ParseImport(checks, kind, secret, passphrase).Some?
    ensures ParseImport(checks, kind, secret, passphrase).value.WellFormed()
  {
    hide ToHex, Ascii.Trim, Secret.WellFormed;
    var s := ParseImport(checks, kind, secret, passphrase).value;
    if s.PrivateKey? { KeyWellFormed(checks.key(Ascii.Trim(secret)).value); }
    WellFormedExactly(s);
  }
}
