# Necklace wallet: a Dafny model

This project models the hard core of the Necklace browser wallet and proves what it is for:
addresses that decode to what was encoded, transactions whose bytes and signed message mean one
thing, payments that conserve value from coin selection to signature, and a multi-account vault
with one password. To check it, run `dafny verify dfyconfig.toml`.

## How it is organised

**Addresses.** `Bech32m` is the decoder: the checksum register on 32-bit vectors, the prefix
expansion, raw decoding and witness parsing. `Regroup` proves the 5-to-8-bit accumulator, which
wraps at 32 signed bits, against reading the input as one unbounded number (`Numerals`).
`Checksum` proves that the register's step is injective on 30-bit states and that errors within
six positions are detected. `Bip350` is the encoder of BIP-173 ("Bech32") and BIP-350
("Bech32m") from the standards' own terms: arithmetic in GF(32) and the remainder modulo a
polynomial. It shares no table, expansion or constant with the decoder. `Division` proves that
the decoder's register is that remainder, and `SegwitCodec` that decoder and encoder are mutual
inverses. `AddressValidation` puts the wallet's own rules on top, and `FeeAddresses` decodes the
two pinned fee addresses to their programs.

**Bytes.** `Wire` is the BIP-144 layout, `Serializer` the byte writer proved to produce it, and
`WireParser` an independent parser that inverts it. `Sighash` builds the BIP-341 message ("Common
signature message") from the signer's own copies of the encodings. `Sizes` compares the two size
and fee formulas with the real byte counts. `Decimal` and `Amounts` are the amount parser and
printer.

**Payments.** `Selection` has the exchange argument shared by the two coin selectors in `Utxos`
and `Preview`. `Builder`, `DraftWire` and `Signer` are the transaction builder, the message form of
a draft and the assertions before signing; `Spending` joins them from coins to signed bytes, and
`Payments` from validated addresses to the scripts that are paid.

**Vault.** `VaultTypes` is the persisted file, `VaultStorage` its checks, loading and migration. `SessionRules` and
`Manager` are the session and the handlers as step functions; `SessionVars` and `VaultWorker` are
the same as classes that update their fields, proved step by step against those functions.
`PlainWallet` is a reference wallet with one password and secrets in the clear. `VaultInvariant`,
`VaultRefinement` and `VaultRuns` prove that every handler, and every run of messages, clock
readings, timers, alarms, evictions and restarts, is indistinguishable from it. `VaultBackup`
follows what creation showed to what is revealed later, and `Imports` says which secrets the
import parser lets in.
`MutationQueue` models the storage queue at its awaits.

## Reading the model

- Cryptography is symbolic: a key is a password with its derivation parameters, a ciphertext
  remembers key, initialization vector and secret, and decryption needs the equal key and a
  well-formed secret. SHA-256 and tagged hashes are arbitrary functions, with the absence of
  collisions a hypothesis on the very inputs compared. A signature is any 64 bytes.
- Random draws, the clock, the address deriver and the map from address to output script are
  parameters. Draws are assumed usable: ids not in the file, nothing empty.
- `Manager.Op` has every operation of the vault manager, also those the dispatcher does not expose.
- Errors are values of `Option` or `Result`. A handler runs as one step once the session has been
  restored; `MutationQueue` is the finer model of what interleaves.

## Findings

- `feeForSerializeSize` is not monotone at low rates (`Sizes.SelectorFeeDropsExactly`), so at
  such a rate `selectUtxos` can reach its second insufficient-funds error
  (`Utxos.AfterFeesReachable`, `Utxos.LowRateMeetsSecondError`); from 1000 per kilobyte up it
  cannot (`Utxos.SelectionComplete`).
- A transaction without inputs does not survive the wire format: its count is read as the marker
  (`WireParser.RoundTrip`).
- At worker start the saved timeout and the session are loaded without waiting for each other.
  When the session comes first, the timeout's touch extends the restored deadline
  (`SessionRules.StartupOrder`).
- `startSession` with no accounts zeroes an open session's secrets and leaves it open, with its
  persisted copy intact; no handler does this (`SessionRules.StepKeeps`).
- Creating a vault does not check the secret as decryption does, so a malformed one locks its
  owner out (`VaultRuns.UnreadableLocksOut`). The import parser only yields well-formed ones
  (`Imports.ImportedWellFormed`).

Where a comment and the code disagree, the model follows the code: the address decoder accepts
witness versions 1 to 16, not only 1 and 2, and the builder refuses dust change rather than
omitting it.

## Model

| member | source | states |
|---|---|---|
| `Bech32m.ComputePolymod` | apps/extension/src/tx/bech32m.ts:24-34 | the two nested loops compute the checksum register of the specification, on 32-bit vectors |
| `Bech32m.ComputeHrpExpand` | apps/extension/src/tx/bech32m.ts:36-42 | the prefix expansion: high halves, a zero, low halves |
| `Bech32m.ParseWords` | apps/extension/src/tx/bech32m.ts:58-63 | the character loop: a word for each charset character, or rejection |
| `Bech32m.ComputeDecodeRaw` | apps/extension/src/tx/bech32m.ts:45-68 | raw decoding with all its rejections: mixed case, separator position, length, charset, checksum |
| `Regroup.ConvertBits` | apps/extension/src/tx/bech32m.ts:71-96 | the accumulator that wraps at 32 signed bits returns the base-conversion of the input read as one unbounded number; without padding it accepts exactly when the spare bits are fewer than an input group and zero |
| `Bech32m.ComputeDecodeSegwit` | apps/extension/src/tx/bech32m.ts:111-136 | witness parsing: a version from 1 to 16, regrouped words, a program of 2 to 40 bytes |
| `Checksum.StepInjective` | apps/extension/src/tx/bech32m.ts:24-34 | reading the same word keeps distinct 30-bit registers distinct |
| `Checksum.FeedInjective` | apps/extension/src/tx/bech32m.ts:24-34 | so does reading any common tail |
| `Checksum.FeedCat` | apps/extension/src/tx/bech32m.ts:24-34 | up to six words change the register exactly by their own bits, whatever was read before |
| `Checksum.BurstDetected` | apps/extension/src/tx/bech32m.ts:24-34 | two word sequences that differ, only inside six consecutive positions, have different checksums at any length and position |
| `Division.TapsAreCarry` | apps/extension/src/tx/bech32m.ts:20-31 | the five constants, switched in by the top five bits, are the multiple of the BIP-173 generator polynomial that the top word calls for, over GF(32) |
| `Division.StepIsTimesX` | apps/extension/src/tx/bech32m.ts:24-34 | one step of the register is multiplication by x modulo that polynomial, plus the word, on six coefficients side by side |
| `Division.PolymodIsRemainder` | apps/extension/src/tx/bech32m.ts:24-34 | the register after any words is their remainder |
| `SegwitCodec.ChecksumAccepted` | apps/extension/src/tx/bech32m.ts:58-66 | after any prefix and data there are six words that the decoder's test accepts |
| `SegwitCodec.ChecksumIsStandard` | apps/extension/src/tx/bech32m.ts:20-34 | they are the checksum of BIP-350, computed over GF(32) with its own prefix expansion and constant |
| `SegwitCodec.ChecksumUnique` | apps/extension/src/tx/bech32m.ts:58-66 | no other six words pass |
| `SegwitCodec.BytesToWordsIsRegrouping` | apps/extension/src/tx/bech32m.ts:71-96 | the encoder's words are the same base conversion, with padding |
| `SegwitCodec.WordsOfBytesDecode` | apps/extension/src/tx/bech32m.ts:71-96 | regrouping the padded words of a program gives the program back |
| `SegwitCodec.BytesOfWordsEncode` | apps/extension/src/tx/bech32m.ts:71-96 | words that regroup into a program are the padded words of that program |
| `SegwitCodec.DecodeRawExactly` | apps/extension/src/tx/bech32m.ts:45-68 | a string decodes to a prefix and data exactly when it is, in one case, their encoding under the independent encoder, of at most 90 characters |
| `SegwitCodec.DecodeSegwitExactly` | apps/extension/src/tx/bech32m.ts:111-136 | a string decodes to prefix, version and program exactly when it is, in one case, the BIP-350 encoding of an encodable triple: decoder and encoder are mutual inverses |
| `SegwitCodec.DecodeEncode` | apps/extension/src/tx/bech32m.ts:111-136 | decoding the encoding of any encodable prefix, version and program returns them |
| `SegwitCodec.BurstRejected` | apps/extension/src/tx/bech32m.ts:45-68 | from any accepted string, changing characters after the separator, all within six consecutive positions, is always rejected |
| `AddressValidation.ValidExactly` | apps/extension/src/tx/validation.ts:58-118 | an address is valid with a program exactly when its trimmed text is, in one case, the encoding of that 32-byte version-1 program under the network's prefix |
| `AddressValidation.ValidShape` | apps/extension/src/tx/validation.ts:112-118 | every verdict of validity has that shape, and its hexadecimal program reads back |
| `AddressValidation.NetworksDisjoint` | apps/extension/src/tx/validation.ts:76-88 | an address valid on one network is reported as another network's on every network with another prefix |
| `AddressValidation.TaprootEncodable` | apps/extension/src/tx/validation.ts:58-118 | every 32-byte program has an address on every network |
| `AddressValidation.TaprootValid` | apps/extension/src/tx/validation.ts:58-118 | and that address is valid there, with that program |
| `AddressValidation.EncodedVerdict` | apps/extension/src/tx/validation.ts:76-118 | what is reported for any encoding: the first of prefix, length and version that is wrong, with what was decoded |
| `AddressValidation.ValidText` | apps/extension/src/tx/validation.ts:58-118 | a valid address has, trimmed and lower-cased, 63 characters from prl1 on mainnet, and 64 from rprl1 on the regression and simulation networks or from tprl1 on the test networks |
| `FeeAddresses.MainnetAddress` | apps/extension/src/tx/fee.ts:49-52 | the pinned mainnet address is the encoding of a named 32-byte program, and is valid on mainnet with that program |
| `FeeAddresses.RegtestAddress` | apps/extension/src/tx/fee.ts:55-57 | the same for the pinned regression address |
| `Ascii.TrimExactly` | apps/extension/src/tx/validation.ts:62-62 | trimming takes off exactly the space characters at the two ends |
| `Ascii.SingleCaseExactly` | apps/extension/src/tx/bech32m.ts:48-50 | the case test is that there is no capital letter, or no small one |
| `Hex.DigitAlphabet` | packages/wallet-core/src/serialize.ts:114-131 | the sixteen digits, with their values in either case |
| `Hex.FromToHex` | packages/wallet-core/src/serialize.ts:114-131 | hexadecimal text of any bytes parses back to them |
| `Hex.ToFromHex` | packages/wallet-core/src/serialize.ts:114-131 | lower-case text is printed again as it was |
| `Hex.HexToBytes` | packages/wallet-core/src/serialize.ts:114-124 | the in-place loop fills exactly the parsed bytes, and rejects exactly what is not hexadecimal |
| `Hex.BytesToHex` | packages/wallet-core/src/serialize.ts:126-130 | the string loop prints every byte |
| `Hex.ReverseBytes` | packages/wallet-core/src/serialize.ts:133-138 | a fresh array with the bytes in reverse |
| `Hex.ReverseTwice` | packages/wallet-core/src/serialize.ts:133-138 | reversing twice is the identity |
| `Serializer.ByteWriter.constructor` | packages/wallet-core/src/serialize.ts:57-58 | a writer starts empty |
| `Serializer.ByteWriter.U8` | packages/wallet-core/src/serialize.ts:60-62 | appends the low byte |
| `Serializer.ByteWriter.U16LE` | packages/wallet-core/src/serialize.ts:64-67 | appends two little-endian bytes |
| `Serializer.ByteWriter.U32LE` | packages/wallet-core/src/serialize.ts:69-74 | appends the unsigned 32-bit wrap of a number, little-endian |
| `Serializer.ByteWriter.U64LE` | packages/wallet-core/src/serialize.ts:76-82 | appends the unsigned 64-bit wrap of a number, little-endian |
| `Serializer.ByteWriter.WriteVarInt` | packages/wallet-core/src/serialize.ts:84-97 | appends the compact size, in the four ranges |
| `Serializer.ByteWriter.WriteBytes` | packages/wallet-core/src/serialize.ts:99-102 | appends the bytes one by one |
| `Serializer.ByteWriter.WriteVarBytes` | packages/wallet-core/src/serialize.ts:104-107 | appends a length and the bytes |
| `Serializer.ByteWriter.WriteInputs` | packages/wallet-core/src/serialize.ts:140-150 | appends the input list, or fails on an id that is not hexadecimal |
| `Serializer.ByteWriter.WriteOutputs` | packages/wallet-core/src/serialize.ts:152-158 | appends the output list |
| `Serializer.ByteWriter.WriteWitness` | packages/wallet-core/src/serialize.ts:182-189 | appends the witness stack of every input |
| `Serializer.Serialize` | packages/wallet-core/src/serialize.ts:167-193 | the writer produces the BIP-144 layout of the specification, with the marker only when some input has a witness |
| `WireParser.RoundTrip` | packages/wallet-core/src/serialize.ts:167-193 | an in-range transaction is recovered by a BIP-144 parser from its serialization, with or without witnesses, exactly when it has an input |
| `WireParser.ParseSound` | packages/wallet-core/src/serialize.ts:167-193 | whatever parses is an in-range transaction with an input, and the bytes are its serialization |
| `WireParser.SerializationInjective` | packages/wallet-core/src/serialize.ts:167-193 | distinct transactions with inputs serialize to distinct bytes |
| `WireParser.StrippedIgnoresWitness` | packages/wallet-core/src/serialize.ts:200-215 | the stripped serialization behind the id identifies the transaction up to witnesses, and ignores those |
| `WireParser.ComputedIdSpends` | packages/wallet-core/src/serialize.ts:204-211 | the id is 64 lower-case hexadecimal characters, and an input that spends by it carries the double hash of the stripped bytes as it is |
| `Sighash.ConcatParts` | packages/wallet-core/src/sign.ts:60-69 | allocating once and copying at a running offset concatenates the parts |
| `Sighash.U32le` | packages/wallet-core/src/sign.ts:71-78 | the same four bytes as the serializer writes |
| `Sighash.U64le` | packages/wallet-core/src/sign.ts:80-88 | the same eight bytes as the serializer writes |
| `Sighash.VarIntBytes` | packages/wallet-core/src/sign.ts:90-96 | the same compact size as the serializer writes |
| `Sighash.SerializeOutpoint` | packages/wallet-core/src/sign.ts:98-101 | the same outpoint as the serializer writes |
| `Sighash.SerializeTxOut` | packages/wallet-core/src/sign.ts:103-105 | the same output as the serializer writes |
| `Sighash.ComputePreimages` | packages/wallet-core/src/sign.ts:160-174 | the five hashed lists, built part by part |
| `Sighash.ComputeSighash` | packages/wallet-core/src/sign.ts:148-199 | the BIP-341 key-path message and its hash, with the three errors |
| `Sighash.SighashIsStandard` | packages/wallet-core/src/sign.ts:148-199 | what is hashed is the 175-byte BIP-341 message: every field and hash at its offset, and the five hashed lists parse to the outpoints, previous values, previous scripts, sequences and outputs |
| `Sighash.MessageBinds` | packages/wallet-core/src/sign.ts:148-199 | unless two of the hashed lists collide, equal messages are about equal version, lock time, outpoints, sequences, previous values and scripts, outputs and input index |
| `Sighash.SighashBinds` | packages/wallet-core/src/sign.ts:148-199 | the same for the signed hash, when the two messages do not collide under the tagged hash |
| `Sighash.OutputsPreimageIsBody` | packages/wallet-core/src/sign.ts:172-174 | the hashed outputs are byte for byte the serialized outputs after their count |
| `Sighash.SighashIgnoresWitness` | packages/wallet-core/src/sign.ts:148-199 | the hash does not see scripts and witnesses, so signing inputs one after another is sound |
| `Sighash.SignedTransaction` | packages/wallet-core/src/sign.ts:244-273 | signing gives each input one 64-byte item over the finished transaction's own hash and changes nothing else, the id included |
| `Sizes.VsizeIsEstimate` | apps/extension/src/tx/vsize.ts:40-58 | BIP-141 size counted from the real serialized bytes equals the estimate, for signed key-path inputs and taproot outputs |
| `Sizes.VsizeBelowEstimate` | packages/wallet-core/src/fees.ts:82-121 | and is never above the selector's estimate, for any output scripts; that estimate is the size with one more witness byte for each input, and their count |
| `Sizes.ChangeIsOneMoreOutput` | packages/wallet-core/src/fees.ts:82-121 | asking for change is asking for one more taproot output |
| `Sizes.RelayFeeMeetsRate` | apps/extension/src/tx/vsize.ts:60-63 | the fee is the least one that is at least the rate and, times 1000, at least rate times size |
| `Sizes.LeastFeeUnique` | apps/extension/src/tx/vsize.ts:60-63 | no lower fee is both |
| `Sizes.RelayFeeMonotone` | apps/extension/src/tx/vsize.ts:60-63 | a larger size never costs less |
| `Sizes.SelectorFeeRate` | packages/wallet-core/src/fees.ts:128-149 | the selector's fee is the rate for every thousand bytes rounded down, the rate itself where that is nothing, and never more than the supply |
| `Sizes.SelectorFeeMonotone` | packages/wallet-core/src/fees.ts:128-149 | from 1000 per kilobyte up, a larger size never costs less |
| `Sizes.SelectorFeeDropsExactly` | packages/wallet-core/src/fees.ts:128-149 | exactly when a larger size does cost less: the smaller fee was raised from zero and the larger one rounds below the rate |
| `Decimal.ParseOfPrint` | apps/extension/src/api/tx-wire.ts:44-88 | decimal text of any integer, of either sign, reads back |
| `Amounts.ParseOfPrinted` | packages/shared/src/amounts.ts:69-110 | for every amount up to the supply and either trim mode, parsing the printed text returns the amount |
| `Amounts.PrintOfParsed` | packages/shared/src/amounts.ts:69-110 | printing the value of an accepted string gives its canonical form |
| `Amounts.UnitToGrainExact` | packages/shared/src/amounts.ts:113-140 | an accepted string in any unit is worth exactly its rational value times the unit |
| `Amounts.DecimalsForUnit` | packages/shared/src/amounts.ts:142-151 | the division loop counts the decimal digits of a unit |
| `Amounts.DecimalsOfPower` | packages/shared/src/amounts.ts:142-151 | which for a power of ten is its exponent |
| `Amounts.UnitIsPower` | packages/shared/src/amounts.ts:34-43 | and every unit is a power of ten |
| `Selection.SortStable` | packages/wallet-core/src/utxo.ts:105-115 | the largest-first sort keeps the order of equal amounts |
| `Selection.TopTotal` | packages/wallet-core/src/utxo.ts:105-115 | the exchange argument: no choice of coins is worth more than as many from the front of the sorted list |
| `Selection.GreedyOptimal` | apps/extension/src/tx/preview.ts:115-137 | if any choice of coins pays for its size, taking coins from the front stops, and with no more coins |
| `Utxos.ComputeSelectUtxos` | packages/wallet-core/src/utxo.ts:127-232 | the selector: eligibility, order, the moving target, change or no change, and both errors |
| `Utxos.Accumulate` | packages/wallet-core/src/utxo.ts:151-181 | the selection loop stops at the least front of the list that covers either fee |
| `Utxos.FilterExactly` | packages/wallet-core/src/utxo.ts:89-102 | every eligible coin is kept as often as it was offered, and no other |
| `Utxos.SetAside` | packages/wallet-core/src/utxo.ts:93-100 | which coins are not eligible, ground by ground |
| `Utxos.P2trBytes` | packages/wallet-core/src/utxo.ts:80-83 | the accepted script text is that of 34 bytes starting 0x51 0x20 |
| `Utxos.SpendableStep` | packages/wallet-core/src/utxo.ts:235-240 | the balance shown grows by each coin's value when it is eligible, and only then |
| `Utxos.SelectedFromInput` | packages/wallet-core/src/utxo.ts:89-181 | what is selected is a sub-multiset of the given coins, and every one is eligible |
| `Utxos.SelectionConserves` | packages/wallet-core/src/utxo.ts:183-232 | inputs are exactly recipient, flat fee, network fee and change; change is absent or at least 546; the fee covers the chosen shape, is the with-change fee when there is change, and is otherwise below that fee plus 546 |
| `Utxos.SpendableBound` | packages/wallet-core/src/utxo.ts:235-240 | what is spent is within the spendable balance |
| `Utxos.SelectionOptimal` | packages/wallet-core/src/utxo.ts:127-181 | at any rate, a choice that pays the cheaper fee bounds the number of coins selected |
| `Utxos.SelectionComplete` | packages/wallet-core/src/utxo.ts:127-232 | from 1000 per kilobyte up: it succeeds exactly when some choice of eligible coins pays the no-change fee, selects such a choice, no smaller one exists, and the second error never happens |
| `Utxos.AfterFeesExactly` | packages/wallet-core/src/utxo.ts:215-221 | exactly when the second insufficient-funds error happens |
| `Utxos.AfterFeesReachable` | packages/wallet-core/src/utxo.ts:215-221 | a policy can meet it exactly when, at some number of inputs, the with-change fee is the lower one |
| `Utxos.LowRateMeetsSecondError` | packages/wallet-core/src/utxo.ts:215-221 | at 6 per kilobyte it can |
| `Preview.ComputeSelectCoins` | apps/extension/src/tx/preview.ts:115-137 | the preview's selection loop |
| `Preview.SelectCoinsComplete` | apps/extension/src/tx/preview.ts:115-137 | it succeeds exactly when some choice of coins pays the target and the with-change fee for its size; its choice is such a one and no smaller one is |
| `Preview.SelectedPositive` | apps/extension/src/tx/preview.ts:115-137 | a payment never spends a worthless or negative coin |
| `Preview.ComputeTxPreview` | apps/extension/src/tx/preview.ts:143-245 | the preview, with the reassigned network fee and change and its errors |
| `Preview.PreviewConserves` | apps/extension/src/tx/preview.ts:183-245 | value is conserved to the Grain in both change branches, and neither defensive guard is taken; the fee output is the pinned address and amount |
| `Preview.PreviewFails` | apps/extension/src/tx/preview.ts:143-181 | there is no preview exactly without a pinned fee address or without a choice of coins that pays |
| `Preview.PreviewShortfall` | apps/extension/src/tx/preview.ts:168-181 | an insufficient-funds answer names all coins as available, what the payment would take with all of them as required, and more is required than available |
| `Preview.ClampRelayRate` | apps/extension/src/tx/preview.ts:102-106 | a rate in range is kept, and another becomes the nearer bound |
| `Preview.PreviewMeetsRate` | apps/extension/src/tx/preview.ts:183-216 | the network fee meets the clamped rate for the size of the draft's own shape; with change it is the least fee that does, and with change dropped it is less than 546 above the least fee of a transaction 43 bytes larger |
| `Builder.ComputeBuildTransaction` | packages/wallet-core/src/transaction.ts:109-190 | the builder: every error in order, inputs, signing context, outputs and roles |
| `Builder.BuildInputs` | packages/wallet-core/src/transaction.ts:122-146 | the input loop builds wire inputs and signing context side by side, or stops at the first bad one |
| `Builder.BuildOutputs` | packages/wallet-core/src/transaction.ts:148-166 | the recipient loop, likewise |
| `Builder.ComputeAddWalletFeeOutput` | packages/wallet-core/src/transaction.ts:205-241 | the fee output is spliced in before the change output |
| `Builder.InsertAtChange` | packages/wallet-core/src/transaction.ts:220-224 | after recipients and an optional change, that place is right after the recipients |
| `Signer.SortedKeysSorts` | apps/extension/src/vault/wallet-core-adapter.ts:350-352 | sorting keys by code unit gives an ascending permutation |
| `Signer.SortedEqualsExactly` | apps/extension/src/vault/wallet-core-adapter.ts:326-332 | two lists of keys sort to the same list exactly when their multisets agree |
| `Signer.KeyInjective` | apps/extension/src/vault/wallet-core-adapter.ts:325-325 | the key text of an output determines its script and value |
| `Signer.ComputeAssertOutputs` | apps/extension/src/vault/wallet-core-adapter.ts:304-333 | the output assertion, with its comparison loop |
| `Signer.OutputsMatchExactly` | apps/extension/src/vault/wallet-core-adapter.ts:304-333 | for any outputs at all it passes exactly when the (script, value) multisets agree |
| `Signer.ComputePreSign` | apps/extension/src/vault/wallet-core-adapter.ts:247-288 | the pipeline up to the signature |
| `Signer.BuiltInputs` | apps/extension/src/vault/wallet-core-adapter.ts:265-281 | the inputs built and the signing context are those of the approved inputs, in order: outpoints, values and scripts |
| `Signer.AssembleExactly` | apps/extension/src/vault/wallet-core-adapter.ts:274-284 | the builder accepts a draft exactly when inputs and emitted payments are in order, and emits just those |
| `Signer.SignerAccepts` | apps/extension/src/vault/wallet-core-adapter.ts:247-348 | for any draft the pipeline reaches the signature exactly when key, inputs, payments and fee are right; the outputs are then recipients, fee, change, in that order |
| `Signer.ImpliedFeeAgrees` | packages/wallet-core/src/transaction.ts:254-260 | the builder's implied fee of what is signed is the approved fee |
| `Signer.PreviewAlwaysSigns` | apps/extension/src/tx/preview.ts:143-245 | every previewed draft with a payable recipient and decodable addresses and scripts passes the builder and both assertions |
| `DraftWire.WireRoundTrip` | apps/extension/src/api/tx-wire.ts:44-88 | any draft crosses the message boundary unchanged |
| `Spending.ApprovedSigns` | apps/extension/src/vault/wallet-core-adapter.ts:247-300 | any approvable draft to taproot addresses, sent as a message, is signed into a transaction of the estimated size that pays it; each input spends the approved coin and is signed over the transaction's own hash with the approved values and scripts |
| `Spending.PreviewSpends` | apps/extension/src/tx/preview.ts:143-245 | coins to signed bytes: a preview is always signed over the approved coins, pays what was approved, has the estimated size, and its fee is the least that meets the rate for its real size, or with change dropped less than 546 above that of 43 more bytes |
| `Payments.ValidDecodes` | packages/wallet-core/src/address.ts:114-177 | an address that the validator accepts decodes to the script of the program that the validator reported |
| `Payments.OwnDecoderConforms` | packages/wallet-core/src/address.ts:114-177 | the hand-written decoder would do in the library's place: both pay the same scripts |
| `Payments.FeeAddressValid` | apps/extension/src/tx/fee.ts:49-60 | the pinned address of a network is valid there and holds its pinned program |
| `Payments.ValidatedSpend` | apps/extension/src/tx/preview.ts:143-245 | from typed text to the chain: previewed to valid addresses and signed, the outputs are the recipient's program, the pinned fee program and the change program, in that order with their amounts |
| `SessionRules.CollectedIsMap` | apps/extension/src/vault/session.ts:147-151 | one set per account builds a map with exactly the given ids, each once |
| `SessionRules.StepKeeps` | apps/extension/src/vault/session.ts:140-402 | every session operation, at any time, keeps the session invariant exactly when starts name an account and removals name a fallback that stays |
| `SessionRules.RunKeeps` | apps/extension/src/vault/session.ts:140-402 | so the invariant holds over every run of such operations |
| `SessionRules.AutoLock` | apps/extension/src/vault/session.ts:301-402 | in every reachable state one timer is pending exactly while a session is open, due at the later of its arming time and the deadline; timer and alarm lock at or after the deadline and only then |
| `SessionRules.EvictThenRehydrate` | apps/extension/src/vault/session.ts:328-362 | eviction and restoring give the session back exactly, but for the key, with the same deadline, or clear it once expired |
| `SessionRules.LockClearsBoth` | apps/extension/src/vault/session.ts:309-321 | locking clears the worker and the store: a later worker finds nothing |
| `SessionRules.StartupOrder` | apps/extension/src/background/service-worker.ts:47-48 | reading the timeout before the session keeps the restored deadline; in the other order it is kept exactly without a saved timeout or when the touch gives the same one |
| `SessionVars.Variables.constructor` | apps/extension/src/vault/session.ts:52-59 | a new worker's variables, over whatever the stores hold |
| `SessionVars.Variables.ArmTimer` | apps/extension/src/vault/session.ts:388-402 | replaces the pending timer by one for the deadline |
| `SessionVars.Variables.PersistCurrent` | apps/extension/src/vault/session.ts:165-180 | copies the open session to the store, entry by entry |
| `SessionVars.Variables.TouchSession` | apps/extension/src/vault/session.ts:301-306 | moves the deadline, the timer and the copy together |
| `SessionVars.Variables.BuildEntries` | apps/extension/src/vault/session.ts:147-151 | the loop of map insertions |
| `SessionVars.Variables.StartSession` | apps/extension/src/vault/session.ts:140-162 | replaces the session, or fails on an empty list after zeroing the old secrets |
| `SessionVars.Variables.SetActiveAccount` | apps/extension/src/vault/session.ts:196-203 | changes the active id of an unlocked account |
| `SessionVars.Variables.AddSessionAccount` | apps/extension/src/vault/session.ts:209-222 | adds or replaces an entry |
| `SessionVars.Variables.RemoveSessionAccount` | apps/extension/src/vault/session.ts:228-237 | deletes an entry and falls back |
| `SessionVars.Variables.RequireKey` | apps/extension/src/vault/session.ts:291-298 | returns the session key and touches, or fails and changes nothing |
| `SessionVars.Variables.RequireSecret` | apps/extension/src/vault/session.ts:257-272 | returns the active secret and touches, or fails and changes nothing |
| `SessionVars.Variables.Lock` | apps/extension/src/vault/session.ts:309-321 | drops session, timer and copy |
| `SessionVars.Variables.Rehydrate` | apps/extension/src/vault/session.ts:328-362 | restores an unexpired copy, or clears it |
| `SessionVars.Variables.EnsureRehydrated` | apps/extension/src/vault/session.ts:365-373 | once in a worker's life |
| `SessionVars.Variables.EnforceLockTimeout` | apps/extension/src/vault/session.ts:383-386 | the alarm |
| `SessionVars.Variables.OnTimer` | apps/extension/src/vault/session.ts:392-399 | the timer callback: lock or arm again |
| `SessionVars.Variables.SetAndPersistLockTimeout` | apps/extension/src/vault/session.ts:92-102 | a positive timeout is set, applied and saved |
| `SessionVars.Variables.LoadPersistedLockTimeout` | apps/extension/src/vault/session.ts:105-116 | a saved timeout is applied |
| `VaultStorage.MigrationLossless` | apps/extension/src/vault/storage.ts:252-307 | loading a valid version-1 record gives a valid one-account file that opens with exactly the same passwords onto the same secret, and the next load returns the identical file |
| `VaultStorage.LoadExactly` | apps/extension/src/vault/storage.ts:297-307 | a load succeeds exactly on an empty slot, a valid record or a valid file, and only ever rewrites records |
| `VaultWorker.Storage.LoadVaultFile` | apps/extension/src/vault/storage.ts:297-307 | loading, with the migration written back |
| `VaultWorker.Storage.UpdateVaultAtomic` | apps/extension/src/vault/storage.ts:376-394 | one uninterrupted mutation is what the queue model calls a mutation on its own |
| `VaultWorker.LoadTwice` | apps/extension/src/vault/storage.ts:297-307 | loading again after a load returns the same and writes nothing |
| `VaultStorage.FileRefused` | apps/extension/src/vault/storage.ts:210-241 | why a file is refused, ground by ground |
| `MutationQueue.ResolvedIsLoaded` | apps/extension/src/vault/storage.ts:376-394 | after a resolved call the next load returns just what its mutation returned |
| `MutationQueue.Linearizable` | apps/extension/src/vault/storage.ts:374-394 | however calls and their load, mutate and save steps interleave, the settled calls are a prefix in call order with the outcomes of the fold, and the slot is the fold of the mutations |
| `MutationQueue.OnlyTheNext` | apps/extension/src/vault/storage.ts:391-392 | only the first unsettled call can take a step |
| `MutationQueue.RejectedIsIdentity` | apps/extension/src/vault/storage.ts:378-387 | a rejected call leaves the slot as it was, up to the migration its load performed |
| `MutationQueue.Progress` | apps/extension/src/vault/storage.ts:391-392 | an unsettled call can always step, and every step leaves less to do: a rejected call blocks nothing |
| `VaultWorker.VaultManager.CreateFirstAccount` | apps/extension/src/vault/manager.ts:153-219 | first wallet: strength, derivation and existence checks, file, session |
| `VaultWorker.VaultManager.AddAccount` | apps/extension/src/vault/manager.ts:239-301 | adding, by password or by session key |
| `VaultWorker.VaultManager.SwitchAccount` | apps/extension/src/vault/manager.ts:304-320 | switching, in the file and in the session |
| `VaultWorker.VaultManager.RenameAccount` | apps/extension/src/vault/manager.ts:323-338 | renaming under the trimmed label |
| `VaultWorker.VaultManager.RemoveAccount` | apps/extension/src/vault/manager.ts:345-368 | removing, never the last account, with the fallback for the active one |
| `VaultWorker.VaultManager.DecryptEvery` | apps/extension/src/vault/manager.ts:414-418 | the loop that opens every payload, or stops at the first that does not open |
| `VaultWorker.VaultManager.Unlock` | apps/extension/src/vault/manager.ts:409-421 | unlocking |
| `VaultWorker.VaultManager.EncryptEvery` | apps/extension/src/vault/manager.ts:516-519 | the loop that encrypts every secret under the new key, by account id |
| `VaultWorker.VaultManager.ChangePassword` | apps/extension/src/vault/manager.ts:493-539 | changing the password of the file and of an open session |
| `VaultWorker.VaultManager.RevealSecretWithPassword` | apps/extension/src/vault/manager.ts:479-486 | revealing the active secret's backup text |
| `VaultWorker.VaultManager.SigningSecret` | apps/extension/src/vault/manager.ts:438-455 | the secret that signs, or the refusals of signDraft |
| `VaultWorker.VaultManager.ExportSecret` | apps/extension/src/vault/manager.ts:468-471 | exporting from the open session |
| `VaultWorker.VaultManager.GetStatus` | apps/extension/src/vault/manager.ts:549-553 | the public status |
| `VaultWorker.VaultManager.SetTimeoutAndReport` | apps/extension/src/background/dispatch.ts:145-148 | setting the timeout and reporting |
| `VaultWorker.VaultManager.LockVault` | apps/extension/src/vault/manager.ts:458-461 | locking |
| `VaultWorker.VaultManager.DeleteVault` | apps/extension/src/vault/manager.ts:542-546 | locking, then deleting the file |
| `VaultWorker.VaultManager.HandleMessage` | apps/extension/src/background/dispatch.ts:98-200 | a request: restore the session, then its handler |
| `VaultRefinement.DecryptAllExactly` | apps/extension/src/vault/manager.ts:414-418 | opening every payload succeeds exactly with the one key and readable secrets, onto each account's own |
| `VaultRefinement.ReencryptedAt` | apps/extension/src/vault/manager.ts:516-519 | with distinct ids each account finds its own fresh payload |
| `VaultRefinement.ResealOk` | apps/extension/src/vault/manager.ts:512-532 | after a password change every account is its own secret under the one new key |
| `VaultRefinement.RemoveOk` | apps/extension/src/vault/manager.ts:354-363 | removing one of several accounts leaves a valid file whose active id is among the rest |
| `VaultRefinement.RefineHandle` | apps/extension/src/vault/manager.ts:153-553 | each handler, on any sound vault, keeps the invariant, answers as the plain wallet answers and becomes what the plain wallet becomes |
| `VaultRuns.RefineWake` | apps/extension/src/vault/session.ts:328-373 | waking a worker opens the wallet only before its deadline |
| `VaultRuns.RefineEvent` | apps/extension/src/background/dispatch.ts:98-200 | the same for any event: message, clock, timer, alarm, eviction, start of worker or browser |
| `VaultRuns.RunRefines` | apps/extension/src/background/dispatch.ts:98-200 | over every run the answers are the plain wallet's, and the invariant holds at the end |
| `VaultRuns.OnePassword` | apps/extension/src/vault/manager.ts:153-180 | every payload opens under the file's one password and parameters onto its account's secret and under no other; the account's public flags are those of its secret; a session key is that key |
| `VaultRuns.SessionAgreesWithFile` | apps/extension/src/vault/manager.ts:304-368 | an open session holds exactly the file's accounts, in order, with the same active id; the file has an account, distinct ids and its active id among them |
| `VaultRuns.SavedLoads` | apps/extension/src/vault/storage.ts:210-241 | whatever any event saved is accepted by the next load, unchanged |
| `VaultRuns.UnlockExactly` | apps/extension/src/vault/manager.ts:409-421 | unlock succeeds exactly with the current password and readable secrets |
| `VaultRuns.UnlockAfterRun` | apps/extension/src/vault/manager.ts:409-421 | from installation, over any run with well-formed imports, unlock succeeds exactly with the password the plain wallet remembers |
| `VaultRuns.EventKeeps` | apps/extension/src/vault/manager.ts:493-539 | no event but a password change with the current password changes the password, and none alters the secret of an account that stays |
| `VaultRuns.UnreadableLocksOut` | apps/extension/src/vault/manager.ts:153-180 | a secret that decryption would refuse makes a wallet that its own password never opens again |
| `VaultRuns.CorruptKept` | apps/extension/src/vault/manager.ts:153-553 | a slot that does not load stays as it is whatever is asked, except by deletion, and what needs the vault says it is corrupt |
| `VaultBackup.RevealExactly` | apps/extension/src/vault/manager.ts:371-380 | on any sound vault, revealing answers the active account's words, key or extended public key exactly with the current password and a readable secret |
| `VaultBackup.CreationShows` | apps/extension/src/vault/manager.ts:209-219 | creating or adding a generated account shows its words or key; an import shows nothing |
| `VaultBackup.ShownIsRevealed` | apps/extension/src/vault/manager.ts:479-486 | what creation showed is what revealing answers after any run of other events, whenever that account is active and the password is the current one |
| `Imports.WellFormedExactly` | apps/extension/src/vault/encrypt.ts:115-149 | a key passes decryption exactly when it is the text of 32 bytes, other secrets when they are not empty |
| `Imports.ImportedWellFormed` | apps/extension/src/vault/wallet-core-adapter.ts:103-148 | every secret that import accepts passes decryption later |
| `VaultRuns.MigratedSound` | apps/extension/src/vault/storage.ts:252-273 | a version-1 record loads into a sound vault of the same password and secret |
| `VaultRuns.MigrationTransparent` | apps/extension/src/vault/storage.ts:297-307 | every handler answers, and treats the session, as if the record had been migrated beforehand |

## Left out

- Elliptic curves, hashing, AES-GCM, key derivation functions, BIP-32 and BIP-39, base58 and base64: unseen libraries, symbolic or arbitrary functions here.
- React pages, HTTP clients, price feed, browser wiring, contacts, network resolution and error-code mapping: no state or arithmetic worth a proof.
- `keys.ts`, `hd.ts` and `address.ts`: thin over those libraries; an address is decoded by an arbitrary partial map in the builder and signer, and in `Payments` by any map that agrees with the standard's encoding.
- XMSS metadata, public keys and iteration counts of a vault account: carried along, never branched on.
- A JSON field of the wrong type is an empty string or an `Other...` constructor; a wrong-typed flag or version makes the whole blob `Malformed`.
- Crashes in the middle of a handler, and interleavings with the writers that bypass the queue (first creation, deletion, the migration write-back).
- The session store applies writes in the order they were issued and never fails; the source treats a failed write as a locked wallet on reopening.
- Wiping strings from memory, lock listeners, and secrecy in general.
- Uniqueness of initialization vectors over a vault's whole history: a property of the random source.
- Bech32m.ComputeDecodeRaw: strings are ASCII, because beyond it JavaScript lower-cases the Kelvin sign to k and the code's mixed-case test sees that as a change.
- AddressValidation.ValidExactly: addresses are ASCII, for the same reason.
- DraftWire.WireRoundTrip: `BigInt` also reads empty, padded and hexadecimal text, which `toString` never writes.
- Sighash.MessageBinds: collision freedom is asked of the compared inputs only, since no function onto 32 bytes is injective on all byte strings.
- SessionRules.AutoLock: the clock may jump either way, but the timer fires only when it is asked to; that the platform fires it when due is not modelled.
- VaultRuns.RunRefines: fresh ids are a hypothesis on the run; the source relies on random identifiers.
- VaultWorker.VaultManager.AddAccount: asks for a non-empty draw for a migration's id, as for every handler that loads twice.
- Non-finite and fractional lock timeouts, and amounts beyond 2^53 in `number` fields: numbers are integers.

