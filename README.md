# js-cosmos-wallet signing pipeline, modelled in Dafny

This project models the signing core of `src/js-cosmos-wallet.ts` and proves
what it computes:

- `prepareSignBytes` turns a transaction into its canonical form.
  - Arrays are mapped element by element.
  - Strings, numbers, booleans and `undefined` are returned as they are.
  - An object is rebuilt from its names in `Array.prototype.sort()` order.
  - Names whose value is `null` or `undefined` are dropped.
- `createSignMessage` builds the StdSignMsg envelope and canonicalises it.
  - The envelope is `fee{amount, gas}`, `memo`, `msgs`, `sequence`, `account_number`, `chain_id`.
  - `msgs` is taken from the transaction's `msg`.
  - A falsy amount becomes `[]`.
  - The result is written with `JSON.stringify`.
- `createSignature`, `signWithPrivateKey` and `sign` produce the signature object.
- `createSignedTx` attaches the signature to the transaction.
- `createBroadcastBody` wraps the signed transaction for broadcast.
- Two functions have a little logic of their own:
  - `generateSeed` checks the entropy length;
  - `createCosmosAddress` chains the address encodings.

Values are a closed datatype `Json`: undefined, null, booleans, integers,
strings, arrays and objects. An object is its list of own properties in
JavaScript enumeration order, so insertion order is visible.

- `Put` is the property assignment `o[k] = v`.
  - An existing name keeps its place.
  - A new array-index name (`"0"`, `"17"`) goes among the index names by numeric value.
  - Any other new name is appended.
- `AssignFrom` is `Object.assign`.
- `Get` is a property read; it throws on `undefined` and `null`.
- Exceptions are a `Result`. Its errors are:
  - `NullToObject`: the `TypeError` of `Object.keys(null)`;
  - `ReadOfNullish(k)`: reading `k` of undefined or null;
  - `EntropyLength`.

Modules, one per file:

| module | file | what it holds |
|---|---|---|
| `Outcomes` | `outcomes.dfy` | `Option` and `Result` |
| `JsString` | `js_string.dfy` | UTF-16 code-unit order (`Less`) and array-index names |
| `JsObject` | `js_object.dfy` | property lists, `Put`, `Object.assign` |
| `JsValue` | `js_value.dfy` | `Json`, `Get`, truthiness, well-formedness, "same up to key order" |
| `Canonical` | `canonical.dfy` | `prepareSignBytes` |
| `JsonText` | `json_text.dfy` | `JSON.stringify`, and a parser as its partner |
| `HexCodec` | `hex_codec.dfy` | `Buffer` hexadecimal decoding and encoding |
| `Wallet` | `wallet.dfy` | `createSignMessage`, with a worked example |
| `Signing` | `signing.dfy` | the signature object, `sign`, `createSignedTx`, `createBroadcastBody` |
| `KeyMaterial` | `key_material.dfy` | the entropy check and the address composition |

Two views of `prepareSignBytes`:

- `Canonical.Prepare` is the specification: a recursive function with the
  object case as a fold over the sorted names.
- `Canonical.PrepareSignBytes` is the procedure as the source runs it.
  - A loop maps the array.
  - A loop over the sorted names sets each kept property on a fresh object.
  - It is proved equal to `Prepare`.

Library calls are parameters. These are SHA-256, RIPEMD-160, secp256k1
signing, base64, bech32, the BIP-39 word list and the random source. They
are passed as function-typed fields of `Signing.Crypto` and
`KeyMaterial.AddressCodecs`, or as function parameters of
`KeyMaterial.GenerateSeed`. Every result is stated in terms of what those
calls return.

The code decides these points; the commonly stated rule "keys sorted
lexicographically by code point" does not:

- Names are ordered by UTF-16 code units, because that is what the default
  comparator of `sort()` compares. This differs from code-point order when
  supplementary characters meet characters U+E000–U+FFFF.
- The result object enumerates array-index names first, in numeric order
  (`"9"` before `"10"`), whatever order they were set in. Only then come the
  other names in sorted order. `Canonical.PrepareObject` states exactly this
  (`EnumAscending`). `Canonical.PrepareSortsNames` gives the plain ascending
  order when no name is an array index.
- The comment above `prepareSignBytes` speaks of stripping `{type, value}`
  wrappers. The code strips nothing, and neither does the model.
- A missing fee is not a dedicated error. It is the `TypeError` of reading
  `amount` of undefined (`ReadOfNullish("amount")`).

## Model

| member | source | states |
|---|---|---|
| Canonical.SortKeys | src/js-cosmos-wallet.ts:88-89 | the sorted names are a permutation of the names, in non-decreasing code-unit order, and strictly ascending when the names are distinct |
| Canonical.Prepare | src/js-cosmos-wallet.ts:77-96 | the only error is `Object.keys(null)`; arrays stay arrays, objects stay objects, and strings, numbers, booleans and undefined come back unchanged |
| Canonical.PrepareItems | src/js-cosmos-wallet.ts:78-80 | mapping an array fails only with `Object.keys(null)` and otherwise keeps its length |
| Canonical.PrepareSignBytes | src/js-cosmos-wallet.ts:77-96 | the procedure (array `map`, sorted-name `forEach` that skips null and undefined and sets the prepared value) returns exactly `Prepare(v)` |
| Canonical.PrepareElements | src/js-cosmos-wallet.ts:78-80 | the `map` loop over an array's elements returns exactly `PrepareItems`: the first failing element's error, or every element prepared |
| Canonical.PrepareMembers | src/js-cosmos-wallet.ts:87-95 | the `forEach` loop over the sorted names returns exactly the fold `PrepareProps` over them, starting from an empty object |
| Canonical.PrepareItemsAt | src/js-cosmos-wallet.ts:78-80 | when an array is mapped, each of its elements prepares to the element at the same position |
| Canonical.PrepareItemsSpec | src/js-cosmos-wallet.ts:78-80 | an array prepares exactly when every element does, and element i of the result is the prepared element i |
| Canonical.PreparePropsSpec | src/js-cosmos-wallet.ts:87-95 | the name loop succeeds exactly when every remaining non-nullish value prepares; the object it builds is in enumeration order and maps each kept name to its prepared value |
| Canonical.PrepareObject | src/js-cosmos-wallet.ts:87-95 | an object prepares exactly when all its non-nullish values do; the result's names are exactly the names whose value is neither null nor undefined, each mapped to its prepared value, in enumeration order |
| Canonical.SortedNames | src/js-cosmos-wallet.ts:88-89 | `Object.keys(o).sort()` of an object is strictly ascending, has exactly the object's names, and so covers every non-nullish one |
| Canonical.PrepareSortsNames | src/js-cosmos-wallet.ts:87-95 | with no array-index names, the result's names are strictly ascending in code-unit order |
| Canonical.PrepareFailsIffNull | src/js-cosmos-wallet.ts:79-88 | preparing fails exactly when a null is reached as the value itself or as an array element, at any depth (null properties are skipped) |
| Canonical.PrepareCanonical | src/js-cosmos-wallet.ts:77-96 | every result is in canonical form: no null anywhere, no undefined property, names in enumeration order at every depth |
| Canonical.CanonicalFixed | src/js-cosmos-wallet.ts:77-96 | a value in canonical form is returned unchanged |
| Canonical.PrepareIdempotent | src/js-cosmos-wallet.ts:77-96 | preparing a prepared value gives it back: `prepareSignBytes(prepareSignBytes(x)) == prepareSignBytes(x)` |
| Canonical.PrepareIgnoresKeyOrder | src/js-cosmos-wallet.ts:88-89 | two values that differ only in the order their objects list properties, at any depth, prepare to the same result or the same error |
| Canonical.PrepareIgnoresInsertionOrder | src/js-cosmos-wallet.ts:88-89 | the same properties inserted in another order give the same result |
| JsString.LessIsCodeUnitOrder | src/js-cosmos-wallet.ts:89 | the order used for names is exactly lexicographic order on UTF-16 code units, the order of `sort()` without a comparator |
| JsObject.Put | src/js-cosmos-wallet.ts:93 | after `o[k] = v` the object holds the property k with value v, and it has one more property exactly when k was not a name of it (what else stays is stated by PutFind and PutKeys) |
| JsObject.AssignFrom | src/js-cosmos-wallet.ts:166 | `Object.assign` leaves at least as many properties as the target had and at most one more per source property, and the source's last property ends up set (which names and values result is stated by AssignFromKeys and AssignFromFind) |
| JsObject.LastValue | src/js-cosmos-wallet.ts:166 | the value of the last source property with a given name: absent exactly when the source lacks the name, and otherwise the value of one of its properties with that name |
| JsObject.AssignFromKeys | src/js-cosmos-wallet.ts:166 | after `Object.assign(target, source)` the names are exactly those of the target and those of the source |
| JsObject.AssignFromFind | src/js-cosmos-wallet.ts:166 | after `Object.assign(target, source)` every name reads as the source's last value for it, or as in the target when the source lacks it |
| JsObject.PutFind | src/js-cosmos-wallet.ts:93 | after `sorted[key] = value` the name reads as the value and every other name reads as before |
| JsObject.PutKeys | src/js-cosmos-wallet.ts:93 | setting a property adds that name and no other, at the end when it is new and not an array index |
| JsObject.AssignCopies | src/js-cosmos-wallet.ts:166 | `Object.assign({}, o)` reproduces a real object exactly, order included |
| JsObject.PutPut | src/js-cosmos-wallet.ts:166-168 | setting the same name twice is setting it once with the second value |
| JsValue.Get | src/js-cosmos-wallet.ts:112-124 | a property read throws exactly on undefined and null, and the error names the property read |
| JsValue.StrEntriesAreCodeUnits | src/js-cosmos-wallet.ts:166 | for a string with no supplementary character, the index properties `Object.assign` copies are its UTF-16 code units, one each, and `length` counts them |
| JsValue.GetIgnoresKeyOrder | src/js-cosmos-wallet.ts:116-124 | a property read gives the same error, or values that again differ only in key order, on two values that differ only in key order |
| JsonText.Ser | src/js-cosmos-wallet.ts:120 | the text of a value is never empty, and strings, arrays and objects are written between `"`, `[ ]` and `{ }`; that it reads back as the value is StringifyRoundTrip |
| JsonText.Stringify | src/js-cosmos-wallet.ts:120 | `JSON.stringify` gives no text exactly for undefined |
| JsonText.StringifyRoundTrip | src/js-cosmos-wallet.ts:120 | the compact text of any JSON data value reads back as that value |
| Wallet.AmountOrEmpty | src/js-cosmos-wallet.ts:116 | the default for a falsy amount is always truthy, and is the amount itself whenever that is truthy |
| Wallet.SignEnvelope | src/js-cosmos-wallet.ts:115-128 | the object literal throws only on reading `fee` of a nullish transaction or `amount` of a nullish fee; otherwise it has the six names fee, memo, msgs, sequence, account_number, chain_id in the written order, the last three holding the destructured meta fields |
| Wallet.SignDoc | src/js-cosmos-wallet.ts:112-128 | the sign document is an object; the only errors are the reads of `sequence`, `fee` and `amount` on undefined or null and `Object.keys(null)` |
| Wallet.CreateSignMessage | src/js-cosmos-wallet.ts:110-130 | the message exists exactly when the sign document does, which is then an object, and the message is its `JSON.stringify` text |
| Wallet.SignMessageErrors | src/js-cosmos-wallet.ts:112-117 | nullish metadata throws on `sequence`, a nullish transaction on `fee`, a nullish fee on `amount`; past those reads the only error is `Object.keys(null)` |
| Wallet.SignMessageFields | src/js-cosmos-wallet.ts:115-128 | the sign document is an object with strictly ascending names drawn from the six envelope names, holding a name exactly when its part is not nullish, each the prepared part, `msgs` from the transaction's `msg` |
| Wallet.SignMessageFee | src/js-cosmos-wallet.ts:114-118 | the fee holds the prepared amount, or `[]` when the amount is falsy, and the prepared gas, names `amount` then `gas`, `gas` dropped when nullish |
| Wallet.SignMessageOrder | src/js-cosmos-wallet.ts:120-129 | the names are exactly `account_number, chain_id, fee, memo, msgs, sequence` in that order when memo, msg, sequence, account_number and chain_id are all present, and only then |
| Wallet.SignMessageIgnoresKeyOrder | src/js-cosmos-wallet.ts:110-130 | transactions and metadata that differ only in key order give the same message or the same error |
| Wallet.ExampleSignMessage | src/js-cosmos-wallet.ts:110-130 | tx `{fee:{gas:"5000"},memo:"",msg:[{type:"x",value:{a:1,b:2}}]}` with sequence "0", account_number "1", chain_id "test" gives exactly `{"account_number":"1","chain_id":"test","fee":{"amount":[],"gas":"5000"},"memo":"","msgs":[{"type":"x","value":{"a":1,"b":2}}],"sequence":"0"}` |
| Wallet.ExampleSignDoc | src/js-cosmos-wallet.ts:115-128 | the example's sign document is its envelope with the names in ascending order and the missing amount replaced by `[]` |
| Wallet.ExampleText | src/js-cosmos-wallet.ts:120 | the example's sign document is written as the text above |
| HexCodec.ToHex | src/js-cosmos-wallet.ts:134 | hexadecimal text has two digits per byte |
| HexCodec.HexBytes | src/js-cosmos-wallet.ts:28 | `Buffer.from(text, 'hex')` never yields more bytes than there are digit pairs in the text |
| HexCodec.HexBytesSpec | src/js-cosmos-wallet.ts:28 | `Buffer.from(text, 'hex')` reads byte i from digits 2i and 2i+1, and stops at the first pair that is not two hexadecimal digits |
| HexCodec.HexBytesAt | src/js-cosmos-wallet.ts:28 | every byte of the decoded buffer comes from the two hexadecimal digits at its position in the text |
| HexCodec.BytesRoundTrip | src/js-cosmos-wallet.ts:134 | reading back the hexadecimal text of a buffer gives the buffer |
| HexCodec.HexLength | src/js-cosmos-wallet.ts:28-29 | the decoded length is n exactly when the text starts with n hexadecimal pairs and no further pair follows |
| KeyMaterial.GenerateSeed | src/js-cosmos-wallet.ts:27-33 | the only error is "Entropy has incorrect length", raised exactly when the random text does not decode to 32 bytes |
| KeyMaterial.SeedFromBytes | src/js-cosmos-wallet.ts:27-33 | a random source returning the hex of 32 bytes yields the mnemonic of exactly those bytes; any other count is rejected |
| KeyMaterial.CreateCosmosAddress | src/js-cosmos-wallet.ts:41-48 | the address is the "bitsong" bech32 encoding of RIPEMD-160 of SHA-256 of the public key: the two hexadecimal detours lose nothing |
| Signing.CreateSignature | src/js-cosmos-wallet.ts:139-150 | the signature object is JSON data (no undefined, real object shapes) |
| Signing.SignatureFields | src/js-cosmos-wallet.ts:143-149 | for any buffers, `signature` is the base64 signature, `pub_key.type` is "tendermint/PubKeySecp256k1", `pub_key.value` the base64 key, and its JSON text reads back as the object |
| Signing.SignWithPrivateKey | src/js-cosmos-wallet.ts:133-137 | `signWithPrivateKey` signs exactly the SHA-256 digest of the message with the key read from hexadecimal: the digest's hexadecimal round trip loses nothing |
| Signing.Sign | src/js-cosmos-wallet.ts:154-162 | `sign` fails exactly when `createSignMessage` does, with its error |
| Signing.SignedMessage | src/js-cosmos-wallet.ts:154-162 | on success `sign` returns the signature object of the digest of the sign message under the private key, with the public key |
| Signing.SignIgnoresKeyOrder | src/js-cosmos-wallet.ts:154-162 | signing does not depend on the order of the transaction's or the metadata's properties |
| Signing.CreateSignedTx | src/js-cosmos-wallet.ts:165-169 | the signed transaction is always an object |
| Signing.SignedTxFields | src/js-cosmos-wallet.ts:165-169 | for a transaction object: `signatures` is `[signature]`, every other name reads as in the transaction, and the names are the transaction's, plus `signatures` at the end when it was not there |
| Signing.SignedTxOfNullish | src/js-cosmos-wallet.ts:166 | an undefined or null transaction gives `{signatures: [signature]}` |
| Signing.SignedTxLatest | src/js-cosmos-wallet.ts:165-169 | signing a signed transaction again keeps only the latest signature: an overwrite, never an append |
| Signing.SignedTxWellFormed | src/js-cosmos-wallet.ts:165-169 | a well-formed transaction and signature give a well-formed signed transaction |
| Signing.CreateBroadcastBody | src/js-cosmos-wallet.ts:172-177 | the body reads back as `{tx: signedTx, return: "block"}` for any JSON data transaction, and as `{return: "block"}` when the transaction is undefined |

## Left out

- Mutation is not modelled: the model works on immutable values. `createSignedTx` copies into a fresh object and `prepareSignBytes` builds a fresh one, so no input is ever changed, and there is no aliasing to track.
- Floating-point numbers: `Num` holds integers only. Fractions, NaN and the infinities are not modelled.
- JsonText.Ser: every integer is written exactly, in plain decimal. That is JavaScript's text only for the safe integers (|n| <= 2^53 - 1). A larger number is a rounded double (9007199254740993 is written 9007199254740992), and from 10^21 on it is written with an exponent (`1e+21`). Neither is modelled.
- Strings with lone surrogate code units: a Dafny `string` holds Unicode scalar values, so they cannot be written down. `JSON.stringify`'s `\u` escaping of lone surrogates is therefore not modelled, and the parser does not read surrogate escapes.
- JsValue.Get, JsValue.OwnEntries and Signing.CreateSignedTx index a string by character, where JavaScript indexes by UTF-16 code unit. They agree for strings with no supplementary character (StrEntriesAreCodeUnits). A supplementary character is one index property in the model but two in JavaScript, whose halves are lone surrogates (above). `Object.assign({}, "a😀", …)` therefore copies `"0"`, `"1"` and `"2"` in JavaScript, and only `"0"` and `"1"` in the model. The string's `length` does count code units.
- Prototypes, getters, `toJSON`, symbols, non-enumerable and inherited properties, and the `__proto__` name are not modelled. Objects are plain data objects.
- Arrays with holes and typed arrays are not modelled. `Array.isArray` is exactly `Arr`.
- JsonText.StringifyRoundTrip: stated for JSON data only, i.e. values with no undefined anywhere. `JSON.stringify` drops undefined properties and writes undefined array elements as `null`, so such values do not read back as themselves.
- Signing.CreateSignedTx: its own contract states only that the result is an object. What the object holds is stated by `SignedTxFields` for transaction objects. For an array or string transaction only `SignedTxLatest` and `SignedTxWellFormed` apply; `Object.assign` copies its index properties, by character for a string (see the line on string indexing).
- Signing.Sign: the errors secp256k1 raises for a malformed or out-of-range private key are not modelled. `ecdsaSign` is total, so `Sign` fails only when `CreateSignMessage` does. In JavaScript, a private key such as `"zz"` decodes to an empty buffer, and `secp256k1.sign` throws on it. The wallet is a record of two hexadecimal strings, so the model has no failing read of `wallet.privateKey` either.
- SHA-256, RIPEMD-160, secp256k1 signing, base64, bech32 (`toWords` and `encode`) and `bip39.entropyToMnemonic` are library code. They are parameters, and nothing is proved about what they compute. crypto-js's `Hex.parse` is taken to agree with `Buffer.from(text, 'hex')` on the well-formed hexadecimal text it is given here.
- `generateWallet`, `generateWalletFromSeed`, `deriveMasterKey` and `deriveKeypair` are not modelled. They are BIP-39 and BIP-32 library calls on a fixed path plus randomness. `standardRandomBytesFunc` is not modelled either; it is the random source that `GenerateSeed` takes as a parameter.
- KeyMaterial.GenerateSeed: the random source is a function from the requested count to text. A source that returns something other than a string is not modelled.
- HexCodec.HexBytes follows current Node.js: decoding stops at the first pair that is not two hexadecimal digits. Older `parseInt`-based decoders read a pair like `"1g"` as a digit.
