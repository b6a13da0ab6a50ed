/**
 * The key-handling functions of src/js-cosmos-wallet.ts that have logic of
 * their own: the entropy check of `generateSeed` and the chain of encodings
 * in `createCosmosAddress`. The random source, the BIP-39 word list, the
 * hash functions and bech32 are library calls passed in as functions.
 */
module KeyMaterial {
  import opened JsValue
  import opened JsonText
  import opened HexCodec
  import opened Outcomes

  /** The number of random bytes a seed is made from. */
  const ENTROPY_BYTES: nat := 32

  /** The human-readable part of every address the wallet makes. */
  const ADDRESS_PREFIX: string := "bitsong"

  /**
   * `generateSeed(randomBytesFunc)`: asks for 32 random bytes as hexadecimal
   * text, reads them into a buffer, rejects a buffer of any other length,
   * and turns the entropy back into hexadecimal text for the mnemonic.
   */
  function GenerateSeed(randomBytesFunc: nat -> string, entropyToMnemonic: string -> string): (r: Outcome<string>)
    ensures r.Failure? ==> r.error == EntropyLength
    ensures r.Success? <==> HexPairs(randomBytesFunc(ENTROPY_BYTES), ENTROPY_BYTES)
  {
    var randomBytes := HexBytes(randomBytesFunc(ENTROPY_BYTES));
    HexLength(randomBytesFunc(ENTROPY_BYTES), ENTROPY_BYTES);
    if |randomBytes| != ENTROPY_BYTES then Failure(EntropyLength)
    else Success(entropyToMnemonic(ToHex(randomBytes)))
  }

  /**
   * A random source that hands back the hexadecimal text of some bytes:
   * exactly 32 of them give the mnemonic of exactly those bytes, any other
   * number is rejected.
   */
  lemma SeedFromBytes(bytes: seq<byte>, entropyToMnemonic: string -> string)
    ensures var source := (n: nat) => ToHex(bytes);
            GenerateSeed(source, entropyToMnemonic)
              == if |bytes| == ENTROPY_BYTES then Success(entropyToMnemonic(ToHex(bytes))) else Failure(EntropyLength)
  {
    BytesRoundTrip(bytes);
  }

  /** The address codecs `createCosmosAddress` calls. */
  datatype AddressCodecs = AddressCodecs(
    sha256: seq<byte> -> seq<byte>,        // crypto-js SHA-256 of a word array
    ripemd160: seq<byte> -> seq<byte>,     // crypto-js RIPEMD-160 of a word array
    bech32: (string, seq<byte>) -> string) // `bech32.encode(prefix, bech32.toWords(bytes))`

  /**
   * `createCosmosAddress(publicKey)`: the key goes through hexadecimal text
   * into SHA-256, the RIPEMD-160 of that comes back through hexadecimal
   * text, and the result is bech32-encoded under the "bitsong" prefix. The
   * hexadecimal detours lose nothing.
   */
  function CreateCosmosAddress(publicKey: seq<byte>, codecs: AddressCodecs): (address: string)
    ensures address == codecs.bech32("bitsong", codecs.ripemd160(codecs.sha256(publicKey)))
  {
    BytesRoundTrip(publicKey);
    BytesRoundTrip(codecs.ripemd160(codecs.sha256(publicKey)));
    var message := HexBytes(ToHex(publicKey));
    var hash := ToHex(codecs.ripemd160(codecs.sha256(message)));
    var words := HexBytes(hash);
    codecs.bech32(ADDRESS_PREFIX, words)
  }
}
