/**
 * The signature object and the envelopes around it: `createSignature`,
 * `signWithPrivateKey`, `sign`, `createSignedTx` and `createBroadcastBody`
 * of src/js-cosmos-wallet.ts.
 *
 * SHA-256, secp256k1 signing and base64 are library calls; they are the
 * fields of a `Crypto` value the caller supplies, and every result is
 * stated in terms of what they return.
 */
module Signing {
  import opened JsString
  import opened JsObject
  import opened JsValue
  import opened JsonText
  import opened HexCodec
  import opened Outcomes
  import opened Wallet

  /** The library calls made while signing. */
  datatype Crypto = Crypto(
    sha256: string -> seq<byte>,                 // crypto-js `sha256(text)`, as the bytes of the digest
    ecdsaSign: (seq<byte>, seq<byte>) -> seq<byte>, // `secp256k1.sign(hash, privateKey).signature`; total: its errors are not modelled
    base64: seq<byte> -> string)                 // `buf.toString('base64')`

  /** The keys of a wallet as `generateWalletFromSeed` returns them: hexadecimal text. */
  datatype WalletKeys = WalletKeys(privateKey: string, publicKey: string)

  /** The only key type the wallet writes. */
  const PUB_KEY_TYPE: string := "tendermint/PubKeySecp256k1"

  // ---------------------------------------------------------------------
  // createSignature
  // ---------------------------------------------------------------------

  /** `createSignature(signature, publicKey)`: both buffers in base64, under a fixed key type. */
  function CreateSignature(signature: seq<byte>, publicKey: seq<byte>, base64: seq<byte> -> string): (r: Json)
    ensures JsonData(r)
  {
    assert !IsArrayIndex("signature") && !IsArrayIndex("pub_key") && !IsArrayIndex("type") && !IsArrayIndex("value");
    Obj([
      Prop("signature", Str(base64(signature))),
      Prop("pub_key", Obj([Prop("type", Str(PUB_KEY_TYPE)), Prop("value", Str(base64(publicKey)))]))])
  }

  /**
   * Whatever the buffers, the signature object holds the base64 signature,
   * and a public key of type "tendermint/PubKeySecp256k1" holding the
   * base64 key; its JSON text reads back as the same object.
   */
  lemma SignatureFields(signature: seq<byte>, publicKey: seq<byte>, base64: seq<byte> -> string)
    ensures var r := CreateSignature(signature, publicKey, base64);
            && Get(r, "signature") == Success(Str(base64(signature)))
            && Get(r, "pub_key").Success?
            && Get(Get(r, "pub_key").value, "type") == Success(Str(PUB_KEY_TYPE))
            && Get(Get(r, "pub_key").value, "value") == Success(Str(base64(publicKey)))
            && Parse(Stringify(r).value) == Some(r)
  {
    var r := CreateSignature(signature, publicKey, base64);
    assert DistinctKeys(r.props);
    FindAt(r.props, 0);
    FindAt(r.props, 1);
    var pk := r.props[1].value.props;
    assert DistinctKeys(pk);
    FindAt(pk, 0);
    FindAt(pk, 1);
    StringifyRoundTrip(r);
  }

  // ---------------------------------------------------------------------
  // signWithPrivateKey and sign
  // ---------------------------------------------------------------------

  /**
   * `signWithPrivateKey(signMessage, privateKey)`: the digest is written as
   * hexadecimal text and read back into a buffer, the key is read from its
   * hexadecimal text, and the digest is signed with it. The detour through
   * hexadecimal text loses nothing: what is signed is exactly the SHA-256
   * digest of the message.
   */
  function SignWithPrivateKey(signMessage: string, privateKey: string, crypto: Crypto): (signature: seq<byte>)
    ensures signature == crypto.ecdsaSign(crypto.sha256(signMessage), HexBytes(privateKey))
  {
    BytesRoundTrip(crypto.sha256(signMessage));
    var signHash := HexBytes(ToHex(crypto.sha256(signMessage)));
    crypto.ecdsaSign(signHash, HexBytes(privateKey))
  }

  /**
   * `sign(jsonTx, wallet, requestMetaData)`: the sign message, signed with
   * the wallet's private key, wrapped with the wallet's public key.
   */
  function Sign(tx: Json, keys: WalletKeys, meta: Json, crypto: Crypto): (r: Outcome<Json>)
    ensures r.Failure? <==> CreateSignMessage(tx, meta).Failure?
    ensures r.Failure? ==> r.error == CreateSignMessage(tx, meta).error
  {
    var signMessage :- CreateSignMessage(tx, meta);
    var signature := SignWithPrivateKey(signMessage, keys.privateKey, crypto);
    var pubKeyBuffer := HexBytes(keys.publicKey);
    Success(CreateSignature(signature, pubKeyBuffer, crypto.base64))
  }

  /**
   * The signature object `sign` returns carries the signature of the
   * SHA-256 digest of the sign message, under the private key, and the
   * public key, each in base64.
   */
  lemma SignedMessage(tx: Json, keys: WalletKeys, meta: Json, crypto: Crypto)
    requires CreateSignMessage(tx, meta).Success?
    ensures var digest := crypto.sha256(CreateSignMessage(tx, meta).value);
            var signature := crypto.ecdsaSign(digest, HexBytes(keys.privateKey));
            Sign(tx, keys, meta, crypto) == Success(CreateSignature(signature, HexBytes(keys.publicKey), crypto.base64))
  {
  }

  /** Signing does not see the order in which the transaction's or the meta object's properties were written. */
  lemma SignIgnoresKeyOrder(tx1: Json, tx2: Json, keys: WalletKeys, meta1: Json, meta2: Json, crypto: Crypto)
    requires WellFormed(tx1) && WellFormed(tx2) && SameUpToKeyOrder(tx1, tx2)
    requires WellFormed(meta1) && WellFormed(meta2) && SameUpToKeyOrder(meta1, meta2)
    ensures Sign(tx1, keys, meta1, crypto) == Sign(tx2, keys, meta2, crypto)
  {
    SignMessageIgnoresKeyOrder(tx1, tx2, meta1, meta2);
  }

  // ---------------------------------------------------------------------
  // createSignedTx
  // ---------------------------------------------------------------------

  /**
   * `Object.assign({}, tx, {signatures: [signature]})`: a fresh object with
   * the transaction's own properties copied in, then `signatures` set.
   * Values are immutable here, so the transaction itself is never changed.
   */
  function CreateSignedTx(tx: Json, signature: Json): (r: Json)
    ensures r.Obj?
  {
    Obj(AssignFrom(AssignFrom([], OwnEntries(tx)), [Prop("signatures", Arr([signature]))]))
  }

  /**
   * The signed transaction of an object holds `[signature]` under
   * `signatures` and every other property of the transaction unchanged;
   * its names are the transaction's, followed by `signatures` when the
   * transaction had none.
   */
  lemma SignedTxFields(tx: Json, signature: Json)
    requires tx.Obj? && Shaped(tx.props)
    ensures var r := CreateSignedTx(tx, signature);
            && Lookup(r.props, "signatures") == Arr([signature])
            && (forall k :: k != "signatures" ==> Lookup(r.props, k) == Lookup(tx.props, k))
            && Keys(r.props) == if "signatures" in Keys(tx.props) then Keys(tx.props) else Keys(tx.props) + ["signatures"]
  {
    AssignCopies(tx.props);
    SetSignatures(tx.props, signature);
    SignaturesSet(tx.props, signature);
  }

  /** Copying `{signatures: [signature]}` into `ps` sets that one property. */
  lemma SetSignatures(ps: seq<Prop<Json>>, signature: Json)
    ensures AssignFrom(ps, [Prop("signatures", Arr([signature]))]) == Put(ps, "signatures", Arr([signature]))
  {
    var source := [Prop("signatures", Arr([signature]))];
    assert source[1..] == [];
  }

  /** `o.signatures = [signature]`. */
  lemma SignaturesSet(ps: seq<Prop<Json>>, signature: Json)
    ensures var r := Put(ps, "signatures", Arr([signature]));
            && Lookup(r, "signatures") == Arr([signature])
            && (forall k :: k != "signatures" ==> Lookup(r, k) == Lookup(ps, k))
            && Keys(r) == if "signatures" in Keys(ps) then Keys(ps) else Keys(ps) + ["signatures"]
  {
    var v := Arr([signature]);
    forall k ensures Find(Put(ps, "signatures", v), k) == if k == "signatures" then Some(v) else Find(ps, k) {
      PutFind(ps, "signatures", v, k);
    }
    assert !IsArrayIndex("signatures");
    PutKeys(ps, "signatures", v);
  }

  /** Nothing to copy from undefined or null: the signed transaction holds `signatures` alone. */
  lemma SignedTxOfNullish(tx: Json, signature: Json)
    requires Nullish(tx)
    ensures CreateSignedTx(tx, signature) == Obj([Prop("signatures", Arr([signature]))])
  {
    assert AssignFrom([], OwnEntries(tx)) == [];
    SetSignatures([], signature);
    assert !IsArrayIndex("signatures");
    assert Put([], "signatures", Arr([signature])) == [Prop("signatures", Arr([signature]))];
  }

  /** Signing a signed transaction again keeps only the latest signature. */
  lemma SignedTxLatest(tx: Json, first: Json, second: Json)
    ensures CreateSignedTx(CreateSignedTx(tx, first), second) == CreateSignedTx(tx, second)
  {
    var copied := AssignFrom([], OwnEntries(tx));
    AssignFromShaped([], OwnEntries(tx));
    SetSignatures(copied, first);
    SetSignatures(copied, second);
    var once := Put(copied, "signatures", Arr([first]));
    PutShaped(copied, "signatures", Arr([first]));
    AssignCopies(once);
    SetSignatures(once, second);
    PutPut(copied, "signatures", Arr([first]), Arr([second]));
  }

  /** A well-formed transaction and signature give a well-formed signed transaction. */
  lemma SignedTxWellFormed(tx: Json, signature: Json)
    requires WellFormed(tx) && WellFormed(signature)
    ensures WellFormed(CreateSignedTx(tx, signature))
  {
    var entries := OwnEntries(tx);
    EntriesWellFormed(tx);
    AssignFromValues([], entries, WellFormed);
    var copied := AssignFrom([], entries);
    AssignFromShaped([], entries);
    var v := Arr([signature]);
    assert WellFormed(v);
    AssignFromValues(copied, [Prop("signatures", v)], WellFormed);
    AssignFromShaped(copied, [Prop("signatures", v)]);
  }

  /** The properties `Object.assign` copies out of a well-formed value are well formed. */
  lemma EntriesWellFormed(tx: Json)
    requires WellFormed(tx)
    ensures forall i :: 0 <= i < |OwnEntries(tx)| ==> WellFormed(OwnEntries(tx)[i].value)
  {
  }

  // ---------------------------------------------------------------------
  // createBroadcastBody
  // ---------------------------------------------------------------------

  /** `createBroadcastBody(signedTx)`: the JSON text of `{tx: signedTx, return: "block"}`. */
  function CreateBroadcastBody(signedTx: Json): (text: string)
    ensures JsonData(signedTx) ==>
              Parse(text) == Some(Obj([Prop("tx", signedTx), Prop("return", Str("block"))]))
    ensures signedTx.Undefined? ==> Parse(text) == Some(Obj([Prop("return", Str("block"))]))
  {
    var body := Obj([Prop("tx", signedTx), Prop("return", Str("block"))]);
    BroadcastRoundTrip(signedTx);
    Stringify(body).value
  }

  lemma BroadcastRoundTrip(signedTx: Json)
    ensures var body := Obj([Prop("tx", signedTx), Prop("return", Str("block"))]);
            && (JsonData(signedTx) ==> Parse(Ser(body)) == Some(body))
            && (signedTx.Undefined? ==> Parse(Ser(body)) == Some(Obj([Prop("return", Str("block"))])))
  {
    if JsonData(signedTx) {
      BodyRoundTrip(signedTx);
    }
    if signedTx.Undefined? {
      BodyWithoutTx();
    }
  }

  lemma BodyRoundTrip(signedTx: Json)
    requires JsonData(signedTx)
    ensures var body := Obj([Prop("tx", signedTx), Prop("return", Str("block"))]);
            Parse(Ser(body)) == Some(body)
  {
    var body := Obj([Prop("tx", signedTx), Prop("return", Str("block"))]);
    assert !IsArrayIndex("tx") && !IsArrayIndex("return");
    assert JsonData(body);
    StringifyRoundTrip(body);
  }

  /** An undefined transaction is left out of the text, as `JSON.stringify` leaves out undefined members. */
  lemma BodyWithoutTx()
    ensures Parse(Ser(Obj([Prop("tx", Undefined), Prop("return", Str("block"))]))) == Some(Obj([Prop("return", Str("block"))]))
  {
    var body := Obj([Prop("tx", Undefined), Prop("return", Str("block"))]);
    var only := Obj([Prop("return", Str("block"))]);
    assert SerProps(body.props) == SerProps(only.props);
    assert !IsArrayIndex("return");
    assert JsonData(only);
    StringifyRoundTrip(only);
  }

}
