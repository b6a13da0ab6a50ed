/**
 * `createSignMessage` of src/js-cosmos-wallet.ts: the envelope built from
 * the transaction and the meta object, its canonical form, and its JSON
 * text, with a worked example.
 */
module Wallet {
  import opened JsString
  import opened JsObject
  import opened JsValue
  import opened Canonical
  import opened JsonText
  import opened Outcomes

  // ---------------------------------------------------------------------
  // createSignMessage
  // ---------------------------------------------------------------------

  /** The names of the sign message in the order `prepareSignBytes` puts them. */
  const SIGN_ORDER: seq<string> := ["account_number", "chain_id", "fee", "memo", "msgs", "sequence"]

  /** `jsonTx.fee.amount || []`: a falsy amount becomes an empty array. */
  function AmountOrEmpty(amount: Json): (r: Json)
    ensures Truthy(r)
    ensures Truthy(amount) ==> r == amount
  {
    if Truthy(amount) then amount else Arr([])
  }

  /**
   * The object literal `createSignMessage` hands to `prepareSignBytes`, in
   * the order the source writes it. The transaction's `msg` is renamed to
   * the protocol's `msgs` here and nowhere else; `fee` is rebuilt from
   * `jsonTx.fee`, which throws when the transaction or its fee is undefined
   * or null.
   */
  function SignEnvelope(tx: Json, sequence: Json, accountNumber: Json, chainId: Json): (r: Outcome<seq<Prop<Json>>>)
    ensures r.Failure? ==> r.error == ReadOfNullish("fee") || r.error == ReadOfNullish("amount")
    ensures r.Success? ==> EnvelopeShape(r.value)
    ensures r.Success? ==> r.value[3].value == sequence && r.value[4].value == accountNumber && r.value[5].value == chainId
  {
    var fee :- Get(tx, "fee");
    var amount :- Get(fee, "amount");
    // Past these two reads `tx` and `fee` are neither undefined nor null, so the others cannot throw.
    var gas := Get(fee, "gas").value;
    var memo := Get(tx, "memo").value;
    var msg := Get(tx, "msg").value;
    Success([
      Prop("fee", Obj([Prop("amount", AmountOrEmpty(amount)), Prop("gas", gas)])),
      Prop("memo", memo),
      Prop("msgs", msg),
      Prop("sequence", sequence),
      Prop("account_number", accountNumber),
      Prop("chain_id", chainId)])
  }

  /**
   * The canonical sign document: the parameter `{sequence, account_number,
   * chain_id}` is destructured first (throwing on undefined or null), then
   * the envelope is built and prepared.
   */
  function SignDoc(tx: Json, meta: Json): (r: Outcome<Json>)
    ensures r.Success? ==> r.value.Obj?
    ensures r.Failure? ==>
              || r.error == ReadOfNullish("sequence") || r.error == ReadOfNullish("fee")
              || r.error == ReadOfNullish("amount") || r.error == NullToObject
  {
    var sequence :- Get(meta, "sequence");
    // Once `sequence` is read, `meta` is an object and the other two reads cannot throw.
    var accountNumber := Get(meta, "account_number").value;
    var chainId := Get(meta, "chain_id").value;
    var envelope :- SignEnvelope(tx, sequence, accountNumber, chainId);
    Prepare(Obj(envelope))
  }

  /** `createSignMessage(jsonTx, meta)`: the compact JSON text of the sign document. */
  function CreateSignMessage(tx: Json, meta: Json): (r: Outcome<string>)
    ensures r.Success? <==> SignDoc(tx, meta).Success?
    ensures r.Success? ==> SignDoc(tx, meta).value.Obj? && Stringify(SignDoc(tx, meta).value) == Some(r.value)
  {
    var doc :- SignDoc(tx, meta);
    Success(Ser(doc))
  }

  /**
   * What the sign message throws: reading the metadata or the transaction
   * when they are undefined or null, reading `amount` of a missing fee, and
   * `Object.keys(null)` inside `prepareSignBytes`.
   */
  lemma SignMessageErrors(tx: Json, meta: Json)
    ensures Nullish(meta) ==> CreateSignMessage(tx, meta) == Failure(ReadOfNullish("sequence"))
    ensures !Nullish(meta) && Nullish(tx) ==> CreateSignMessage(tx, meta) == Failure(ReadOfNullish("fee"))
    ensures !Nullish(meta) && !Nullish(tx) && Nullish(Get(tx, "fee").value) ==>
              CreateSignMessage(tx, meta) == Failure(ReadOfNullish("amount"))
    ensures !Nullish(meta) && !Nullish(tx) && !Nullish(Get(tx, "fee").value) ==>
              (CreateSignMessage(tx, meta).Failure? ==> CreateSignMessage(tx, meta).error == NullToObject)
  {
    if !Nullish(meta) && !Nullish(tx) {
      var sequence := Get(meta, "sequence").value;
      var accountNumber := Get(meta, "account_number").value;
      var chainId := Get(meta, "chain_id").value;
      var fee := Get(tx, "fee").value;
      if Nullish(fee) {
        EnvelopeOfNullishFee(tx, sequence, accountNumber, chainId);
      } else {
        EnvelopeBuilt(tx, sequence, accountNumber, chainId);
      }
    }
  }

  /**
   * The value a member of the sign document ends up with: the prepared
   * value, or undefined (no such member) for a null or undefined one.
   */
  function Member(v: Json): Json
  {
    if Nullish(v) then Undefined
    else match Prepare(v)
      case Success(w) => w
      case Failure(_) => Undefined
  }

  /** The envelope lists the six names of the sign message, in the order the source writes them. */
  predicate EnvelopeShape(env: seq<Prop<Json>>)
  {
    && |env| == 6 && env[0].value.Obj?
    && env[0].key == "fee" && env[1].key == "memo" && env[2].key == "msgs"
    && env[3].key == "sequence" && env[4].key == "account_number" && env[5].key == "chain_id"
  }

  /** The names of the envelope, none of them an array index. */
  lemma EnvelopeNames(env: seq<Prop<Json>>)
    requires EnvelopeShape(env)
    ensures DistinctKeys(env)
    ensures forall m :: 0 <= m < |env| ==> !IsArrayIndex(env[m].key)
    ensures forall k :: k in Keys(env) <==> k in SIGN_ORDER
  {
    assert Keys(env) == ["fee", "memo", "msgs", "sequence", "account_number", "chain_id"];
  }

  /** Preparing the envelope: each member prepared, or dropped when null or undefined. */
  lemma EnvelopeMembers(env: seq<Prop<Json>>, doc: Json)
    requires EnvelopeShape(env) && Prepare(Obj(env)) == Success(doc)
    ensures doc.Obj?
    ensures forall m :: 0 <= m < 6 ==> Lookup(doc.props, env[m].key) == Member(env[m].value)
    ensures forall m :: 0 <= m < 6 ==> (Member(env[m].value).Undefined? <==> Nullish(env[m].value))
  {
    EnvelopeNames(env);
    PrepareObject(env);
    forall m | 0 <= m < 6
      ensures Lookup(doc.props, env[m].key) == Member(env[m].value)
      ensures Member(env[m].value).Undefined? <==> Nullish(env[m].value)
    {
      FindAt(env, m);
    }
  }

  /** Preparing the envelope: its names in ascending order, those whose members are not dropped. */
  lemma EnvelopeKeys(env: seq<Prop<Json>>, doc: Json)
    requires EnvelopeShape(env) && Prepare(Obj(env)) == Success(doc)
    ensures doc.Obj? && StrictlyAscending(Keys(doc.props))
    ensures forall k :: k in Keys(doc.props) <==> k in SIGN_ORDER && !Lookup(doc.props, k).Undefined?
  {
    EnvelopeNames(env);
    PrepareObject(env);
    PrepareSortsNames(env);
    var qs := doc.props;
    forall k ensures k in Keys(qs) <==> k in SIGN_ORDER && !Lookup(qs, k).Undefined? {
      if k in Keys(qs) {
        var v := Lookup(env, k);
        assert !Nullish(v) && Find(qs, k) == Some(Prepare(v).value);
      }
      IndexOfKeys(qs, k);
    }
  }

  /** The prepared envelope lists all six names in ascending order exactly when none of its members is dropped. */
  lemma EnvelopeOrder(env: seq<Prop<Json>>, doc: Json)
    requires EnvelopeShape(env) && Prepare(Obj(env)) == Success(doc)
    ensures doc.Obj?
    ensures Keys(doc.props) == SIGN_ORDER <==>
              && !Nullish(env[1].value) && !Nullish(env[2].value) && !Nullish(env[3].value)
              && !Nullish(env[4].value) && !Nullish(env[5].value)
  {
    EnvelopeMembers(env, doc);
    EnvelopeKeys(env, doc);
    var kept := (m: nat) requires m < 6 => !Lookup(doc.props, env[m].key).Undefined?;
    if !Nullish(env[1].value) && !Nullish(env[2].value) && !Nullish(env[3].value) &&
       !Nullish(env[4].value) && !Nullish(env[5].value) {
      assert kept(0) && kept(1) && kept(2) && kept(3) && kept(4) && kept(5);
      AllMembersKept(env, doc);
    }
    if Keys(doc.props) == SIGN_ORDER {
      EnvelopeNames(env);
      assert env[1].key in SIGN_ORDER && env[2].key in SIGN_ORDER && env[3].key in SIGN_ORDER;
      assert env[4].key in SIGN_ORDER && env[5].key in SIGN_ORDER;
    }
  }

  lemma AllMembersKept(env: seq<Prop<Json>>, doc: Json)
    requires EnvelopeShape(env) && doc.Obj? && StrictlyAscending(Keys(doc.props))
    requires forall k :: k in Keys(doc.props) <==> k in SIGN_ORDER && !Lookup(doc.props, k).Undefined?
    requires !Lookup(doc.props, env[0].key).Undefined? && !Lookup(doc.props, env[1].key).Undefined?
    requires !Lookup(doc.props, env[2].key).Undefined? && !Lookup(doc.props, env[3].key).Undefined?
    requires !Lookup(doc.props, env[4].key).Undefined? && !Lookup(doc.props, env[5].key).Undefined?
    ensures Keys(doc.props) == SIGN_ORDER
  {
    assert SIGN_ORDER == [env[4].key, env[5].key, env[0].key, env[1].key, env[2].key, env[3].key];
    SignOrderAscending();
    SameNamesAscending(Keys(doc.props), SIGN_ORDER);
  }

  /** Ascending names that are the same as those of an ascending list without array indices are that list. */
  lemma SameNamesAscending(ks: seq<string>, ys: seq<string>)
    requires StrictlyAscending(ks) && EnumAscending(ys)
    requires forall j :: 0 <= j < |ys| ==> !IsArrayIndex(ys[j])
    requires forall k :: k in ks <==> k in ys
    ensures ks == ys
  {
    forall i | 0 <= i < |ks| ensures !IsArrayIndex(ks[i]) {
      assert ks[i] in ys;
    }
    PlainAscending(ks);
    AscendingUnique(ks, ys);
  }

  /** The envelope, part by part, whenever it can be built. */
  lemma EnvelopeParts(tx: Json, sequence: Json, accountNumber: Json, chainId: Json, env: seq<Prop<Json>>)
    requires SignEnvelope(tx, sequence, accountNumber, chainId) == Success(env)
    ensures !Nullish(tx) && !Nullish(Get(tx, "fee").value)
    ensures var fee := Get(tx, "fee").value;
            && |env| == 6
            && env[0] == Prop("fee", Obj([Prop("amount", AmountOrEmpty(Get(fee, "amount").value)), Prop("gas", Get(fee, "gas").value)]))
            && env[1] == Prop("memo", Get(tx, "memo").value)
            && env[2] == Prop("msgs", Get(tx, "msg").value)
            && env[3] == Prop("sequence", sequence)
            && env[4] == Prop("account_number", accountNumber)
            && env[5] == Prop("chain_id", chainId)
    ensures EnvelopeShape(env)
  {
  }

  /**
   * The sign document, whenever there is one: an object whose names are
   * some of `account_number, chain_id, fee, memo, msgs, sequence`, in
   * ascending order, each holding the prepared value of the part it is built
   * from (`msgs` the transaction's `msg`), and holding a name exactly when
   * that part is neither null nor undefined.
   */
  lemma SignMessageFields(tx: Json, meta: Json, doc: Json)
    requires SignDoc(tx, meta) == Success(doc)
    ensures !Nullish(meta) && !Nullish(tx) && !Nullish(Get(tx, "fee").value)
    ensures doc.Obj? && StrictlyAscending(Keys(doc.props))
    ensures forall k :: k in Keys(doc.props) <==> k in SIGN_ORDER && !Lookup(doc.props, k).Undefined?
    ensures var fee := Get(tx, "fee").value;
            Lookup(doc.props, "fee") ==
              Member(Obj([Prop("amount", AmountOrEmpty(Get(fee, "amount").value)), Prop("gas", Get(fee, "gas").value)]))
    ensures Lookup(doc.props, "memo") == Member(Get(tx, "memo").value)
    ensures Lookup(doc.props, "msgs") == Member(Get(tx, "msg").value)
    ensures Lookup(doc.props, "sequence") == Member(Get(meta, "sequence").value)
    ensures Lookup(doc.props, "account_number") == Member(Get(meta, "account_number").value)
    ensures Lookup(doc.props, "chain_id") == Member(Get(meta, "chain_id").value)
  {
    var sequence := Get(meta, "sequence").value;
    var accountNumber := Get(meta, "account_number").value;
    var chainId := Get(meta, "chain_id").value;
    var env := SignEnvelope(tx, sequence, accountNumber, chainId).value;
    EnvelopeParts(tx, sequence, accountNumber, chainId, env);
    EnvelopeMembers(env, doc);
    EnvelopeKeys(env, doc);
  }

  /** Names none of which is an array index are in enumeration order when they ascend. */
  lemma PlainAscending(ks: seq<string>)
    requires StrictlyAscending(ks)
    requires forall i :: 0 <= i < |ks| ==> !IsArrayIndex(ks[i])
    ensures EnumAscending(ks)
  {
  }

  /** A name whose first character is not a digit is no array index. */
  lemma NotIndex(k: string)
    requires k != [] && !IsDigit(k[0])
    ensures !IsArrayIndex(k)
  {
  }

  /** Names that start with different ASCII characters are ordered by those characters. */
  lemma FirstCharLess(a: string, b: string)
    requires a != [] && b != [] && a[0] < b[0] <= 'z'
    ensures Less(a, b)
  {
  }

  lemma MemoBeforeMsgs()
    ensures Less("memo", "msgs")
  {
    assert "memo"[1..] == "emo" && "msgs"[1..] == "sgs";
  }

  lemma SignOrderAscending()
    ensures EnumAscending(SIGN_ORDER)
    ensures forall j :: 0 <= j < |SIGN_ORDER| ==> !IsArrayIndex(SIGN_ORDER[j])
  {
    var s := SIGN_ORDER;
    assert s[0][0] == 'a' && s[1][0] == 'c' && s[2][0] == 'f';
    assert s[3][0] == 'm' && s[4][0] == 'm' && s[5][0] == 's';
    forall j | 0 <= j < 6 ensures !IsArrayIndex(s[j]) {
      NotIndex(s[j]);
    }
    forall i, j | 0 <= i < j < 6 ensures Less(s[i], s[j]) {
      if i == 3 && j == 4 {
        MemoBeforeMsgs();
      } else {
        FirstCharLess(s[i], s[j]);
      }
    }
    PlainAscending(s);
  }

  /**
   * The sign document lists all six names, in the order
   * `account_number, chain_id, fee, memo, msgs, sequence`, exactly when the
   * memo, the messages and the three metadata fields are neither null nor
   * undefined.
   */
  lemma SignMessageOrder(tx: Json, meta: Json, doc: Json)
    requires SignDoc(tx, meta) == Success(doc)
    ensures !Nullish(meta) && !Nullish(tx) && doc.Obj?
    ensures Keys(doc.props) == SIGN_ORDER <==>
              && !Nullish(Get(tx, "memo").value) && !Nullish(Get(tx, "msg").value)
              && !Nullish(Get(meta, "sequence").value) && !Nullish(Get(meta, "account_number").value)
              && !Nullish(Get(meta, "chain_id").value)
  {
    var sequence := Get(meta, "sequence").value;
    var accountNumber := Get(meta, "account_number").value;
    var chainId := Get(meta, "chain_id").value;
    var env := SignEnvelope(tx, sequence, accountNumber, chainId).value;
    EnvelopeParts(tx, sequence, accountNumber, chainId, env);
    EnvelopeOrder(env, doc);
  }

  /**
   * The fee of the sign document: an object holding the prepared amount,
   * or `[]` when the transaction's amount is falsy, and the prepared gas,
   * with `amount` listed before `gas` and `gas` left out when it is null or
   * undefined.
   */
  lemma SignMessageFee(tx: Json, meta: Json, doc: Json)
    requires SignDoc(tx, meta) == Success(doc)
    ensures !Nullish(tx) && !Nullish(Get(tx, "fee").value) && doc.Obj?
    ensures var fee := Get(tx, "fee").value;
            var amount := Get(fee, "amount").value;
            var gas := Get(fee, "gas").value;
            var f := Lookup(doc.props, "fee");
            && f.Obj?
            && Lookup(f.props, "amount") == (if Truthy(amount) then Member(amount) else Arr([]))
            && Lookup(f.props, "gas") == Member(gas)
            && Keys(f.props) == (if Nullish(gas) then ["amount"] else ["amount", "gas"])
  {
    var sequence := Get(meta, "sequence").value;
    var accountNumber := Get(meta, "account_number").value;
    var chainId := Get(meta, "chain_id").value;
    var env := SignEnvelope(tx, sequence, accountNumber, chainId).value;
    EnvelopeParts(tx, sequence, accountNumber, chainId, env);
    EnvelopeMembers(env, doc);
    var fee := Get(tx, "fee").value;
    var amount := Get(fee, "amount").value;
    var gas := Get(fee, "gas").value;
    var fp := [Prop("amount", AmountOrEmpty(amount)), Prop("gas", gas)];
    assert env[0].value == Obj(fp);
    var f := Prepare(Obj(fp)).value;
    assert Lookup(doc.props, "fee") == f;
    FeeObject(amount, gas, f);
  }

  /** Preparing `{amount: amount || [], gas}`. */
  lemma FeeObject(amount: Json, gas: Json, f: Json)
    requires Prepare(Obj([Prop("amount", AmountOrEmpty(amount)), Prop("gas", gas)])) == Success(f)
    ensures f.Obj?
    ensures Lookup(f.props, "amount") == (if Truthy(amount) then Member(amount) else Arr([]))
    ensures Lookup(f.props, "gas") == Member(gas)
    ensures Keys(f.props) == (if Nullish(gas) then ["amount"] else ["amount", "gas"])
  {
    var fp := [Prop("amount", AmountOrEmpty(amount)), Prop("gas", gas)];
    PrepareObject(fp);
    FindAt(fp, 0);
    FindAt(fp, 1);
    FeeNames(fp, Keys(f.props));
  }

  /** The names of the prepared fee: `amount`, then `gas` unless it is undefined or null. */
  lemma FeeNames(fp: seq<Prop<Json>>, ks: seq<string>)
    requires |fp| == 2 && fp[0].key == "amount" && fp[1].key == "gas"
    requires !Nullish(Lookup(fp, "amount")) && Lookup(fp, "gas") == fp[1].value
    requires EnumAscending(ks) && forall k :: k in ks <==> k in Keys(fp) && !Nullish(Lookup(fp, k))
    ensures ks == (if Nullish(fp[1].value) then ["amount"] else ["amount", "gas"])
  {
    var expected: seq<string> := if Nullish(fp[1].value) then ["amount"] else ["amount", "gas"];
    assert Keys(fp) == ["amount", "gas"];
    forall k ensures k in ks <==> k in expected {
    }
    assert StrictlyAscending(expected);
    PlainAscending(expected);
    AscendingUnique(ks, expected);
  }

  /** `amount || []` keeps two values that differ only in key order apart by nothing else. */
  lemma AmountIgnoresKeyOrder(a: Json, b: Json)
    requires WellFormed(a) && WellFormed(b) && SameUpToKeyOrder(a, b)
    ensures WellFormed(AmountOrEmpty(a)) && WellFormed(AmountOrEmpty(b))
    ensures SameUpToKeyOrder(AmountOrEmpty(a), AmountOrEmpty(b))
  {
    assert Truthy(a) <==> Truthy(b);
  }

  /** The fee objects `createSignMessage` builds from two fees that differ only in key order. */
  lemma FeeIgnoresKeyOrder(fee1: Json, fee2: Json)
    requires Same(fee1, fee2) && !Nullish(fee1)
    ensures !Nullish(fee2)
    ensures Same(Obj([Prop("amount", AmountOrEmpty(Get(fee1, "amount").value)), Prop("gas", Get(fee1, "gas").value)]),
                 Obj([Prop("amount", AmountOrEmpty(Get(fee2, "amount").value)), Prop("gas", Get(fee2, "gas").value)]))
  {
    GetIgnoresKeyOrder(fee1, fee2, "amount");
    GetIgnoresKeyOrder(fee1, fee2, "gas");
    FeeMembersSame(Get(fee1, "amount").value, Get(fee2, "amount").value, Get(fee1, "gas").value, Get(fee2, "gas").value);
  }

  lemma FeeMembersSame(am1: Json, am2: Json, g1: Json, g2: Json)
    requires Same(am1, am2) && Same(g1, g2)
    ensures Same(Obj([Prop("amount", AmountOrEmpty(am1)), Prop("gas", g1)]),
                 Obj([Prop("amount", AmountOrEmpty(am2)), Prop("gas", g2)]))
  {
    AmountIgnoresKeyOrder(am1, am2);
    assert !IsArrayIndex("amount") && !IsArrayIndex("gas") && "amount" != "gas";
    PairSame("amount", AmountOrEmpty(am1), AmountOrEmpty(am2), "gas", g1, g2);
  }

  /** Two objects of the same two names whose values differ only in key order. */
  lemma PairSame(a: string, x1: Json, x2: Json, b: string, y1: Json, y2: Json)
    requires !IsArrayIndex(a) && !IsArrayIndex(b) && a != b && Same(x1, x2) && Same(y1, y2)
    ensures Same(Obj([Prop(a, x1), Prop(b, y1)]), Obj([Prop(a, x2), Prop(b, y2)]))
  {
    var ps, qs := [Prop(a, x1), Prop(b, y1)], [Prop(a, x2), Prop(b, y2)];
    assert Keys(ps) == [a, b] == Keys(qs);
    PairwiseSameUpToKeyOrder(ps, qs);
  }

  /** Two envelopes whose members differ only in key order. */
  lemma EnvelopesSame(env1: seq<Prop<Json>>, env2: seq<Prop<Json>>)
    requires EnvelopeShape(env1) && EnvelopeShape(env2)
    requires Same(env1[0].value, env2[0].value) && Same(env1[1].value, env2[1].value)
    requires Same(env1[2].value, env2[2].value) && Same(env1[3].value, env2[3].value)
    requires Same(env1[4].value, env2[4].value) && Same(env1[5].value, env2[5].value)
    ensures WellFormed(Obj(env1)) && WellFormed(Obj(env2)) && SameUpToKeyOrder(Obj(env1), Obj(env2))
  {
    EnvelopeNames(env1);
    SameEnvelopeNames(env1, env2);
    forall m | 0 <= m < 6 ensures Same(env1[m].value, env2[m].value) {
      if m == 0 {} else if m == 1 {} else if m == 2 {} else if m == 3 {} else if m == 4 {} else {}
    }
    PairwiseSameUpToKeyOrder(env1, env2);
  }

  lemma SameEnvelopeNames(env1: seq<Prop<Json>>, env2: seq<Prop<Json>>)
    requires EnvelopeShape(env1) && EnvelopeShape(env2)
    ensures Keys(env1) == Keys(env2)
  {
    assert Keys(env1) == ["fee", "memo", "msgs", "sequence", "account_number", "chain_id"] == Keys(env2);
  }

  /** Both well formed, and the same up to key order. */
  ghost predicate Same(a: Json, b: Json)
  {
    WellFormed(a) && WellFormed(b) && SameUpToKeyOrder(a, b)
  }

  /**
   * The envelope either way: `jsonTx.fee` throws on a transaction that is
   * undefined or null, `jsonTx.fee.amount` on a fee that is, and otherwise
   * the envelope is built.
   */
  lemma EnvelopeCases(tx: Json, sequence: Json, accountNumber: Json, chainId: Json)
    ensures Nullish(tx) ==> SignEnvelope(tx, sequence, accountNumber, chainId) == Failure(ReadOfNullish("fee"))
    ensures !Nullish(tx) && Nullish(Get(tx, "fee").value) ==>
              SignEnvelope(tx, sequence, accountNumber, chainId) == Failure(ReadOfNullish("amount"))
    ensures !Nullish(tx) && !Nullish(Get(tx, "fee").value) ==>
              SignEnvelope(tx, sequence, accountNumber, chainId).Success?
  {
    if Nullish(tx) {
      EnvelopeOfNullish(tx, sequence, accountNumber, chainId);
    } else if Nullish(Get(tx, "fee").value) {
      EnvelopeOfNullishFee(tx, sequence, accountNumber, chainId);
    } else {
      EnvelopeBuilt(tx, sequence, accountNumber, chainId);
    }
  }

  lemma EnvelopeOfNullish(tx: Json, sequence: Json, accountNumber: Json, chainId: Json)
    requires Nullish(tx)
    ensures SignEnvelope(tx, sequence, accountNumber, chainId) == Failure(ReadOfNullish("fee"))
  {
  }

  lemma EnvelopeOfNullishFee(tx: Json, sequence: Json, accountNumber: Json, chainId: Json)
    requires !Nullish(tx) && Nullish(Get(tx, "fee").value)
    ensures SignEnvelope(tx, sequence, accountNumber, chainId) == Failure(ReadOfNullish("amount"))
  {
    var fee := Get(tx, "fee").value;
    assert Get(tx, "fee") == Success(fee);
    assert Get(fee, "amount") == Failure(ReadOfNullish("amount"));
  }

  lemma EnvelopeBuilt(tx: Json, sequence: Json, accountNumber: Json, chainId: Json)
    requires !Nullish(tx) && !Nullish(Get(tx, "fee").value)
    ensures SignEnvelope(tx, sequence, accountNumber, chainId).Success?
  {
    var fee := Get(tx, "fee").value;
    assert Get(fee, "amount").Success? && Get(fee, "gas").Success?;
    assert Get(tx, "memo").Success? && Get(tx, "msg").Success?;
  }

  /** The envelopes built from inputs that differ only in key order. */
  lemma EnvelopeIgnoresKeyOrder(tx1: Json, tx2: Json, s1: Json, s2: Json, a1: Json, a2: Json, c1: Json, c2: Json)
    requires Same(tx1, tx2) && Same(s1, s2) && Same(a1, a2) && Same(c1, c2)
    ensures SignEnvelope(tx1, s1, a1, c1).Failure? ==> SignEnvelope(tx1, s1, a1, c1) == SignEnvelope(tx2, s2, a2, c2)
    ensures SignEnvelope(tx1, s1, a1, c1).Success? ==>
              && SignEnvelope(tx2, s2, a2, c2).Success?
              && Same(Obj(SignEnvelope(tx1, s1, a1, c1).value), Obj(SignEnvelope(tx2, s2, a2, c2).value))
  {
    EnvelopeCases(tx1, s1, a1, c1);
    EnvelopeCases(tx2, s2, a2, c2);
    GetIgnoresKeyOrder(tx1, tx2, "fee");
    if !Nullish(tx1) && !Nullish(Get(tx1, "fee").value) {
      EnvelopesBuiltAlike(tx1, tx2, s1, s2, a1, a2, c1, c2);
    }
  }

  lemma EnvelopesBuiltAlike(tx1: Json, tx2: Json, s1: Json, s2: Json, a1: Json, a2: Json, c1: Json, c2: Json)
    requires Same(tx1, tx2) && Same(s1, s2) && Same(a1, a2) && Same(c1, c2)
    requires SignEnvelope(tx1, s1, a1, c1).Success? && SignEnvelope(tx2, s2, a2, c2).Success?
    ensures Same(Obj(SignEnvelope(tx1, s1, a1, c1).value), Obj(SignEnvelope(tx2, s2, a2, c2).value))
  {
    var env1 := SignEnvelope(tx1, s1, a1, c1).value;
    var env2 := SignEnvelope(tx2, s2, a2, c2).value;
    EnvelopeParts(tx1, s1, a1, c1, env1);
    EnvelopeParts(tx2, s2, a2, c2, env2);
    var fee1, fee2 := Get(tx1, "fee").value, Get(tx2, "fee").value;
    GetIgnoresKeyOrder(tx1, tx2, "fee");
    FeeIgnoresKeyOrder(fee1, fee2);
    GetIgnoresKeyOrder(tx1, tx2, "memo");
    GetIgnoresKeyOrder(tx1, tx2, "msg");
    EnvelopesSame(env1, env2);
  }

  /** The sign document either way: reading the meta object's fields, then building the envelope. */
  lemma SignDocCases(tx: Json, meta: Json)
    ensures Nullish(meta) ==> SignDoc(tx, meta) == Failure(ReadOfNullish("sequence"))
    ensures !Nullish(meta) ==>
              var env := SignEnvelope(tx, Get(meta, "sequence").value, Get(meta, "account_number").value, Get(meta, "chain_id").value);
              SignDoc(tx, meta) == if env.Failure? then Failure(env.error) else Prepare(Obj(env.value))
  {
  }

  /** The sign document of inputs that differ only in key order. */
  lemma SignDocIgnoresKeyOrder(tx1: Json, tx2: Json, meta1: Json, meta2: Json)
    requires Same(tx1, tx2) && Same(meta1, meta2)
    ensures SignDoc(tx1, meta1) == SignDoc(tx2, meta2)
  {
    SignDocCases(tx1, meta1);
    SignDocCases(tx2, meta2);
    GetIgnoresKeyOrder(meta1, meta2, "sequence");
    GetIgnoresKeyOrder(meta1, meta2, "account_number");
    GetIgnoresKeyOrder(meta1, meta2, "chain_id");
    if !Nullish(meta1) {
      var s1, s2 := Get(meta1, "sequence").value, Get(meta2, "sequence").value;
      var a1, a2 := Get(meta1, "account_number").value, Get(meta2, "account_number").value;
      var c1, c2 := Get(meta1, "chain_id").value, Get(meta2, "chain_id").value;
      EnvelopeIgnoresKeyOrder(tx1, tx2, s1, s2, a1, a2, c1, c2);
      if SignEnvelope(tx1, s1, a1, c1).Success? {
        PrepareIgnoresKeyOrder(Obj(SignEnvelope(tx1, s1, a1, c1).value), Obj(SignEnvelope(tx2, s2, a2, c2).value));
      }
    }
  }

  /**
   * `createSignMessage` depends only on what the transaction and the meta
   * object map each name to, never on the order their properties were
   * written in: the same text, or the same error.
   */
  lemma SignMessageIgnoresKeyOrder(tx1: Json, tx2: Json, meta1: Json, meta2: Json)
    requires WellFormed(tx1) && WellFormed(tx2) && SameUpToKeyOrder(tx1, tx2)
    requires WellFormed(meta1) && WellFormed(meta2) && SameUpToKeyOrder(meta1, meta2)
    ensures CreateSignMessage(tx1, meta1) == CreateSignMessage(tx2, meta2)
  {
    SignDocIgnoresKeyOrder(tx1, tx2, meta1, meta2);
  }

  // ---------------------------------------------------------------------
  // The worked example
  // ---------------------------------------------------------------------

  /** `{fee: {gas: "5000"}, memo: "", msg: [{type: "x", value: {a: 1, b: 2}}]}` */
  const EXAMPLE_TX: Json :=
    Obj([
      Prop("fee", Obj([Prop("gas", Str("5000"))])),
      Prop("memo", Str("")),
      Prop("msg", Arr([EXAMPLE_MSG]))])

  const EXAMPLE_MSG: Json := Obj([Prop("type", Str("x")), Prop("value", EXAMPLE_VALUE)])

  const EXAMPLE_VALUE: Json := Obj([Prop("a", Num(1)), Prop("b", Num(2))])

  /** `{sequence: "0", account_number: "1", chain_id: "test"}` */
  const EXAMPLE_META: Json :=
    Obj([Prop("sequence", Str("0")), Prop("account_number", Str("1")), Prop("chain_id", Str("test"))])

  const EXAMPLE_FEE: Json := Obj([Prop("amount", Arr([])), Prop("gas", Str("5000"))])

  /** The sign document of the example, names in ascending order. */
  const EXAMPLE_DOC: seq<Prop<Json>> := [
    Prop("account_number", Str("1")),
    Prop("chain_id", Str("test")),
    Prop("fee", EXAMPLE_FEE),
    Prop("memo", Str("")),
    Prop("msgs", Arr([EXAMPLE_MSG])),
    Prop("sequence", Str("0"))]

  /** The object literal `createSignMessage` builds for the example, in the order it is written. */
  const EXAMPLE_ENVELOPE: seq<Prop<Json>> := [
    Prop("fee", EXAMPLE_FEE),
    Prop("memo", Str("")),
    Prop("msgs", Arr([EXAMPLE_MSG])),
    Prop("sequence", Str("0")),
    Prop("account_number", Str("1")),
    Prop("chain_id", Str("test"))]

  lemma ExampleEnvelope()
    ensures SignEnvelope(EXAMPLE_TX, Str("0"), Str("1"), Str("test")) == Success(EXAMPLE_ENVELOPE)
  {
    var tx := EXAMPLE_TX.props;
    var fee := [Prop("gas", Str("5000"))];
    assert DistinctKeys(tx);
    FindAt(tx, 0);
    FindAt(tx, 1);
    FindAt(tx, 2);
    FindAt(fee, 0);
    assert Keys(fee) == ["gas"];
    IndexOfKeys(fee, "amount");
    assert Get(Obj(fee), "amount") == Success(Undefined);
    assert Get(EXAMPLE_TX, "fee") == Success(Obj(fee));
    assert Get(EXAMPLE_TX, "memo") == Success(Str(""));
    assert Get(EXAMPLE_TX, "msg") == Success(Arr([EXAMPLE_MSG]));
    assert Get(Obj(fee), "gas") == Success(Str("5000"));
    assert AmountOrEmpty(Undefined) == Arr([]);
    assert SignEnvelope(EXAMPLE_TX, Str("0"), Str("1"), Str("test")) == Success([
      Prop("fee", EXAMPLE_FEE),
      Prop("memo", Str("")),
      Prop("msgs", Arr([EXAMPLE_MSG])),
      Prop("sequence", Str("0")),
      Prop("account_number", Str("1")),
      Prop("chain_id", Str("test"))]);
  }

  lemma ExamplePermuted()
    ensures multiset(EXAMPLE_ENVELOPE) == multiset(EXAMPLE_DOC)
  {
  }

  /** An object of two plain names in ascending order. */
  lemma PairObject(a: string, x: Json, b: string, y: Json)
    requires !IsArrayIndex(a) && !IsArrayIndex(b) && Less(a, b)
    ensures WellFormed(x) && WellFormed(y) ==> WellFormed(Obj([Prop(a, x), Prop(b, y)]))
    ensures InCanonicalForm(x) && InCanonicalForm(y) && !Nullish(x) && !Nullish(y) ==>
              InCanonicalForm(Obj([Prop(a, x), Prop(b, y)]))
  {
    LessIrreflexive(a);
    assert Keys([Prop(a, x), Prop(b, y)]) == [a, b];
  }

  /** An object whose names are those of the sign message, in that order. */
  lemma SignOrderObject(ps: seq<Prop<Json>>)
    requires Keys(ps) == SIGN_ORDER
    ensures Shaped(ps) && EnumAscending(Keys(ps))
  {
    SignOrderAscending();
    EnumAscendingDistinct(ps);
  }

  lemma ExampleParts()
    ensures WellFormed(EXAMPLE_MSG) && InCanonicalForm(EXAMPLE_MSG)
    ensures WellFormed(EXAMPLE_FEE) && InCanonicalForm(EXAMPLE_FEE)
  {
    assert !IsArrayIndex("a") && !IsArrayIndex("b") && Less("a", "b");
    PairObject("a", Num(1), "b", Num(2));
    assert !IsArrayIndex("type") && !IsArrayIndex("value") && Less("type", "value");
    PairObject("type", Str("x"), "value", Obj([Prop("a", Num(1)), Prop("b", Num(2))]));
    assert !IsArrayIndex("amount") && !IsArrayIndex("gas") && Less("amount", "gas");
    PairObject("amount", Arr([]), "gas", Str("5000"));
  }

  /** The example's envelope is well formed. */
  lemma ExampleEnvelopeWellFormed()
    ensures WellFormed(Obj(EXAMPLE_ENVELOPE))
  {
    ExampleParts();
    assert WellFormed(Arr([EXAMPLE_MSG]));
    EnvelopeNames(EXAMPLE_ENVELOPE);
  }

  /** The example's sign document is well formed and canonical. */
  lemma ExampleDocCanonical()
    ensures WellFormed(Obj(EXAMPLE_DOC)) && InCanonicalForm(Obj(EXAMPLE_DOC))
  {
    ExampleParts();
    var msgs := Arr([EXAMPLE_MSG]);
    assert WellFormed(msgs) && InCanonicalForm(msgs);
    assert Keys(EXAMPLE_DOC) == SIGN_ORDER;
    SignOrderObject(EXAMPLE_DOC);
  }

  /**
   * The text `createSignMessage` gives for the example, member by member:
   * {"account_number":"1","chain_id":"test","fee":{"amount":[],"gas":"5000"},"memo":"","msgs":[{"type":"x","value":{"a":1,"b":2}}],"sequence":"0"}
   */
  const EXAMPLE_MESSAGE: string :=
    "{" + CommaJoined([
      "\"account_number\":" + "\"1\"",
      "\"chain_id\":" + "\"test\"",
      "\"fee\":" + EXAMPLE_FEE_TEXT,
      "\"memo\":" + "\"\"",
      "\"msgs\":" + ("[" + EXAMPLE_MSG_TEXT + "]"),
      "\"sequence\":" + "\"0\""]) + "}"

  /** {"amount":[],"gas":"5000"} */
  const EXAMPLE_FEE_TEXT: string :=
    "{" + CommaJoined(["\"amount\":" + "[]", "\"gas\":" + "\"5000\""]) + "}"

  /** {"type":"x","value":{"a":1,"b":2}} */
  const EXAMPLE_MSG_TEXT: string :=
    "{" + CommaJoined(["\"type\":" + "\"x\"", "\"value\":" + EXAMPLE_VALUE_TEXT]) + "}"

  /** {"a":1,"b":2} */
  const EXAMPLE_VALUE_TEXT: string :=
    "{" + CommaJoined(["\"a\":" + "1", "\"b\":" + "2"]) + "}"

  /** Texts separated by commas. */
  function CommaJoined(ms: seq<string>): string
  {
    if ms == [] then [] else if |ms| == 1 then ms[0] else ms[0] + [','] + CommaJoined(ms[1..])
  }

  /** A member that is not undefined, followed by at least one more, is written with a comma after it. */
  lemma SerPropsCons(ps: seq<Prop<Json>>)
    requires |ps| >= 2 && !ps[0].value.Undefined? && !ps[1].value.Undefined?
    ensures SerProps(ps) == Quote(ps[0].key) + [':'] + Ser(ps[0].value) + [','] + SerProps(ps[1..])
  {
    assert !AllUndefined(ps[1..]) by {
      assert !ps[1..][0].value.Undefined?;
    }
  }

  lemma SerPropsLast(ps: seq<Prop<Json>>)
    requires |ps| == 1 && !ps[0].value.Undefined?
    ensures SerProps(ps) == Quote(ps[0].key) + [':'] + Ser(ps[0].value)
  {
    assert AllUndefined(ps[1..]);
  }

  /** `"key":` followed by the text of the value. */
  lemma MemberIs(k: string, v: Json, keyText: string, valueText: string)
    requires Plain(k) && keyText == ['"'] + k + ['"', ':'] && Ser(v) == valueText
    ensures Quote(k) + [':'] + Ser(v) == keyText + valueText
  {
    QuotePlain(k);
  }

  lemma StrIs(s: string, text: string)
    requires Plain(s) && text == ['"'] + s + ['"']
    ensures Ser(Str(s)) == text
  {
    QuotePlain(s);
  }

  /** An object of two members with the given texts. */
  lemma PairIs(p0: Prop<Json>, m0: string, p1: Prop<Json>, m1: string)
    requires !p0.value.Undefined? && Quote(p0.key) + [':'] + Ser(p0.value) == m0
    requires !p1.value.Undefined? && Quote(p1.key) + [':'] + Ser(p1.value) == m1
    ensures Ser(Obj([p0, p1])) == "{" + CommaJoined([m0, m1]) + "}"
  {
    var ps := [p0, p1];
    var ms := [m0, m1];
    OneMember(ps[1..], ms[1..]);
    ConsMember(ps, ms);
  }

  lemma ExampleValueText()
    ensures Ser(EXAMPLE_VALUE) == EXAMPLE_VALUE_TEXT
  {
    MemberIs("a", Num(1), "\"a\":", "1");
    MemberIs("b", Num(2), "\"b\":", "2");
    PairIs(Prop("a", Num(1)), "\"a\":" + "1", Prop("b", Num(2)), "\"b\":" + "2");
  }

  lemma ExampleMsgText()
    ensures Ser(EXAMPLE_MSG) == EXAMPLE_MSG_TEXT
  {
    TypeMemberText();
    ValueMemberText();
    PairIs(Prop("type", Str("x")), "\"type\":" + "\"x\"", Prop("value", EXAMPLE_VALUE), "\"value\":" + EXAMPLE_VALUE_TEXT);
  }

  lemma ExampleFeeText()
    ensures Ser(EXAMPLE_FEE) == EXAMPLE_FEE_TEXT
  {
    AmountMemberText();
    GasMemberText();
    PairIs(Prop("amount", Arr([])), "\"amount\":" + "[]", Prop("gas", Str("5000")), "\"gas\":" + "\"5000\"");
  }

  lemma TypeMemberText()
    ensures Quote("type") + [':'] + Ser(Str("x")) == "\"type\":" + "\"x\""
  {
    StrMemberIs("type", "x", "\"type\":", "\"x\"");
  }

  lemma ValueMemberText()
    ensures Quote("value") + [':'] + Ser(EXAMPLE_VALUE) == "\"value\":" + EXAMPLE_VALUE_TEXT
  {
    ExampleValueText();
    MemberIs("value", EXAMPLE_VALUE, "\"value\":", EXAMPLE_VALUE_TEXT);
  }

  lemma AmountMemberText()
    ensures Quote("amount") + [':'] + Ser(Arr([])) == "\"amount\":" + "[]"
  {
    MemberIs("amount", Arr([]), "\"amount\":", "[]");
  }

  lemma GasMemberText()
    ensures Quote("gas") + [':'] + Ser(Str("5000")) == "\"gas\":" + "\"5000\""
  {
    StrMemberIs("gas", "5000", "\"gas\":", "\"5000\"");
  }

  /** `"key":"text"` for a plain key and a plain string. */
  lemma StrMemberIs(k: string, str: string, keyText: string, valueText: string)
    requires Plain(k) && keyText == ['"'] + k + ['"', ':']
    requires Plain(str) && valueText == ['"'] + str + ['"']
    ensures Quote(k) + [':'] + Ser(Str(str)) == keyText + valueText
  {
    StrIs(str, valueText);
    MemberIs(k, Str(str), keyText, valueText);
  }

  /** `"key":` for a plain key. */
  lemma KeyIs(k: string, keyText: string)
    requires Plain(k) && keyText == ['"'] + k + ['"', ':']
    ensures Quote(k) + [':'] == keyText
  {
    QuotePlain(k);
  }

  /** The text of an object of six members none of which is undefined, given the text of each member. */
  lemma SixMembers(p0: Prop<Json>, m0: string, p1: Prop<Json>, m1: string, p2: Prop<Json>, m2: string,
                   p3: Prop<Json>, m3: string, p4: Prop<Json>, m4: string, p5: Prop<Json>, m5: string)
    requires !p0.value.Undefined? && Quote(p0.key) + [':'] + Ser(p0.value) == m0
    requires !p1.value.Undefined? && Quote(p1.key) + [':'] + Ser(p1.value) == m1
    requires !p2.value.Undefined? && Quote(p2.key) + [':'] + Ser(p2.value) == m2
    requires !p3.value.Undefined? && Quote(p3.key) + [':'] + Ser(p3.value) == m3
    requires !p4.value.Undefined? && Quote(p4.key) + [':'] + Ser(p4.value) == m4
    requires !p5.value.Undefined? && Quote(p5.key) + [':'] + Ser(p5.value) == m5
    ensures Ser(Obj([p0, p1, p2, p3, p4, p5])) == "{" + CommaJoined([m0, m1, m2, m3, m4, m5]) + "}"
  {
    var ps := [p0, p1, p2, p3, p4, p5];
    var ms := [m0, m1, m2, m3, m4, m5];
    OneMember(ps[5..], ms[5..]);
    ConsMember(ps[4..], ms[4..]);
    ConsMember(ps[3..], ms[3..]);
    ConsMember(ps[2..], ms[2..]);
    ConsMember(ps[1..], ms[1..]);
    ConsMember(ps, ms);
  }

  lemma OneMember(ps: seq<Prop<Json>>, ms: seq<string>)
    requires |ps| == 1 && |ms| == 1
    requires !ps[0].value.Undefined? && Quote(ps[0].key) + [':'] + Ser(ps[0].value) == ms[0]
    ensures SerProps(ps) == CommaJoined(ms)
  {
    SerPropsLast(ps);
  }

  /** A member in front of others: its text, a comma, and the text of the others. */
  lemma ConsMember(ps: seq<Prop<Json>>, ms: seq<string>)
    requires |ps| >= 2 && |ms| == |ps|
    requires !ps[0].value.Undefined? && Quote(ps[0].key) + [':'] + Ser(ps[0].value) == ms[0]
    requires !ps[1].value.Undefined? && SerProps(ps[1..]) == CommaJoined(ms[1..])
    ensures SerProps(ps) == CommaJoined(ms)
  {
    SerPropsCons(ps);
  }

  lemma KeyAccountNumber() ensures Quote("account_number") + [':'] == "\"account_number\":" { KeyIs("account_number", "\"account_number\":"); }
  lemma KeyChainId() ensures Quote("chain_id") + [':'] == "\"chain_id\":" { KeyIs("chain_id", "\"chain_id\":"); }
  lemma KeyFee() ensures Quote("fee") + [':'] == "\"fee\":" { KeyIs("fee", "\"fee\":"); }
  lemma KeyMemo() ensures Quote("memo") + [':'] == "\"memo\":" { KeyIs("memo", "\"memo\":"); }
  lemma KeyMsgs() ensures Quote("msgs") + [':'] == "\"msgs\":" { KeyIs("msgs", "\"msgs\":"); }
  lemma KeySequence() ensures Quote("sequence") + [':'] == "\"sequence\":" { KeyIs("sequence", "\"sequence\":"); }

  lemma ExampleDocText()
    ensures Ser(Obj(EXAMPLE_DOC)) == "{" + CommaJoined([
              "\"account_number\":" + Ser(Str("1")), "\"chain_id\":" + Ser(Str("test")), "\"fee\":" + Ser(EXAMPLE_FEE),
              "\"memo\":" + Ser(Str("")), "\"msgs\":" + Ser(Arr([EXAMPLE_MSG])), "\"sequence\":" + Ser(Str("0"))]) + "}"
  {
    KeyAccountNumber();
    KeyChainId();
    KeyFee();
    KeyMemo();
    KeyMsgs();
    KeySequence();
    SixMembers(
      Prop("account_number", Str("1")), "\"account_number\":" + Ser(Str("1")),
      Prop("chain_id", Str("test")), "\"chain_id\":" + Ser(Str("test")),
      Prop("fee", EXAMPLE_FEE), "\"fee\":" + Ser(EXAMPLE_FEE),
      Prop("memo", Str("")), "\"memo\":" + Ser(Str("")),
      Prop("msgs", Arr([EXAMPLE_MSG])), "\"msgs\":" + Ser(Arr([EXAMPLE_MSG])),
      Prop("sequence", Str("0")), "\"sequence\":" + Ser(Str("0")));
  }

  lemma ExampleMsgsText()
    ensures Ser(Arr([EXAMPLE_MSG])) == "[" + EXAMPLE_MSG_TEXT + "]"
  {
    ExampleMsgText();
  }

  lemma ExampleStrTexts()
    ensures Ser(Str("1")) == "\"1\"" && Ser(Str("test")) == "\"test\""
    ensures Ser(Str("")) == "\"\"" && Ser(Str("0")) == "\"0\""
  {
    StrIs("1", "\"1\"");
    StrIs("test", "\"test\"");
    StrIs("", "\"\"");
    StrIs("0", "\"0\"");
  }

  /** The example's sign document is written as the expected text. */
  lemma ExampleText()
    ensures Ser(Obj(EXAMPLE_DOC)) == EXAMPLE_MESSAGE
  {
    ExampleDocText();
    ExampleStrTexts();
    ExampleFeeText();
    ExampleMsgsText();
  }

  /** The meta object's three fields are read as written. */
  lemma ExampleMeta()
    ensures Get(EXAMPLE_META, "sequence") == Success(Str("0"))
    ensures Get(EXAMPLE_META, "account_number") == Success(Str("1"))
    ensures Get(EXAMPLE_META, "chain_id") == Success(Str("test"))
  {
    var ps := EXAMPLE_META.props;
    assert DistinctKeys(ps);
    FindAt(ps, 0);
    FindAt(ps, 1);
    FindAt(ps, 2);
  }

  /** The example's sign document is its envelope with the names in order. */
  lemma ExampleSignDoc()
    ensures SignDoc(EXAMPLE_TX, EXAMPLE_META) == Success(Obj(EXAMPLE_DOC))
  {
    ExampleMeta();
    ExampleEnvelope();
    ExampleEnvelopeWellFormed();
    ExampleDocCanonical();
    ExamplePermuted();
    PrepareIgnoresInsertionOrder(EXAMPLE_ENVELOPE, EXAMPLE_DOC);
    CanonicalFixed(Obj(EXAMPLE_DOC));
  }

  /**
   * `createSignMessage` on the transaction {fee:{gas:"5000"},memo:"",msg:[{type:"x",value:{a:1,b:2}}]}
   * and the meta {sequence:"0",account_number:"1",chain_id:"test"} gives the text of EXAMPLE_MESSAGE.
   */
  lemma ExampleSignMessage()
    ensures CreateSignMessage(EXAMPLE_TX, EXAMPLE_META) == Success(EXAMPLE_MESSAGE)
  {
    ExampleSignDoc();
    ExampleText();
  }
}
