/**
 * The hexadecimal conversions of Node's `Buffer` the wallet relies on:
 * `buf.toString('hex')` and `Buffer.from(text, 'hex')`.
 */
module HexCodec {
  import opened JsonText

  /** One byte of a `Buffer`. */
  newtype byte = x: int | 0 <= x < 256

  /** `buf.toString('hex')`: two lower-case digits per byte. */
  function ToHex(bytes: seq<byte>): (text: string)
    ensures |text| == 2 * |bytes|
  {
    if bytes == [] then []
    else [HexDigit(bytes[0] as int / 16), HexDigit(bytes[0] as int % 16)] + ToHex(bytes[1..])
  }

  /**
   * `Buffer.from(text, 'hex')`: the text is read two digits at a time, and
   * reading stops at the first pair that is not two hexadecimal digits; an
   * odd last digit is ignored.
   */
  function HexBytes(text: string): (bytes: seq<byte>)
    ensures 2 * |bytes| <= |text|
  {
    if |text| < 2 then []
    else
      HexValueBound(text[0]);
      HexValueBound(text[1]);
      match (HexValue(text[0]), HexValue(text[1]))
      case (Some(hi), Some(lo)) => [(hi * 16 + lo) as byte] + HexBytes(text[2..])
      case _ => []
  }

  lemma HexValueBound(c: char)
    ensures HexValue(c).Some? ==> HexValue(c).value < 16
  {
  }

  /** Byte i comes from digits 2i and 2i+1, and the pair after the last byte read is not two digits. */
  lemma HexBytesSpec(text: string)
    ensures var bytes := HexBytes(text);
            && (forall i :: 0 <= i < |bytes| ==>
                  && HexValue(text[2 * i]).Some? && HexValue(text[2 * i + 1]).Some?
                  && bytes[i] as int == HexValue(text[2 * i]).value * 16 + HexValue(text[2 * i + 1]).value)
            && (2 * |bytes| + 1 < |text| ==> HexValue(text[2 * |bytes|]).None? || HexValue(text[2 * |bytes| + 1]).None?)
  {
    HexBytesFrom(text);
    HexBytesStop(text);
  }

  /** When the text starts with two digits, their byte comes first and the rest is read from the remaining text. */
  lemma HexBytesHead(text: string)
    requires |text| >= 2 && HexValue(text[0]).Some? && HexValue(text[1]).Some?
    ensures |HexBytes(text)| == 1 + |HexBytes(text[2..])|
    ensures HexBytes(text)[0] as int == HexValue(text[0]).value * 16 + HexValue(text[1]).value
    ensures HexBytes(text)[1..] == HexBytes(text[2..])
  {
    HexValueBound(text[0]);
    HexValueBound(text[1]);
  }

  lemma HexBytesFrom(text: string)
    ensures var bytes := HexBytes(text);
            forall i :: 0 <= i < |bytes| ==>
              && HexValue(text[2 * i]).Some? && HexValue(text[2 * i + 1]).Some?
              && bytes[i] as int == HexValue(text[2 * i]).value * 16 + HexValue(text[2 * i + 1]).value
  {
    forall i | 0 <= i < |HexBytes(text)| {
      HexBytesAt(text, i);
    }
  }

  /** Byte i of the buffer comes from digits 2i and 2i+1 of the text. */
  lemma {:induction false} HexBytesAt(text: string, i: nat)
    requires i < |HexBytes(text)|
    ensures HexValue(text[2 * i]).Some? && HexValue(text[2 * i + 1]).Some?
    ensures HexBytes(text)[i] as int == HexValue(text[2 * i]).value * 16 + HexValue(text[2 * i + 1]).value
  {
    assert |text| >= 2 && HexValue(text[0]).Some? && HexValue(text[1]).Some?;
    HexBytesHead(text);
    if i > 0 {
      var tail := text[2..];
      HexBytesAt(tail, i - 1);
      assert text[2 * i] == tail[2 * (i - 1)] && text[2 * i + 1] == tail[2 * (i - 1) + 1];
      assert HexBytes(text)[i] == HexBytes(tail)[i - 1];
    }
  }

  lemma {:induction false} HexBytesStop(text: string)
    ensures var m := |HexBytes(text)|;
            2 * m + 1 < |text| ==> HexValue(text[2 * m]).None? || HexValue(text[2 * m + 1]).None?
  {
    if |text| >= 2 && HexValue(text[0]).Some? && HexValue(text[1]).Some? {
      var tail := text[2..];
      HexBytesHead(text);
      HexBytesStop(tail);
      var m := |HexBytes(text)|;
      if 2 * m + 1 < |text| {
        assert text[2 * m] == tail[2 * (m - 1)] && text[2 * m + 1] == tail[2 * (m - 1) + 1];
      }
    }
  }

  /** Decoding the hexadecimal text of a buffer gives the buffer back. */
  lemma {:induction false} BytesRoundTrip(bytes: seq<byte>)
    ensures HexBytes(ToHex(bytes)) == bytes
  {
    if bytes != [] {
      var b := bytes[0] as int;
      var hi, lo := b / 16, b % 16;
      assert hi * 16 + lo == b;
      HexRoundTrip(hi);
      HexRoundTrip(lo);
      var text := ToHex(bytes);
      assert text == [HexDigit(hi), HexDigit(lo)] + ToHex(bytes[1..]);
      assert text[2..] == ToHex(bytes[1..]);
      BytesRoundTrip(bytes[1..]);
      assert HexBytes(text) == [b as byte] + HexBytes(text[2..]);
      assert bytes == [bytes[0]] + bytes[1..];
    }
  }

  /**
   * The number of bytes `Buffer.from(text, 'hex')` gives is `n` exactly when
   * the text starts with `n` pairs of hexadecimal digits and no further pair
   * follows them.
   */
  lemma HexLength(text: string, n: nat)
    ensures |HexBytes(text)| == n <==> HexPairs(text, n)
  {
    HexBytesSpec(text);
    if |HexBytes(text)| == n {
      HexLengthDigits(text);
    }
  }

  /** The text starts with `n` pairs of hexadecimal digits and no further pair follows them. */
  predicate HexPairs(text: string, n: nat)
  {
    && 2 * n <= |text|
    && (forall i :: 0 <= i < 2 * n ==> HexValue(text[i]).Some?)
    && (2 * n + 1 < |text| ==> HexValue(text[2 * n]).None? || HexValue(text[2 * n + 1]).None?)
  }

  lemma HexLengthDigits(text: string)
    ensures forall i :: 0 <= i < 2 * |HexBytes(text)| ==> HexValue(text[i]).Some?
  {
    HexBytesSpec(text);
    var m := |HexBytes(text)|;
    forall i | 0 <= i < 2 * m ensures HexValue(text[i]).Some? {
      var j := i / 2;
      assert 0 <= j < m;
      assert i == 2 * j || i == 2 * j + 1;
    }
  }
}
