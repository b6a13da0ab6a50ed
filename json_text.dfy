/**
 * `JSON.stringify` with no replacer and no indentation, on the values of
 * this model: the text the signing code hashes and the body it broadcasts.
 * Its partner is `Parse`, a reader of the same compact JSON text; the round
 * trip `Parse(Stringify(v)) == Some(v)` holds for every value built only
 * from JSON data (`JsonData`).
 */
module JsonText {
  import opened JsString
  import opened JsObject
  import opened JsValue
  import opened Outcomes

  // ---------------------------------------------------------------------
  // Writing
  // ---------------------------------------------------------------------

  /** The lower-case hexadecimal digit of `d`. */
  function HexDigit(d: nat): (c: char)
    requires d < 16
  {
    if d < 10 then DigitChar(d) else ('a' as int + d - 10) as char
  }

  /** The text QuoteJSONString writes for one character. */
  function EscapeChar(c: char): string
  {
    var n := c as int;
    if c == '"' then ['\\', '"']
    else if c == '\\' then ['\\', '\\']
    else if n == 0x08 then ['\\', 'b']
    else if n == 0x09 then ['\\', 't']
    else if n == 0x0A then ['\\', 'n']
    else if n == 0x0C then ['\\', 'f']
    else if n == 0x0D then ['\\', 'r']
    else if n < 0x20 then ['\\', 'u', '0', '0', HexDigit(n / 16), HexDigit(n % 16)]
    else [c]
  }

  function Escaped(s: string): string
  {
    if s == [] then [] else EscapeChar(s[0]) + Escaped(s[1..])
  }

  /** QuoteJSONString: `s` between double quotes, escaped. */
  function Quote(s: string): string
  {
    ['"'] + Escaped(s) + ['"']
  }

  /** No character of `s` is written as an escape sequence. */
  predicate Plain(s: string)
  {
    forall i :: 0 <= i < |s| ==> s[i] as int >= 0x20 && s[i] != '"' && s[i] != '\\'
  }

  lemma {:induction false} EscapedPlain(s: string)
    requires Plain(s)
    ensures Escaped(s) == s
  {
    if s != [] {
      EscapedPlain(s[1..]);
      assert s == [s[0]] + s[1..];
    }
  }

  /** A string none of whose characters needs escaping is written as itself between quotes. */
  lemma QuotePlain(s: string)
    requires Plain(s)
    ensures Quote(s) == ['"'] + s + ['"']
  {
    EscapedPlain(s);
  }

  /**
   * Number::toString of an integer, exact for the safe integers
   * (|n| <= 2^53 - 1). Beyond those a JavaScript number is a rounded double,
   * and from 10^21 on it is written with an exponent; neither is modelled.
   */
  function IntText(n: int): string
  {
    if n < 0 then ['-'] + Decimal(-n) else Decimal(n)
  }

  /**
   * SerializeJSONProperty of a value that is not `undefined` at the top:
   * `undefined` here is an array element, which is written `null`.
   */
  function Ser(v: Json): (text: string)
    ensures text != []
    ensures v.Str? ==> text[0] == '"' && text[|text| - 1] == '"'
    ensures v.Arr? ==> text[0] == '[' && text[|text| - 1] == ']'
    ensures v.Obj? ==> text[0] == '{' && text[|text| - 1] == '}'
    decreases v, 1
  {
    match v
    case Undefined | Null => "null"
    case Bool(b) => if b then "true" else "false"
    case Num(n) => IntText(n)
    case Str(s) => Quote(s)
    case Arr(items) => ['['] + SerItems(items) + [']']
    case Obj(ps) => ['{'] + SerProps(ps) + ['}']
  }

  /** SerializeJSONArray: the elements, separated by commas. */
  function SerItems(items: seq<Json>): string
    decreases items, 0
  {
    if items == [] then []
    else if |items| == 1 then Ser(items[0])
    else Ser(items[0]) + [','] + SerItems(items[1..])
  }

  predicate AllUndefined(ps: seq<Prop<Json>>)
  {
    forall i :: 0 <= i < |ps| ==> ps[i].value.Undefined?
  }

  /** SerializeJSONObject: `"name":value` for each property whose value is not undefined, separated by commas. */
  function SerProps(ps: seq<Prop<Json>>): string
    decreases ps, 0
  {
    if ps == [] then []
    else if ps[0].value.Undefined? then SerProps(ps[1..])
    else
      var member := Quote(ps[0].key) + [':'] + Ser(ps[0].value);
      if AllUndefined(ps[1..]) then member else member + [','] + SerProps(ps[1..])
  }

  /** `JSON.stringify(v)`: undefined gives no text at all. */
  function Stringify(v: Json): (r: Option<string>)
    ensures r.None? <==> v.Undefined?
  {
    if v.Undefined? then None else Some(Ser(v))
  }

  // ---------------------------------------------------------------------
  // Reading
  // ---------------------------------------------------------------------

  /** The value of a hexadecimal digit of either case. */
  function HexValue(c: char): Option<nat>
  {
    if '0' <= c <= '9' then Some(c as int - '0' as int)
    else if 'a' <= c <= 'f' then Some(c as int - 'a' as int + 10)
    else if 'A' <= c <= 'F' then Some(c as int - 'A' as int + 10)
    else None
  }

  /** The four hexadecimal digits of a `\u` escape. */
  function HexUnit(s: string): Option<nat>
    requires |s| >= 4
  {
    match (HexValue(s[0]), HexValue(s[1]), HexValue(s[2]), HexValue(s[3]))
    case (Some(a), Some(b), Some(c), Some(d)) => Some(((a * 16 + b) * 16 + c) * 16 + d)
    case _ => None
  }

  /** The character an escape stands for; `s` follows the backslash. Surrogate escapes are not read. */
  function Unescape(s: string): (r: Option<(char, string)>)
    ensures r.Some? ==> |r.value.1| < |s|
  {
    if s == [] then None
    else if s[0] == '"' || s[0] == '\\' || s[0] == '/' then Some((s[0], s[1..]))
    else if s[0] == 'b' then Some((8 as char, s[1..]))
    else if s[0] == 't' then Some((9 as char, s[1..]))
    else if s[0] == 'n' then Some((10 as char, s[1..]))
    else if s[0] == 'f' then Some((12 as char, s[1..]))
    else if s[0] == 'r' then Some((13 as char, s[1..]))
    else if s[0] == 'u' && |s| >= 5 then
      match HexUnit(s[1..5])
      case Some(u) => if 0xD800 <= u < 0xE000 then None else Some((u as char, s[5..]))
      case None => None
    else None
  }

  /** The characters of a string literal up to its closing quote; `s` follows the opening quote. */
  function ParseString(s: string): (r: Option<(string, string)>)
    ensures r.Some? ==> |r.value.1| < |s|
    decreases |s|
  {
    if s == [] then None
    else if s[0] == '"' then Some(([], s[1..]))
    else if s[0] == '\\' then
      match Unescape(s[1..])
      case None => None
      case Some((c, rest)) =>
        match ParseString(rest)
        case None => None
        case Some((t, rest')) => Some(([c] + t, rest'))
    else if (s[0] as int) < 0x20 then None
    else
      match ParseString(s[1..])
      case None => None
      case Some((t, rest)) => Some(([s[0]] + t, rest))
  }

  /** The number of leading decimal digits of `s`. */
  function DigitRun(s: string): (n: nat)
    ensures n <= |s| && AllDigits(s[..n])
    ensures n < |s| ==> !IsDigit(s[n])
  {
    if s == [] || !IsDigit(s[0]) then 0
    else
      var n := 1 + DigitRun(s[1..]);
      assert s[..n] == [s[0]] + s[1..][..n - 1];
      n
  }

  /** An optionally negative integer without superfluous leading zeros. */
  function ParseNumber(s: string): (r: Option<(Json, string)>)
    ensures r.Some? ==> |r.value.1| < |s|
  {
    var neg := s != [] && s[0] == '-';
    var t := if neg then s[1..] else s;
    var n := DigitRun(t);
    if IsCanonicalNumeral(t[..n]) then
      var m: int := DigitsValue(t[..n]);
      Some((Num(if neg then -m else m), t[n..]))
    else None
  }

  /** `word` at the front of `s`. */
  function Literal(s: string, word: string, v: Json): (r: Option<(Json, string)>)
    requires word != []
    ensures r.Some? ==> |r.value.1| < |s|
  {
    if |word| <= |s| && s[..|word|] == word then Some((v, s[|word|..])) else None
  }

  /** One JSON value at the front of `s`, and the text after it. */
  function ParseValue(s: string): (r: Option<(Json, string)>)
    ensures r.Some? ==> |r.value.1| < |s|
    decreases |s|, 0
  {
    if s == [] then None
    else if s[0] == 'n' then Literal(s, "null", Null)
    else if s[0] == 't' then Literal(s, "true", Bool(true))
    else if s[0] == 'f' then Literal(s, "false", Bool(false))
    else if s[0] == '-' || IsDigit(s[0]) then ParseNumber(s)
    else if s[0] == '"' then
      match ParseString(s[1..])
      case None => None
      case Some((t, rest)) => Some((Str(t), rest))
    else if s[0] == '[' then
      if |s| > 1 && s[1] == ']' then Some((Arr([]), s[2..]))
      else
        match ParseItems(s[1..])
        case None => None
        case Some((items, rest)) => Some((Arr(items), rest))
    else if s[0] == '{' then
      if |s| > 1 && s[1] == '}' then Some((Obj([]), s[2..]))
      else
        match ParseMembers(s[1..])
        case None => None
        case Some((ps, rest)) => Some((Obj(AssignFrom([], ps)), rest))
    else None
  }

  /** Array elements up to and including the closing bracket. */
  function ParseItems(s: string): (r: Option<(seq<Json>, string)>)
    ensures r.Some? ==> |r.value.1| < |s|
    decreases |s|, 1
  {
    match ParseValue(s)
    case None => None
    case Some((x, rest)) =>
      if rest == [] then None
      else if rest[0] == ']' then Some(([x], rest[1..]))
      else if rest[0] == ',' then
        match ParseItems(rest[1..])
        case None => None
        case Some((xs, rest')) => Some(([x] + xs, rest'))
      else None
  }

  /** Object members up to and including the closing brace, in the order written. */
  function ParseMembers(s: string): (r: Option<(seq<Prop<Json>>, string)>)
    ensures r.Some? ==> |r.value.1| < |s|
    decreases |s|, 1
  {
    if s == [] || s[0] != '"' then None
    else
      match ParseString(s[1..])
      case None => None
      case Some((k, rest)) =>
        if rest == [] || rest[0] != ':' then None
        else
          match ParseValue(rest[1..])
          case None => None
          case Some((x, rest')) =>
            if rest' == [] then None
            else if rest'[0] == '}' then Some(([Prop(k, x)], rest'[1..]))
            else if rest'[0] == ',' then
              match ParseMembers(rest'[1..])
              case None => None
              case Some((ps, rest'')) => Some(([Prop(k, x)] + ps, rest''))
            else None
  }

  /**
   * The value a whole text denotes. Members are set one after the other as
   * `JSON.parse` does, so a repeated name keeps its last value.
   */
  function Parse(s: string): Option<Json>
  {
    match ParseValue(s)
    case Some((v, rest)) => if rest == [] then Some(v) else None
    case None => None
  }

  // ---------------------------------------------------------------------
  // The round trip
  // ---------------------------------------------------------------------

  /** A value made only of JSON data: no undefined anywhere, every object shaped like a real one. */
  predicate JsonData(v: Json)
  {
    match v
    case Undefined => false
    case Arr(items) => forall i :: 0 <= i < |items| ==> JsonData(items[i])
    case Obj(ps) => Shaped(ps) && forall i :: 0 <= i < |ps| ==> JsonData(ps[i].value)
    case _ => true
  }

  /** What may follow a value inside JSON text: nothing, a separator or a closing bracket. */
  predicate Delimits(rest: string)
  {
    rest == [] || rest[0] == ',' || rest[0] == ']' || rest[0] == '}'
  }

  /** `c` in front of what `ParseString` reads from the rest. */
  function Prepend(c: char, r: Option<(string, string)>): Option<(string, string)>
  {
    match r
    case None => None
    case Some((t, rest)) => Some(([c] + t, rest))
  }

  lemma HexRoundTrip(d: nat)
    requires d < 16
    ensures HexValue(HexDigit(d)) == Some(d)
  {
  }

  /** Reading an escaped character gives the character back. */
  lemma EscapeCharRoundTrip(c: char, t: string)
    ensures ParseString(EscapeChar(c) + t) == Prepend(c, ParseString(t))
  {
    var n := c as int;
    if c == '"' || c == '\\' || n == 0x08 || n == 0x09 || n == 0x0A || n == 0x0C || n == 0x0D {
      ShortEscapeRoundTrip(c, t);
    } else if n < 0x20 {
      UnicodeEscapeRoundTrip(c, t);
    } else {
      assert (EscapeChar(c) + t)[1..] == t;
    }
  }

  lemma ShortEscapeRoundTrip(c: char, t: string)
    requires var n := c as int; c == '"' || c == '\\' || n == 0x08 || n == 0x09 || n == 0x0A || n == 0x0C || n == 0x0D
    ensures ParseString(EscapeChar(c) + t) == Prepend(c, ParseString(t))
  {
    var s := EscapeChar(c) + t;
    assert |EscapeChar(c)| == 2 && s[0] == '\\';
    assert s[1..] == [EscapeChar(c)[1]] + t;
    assert Unescape(s[1..]) == Some((c, t));
  }

  lemma UnicodeEscapeRoundTrip(c: char, t: string)
    requires var n := c as int; c != '"' && c != '\\' && n != 0x08 && n != 0x09 && n != 0x0A && n != 0x0C && n != 0x0D && n < 0x20
    ensures ParseString(EscapeChar(c) + t) == Prepend(c, ParseString(t))
  {
    var n := c as int;
    var hi, lo := n / 16, n % 16;
    HexRoundTrip(hi);
    HexRoundTrip(lo);
    var s := EscapeChar(c) + t;
    assert EscapeChar(c) == ['\\', 'u', '0', '0', HexDigit(hi), HexDigit(lo)];
    var e := s[1..];
    assert e[0] == 'u' && e[1..5] == ['0', '0', HexDigit(hi), HexDigit(lo)];
    assert HexUnit(e[1..5]) == Some(n);
    assert e[5..] == t;
    assert Unescape(e) == Some((c, t));
  }

  /** Reading an escaped string up to its closing quote gives the string back. */
  lemma {:induction false} EscapedRoundTrip(s: string, rest: string)
    ensures ParseString(Escaped(s) + ['"'] + rest) == Some((s, rest))
  {
    if s == [] {
      assert Escaped(s) + ['"'] + rest == ['"'] + rest;
    } else {
      var tail := Escaped(s[1..]) + ['"'] + rest;
      assert Escaped(s) + ['"'] + rest == EscapeChar(s[0]) + tail;
      EscapeCharRoundTrip(s[0], tail);
      EscapedRoundTrip(s[1..], rest);
      assert [s[0]] + s[1..] == s;
    }
  }

  lemma {:induction false} DigitRunOf(d: string, rest: string)
    requires AllDigits(d) && (rest == [] || !IsDigit(rest[0]))
    ensures DigitRun(d + rest) == |d|
  {
    if d != [] {
      assert (d + rest)[1..] == d[1..] + rest;
      DigitRunOf(d[1..], rest);
    } else {
      assert d + rest == rest;
    }
  }

  /** Reading the decimal text of an integer gives the integer back. */
  lemma IntTextRoundTrip(n: int, rest: string)
    requires rest == [] || !IsDigit(rest[0])
    ensures ParseNumber(IntText(n) + rest) == Some((Num(n), rest))
  {
    if n < 0 {
      NegativeTextRoundTrip(-n, rest);
      assert IntText(n) == ['-'] + Decimal(-n);
    } else {
      DigitsRead(n, rest);
    }
  }

  lemma NegativeTextRoundTrip(m: nat, rest: string)
    requires rest == [] || !IsDigit(rest[0])
    ensures ParseNumber(['-'] + Decimal(m) + rest) == Some((Num(-(m as int)), rest))
  {
    DigitsRead(m, rest);
    MinusRead(Decimal(m) + rest, Decimal(m), m, rest);
    Associate3(['-'], Decimal(m), rest);
  }

  /** A minus sign before the digits of `m` is read as `-m`. */
  lemma MinusRead(t: string, d: string, m: nat, rest: string)
    requires DigitRun(t) == |d| && t[..|d|] == d && t[|d|..] == rest
    requires IsCanonicalNumeral(d) && DigitsValue(d) == m
    ensures ParseNumber(['-'] + t) == Some((Num(-(m as int)), rest))
  {
    assert (['-'] + t)[1..] == t;
  }

  /** The digits of `m` are read up to the first character that is not a digit. */
  lemma DigitsRead(m: nat, rest: string)
    requires rest == [] || !IsDigit(rest[0])
    ensures var d := Decimal(m);
            var t := d + rest;
            && t != [] && t[0] != '-'
            && DigitRun(t) == |d| && t[..|d|] == d && t[|d|..] == rest
            && IsCanonicalNumeral(d) && DigitsValue(d) == m
  {
    DecimalRoundTrip(m);
    var d := Decimal(m);
    DigitRunOf(d, rest);
    var t := d + rest;
    assert t[..|d|] == d && t[|d|..] == rest;
  }


  /** The text of every value begins with a character that cannot close an array or an object. */
  lemma SerFirst(v: Json)
    ensures Ser(v) != [] && Ser(v)[0] != ']' && Ser(v)[0] != '}'
  {
    if v.Num? {
      var m: nat := if v.n < 0 then -v.n else v.n;
      DecimalRoundTrip(m);
    }
  }

  /** Reading the text of a JSON datum, followed by a delimiter, gives the datum back. */
  lemma {:induction false} SerRoundTrip(v: Json, rest: string)
    requires JsonData(v) && Delimits(rest)
    ensures ParseValue(Ser(v) + rest) == Some((v, rest))
    decreases v, 2
  {
    match v
    case Arr(items) => ArrayRoundTrip(items, rest);
    case Obj(ps) => ObjectRoundTrip(ps, rest);
    case _ => ScalarRoundTrip(v, rest);
  }

  lemma ScalarRoundTrip(v: Json, rest: string)
    requires !v.Undefined? && !v.Arr? && !v.Obj? && Delimits(rest)
    ensures ParseValue(Ser(v) + rest) == Some((v, rest))
  {
    var s := Ser(v) + rest;
    match v
    case Null =>
      assert s[0] == 'n' && s[..4] == "null" && s[4..] == rest;
    case Bool(b) =>
      if b {
        assert s[0] == 't' && s[..4] == "true" && s[4..] == rest;
      } else {
        assert s[0] == 'f' && s[..5] == "false" && s[5..] == rest;
      }
    case Num(n) =>
      SerFirst(v);
      IntTextRoundTrip(n, rest);
      assert s[0] == '-' || IsDigit(s[0]);
    case Str(t) =>
      Enclosed('"', Escaped(t), '"', rest);
      EscapedRoundTrip(t, rest);
  }

  lemma {:induction false} ArrayRoundTrip(items: seq<Json>, rest: string)
    requires JsonData(Arr(items)) && Delimits(rest)
    ensures ParseValue(Ser(Arr(items)) + rest) == Some((Arr(items), rest))
    decreases items, 1
  {
    var s := Ser(Arr(items)) + rest;
    Enclosed('[', SerItems(items), ']', rest);
    if items == [] {
      assert s[1] == ']' && s[2..] == rest;
    } else {
      SerFirst(items[0]);
      assert SerItems(items)[0] == Ser(items[0])[0];
      ArrayText(SerItems(items), rest);
      ItemsRoundTrip(items, rest);
    }
  }

  lemma {:induction false} ObjectRoundTrip(ps: seq<Prop<Json>>, rest: string)
    requires JsonData(Obj(ps)) && Delimits(rest)
    ensures ParseValue(Ser(Obj(ps)) + rest) == Some((Obj(ps), rest))
    decreases ps, 1
  {
    var s := Ser(Obj(ps)) + rest;
    Enclosed('{', SerProps(ps), '}', rest);
    if ps == [] {
      assert SerProps(ps) == [];
      assert s[1] == '}' && s[2..] == rest;
    } else {
      if |ps| == 1 { LastMemberText(ps, rest); } else { MemberText(ps, rest); }
      assert SerProps(ps)[0] == '"';
      ObjectText(SerProps(ps), rest);
      MembersRoundTrip(ps, rest);
      AssignCopies(ps);
    }
  }

  lemma {:induction false} ItemsRoundTrip(items: seq<Json>, rest: string)
    requires items != [] && forall i :: 0 <= i < |items| ==> JsonData(items[i])
    ensures ParseItems(SerItems(items) + [']'] + rest) == Some((items, rest))
    decreases items, 0
  {
    assert JsonData(items[0]);
    if |items| == 1 {
      SerRoundTrip(items[0], [']'] + rest);
      LastItemRoundTrip(items, rest);
    } else {
      SerRoundTrip(items[0], [','] + (SerItems(items[1..]) + [']'] + rest));
      ItemsRoundTrip(items[1..], rest);
      NextItemRoundTrip(items, rest);
    }
  }

  /** `x]` is read as the last element. */
  lemma LastItemRoundTrip(items: seq<Json>, rest: string)
    requires |items| == 1
    requires ParseValue(Ser(items[0]) + ([']'] + rest)) == Some((items[0], [']'] + rest))
    ensures ParseItems(SerItems(items) + [']'] + rest) == Some((items, rest))
  {
    assert SerItems(items) + [']'] + rest == Ser(items[0]) + ([']'] + rest);
    assert ([']'] + rest)[1..] == rest;
    assert [items[0]] == items;
  }

  /** `x,` followed by the remaining elements is read as the whole array. */
  lemma NextItemRoundTrip(items: seq<Json>, rest: string)
    requires |items| > 1
    requires var after := [','] + (SerItems(items[1..]) + [']'] + rest);
             ParseValue(Ser(items[0]) + after) == Some((items[0], after))
    requires ParseItems(SerItems(items[1..]) + [']'] + rest) == Some((items[1..], rest))
    ensures ParseItems(SerItems(items) + [']'] + rest) == Some((items, rest))
  {
    var after := [','] + (SerItems(items[1..]) + [']'] + rest);
    assert SerItems(items) + [']'] + rest == Ser(items[0]) + after by {
      Associate(Ser(items[0]), [','], SerItems(items[1..]), [']'], rest);
    }
    assert after[1..] == SerItems(items[1..]) + [']'] + rest;
    assert [items[0]] + items[1..] == items;
  }

  lemma {:induction false} MembersRoundTrip(ps: seq<Prop<Json>>, rest: string)
    requires ps != [] && forall i :: 0 <= i < |ps| ==> JsonData(ps[i].value)
    ensures ParseMembers(SerProps(ps) + ['}'] + rest) == Some((ps, rest))
    decreases ps, 0
  {
    assert JsonData(ps[0].value);
    if |ps| == 1 {
      SerRoundTrip(ps[0].value, ['}'] + rest);
      LastMemberRoundTrip(ps, rest);
    } else {
      assert JsonData(ps[1].value);
      SerRoundTrip(ps[0].value, [','] + (SerProps(ps[1..]) + ['}'] + rest));
      MembersRoundTrip(ps[1..], rest);
      NextMemberRoundTrip(ps, rest);
    }
  }

  /** The last member is read back, given that its value is. */
  lemma LastMemberRoundTrip(ps: seq<Prop<Json>>, rest: string)
    requires |ps| == 1 && !ps[0].value.Undefined?
    requires ParseValue(Ser(ps[0].value) + (['}'] + rest)) == Some((ps[0].value, ['}'] + rest))
    ensures ParseMembers(SerProps(ps) + ['}'] + rest) == Some((ps, rest))
  {
    var p := ps[0];
    LastMemberText(ps, rest);
    LastMemberParse(p.key, p.value, rest);
    assert [Prop(p.key, p.value)] == ps;
  }

  /** A member followed by others is read back, given that its value and the others are. */
  lemma NextMemberRoundTrip(ps: seq<Prop<Json>>, rest: string)
    requires |ps| > 1 && !ps[0].value.Undefined? && !ps[1].value.Undefined?
    requires var after := [','] + (SerProps(ps[1..]) + ['}'] + rest);
             ParseValue(Ser(ps[0].value) + after) == Some((ps[0].value, after))
    requires ParseMembers(SerProps(ps[1..]) + ['}'] + rest) == Some((ps[1..], rest))
    ensures ParseMembers(SerProps(ps) + ['}'] + rest) == Some((ps, rest))
  {
    MemberText(ps, rest);
    NextMemberParse(ps[0].key, ps[0].value, SerProps(ps[1..]) + ['}'] + rest, ps[1..], rest);
    HeadAndTail(ps);
  }

  /** `"k":x}` is read as the last member. */
  lemma LastMemberParse(k: string, x: Json, rest: string)
    requires ParseValue(Ser(x) + (['}'] + rest)) == Some((x, ['}'] + rest))
    ensures ParseMembers(['"'] + (Escaped(k) + ['"'] + ([':'] + (Ser(x) + (['}'] + rest))))) == Some(([Prop(k, x)], rest))
  {
    MemberHead(k, x, ['}'] + rest);
    assert (['}'] + rest)[1..] == rest;
  }

  /** `"k":x,` is read as a member followed by the members after the comma. */
  /** A non-empty list of properties is its first property followed by the rest. */
  lemma HeadAndTail(ps: seq<Prop<Json>>)
    requires ps != []
    ensures [Prop(ps[0].key, ps[0].value)] + ps[1..] == ps
  {
    assert Prop(ps[0].key, ps[0].value) == ps[0];
  }

  lemma NextMemberParse(k: string, x: Json, tail: string, qs: seq<Prop<Json>>, rest: string)
    requires ParseValue(Ser(x) + ([','] + tail)) == Some((x, [','] + tail))
    requires ParseMembers(tail) == Some((qs, rest))
    ensures ParseMembers(['"'] + (Escaped(k) + ['"'] + ([':'] + (Ser(x) + ([','] + tail))))) == Some(([Prop(k, x)] + qs, rest))
  {
    MemberHead(k, x, [','] + tail);
    assert ([','] + tail)[1..] == tail;
  }

  /** The name of a member and its colon are read, leaving the value and what follows it. */
  lemma MemberHead(k: string, x: Json, after: string)
    ensures var s := ['"'] + (Escaped(k) + ['"'] + ([':'] + (Ser(x) + after)));
            && s != [] && s[0] == '"'
            && ParseString(s[1..]) == Some((k, [':'] + (Ser(x) + after)))
            && ([':'] + (Ser(x) + after))[1..] == Ser(x) + after
  {
    var s := ['"'] + (Escaped(k) + ['"'] + ([':'] + (Ser(x) + after)));
    assert s[1..] == Escaped(k) + ['"'] + ([':'] + (Ser(x) + after));
    EscapedRoundTrip(k, [':'] + (Ser(x) + after));
  }

  /** The text of a single defined property, then the closing brace. */
  lemma LastMemberText(ps: seq<Prop<Json>>, rest: string)
    requires |ps| == 1 && !ps[0].value.Undefined?
    ensures SerProps(ps) + ['}'] + rest == ['"'] + (Escaped(ps[0].key) + ['"'] + ([':'] + (Ser(ps[0].value) + (['}'] + rest))))
  {
    FirstMember(ps);
    Regroup(Escaped(ps[0].key), Ser(ps[0].value), ['}'] + rest);
  }

  /** The text of two or more defined properties: the first member, a comma and the rest. */
  lemma MemberText(ps: seq<Prop<Json>>, rest: string)
    requires |ps| > 1 && !ps[0].value.Undefined? && !ps[1].value.Undefined?
    ensures var after := [','] + (SerProps(ps[1..]) + ['}'] + rest);
      SerProps(ps) + ['}'] + rest == ['"'] + (Escaped(ps[0].key) + ['"'] + ([':'] + (Ser(ps[0].value) + after)))
  {
    var m := Quote(ps[0].key) + [':'] + Ser(ps[0].value);
    FirstMember(ps);
    Associate(m, [','], SerProps(ps[1..]), ['}'], rest);
    Regroup(Escaped(ps[0].key), Ser(ps[0].value), [','] + (SerProps(ps[1..]) + ['}'] + rest));
  }

  lemma FirstMember(ps: seq<Prop<Json>>)
    requires ps != [] && !ps[0].value.Undefined? && (|ps| > 1 ==> !ps[1].value.Undefined?)
    ensures var m := Quote(ps[0].key) + [':'] + Ser(ps[0].value);
      SerProps(ps) == if |ps| == 1 then m else m + [','] + SerProps(ps[1..])
  {
    if |ps| > 1 {
      assert !AllUndefined(ps[1..]) by { assert ps[1..][0] == ps[1]; }
    }
  }

  /** How `ParseValue` reads a non-empty array. */
  lemma ArrayText(x: string, rest: string)
    requires x != [] && x[0] != ']'
    ensures ParseValue(['['] + x + [']'] + rest) ==
      match ParseItems(x + [']'] + rest)
      case None => None
      case Some((items, r)) => Some((Arr(items), r))
  {
    var s := ['['] + x + [']'] + rest;
    Enclosed('[', x, ']', rest);
    ParseArrayOpening(s);
  }

  /** How `ParseValue` reads a non-empty object. */
  lemma ObjectText(x: string, rest: string)
    requires x != [] && x[0] == '"'
    ensures ParseValue(['{'] + x + ['}'] + rest) ==
      match ParseMembers(x + ['}'] + rest)
      case None => None
      case Some((ps, r)) => Some((Obj(AssignFrom([], ps)), r))
  {
    var s := ['{'] + x + ['}'] + rest;
    Enclosed('{', x, '}', rest);
    ParseObjectOpening(s);
  }

  /** An array that is not closed at once is read by its elements. */
  lemma ParseArrayOpening(s: string)
    requires |s| > 1 && s[0] == '[' && s[1] != ']'
    ensures ParseValue(s) ==
      match ParseItems(s[1..])
      case None => None
      case Some((items, r)) => Some((Arr(items), r))
  {
  }

  /** An object that is not closed at once is read by its members. */
  lemma ParseObjectOpening(s: string)
    requires |s| > 1 && s[0] == '{' && s[1] != '}'
    ensures ParseValue(s) ==
      match ParseMembers(s[1..])
      case None => None
      case Some((ps, r)) => Some((Obj(AssignFrom([], ps)), r))
  {
    assert !IsDigit(s[0]) && !(|s| > 1 && s[1] == '}');
  }


  /** The text after an opening character. */
  lemma Enclosed(open: char, x: string, close: char, rest: string)
    ensures ([open] + x + [close] + rest)[0] == open
    ensures ([open] + x + [close] + rest)[1..] == x + [close] + rest
    ensures x == [] ==> ([open] + x + [close] + rest)[1] == close && ([open] + x + [close] + rest)[2..] == rest
    ensures x != [] ==> ([open] + x + [close] + rest)[1] == x[0]
  {
  }

  lemma Associate3(a: string, b: string, c: string)
    ensures a + b + c == a + (b + c)
  {
  }

  lemma Associate(a: string, b: string, c: string, d: string, e: string)
    ensures a + b + c + d + e == a + (b + (c + d + e))
  {
  }

  lemma Regroup(e: string, x: string, after: string)
    ensures ['"'] + e + ['"'] + [':'] + x + after == ['"'] + (e + ['"'] + ([':'] + (x + after)))
  {
  }

  /** `Parse` reads back every JSON datum `JSON.stringify` writes. */
  lemma StringifyRoundTrip(v: Json)
    requires JsonData(v)
    ensures Stringify(v).Some? && Parse(Stringify(v).value) == Some(v)
  {
    SerRoundTrip(v, []);
    assert Ser(v) + [] == Ser(v);
  }
}
