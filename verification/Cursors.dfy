/** Opaque offset cursors: JSON text in URL-safe base64 (api_v1.py; base64 as in section 5 of RFC 4648). */
module Cursors {
  import opened Outcomes

  type Byte = n: int | 0 <= n < 256

  // ------------------------------------------------------------------- base64

  /** Position of a character in the URL-safe alphabet. */
  function Sextet(c: char): Option<int>
  {
    if 'A' <= c <= 'Z' then Some(c as int - 'A' as int)
    else if 'a' <= c <= 'z' then Some(26 + (c as int - 'a' as int))
    else if '0' <= c <= '9' then Some(52 + (c as int - '0' as int))
    else if c == '-' then Some(62)
    else if c == '_' then Some(63)
    else None
  }

  function Symbol(n: int): (c: char)
    requires 0 <= n < 64
    ensures Sextet(c) == Some(n)
  {
    if n < 26 then ('A' as int + n) as char
    else if n < 52 then ('a' as int + (n - 26)) as char
    else if n < 62 then ('0' as int + (n - 52)) as char
    else if n == 62 then '-' else '_'
  }

  function Encode64(bytes: seq<Byte>): string
  {
    if bytes == [] then ""
    else if |bytes| == 1 then
      [Symbol(bytes[0] / 4), Symbol(bytes[0] % 4 * 16), '=', '=']
    else if |bytes| == 2 then
      [Symbol(bytes[0] / 4), Symbol(bytes[0] % 4 * 16 + bytes[1] / 16), Symbol(bytes[1] % 16 * 4), '=']
    else
      [Symbol(bytes[0] / 4), Symbol(bytes[0] % 4 * 16 + bytes[1] / 16),
       Symbol(bytes[1] % 16 * 4 + bytes[2] / 64), Symbol(bytes[2] % 64)] + Encode64(bytes[3..])
  }

  /** The bytes of one group of four symbols; only a last group may be padded. */
  function DecodeGroup(a: char, b: char, c: char, d: char, last: bool): Option<seq<Byte>>
  {
    var w, x, y, z := Sextet(a), Sextet(b), Sextet(c), Sextet(d);
    if w.None? || x.None? || w.value < 0 || w.value > 63 || x.value < 0 || x.value > 63 then None
    else if c == '=' && d == '=' && last then Some([w.value * 4 + x.value / 16])
    else if y.None? || y.value < 0 || y.value > 63 then None
    else if d == '=' && last then Some([w.value * 4 + x.value / 16, x.value % 16 * 16 + y.value / 4])
    else if z.None? || z.value < 0 || z.value > 63 then None
    else Some([w.value * 4 + x.value / 16, x.value % 16 * 16 + y.value / 4, y.value % 4 * 64 + z.value])
  }

  function Decode64(text: string): Option<seq<Byte>>
  {
    if text == [] then Some([])
    else if |text| < 4 then None
    else
      var group := DecodeGroup(text[0], text[1], text[2], text[3], |text| == 4);
      var rest := Decode64(text[4..]);
      if group.None? || rest.None? then None else Some(group.value + rest.value)
  }

  lemma PaddedGroups(a: Byte, b: Byte)
    ensures DecodeGroup(Symbol(a / 4), Symbol(a % 4 * 16), '=', '=', true) == Some([a])
    ensures DecodeGroup(Symbol(a / 4), Symbol(a % 4 * 16 + b / 16), Symbol(b % 16 * 4), '=', true) == Some([a, b])
  {
  }

  lemma FullGroup(a: Byte, b: Byte, c: Byte, last: bool)
    ensures DecodeGroup(Symbol(a / 4), Symbol(a % 4 * 16 + b / 16), Symbol(b % 16 * 4 + c / 64), Symbol(c % 64), last) == Some([a, b, c])
  {
    var w, x, y, z := a / 4, a % 4 * 16 + b / 16, b % 16 * 4 + c / 64, c % 64;
    assert x / 16 == a % 4 && x % 16 == b / 16;
    assert y / 4 == b % 16 && y % 4 == c / 64;
  }

  /** One group in front of a text that decodes. */
  lemma DecodeOneMore(a: char, b: char, c: char, d: char, rest: string, group: seq<Byte>, tail: seq<Byte>)
    requires DecodeGroup(a, b, c, d, rest == []) == Some(group) && Decode64(rest) == Some(tail)
    ensures Decode64([a, b, c, d] + rest) == Some(group + tail)
  {
    assert ([a, b, c, d] + rest)[4..] == rest;
  }

  lemma {:induction false} Base64RoundTrip(bytes: seq<Byte>)
    ensures Decode64(Encode64(bytes)) == Some(bytes)
  {
    if |bytes| == 1 {
      OneByteRoundTrip(bytes[0]);
      assert bytes == [bytes[0]];
    } else if |bytes| == 2 {
      TwoBytesRoundTrip(bytes[0], bytes[1]);
      assert bytes == [bytes[0], bytes[1]];
    } else if bytes != [] {
      Base64RoundTrip(bytes[3..]);
      LongRoundTrip(bytes[0], bytes[1], bytes[2], bytes[3..]);
      assert [bytes[0], bytes[1], bytes[2]] + bytes[3..] == bytes;
    }
  }

  lemma OneByteRoundTrip(a: Byte)
    ensures Decode64(Encode64([a])) == Some([a])
  {
    PaddedGroups(a, 0);
    var text := [Symbol(a / 4), Symbol(a % 4 * 16), '=', '='];
    assert text[4..] == [] && [a] + [] == [a];
  }

  lemma TwoBytesRoundTrip(a: Byte, b: Byte)
    ensures Decode64(Encode64([a, b])) == Some([a, b])
  {
    PaddedGroups(a, b);
    var text := [Symbol(a / 4), Symbol(a % 4 * 16 + b / 16), Symbol(b % 16 * 4), '='];
    assert text[4..] == [] && [a, b] + [] == [a, b];
  }

  lemma EncodeOneMore(a: Byte, b: Byte, c: Byte, rest: seq<Byte>)
    ensures Encode64([a, b, c] + rest)
         == [Symbol(a / 4), Symbol(a % 4 * 16 + b / 16), Symbol(b % 16 * 4 + c / 64), Symbol(c % 64)] + Encode64(rest)
  {
    assert ([a, b, c] + rest)[3..] == rest;
  }

  lemma LongRoundTrip(a: Byte, b: Byte, c: Byte, rest: seq<Byte>)
    requires Decode64(Encode64(rest)) == Some(rest)
    ensures Decode64(Encode64([a, b, c] + rest)) == Some([a, b, c] + rest)
  {
    var text := Encode64(rest);
    FullGroup(a, b, c, text == []);
    EncodeOneMore(a, b, c, rest);
    DecodeOneMore(Symbol(a / 4), Symbol(a % 4 * 16 + b / 16), Symbol(b % 16 * 4 + c / 64), Symbol(c % 64),
                  text, [a, b, c], rest);
  }

  /** The symbols are A-Z, a-z, 0-9, - and _ in this order. */
  lemma SymbolCode(n: int)
    requires 0 <= n < 64
    ensures Symbol(n) as int == if n <= 25 then 65 + n else if n <= 51 then 71 + n else if n <= 61 then n - 4 else if n == 62 then 45 else 95
  {
  }

  /** Four symbols write the number that three bytes write; two and three symbols write one and two bytes, filled up with zero bits. */
  lemma GroupsAreNumbers(a: Byte, b: Byte, c: Byte)
    ensures |Encode64([a, b, c])| == |Encode64([a, b])| == |Encode64([a])| == 4
    ensures var s := Encode64([a, b, c]);
            && (forall i :: 0 <= i < 4 ==> Sextet(s[i]).Some?)
            && ((Sextet(s[0]).value * 64 + Sextet(s[1]).value) * 64 + Sextet(s[2]).value) * 64 + Sextet(s[3]).value == (a * 256 + b) * 256 + c
    ensures var s := Encode64([a, b]);
            && (forall i :: 0 <= i < 3 ==> Sextet(s[i]).Some?) && s[3] == '='
            && (Sextet(s[0]).value * 64 + Sextet(s[1]).value) * 64 + Sextet(s[2]).value == (a * 256 + b) * 4
    ensures var s := Encode64([a]);
            && Sextet(s[0]).Some? && Sextet(s[1]).Some? && s[2] == '=' && s[3] == '='
            && Sextet(s[0]).value * 64 + Sextet(s[1]).value == a * 16
  {
    assert [a, b, c][3..] == [];
  }

  // ------------------------------------------------------------------ cursors

  function Digit(n: int): (c: char)
    requires 0 <= n < 10
    ensures '0' <= c <= '9'
  {
    ('0' as int + n) as char
  }

  /** Decimal numeral without leading zeros. */
  function Decimal(n: nat): (s: string)
    ensures s != [] && forall i :: 0 <= i < |s| ==> '0' <= s[i] <= '9'
  {
    if n < 10 then [Digit(n)] else Decimal(n / 10) + [Digit(n % 10)]
  }

  /** What `json.loads` makes of a cursor's text: an object with or without an integer offset, or anything else. */
  datatype Json = NotAnObject | NoIntegerOffset | Offset(n: int)

  const HEAD := "{\"offset\":"

  /** `json.dumps({"offset": n}, separators=(",", ":"))` */
  function Dumps(offset: nat): string { HEAD + Decimal(offset) + "}" }

  predicate Ascii(text: string) { forall i :: 0 <= i < |text| ==> text[i] as int < 128 }

  function Bytes(text: string): (r: seq<Byte>)
    requires Ascii(text)
    ensures |r| == |text| && forall i :: 0 <= i < |text| ==> r[i] == text[i] as int
  {
    if text == [] then [] else [text[0] as int as Byte] + Bytes(text[1..])
  }

  function Chars(bytes: seq<Byte>): string
  {
    seq(|bytes|, i requires 0 <= i < |bytes| => bytes[i] as char)
  }

  lemma DumpsIsAscii(offset: nat)
    ensures Ascii(Dumps(offset))
  {
  }

  lemma CharsOfBytes(text: string)
    requires Ascii(text)
    ensures Chars(Bytes(text)) == text
  {
  }

  function EncodeCursor(offset: nat): string
  {
    DumpsIsAscii(offset);
    Encode64(Bytes(Dumps(offset)))
  }

  /** `decode_cursor` over any JSON parser; None is the "invalid cursor" error. */
  function DecodeCursor(cursor: string, loads: string -> Option<Json>): Option<nat>
  {
    var raw := Decode64(cursor);
    if raw.None? then None
    else
      var payload := loads(Chars(raw.value));
      if payload.None? || !payload.value.Offset? || payload.value.n < 0 then None
      else Some(payload.value.n)
  }

  lemma OneGroup(a: Byte, b: Byte, c: Byte, rest: seq<Byte>, group: string, tail: string)
    requires group == [Symbol(a / 4), Symbol(a % 4 * 16 + b / 16), Symbol(b % 16 * 4 + c / 64), Symbol(c % 64)]
    requires Encode64(rest) == tail
    ensures Encode64([a, b, c] + rest) == group + tail
  {
    EncodeOneMore(a, b, c, rest);
  }

  const FIRST_TEXT: seq<Byte> := [123, 34, 111] + ([102, 102, 115] + ([101, 116, 34] + [58, 48, 125]))

  lemma FirstTextEncoded()
    ensures Encode64(FIRST_TEXT) == "eyJv" + ("ZmZz" + ("ZXQi" + "OjB9"))
  {
    var d: seq<Byte> := [58, 48, 125];
    LastGroup(58, 48, 125, "OjB9");
    OneGroup(101, 116, 34, d, "ZXQi", "OjB9");
    OneGroup(102, 102, 115, [101, 116, 34] + d, "ZmZz", "ZXQi" + "OjB9");
    OneGroup(123, 34, 111, [102, 102, 115] + ([101, 116, 34] + d), "eyJv", "ZmZz" + ("ZXQi" + "OjB9"));
  }

  lemma LastGroup(a: Byte, b: Byte, c: Byte, group: string)
    requires group == [Symbol(a / 4), Symbol(a % 4 * 16 + b / 16), Symbol(b % 16 * 4 + c / 64), Symbol(c % 64)]
    ensures Encode64([a, b, c]) == group
  {
    OneGroup(a, b, c, [], group, "");
    assert [a, b, c] + [] == [a, b, c];
  }

  lemma CursorOf(offset: nat, text: string, bytes: seq<Byte>, cursor: string)
    requires Dumps(offset) == text && |text| == |bytes| && Encode64(bytes) == cursor
    requires forall i :: 0 <= i < |text| ==> text[i] as int == bytes[i] < 128
    ensures EncodeCursor(offset) == cursor
  {
    BytesAre(text, bytes);
  }

  /** The cursor of the first row. */
  lemma FirstCursor()
    ensures EncodeCursor(0) == "eyJvZmZzZXQiOjB9"
  {
    FirstDumps();
    FirstBytes();
    FirstTextEncoded();
    assert "eyJv" + ("ZmZz" + ("ZXQi" + "OjB9")) == "eyJvZmZzZXQiOjB9";
    CursorOf(0, ['{', '"', 'o', 'f', 'f', 's', 'e', 't', '"', ':', '0', '}'], FIRST_TEXT, "eyJv" + ("ZmZz" + ("ZXQi" + "OjB9")));
  }

  lemma FirstDumps()
    ensures Dumps(0) == ['{', '"', 'o', 'f', 'f', 's', 'e', 't', '"', ':', '0', '}']
  {
    assert Decimal(0) == ['0'];
  }

  lemma FirstBytes()
    ensures FIRST_TEXT == [123, 34, 111, 102, 102, 115, 101, 116, 34, 58, 48, 125]
  {
  }

  lemma BytesAre(text: string, bytes: seq<Byte>)
    requires |text| == |bytes| && forall i :: 0 <= i < |text| ==> text[i] as int == bytes[i] < 128
    ensures Ascii(text) && Bytes(text) == bytes
  {
  }

  /** The parser reads back what `Dumps` writes. */
  ghost predicate ReadsDumps(loads: string -> Option<Json>)
  {
    forall n: nat :: loads(Dumps(n)) == Some(Offset(n))
  }

  /** Decoding undoes encoding, for every offset. */
  lemma CursorRoundTrip(offset: nat, loads: string -> Option<Json>)
    requires ReadsDumps(loads)
    ensures DecodeCursor(EncodeCursor(offset), loads) == Some(offset)
  {
    DumpsIsAscii(offset);
    Base64RoundTrip(Bytes(Dumps(offset)));
    CharsOfBytes(Dumps(offset));
  }

  // ------------------------------------------------------- numerals are unique

  lemma {:induction false} DecimalInjective(a: nat, b: nat)
    requires Decimal(a) == Decimal(b)
    ensures a == b
  {
    var s, t := Decimal(a), Decimal(b);
    assert s[|s| - 1] == Digit(a % 10) && t[|t| - 1] == Digit(b % 10);
    if a >= 10 && b >= 10 {
      assert s[..|s| - 1] == Decimal(a / 10) && t[..|t| - 1] == Decimal(b / 10);
      DecimalInjective(a / 10, b / 10);
    }
  }

  lemma DumpsReadsBack(offset: nat)
    ensures Decode64(EncodeCursor(offset)) == Some(Bytes(Dumps(offset))) && Chars(Bytes(Dumps(offset))) == Dumps(offset)
    ensures Ascii(Dumps(offset))
  {
    DumpsIsAscii(offset);
    Base64RoundTrip(Bytes(Dumps(offset)));
    CharsOfBytes(Dumps(offset));
  }

  lemma DumpsAreDistinct(a: nat, b: nat)
    requires a != b
    ensures Dumps(a) != Dumps(b)
  {
    if Dumps(a) == Dumps(b) {
      assert Dumps(a)[|HEAD|..|Dumps(a)| - 1] == Decimal(a);
      assert Dumps(b)[|HEAD|..|Dumps(b)| - 1] == Decimal(b);
      DecimalInjective(a, b);
    }
  }

  /** Distinct offsets have distinct texts and cursors, so a parser that reads them back can exist. */
  lemma CursorsAreDistinct(a: nat, b: nat)
    requires a != b
    ensures EncodeCursor(a) != EncodeCursor(b)
  {
    DumpsReadsBack(a);
    DumpsReadsBack(b);
    DumpsAreDistinct(a, b);
  }

  // ------------------------------------------------------ a parser that reads them

  predicate AllDigits(s: string) { s != "" && forall i :: 0 <= i < |s| ==> '0' <= s[i] <= '9' }

  /** The number that a run of digits denotes. */
  function Value(s: string): (n: nat)
    requires forall i :: 0 <= i < |s| ==> '0' <= s[i] <= '9'
  {
    if s == "" then 0 else 10 * Value(s[..|s| - 1]) + (s[|s| - 1] as int - '0' as int)
  }

  /** A parser for the one layout that `Dumps` writes. */
  function Loads(text: string): Option<Json>
  {
    if HEAD <= text && |text| > |HEAD| && text[|text| - 1] == '}' && AllDigits(text[|HEAD|..|text| - 1])
    then Some(Offset(Value(text[|HEAD|..|text| - 1])))
    else None
  }

  lemma {:induction false} ValueOfDecimal(n: nat)
    ensures Value(Decimal(n)) == n
  {
    var s := Decimal(n);
    if n < 10 {
      assert s == [Digit(n)] && s[..0] == "";
    } else {
      ValueOfDecimal(n / 10);
      assert s[..|s| - 1] == Decimal(n / 10) && s[|s| - 1] == Digit(n % 10);
    }
  }

  /** So the assumption that the walks make of a parser can be met. */
  lemma LoadsReadsDumps()
    ensures ReadsDumps(Loads)
  {
    forall n: nat ensures Loads(Dumps(n)) == Some(Offset(n)) {
      var text := Dumps(n);
      assert text == HEAD + Decimal(n) + "}";
      assert text[..|HEAD|] == HEAD && text[|HEAD|..|text| - 1] == Decimal(n);
      ValueOfDecimal(n);
    }
  }
}
