/** URL-safe base64 without padding (section 5 of RFC 4648). */
module Base64 {
  import opened Options

  type Byte = b: int | 0 <= b < 256

  function Symbol(n: nat): char
    requires n < 64
  {
    if n < 26 then ('A' as int + n) as char
    else if n < 52 then ('a' as int + n - 26) as char
    else if n < 62 then ('0' as int + n - 52) as char
    else if n == 62 then '-' else '_'
  }

  function SymbolValue(c: char): (v: Option<nat>)
    ensures v.Some? ==> v.value < 64
  {
    if 'A' <= c <= 'Z' then Some(c as int - 'A' as int)
    else if 'a' <= c <= 'z' then Some(c as int - 'a' as int + 26)
    else if '0' <= c <= '9' then Some(c as int - '0' as int + 52)
    else if c == '-' then Some(62)
    else if c == '_' then Some(63)
    else None
  }

  function Encode(bytes: seq<Byte>): string {
    if bytes == [] then []
    else if |bytes| == 1 then [Symbol(bytes[0] / 4), Symbol(bytes[0] % 4 * 16)]
    else if |bytes| == 2 then
      [Symbol(bytes[0] / 4), Symbol(bytes[0] % 4 * 16 + bytes[1] / 16), Symbol(bytes[1] % 16 * 4)]
    else
      [Symbol(bytes[0] / 4), Symbol(bytes[0] % 4 * 16 + bytes[1] / 16),
       Symbol(bytes[1] % 16 * 4 + bytes[2] / 64), Symbol(bytes[2] % 64)] + Encode(bytes[3..])
  }

  function Values(s: string): Option<seq<nat>> {
    if s == [] then Some([])
    else
      var first, rest := SymbolValue(s[0]), Values(s[1..]);
      if first.None? || rest.None? then None else Some([first.value] + rest.value)
  }

  /** Reads symbol values in groups of four; the missing padding is supplied at the end. */
  function Groups(v: seq<nat>): Option<seq<Byte>>
    requires forall i :: 0 <= i < |v| ==> v[i] < 64
  {
    if v == [] then Some([])
    else if |v| == 1 then None
    else if |v| == 2 then Some([v[0] * 4 + v[1] / 16])
    else if |v| == 3 then Some([v[0] * 4 + v[1] / 16, v[1] % 16 * 16 + v[2] / 4])
    else
      var rest := Groups(v[4..]);
      if rest.None? then None
      else Some([v[0] * 4 + v[1] / 16, v[1] % 16 * 16 + v[2] / 4, v[2] % 4 * 64 + v[3]] + rest.value)
  }

  lemma ValuesAreSmall(s: string)
    ensures Values(s).Some? ==> |Values(s).value| == |s| && forall i :: 0 <= i < |s| ==> Values(s).value[i] < 64
  {
  }

  function Decode(s: string): Option<seq<Byte>> {
    ValuesAreSmall(s);
    var values := Values(s);
    if values.None? then None else Groups(values.value)
  }

  lemma SymbolRoundTrip(n: nat)
    requires n < 64
    ensures SymbolValue(Symbol(n)) == Some(n)
  {
  }

  /** The symbol values of an encoding. */
  function Sextets(bytes: seq<Byte>): (v: seq<nat>)
    ensures forall i :: 0 <= i < |v| ==> v[i] < 64
  {
    if bytes == [] then []
    else if |bytes| == 1 then [bytes[0] / 4, bytes[0] % 4 * 16]
    else if |bytes| == 2 then [bytes[0] / 4, bytes[0] % 4 * 16 + bytes[1] / 16, bytes[1] % 16 * 4]
    else
      [bytes[0] / 4, bytes[0] % 4 * 16 + bytes[1] / 16, bytes[1] % 16 * 4 + bytes[2] / 64, bytes[2] % 64]
      + Sextets(bytes[3..])
  }

  lemma {:induction false} ValuesOfSymbols(v: seq<nat>, tail: string)
    requires forall i :: 0 <= i < |v| ==> v[i] < 64
    ensures var s := seq(|v|, i requires 0 <= i < |v| => Symbol(v[i])) + tail;
      Values(s) == if Values(tail).None? then None else Some(v + Values(tail).value)
  {
    var s := seq(|v|, i requires 0 <= i < |v| => Symbol(v[i])) + tail;
    if v == [] {
      assert s == tail;
      assert Values(tail).Some? ==> v + Values(tail).value == Values(tail).value;
    } else {
      SymbolRoundTrip(v[0]);
      ValuesOfSymbols(v[1..], tail);
      assert s[1..] == seq(|v[1..]|, i requires 0 <= i < |v[1..]| => Symbol(v[1..][i])) + tail;
      if Values(tail).Some? {
        assert [v[0]] + (v[1..] + Values(tail).value) == v + Values(tail).value;
      }
    }
  }

  lemma {:induction false} EncodeIsSextets(bytes: seq<Byte>)
    ensures |Encode(bytes)| == |Sextets(bytes)|
    ensures forall i :: 0 <= i < |Encode(bytes)| ==> Encode(bytes)[i] == Symbol(Sextets(bytes)[i])
  {
    if |bytes| >= 3 {
      EncodeIsSextets(bytes[3..]);
    }
  }

  lemma {:induction false} GroupsInvertSextets(bytes: seq<Byte>)
    ensures Groups(Sextets(bytes)) == Some(bytes)
  {
    if |bytes| >= 3 {
      GroupsInvertSextets(bytes[3..]);
      assert Sextets(bytes)[4..] == Sextets(bytes[3..]);
      assert bytes == [bytes[0], bytes[1], bytes[2]] + bytes[3..];
    } else if |bytes| == 2 {
      assert bytes == [bytes[0], bytes[1]];
    } else if |bytes| == 1 {
      assert bytes == [bytes[0]];
    }
  }

  /** Decoding what was encoded gives the bytes back. */
  lemma DecodeInvertsEncode(bytes: seq<Byte>)
    ensures Decode(Encode(bytes)) == Some(bytes)
  {
    var v := Sextets(bytes);
    EncodeIsSextets(bytes);
    ValuesOfSymbols(v, "");
    assert Encode(bytes) == seq(|v|, i requires 0 <= i < |v| => Symbol(v[i])) + "";
    assert v + [] == v;
    GroupsInvertSextets(bytes);
  }

  /** Test vectors of section 10 of RFC 4648, and the two symbols in which the URL-safe alphabet differs. */
  lemma TestVectors()
    ensures Encode([]) == "" && Encode([0x66]) == "Zg" && Encode([0x66, 0x6f]) == "Zm8"
    ensures Encode([0x66, 0x6f, 0x6f]) == "Zm9v" && Encode([0x66, 0x6f, 0x6f, 0x62]) == "Zm9vYg"
    ensures Encode([0x66, 0x6f, 0x6f, 0x62, 0x61]) == "Zm9vYmE"
    ensures Encode([0x66, 0x6f, 0x6f, 0x62, 0x61, 0x72]) == "Zm9vYmFy"
    ensures Encode([0xfb, 0xff]) == "-_8"
  {
    assert Encode([0x66, 0x6f, 0x6f]) == "Zm9v" + Encode([]);
    assert [0x66, 0x6f, 0x6f, 0x62][3..] == [0x62] && [0x66, 0x6f, 0x6f, 0x62, 0x61][3..] == [0x62, 0x61];
    assert [0x66, 0x6f, 0x6f, 0x62, 0x61, 0x72][3..] == [0x62, 0x61, 0x72];
    assert Encode([0x62]) == "Yg" && Encode([0x62, 0x61]) == "YmE";
    assert Encode([0x62, 0x61, 0x72]) == "YmFy" + Encode([]);
  }
}
