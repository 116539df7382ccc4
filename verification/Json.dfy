/** The compact JSON that keys and cursors are made of (sections 7 and 8 of RFC 8259). */
module Json {
  import opened Options

  // -------------------------------------------------------------------------
  // Strings
  // -------------------------------------------------------------------------

  function HexDigit(n: nat): char
    requires n < 16
  {
    if n < 10 then ('0' as int + n) as char else ('a' as int + n - 10) as char
  }

  function HexValue(c: char): Option<nat> {
    if '0' <= c <= '9' then Some(c as int - '0' as int)
    else if 'a' <= c <= 'f' then Some(c as int - 'a' as int + 10)
    else if 'A' <= c <= 'F' then Some(c as int - 'A' as int + 10)
    else None
  }

  /** A `\u` escape of four hexadecimal digits. */
  function Hex4(n: nat): string
    requires n < 0x10000
  {
    ['\\', 'u', HexDigit(n / 4096), HexDigit(n / 256 % 16), HexDigit(n / 16 % 16), HexDigit(n % 16)]
  }

  function ParseHex4(s: string): Option<nat>
    requires |s| >= 4
  {
    var a, b, c, d := HexValue(s[0]), HexValue(s[1]), HexValue(s[2]), HexValue(s[3]);
    if a.None? || b.None? || c.None? || d.None? then None
    else Some(a.value * 4096 + b.value * 256 + c.value * 16 + d.value)
  }

  /** Single-letter escapes and the characters they stand for. */
  function Shorthand(c: char): Option<char> {
    match c
    case '\"' => Some('\"')
    case '\\' => Some('\\')
    case '\n' => Some('n')
    case '\r' => Some('r')
    case '\t' => Some('t')
    case '\U{0008}' => Some('b')
    case '\U{000C}' => Some('f')
    case _ => None
  }

  function FromShorthand(c: char): Option<char> {
    match c
    case '\"' => Some('\"')
    case '\\' => Some('\\')
    case '/' => Some('/')
    case 'n' => Some('\n')
    case 'r' => Some('\r')
    case 't' => Some('\t')
    case 'b' => Some('\U{0008}')
    case 'f' => Some('\U{000C}')
    case _ => None
  }

  /** The surrogate pair of a character beyond the basic plane. */
  function HighSurrogate(n: nat): (h: nat)
    requires 0x10000 <= n < 0x110000
    ensures 0xD800 <= h < 0xDC00
  {
    0xD800 + (n - 0x10000) / 0x400
  }

  function LowSurrogate(n: nat): (l: nat)
    requires 0x10000 <= n < 0x110000
    ensures 0xDC00 <= l < 0xE000
    ensures Combine(HighSurrogate(n), l) == n
  {
    0xDC00 + (n - 0x10000) % 0x400
  }

  function Combine(high: nat, low: nat): (n: nat)
    requires 0xD800 <= high < 0xDC00 <= low < 0xE000
    ensures 0x10000 <= n < 0x110000
  {
    0x10000 + (high - 0xD800) * 0x400 + (low - 0xDC00)
  }

  /** `ascii` also escapes everything outside the printable ASCII range, in surrogate pairs where needed. */
  function EscapeChar(c: char, ascii: bool): string {
    var n := c as int;
    if Shorthand(c).Some? then ['\\', Shorthand(c).value]
    else if n < 0x20 || (ascii && 0x7E < n < 0x10000) then Hex4(n)
    else if ascii && n >= 0x10000 then
      Hex4(HighSurrogate(n)) + Hex4(LowSurrogate(n))
    else [c]
  }

  function Escape(s: string, ascii: bool): string {
    if s == [] then [] else EscapeChar(s[0], ascii) + Escape(s[1..], ascii)
  }

  function Quote(s: string, ascii: bool): (q: string)
    ensures |q| >= 2 && q[0] == '\"'
  {
    "\"" + Escape(s, ascii) + "\""
  }

  datatype Parsed<T> = NoParse | Parsed(value: T, rest: string)

  function Prepend(c: char, p: Parsed<string>): Parsed<string> {
    if p.NoParse? then NoParse else Parsed([c] + p.value, p.rest)
  }

  /** The characters of a string up to its closing quote. */
  function ParseChars(s: string): Parsed<string>
    decreases |s|
  {
    if s == [] then NoParse
    else if s[0] == '\"' then Parsed("", s[1..])
    else if s[0] != '\\' then (if s[0] as int < 0x20 then NoParse else Prepend(s[0], ParseChars(s[1..])))
    else if |s| < 2 then NoParse
    else if s[1] != 'u' then
      var c := FromShorthand(s[1]);
      if c.None? then NoParse else Prepend(c.value, ParseChars(s[2..]))
    else if |s| < 6 || ParseHex4(s[2..]).None? then NoParse
    else
      var n := ParseHex4(s[2..]).value;
      if n < 0xD800 || 0xE000 <= n < 0x10000 then Prepend(n as char, ParseChars(s[6..]))
      else if |s| < 12 || s[6] != '\\' || s[7] != 'u' || ParseHex4(s[8..]).None? then NoParse
      else
        var m := ParseHex4(s[8..]).value;
        if n < 0xDC00 && 0xDC00 <= m < 0xE000
        then Prepend(Combine(n, m) as char, ParseChars(s[12..]))
        else NoParse
  }

  /** No control character stands unescaped in a string, wherever it comes. */
  lemma {:induction false} ControlsAreRefused(plain: string, c: char, tail: string)
    requires c as int < 0x20
    requires forall i :: 0 <= i < |plain| ==> plain[i] != '\"' && plain[i] != '\\'
    ensures ParseChars(plain + [c] + tail) == NoParse
  {
    if plain != [] {
      ControlsAreRefused(plain[1..], c, tail);
      assert (plain + [c] + tail)[1..] == plain[1..] + [c] + tail;
    }
  }

  function ParseText(s: string): Parsed<string> {
    if s == [] || s[0] != '\"' then NoParse else ParseChars(s[1..])
  }

  lemma HexDigitValue(n: nat)
    requires n < 16
    ensures HexValue(HexDigit(n)) == Some(n)
  {
  }

  lemma HexDigitsSum(n: nat)
    requires n < 0x10000
    ensures n / 4096 < 16
    ensures n == n / 4096 * 4096 + n / 256 % 16 * 256 + n / 16 % 16 * 16 + n % 16
  {
    var a, b := n / 16, n / 256;
    assert n == 16 * a + n % 16 && b == a / 16;
    assert a == 16 * b + a % 16 && n / 4096 == b / 16;
    assert b == 16 * (b / 16) + b % 16;
  }

  lemma ParseHex4Digits(n: nat, s: string)
    requires n < 0x10000 && |s| >= 4
    requires s[0] == HexDigit(n / 4096) && s[1] == HexDigit(n / 256 % 16)
    requires s[2] == HexDigit(n / 16 % 16) && s[3] == HexDigit(n % 16)
    ensures ParseHex4(s) == Some(n)
  {
    HexDigitsSum(n);
    HexDigitValue(n / 4096);
    HexDigitValue(n / 256 % 16);
    HexDigitValue(n / 16 % 16);
    HexDigitValue(n % 16);
  }

  /** A string that begins with the `\u` escape of `n`. */
  lemma Hex4Parses(n: nat, tail: string)
    requires n < 0x10000
    ensures var s := Hex4(n) + tail;
      |s| >= 6 && s[0] == '\\' && s[1] == 'u' && ParseHex4(s[2..]) == Some(n) && s[6..] == tail
  {
    var s := Hex4(n) + tail;
    ParseHex4Digits(n, s[2..]);
    assert s[6..] == tail;
  }

  lemma ParseOneEscape(n: nat, tail: string)
    requires n < 0xD800
    ensures ParseChars(Hex4(n) + tail) == Prepend(n as char, ParseChars(tail))
  {
    Hex4Parses(n, tail);
  }

  lemma ParseHighEscape(n: nat, tail: string)
    requires 0xE000 <= n < 0x10000
    ensures ParseChars(Hex4(n) + tail) == Prepend(n as char, ParseChars(tail))
  {
    Hex4Parses(n, tail);
  }

  lemma ParsePair(high: nat, low: nat, tail: string)
    requires 0xD800 <= high < 0xDC00 <= low < 0xE000
    ensures ParseChars(Hex4(high) + (Hex4(low) + tail))
      == Prepend(Combine(high, low) as char, ParseChars(tail))
  {
    var s := Hex4(high) + (Hex4(low) + tail);
    Hex4Parses(high, Hex4(low) + tail);
    Hex4Parses(low, tail);
    assert s[8..] == s[6..][2..] && s[12..] == s[6..][6..];
    assert s[6] == s[6..][0] && s[7] == s[6..][1];
  }

  lemma ShorthandInverts(c: char)
    requires Shorthand(c).Some?
    ensures FromShorthand(Shorthand(c).value) == Some(c) && Shorthand(c).value != 'u'
  {
  }

  lemma ParseLetterEscape(letter: char, tail: string)
    requires letter != 'u' && FromShorthand(letter).Some?
    ensures ParseChars(['\\', letter] + tail) == Prepend(FromShorthand(letter).value, ParseChars(tail))
  {
    var s := ['\\', letter] + tail;
    assert s[0] == '\\' && s[1] == letter && s[2..] == tail;
  }

  lemma ParseShorthand(c: char, tail: string)
    requires Shorthand(c).Some?
    ensures ParseChars(['\\', Shorthand(c).value] + tail) == Prepend(c, ParseChars(tail))
  {
    ShorthandInverts(c);
    ParseLetterEscape(Shorthand(c).value, tail);
  }

  lemma ParsePlain(c: char, tail: string)
    requires Shorthand(c).None? && c as int >= 0x20
    ensures ParseChars([c] + tail) == Prepend(c, ParseChars(tail))
  {
    assert ([c] + tail)[1..] == tail;
  }

  lemma Associate(a: string, b: string, c: string)
    ensures (a + b) + c == a + (b + c)
  {
  }

  lemma ParseEscapedPair(c: char, tail: string)
    requires c as int >= 0x10000
    ensures ParseChars(EscapeChar(c, true) + tail) == Prepend(c, ParseChars(tail))
  {
    var n := c as int;
    Associate(Hex4(HighSurrogate(n)), Hex4(LowSurrogate(n)), tail);
    ParsePair(HighSurrogate(n), LowSurrogate(n), tail);
  }

  lemma ParseEscaped(c: char, ascii: bool, tail: string)
    ensures ParseChars(EscapeChar(c, ascii) + tail) == Prepend(c, ParseChars(tail))
  {
    var n := c as int;
    if Shorthand(c).Some? {
      ParseShorthand(c, tail);
    } else if n < 0x20 || (ascii && 0x7E < n < 0x10000) {
      if n < 0xD800 {
        ParseOneEscape(n, tail);
      } else {
        ParseHighEscape(n, tail);
      }
    } else if ascii && n >= 0x10000 {
      ParseEscapedPair(c, tail);
    } else {
      ParsePlain(c, tail);
    }
  }

  lemma ParseEnd(rest: string)
    ensures ParseChars("\"" + rest) == Parsed("", rest)
  {
    assert ("\"" + rest)[1..] == rest;
  }

  lemma {:induction false} ParseCharsInvertsEscape(s: string, ascii: bool, end: string, rest: string)
    requires ParseChars(end) == Parsed("", rest)
    ensures ParseChars(Escape(s, ascii) + end) == Parsed(s, rest)
  {
    if s == [] {
      assert Escape(s, ascii) + end == end;
    } else {
      ParseCharsInvertsEscape(s[1..], ascii, end, rest);
      Associate(EscapeChar(s[0], ascii), Escape(s[1..], ascii), end);
      ParseEscaped(s[0], ascii, Escape(s[1..], ascii) + end);
      assert [s[0]] + s[1..] == s;
    }
  }

  /** Reading back a quoted string gives the string and leaves what follows it. */
  lemma ParseInvertsQuote(s: string, ascii: bool, rest: string)
    ensures ParseText(Quote(s, ascii) + rest) == Parsed(s, rest)
  {
    ParseEnd(rest);
    ParseCharsInvertsEscape(s, ascii, "\"" + rest, rest);
    QuoteThen(Escape(s, ascii), rest);
  }

  lemma QuoteThen(escaped: string, rest: string)
    ensures (("\"" + escaped + "\"") + rest)[1..] == escaped + ("\"" + rest)
  {
  }

  // -------------------------------------------------------------------------
  // Arrays of strings
  // -------------------------------------------------------------------------

  function PrintItems(items: seq<string>, ascii: bool): string
    requires items != []
  {
    if |items| == 1 then Quote(items[0], ascii) + "]"
    else Quote(items[0], ascii) + ("," + PrintItems(items[1..], ascii))
  }

  function PrintArray(items: seq<string>, ascii: bool): string {
    if items == [] then "[]" else "[" + PrintItems(items, ascii)
  }

  function ParseItems(s: string): Parsed<seq<string>>
    decreases |s|
  {
    var first := ParseText(s);
    if first.NoParse? || first.rest == [] || |first.rest| >= |s| then NoParse
    else if first.rest[0] == ']' then Parsed([first.value], first.rest[1..])
    else if first.rest[0] != ',' then NoParse
    else
      var more := ParseItems(first.rest[1..]);
      if more.NoParse? then NoParse else Parsed([first.value] + more.value, more.rest)
  }

  function ParseArray(s: string): Parsed<seq<string>> {
    if |s| < 2 || s[0] != '[' then NoParse
    else if s[1] == ']' then Parsed([], s[2..])
    else ParseItems(s[1..])
  }

  lemma LastItemParses(item: string, ascii: bool, rest: string)
    ensures ParseItems(Quote(item, ascii) + ("]" + rest)) == Parsed([item], rest)
  {
    ParseInvertsQuote(item, ascii, "]" + rest);
    assert ("]" + rest)[1..] == rest;
  }

  lemma NextItemParses(item: string, ascii: bool, tail: string, more: seq<string>, rest: string)
    requires ParseItems(tail) == Parsed(more, rest)
    ensures ParseItems(Quote(item, ascii) + ("," + tail)) == Parsed([item] + more, rest)
  {
    ParseInvertsQuote(item, ascii, "," + tail);
    assert ("," + tail)[1..] == tail;
  }

  lemma HeadAndTail<T>(items: seq<T>)
    requires items != []
    ensures items == [items[0]] + items[1..] && (|items| == 1 ==> items == [items[0]])
  {
  }

  lemma {:induction false} ParseInvertsItems(items: seq<string>, ascii: bool, rest: string)
    requires items != []
    ensures ParseItems(PrintItems(items, ascii) + rest) == Parsed(items, rest)
  {
    HeadAndTail(items);
    var head := Quote(items[0], ascii);
    if |items| == 1 {
      LastItemParses(items[0], ascii, rest);
      Associate(head, "]", rest);
    } else {
      var more := PrintItems(items[1..], ascii);
      ParseInvertsItems(items[1..], ascii, rest);
      NextItemParses(items[0], ascii, more + rest, items[1..], rest);
      Associate(head, "," + more, rest);
      Associate(",", more, rest);
    }
  }

  /** Reading back a printed array gives the array: printing is injective. */
  lemma ParseInvertsArray(items: seq<string>, ascii: bool)
    ensures ParseArray(PrintArray(items, ascii)) == Parsed(items, "")
  {
    if items != [] {
      var s := PrintArray(items, ascii);
      assert s[1..] == PrintItems(items, ascii) + "";
      ParseInvertsItems(items, ascii, "");
    }
  }

  // -------------------------------------------------------------------------
  // Flat objects of nulls, strings and natural numbers
  // -------------------------------------------------------------------------

  datatype Value = Null | Text(text: string) | Number(number: nat)

  datatype Member = Member(key: string, value: Value)

  function Digit(n: nat): char
    requires n < 10
  {
    ('0' as int + n) as char
  }

  predicate IsDigit(c: char) {
    '0' <= c <= '9'
  }

  function PrintNat(n: nat): (s: string)
    ensures s != []
  {
    if n < 10 then [Digit(n)] else PrintNat(n / 10) + [Digit(n % 10)]
  }

  /** Reads digits onto an accumulated value. */
  function ParseDigits(s: string, value: nat): (p: Parsed<nat>)
    ensures p.Parsed?
  {
    if s == [] || !IsDigit(s[0]) then Parsed(value, s)
    else ParseDigits(s[1..], value * 10 + (s[0] as int - '0' as int))
  }

  predicate StartsWith(s: string, prefix: string) {
    |s| >= |prefix| && s[..|prefix|] == prefix
  }

  function PrintValue(v: Value): string {
    match v
    case Null => "null"
    case Text(text) => Quote(text, true)
    case Number(number) => PrintNat(number)
  }

  function ParseValue(s: string): Parsed<Value> {
    if s == [] then NoParse
    else if s[0] == '\"' then
      var text := ParseText(s);
      if text.NoParse? then NoParse else Parsed(Text(text.value), text.rest)
    else if IsDigit(s[0]) then
      if s[0] == '0' && |s| > 1 && IsDigit(s[1]) then NoParse
      else var number := ParseDigits(s, 0); Parsed(Number(number.value), number.rest)
    else if StartsWith(s, "null") then Parsed(Null, s[4..])
    else NoParse
  }

  /** A number has no leading zero. */
  lemma LeadingZeroIsNoNumber(s: string)
    requires |s| >= 2 && s[0] == '0' && IsDigit(s[1])
    ensures ParseValue(s) == NoParse
  {
  }

  lemma {:induction false} DigitsAreDigits(n: nat)
    ensures forall i :: 0 <= i < |PrintNat(n)| ==> IsDigit(PrintNat(n)[i])
    ensures PrintNat(n)[0] == '0' ==> n == 0
  {
    if n >= 10 {
      DigitsAreDigits(n / 10);
    }
  }

  lemma {:induction false} DigitsContinue(n: nat, tail: string)
    ensures ParseDigits(PrintNat(n) + tail, 0) == ParseDigits(tail, n)
    decreases n
  {
    if n < 10 {
      assert (PrintNat(n) + tail)[1..] == tail;
    } else {
      var last := [Digit(n % 10)] + tail;
      assert PrintNat(n) + tail == PrintNat(n / 10) + last;
      DigitsContinue(n / 10, last);
      assert last[1..] == tail;
    }
  }

  lemma ParseInvertsValue(v: Value, rest: string)
    requires rest != [] && !IsDigit(rest[0])
    ensures ParseValue(PrintValue(v) + rest) == Parsed(v, rest)
  {
    var s := PrintValue(v) + rest;
    match v
    case Null => assert s[4..] == rest && s[..4] == "null";
    case Text(text) => ParseInvertsQuote(text, true, rest);
    case Number(number) =>
      DigitsAreDigits(number);
      DigitsContinue(number, rest);
      if s[0] == '0' {
        assert PrintNat(number) == "0";
        assert s[1] == rest[0];
      }
  }

  function PrintMembers(members: seq<Member>): string
    requires members != []
  {
    Quote(members[0].key, true) + (":" + (PrintValue(members[0].value)
      + (if |members| == 1 then "}" else "," + PrintMembers(members[1..]))))
  }

  function ParseMembers(s: string): Parsed<seq<Member>>
    decreases |s|
  {
    var key := ParseText(s);
    if key.NoParse? || key.rest == [] || key.rest[0] != ':' then NoParse
    else
      var value := ParseValue(key.rest[1..]);
      if value.NoParse? || value.rest == [] || |value.rest| >= |s| then NoParse
      else
        var member := Member(key.value, value.value);
        if value.rest[0] == '}' then Parsed([member], value.rest[1..])
        else if value.rest[0] != ',' then NoParse
        else
          var more := ParseMembers(value.rest[1..]);
          if more.NoParse? then NoParse else Parsed([member] + more.value, more.rest)
  }

  function PrintObject(members: seq<Member>): string
    requires members != []
  {
    "{" + PrintMembers(members)
  }

  /** A whole object and nothing after it. */
  function ParseObject(s: string): Option<seq<Member>> {
    if s == [] || s[0] != '{' then None
    else
      var members := ParseMembers(s[1..]);
      if members.NoParse? || members.rest != [] then None else Some(members.value)
  }

  lemma MemberParses(m: Member, end: string)
    requires end != [] && !IsDigit(end[0])
    ensures var s := Quote(m.key, true) + (":" + (PrintValue(m.value) + end));
      && ParseText(s) == Parsed(m.key, ":" + (PrintValue(m.value) + end))
      && ParseValue((":" + (PrintValue(m.value) + end))[1..]) == Parsed(m.value, end)
      && |end| < |s|
  {
    var after := ":" + (PrintValue(m.value) + end);
    ParseInvertsQuote(m.key, true, after);
    assert after[1..] == PrintValue(m.value) + end;
    ParseInvertsValue(m.value, end);
  }

  lemma LastMemberParses(m: Member)
    ensures ParseMembers(Quote(m.key, true) + (":" + (PrintValue(m.value) + "}"))) == Parsed([m], "")
  {
    MemberParses(m, "}");
  }

  lemma NextMemberParses(m: Member, tail: string, more: seq<Member>)
    requires ParseMembers(tail) == Parsed(more, "")
    ensures ParseMembers(Quote(m.key, true) + (":" + (PrintValue(m.value) + ("," + tail)))) == Parsed([m] + more, "")
  {
    MemberParses(m, "," + tail);
    assert ("," + tail)[1..] == tail;
  }

  lemma {:induction false} ParseInvertsMembers(members: seq<Member>)
    requires members != []
    ensures ParseMembers(PrintMembers(members)) == Parsed(members, "")
    decreases |members|
  {
    HeadAndTail(members);
    if |members| == 1 {
      LastMemberParses(members[0]);
    } else {
      ParseInvertsMembers(members[1..]);
      NextMemberParses(members[0], PrintMembers(members[1..]), members[1..]);
    }
  }

  /** Reading back a printed object gives its members. */
  lemma ParseInvertsObject(members: seq<Member>)
    requires members != []
    ensures ParseObject(PrintObject(members)) == Some(members)
  {
    assert PrintObject(members)[1..] == PrintMembers(members);
    ParseInvertsMembers(members);
  }
}
