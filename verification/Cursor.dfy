/** The opaque cursor a scheduler call hands out and takes back. */
module Cursor {
  import opened Options
  import opened Json
  import Base64
  import opened Paging

  predicate Ascii(s: string) {
    forall i :: 0 <= i < |s| ==> s[i] as int < 128
  }

  function ToBytes(s: string): seq<Base64.Byte>
    requires Ascii(s)
  {
    seq(|s|, i requires 0 <= i < |s| => s[i] as int)
  }

  /** Bytes beyond ASCII do not occur in the payloads that `Encode` makes. */
  function FromBytes(bytes: seq<Base64.Byte>): Option<string> {
    if exists b :: b in bytes && b >= 128 then None
    else Some(seq(|bytes|, i requires 0 <= i < |bytes| => (bytes[i] % 128) as char))
  }

  function AfterValue(after: Option<string>): Value {
    if after.Some? then Text(after.value) else Null
  }

  /** Keys in sorted order, as the encoder prints them. */
  function Members(operation: string, at: Position): seq<Member> {
    [Member("after", AfterValue(at.after)), Member("op", Text(operation)),
     Member("source", Number(at.source)), Member("v", Number(1))]
  }

  function Encode(operation: string, at: Position): string {
    var payload := PrintObject(Members(operation, at));
    ObjectIsAscii(Members(operation, at));
    Base64.Encode(ToBytes(payload))
  }

  /** The value of a key; a repeated key takes its last value. */
  function Get(members: seq<Member>, key: string): Option<Value> {
    if members == [] then None
    else if members[|members| - 1].key == key then Some(members[|members| - 1].value)
    else Get(members[..|members| - 1], key)
  }

  function Payload(cursor: string): Option<seq<Member>> {
    var bytes := Base64.Decode(cursor);
    if bytes.None? then None
    else
      var text := FromBytes(bytes.value);
      if text.None? then None else ParseObject(text.value)
  }

  /** `None` stands for the error the caller gets back (status 422). */
  function Decode(operation: string, cursor: Option<string>): Option<Position> {
    if cursor.None? then Some(START)
    else
      var members := Payload(cursor.value);
      if members.None? then None
      else
        var version, op := Get(members.value, "v"), Get(members.value, "op");
        var source, after := Get(members.value, "source"), Get(members.value, "after");
        if version != Some(Number(1)) || op != Some(Text(operation)) || source.None? || !source.value.Number? then None
        else if after.None? || after.value.Null? then Some(Position(source.value.number, None))
        else if after.value.Text? then Some(Position(source.value.number, Some(after.value.text)))
        else None
  }

  // -------------------------------------------------------------------------
  // Payloads are ASCII
  // -------------------------------------------------------------------------

  lemma Hex4IsAscii(n: nat)
    requires n < 0x10000
    ensures Ascii(Hex4(n))
  {
  }

  lemma EscapeCharIsAscii(c: char)
    ensures Ascii(EscapeChar(c, true))
  {
    var n := c as int;
    if Shorthand(c).None? {
      if n < 0x20 || 0x7E < n < 0x10000 {
        Hex4IsAscii(n);
      } else if n >= 0x10000 {
        Hex4IsAscii(HighSurrogate(n));
        Hex4IsAscii(LowSurrogate(n));
      }
    }
  }

  lemma {:induction false} EscapeIsAscii(s: string)
    ensures Ascii(Escape(s, true))
  {
    if s != [] {
      EscapeCharIsAscii(s[0]);
      EscapeIsAscii(s[1..]);
    }
  }

  lemma QuoteIsAscii(s: string)
    ensures Ascii(Quote(s, true))
  {
    EscapeIsAscii(s);
  }

  lemma ValueIsAscii(v: Value)
    ensures Ascii(PrintValue(v))
  {
    match v
    case Null =>
    case Text(text) => QuoteIsAscii(text);
    case Number(number) => DigitsAreDigits(number);
  }

  lemma {:induction false} MembersAreAscii(members: seq<Member>)
    requires members != []
    ensures Ascii(PrintMembers(members))
  {
    QuoteIsAscii(members[0].key);
    ValueIsAscii(members[0].value);
    if |members| > 1 {
      MembersAreAscii(members[1..]);
    }
  }

  lemma ObjectIsAscii(members: seq<Member>)
    requires members != []
    ensures Ascii(PrintObject(members))
  {
    MembersAreAscii(members);
  }

  // -------------------------------------------------------------------------
  // Round trip and binding to the operation
  // -------------------------------------------------------------------------

  lemma BytesRoundTrip(s: string)
    requires Ascii(s)
    ensures FromBytes(ToBytes(s)) == Some(s)
  {
    var bytes := ToBytes(s);
    assert forall i :: 0 <= i < |bytes| ==> bytes[i] < 128;
    assert seq(|bytes|, i requires 0 <= i < |bytes| => (bytes[i] % 128) as char) == s;
  }

  /** Bytes are read as a text exactly when they are that text in ASCII. */
  lemma ReadExactlyAsAscii(bytes: seq<Base64.Byte>, s: string)
    ensures FromBytes(bytes) == Some(s) <==> Ascii(s) && ToBytes(s) == bytes
  {
    if Ascii(s) && ToBytes(s) == bytes {
      BytesRoundTrip(s);
    }
    if FromBytes(bytes) == Some(s) {
      assert |s| == |bytes|;
      forall i | 0 <= i < |bytes| ensures s[i] as int == bytes[i] < 128 {
        assert bytes[i] in bytes;
        assert s[i] == (bytes[i] % 128) as char;
      }
      assert ToBytes(s) == bytes;
    }
  }

  lemma PayloadRoundTrip(operation: string, at: Position)
    ensures Payload(Encode(operation, at)) == Some(Members(operation, at))
  {
    var members := Members(operation, at);
    ObjectIsAscii(members);
    Base64.DecodeInvertsEncode(ToBytes(PrintObject(members)));
    BytesRoundTrip(PrintObject(members));
    ParseInvertsObject(members);
  }

  lemma MembersGet(operation: string, at: Position)
    ensures var members := Members(operation, at);
      && Get(members, "v") == Some(Number(1)) && Get(members, "op") == Some(Text(operation))
      && Get(members, "source") == Some(Number(at.source)) && Get(members, "after") == Some(AfterValue(at.after))
  {
    var members := Members(operation, at);
    assert members[..3] == members[..2] + [members[2]] && members[..2] == members[..1] + [members[1]];
    forall key | key == "op" || key == "source" || key == "after" ensures Get(members, key) == Get(members[..3], key) {}
    forall key | key == "op" || key == "after" ensures Get(members[..3], key) == Get(members[..2], key) {
      assert members[..3][..2] == members[..2];
    }
    assert Get(members[..2], "after") == Get(members[..1], "after") by {
      assert members[..2][..1] == members[..1];
    }
  }

  /** What a cursor holds: the version, the operation, the source and the last document read, or null. */
  lemma CursorHolds(operation: string, at: Position)
    ensures Payload(Encode(operation, at)) ==
      Some([Member("after", if at.after.Some? then Text(at.after.value) else Null), Member("op", Text(operation)),
            Member("source", Number(at.source)), Member("v", Number(1))])
  {
    PayloadRoundTrip(operation, at);
  }

  /** Some member of that key has the value, and no later member has the key. */
  ghost predicate Says(members: seq<Member>, key: string, value: Value) {
    exists i :: 0 <= i < |members| && members[i] == Member(key, value)
      && forall j :: i < j < |members| ==> members[j].key != key
  }

  ghost predicate Mentions(members: seq<Member>, key: string) {
    exists i :: 0 <= i < |members| && members[i].key == key
  }

  lemma {:induction false} GetFindsTheLast(members: seq<Member>, key: string) returns (i: int)
    ensures Get(members, key).None? ==> i == -1
    ensures Get(members, key).Some? ==> 0 <= i < |members| && members[i] == Member(key, Get(members, key).value)
    ensures forall j :: i < j < |members| && 0 <= j ==> members[j].key != key
  {
    if members == [] {
      i := -1;
    } else if members[|members| - 1].key == key {
      i := |members| - 1;
    } else {
      i := GetFindsTheLast(members[..|members| - 1], key);
    }
  }

  lemma GetIsTheLast(members: seq<Member>, key: string, value: Value)
    ensures Get(members, key) == Some(value) <==> Says(members, key, value)
    ensures Get(members, key) == None <==> !Mentions(members, key)
  {
    var i := GetFindsTheLast(members, key);
    if Says(members, key, value) {
      var k :| 0 <= k < |members| && members[k] == Member(key, value)
        && forall j :: k < j < |members| ==> members[j].key != key;
      assert k == i;
    }
    if Get(members, key).Some? {
      assert members[i].key == key;
    }
  }

  /**
   * A string is taken for a cursor of the operation exactly when its payload says version 1, this operation and a
   * source, and says nothing after that source but a document or null; then it leads where the payload says.
   */
  lemma TakenExactlyWhenItSaysSo(operation: string, cursor: string, at: Position)
    ensures Decode(operation, Some(cursor)) == Some(at) <==>
      && Payload(cursor).Some?
      && var members := Payload(cursor).value;
         && Says(members, "v", Number(1)) && Says(members, "op", Text(operation))
         && Says(members, "source", Number(at.source))
         && (at.after.Some? ==> Says(members, "after", Text(at.after.value)))
         && (at.after.None? ==> !Mentions(members, "after") || Says(members, "after", Null))
    ensures Decode(operation, None) == Some(START)
  {
    if Payload(cursor).Some? {
      var members := Payload(cursor).value;
      GetIsTheLast(members, "v", Number(1));
      GetIsTheLast(members, "op", Text(operation));
      GetIsTheLast(members, "source", Number(at.source));
      GetIsTheLast(members, "after", Null);
      if at.after.Some? {
        GetIsTheLast(members, "after", Text(at.after.value));
      }
    }
  }

  /** A cursor decodes to exactly the position it was made for, and only for its own operation. */
  lemma CursorRoundTrip(operation: string, at: Position, other: string)
    ensures Decode(other, Some(Encode(operation, at))) == if other == operation then Some(at) else None
  {
    PayloadRoundTrip(operation, at);
    MembersGet(operation, at);
  }

  /** So different positions or operations never share a cursor. */
  lemma CursorsAreDistinct(operation: string, at: Position, other: string, there: Position)
    requires Encode(operation, at) == Encode(other, there)
    ensures operation == other && at == there
  {
    CursorRoundTrip(operation, at, operation);
    CursorRoundTrip(other, there, operation);
  }
}
