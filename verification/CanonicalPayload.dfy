/** The canonical request texts that idempotent transfers are compared by
    (src/apps/transfers/services.py:63-76), and a decoder that reads them back.
    Amounts are kept in integer cents. */
module CanonicalPayload {
  import opened Base

  datatype Payload =
    | ByName(recipient: string, cents: nat)
    | ByRoom(room: int, cents: nat)

  function Encode(p: Payload): string {
    match p
    case ByName(recipient, cents) => CanonicalByName(recipient, cents)
    case ByRoom(room, cents) => CanonicalByRoom(room, cents)
  }

  const OPENING := "{\"amount\":\""
  const RECIPIENT := "\",\"recipient\":\""
  const VERSION_1 := ",\"version\":1}"
  const ROOM := "\",\"room_id\":"
  const VERSION_2 := ",\"version\":2}"

  /** Keys in sorted order, no spaces. */
  function CanonicalByName(recipient: string, cents: nat): string {
    OPENING + AmountText(cents) + RECIPIENT + (Escape(recipient) + "\"" + VERSION_1)
  }

  function CanonicalByRoom(room: int, cents: nat): string {
    OPENING + AmountText(cents) + ROOM + (IntText(room) + VERSION_2)
  }

  // ---------- Number printing ----------

  function Digit(d: nat): char
    requires d < 10
  {
    ('0' as int + d) as char
  }

  predicate IsDigit(c: char) {
    '0' <= c <= '9'
  }

  function NatText(n: nat): (t: string)
    ensures t != []
    ensures forall i :: 0 <= i < |t| ==> IsDigit(t[i])
  {
    if n < 10 then [Digit(n)] else NatText(n / 10) + [Digit(n % 10)]
  }

  function IntText(n: int): string {
    if n < 0 then "-" + NatText(-n) else NatText(n)
  }

  /** Fixed two-decimal printing. */
  function AmountText(cents: nat): string {
    NatText(cents / 100) + "." + [Digit(cents % 100 / 10), Digit(cents % 10)]
  }

  // ---------- JSON string escaping (section 7 of RFC 8259, shortest forms) ----------

  function HexDigit(d: nat): char
    requires d < 16
  {
    if d < 10 then ('0' as int + d) as char else ('a' as int + (d - 10)) as char
  }

  function EscapeChar(c: char): string {
    if c == '\"' then "\\\""
    else if c == '\\' then "\\\\"
    else if c == '\n' then "\\n"
    else if c == '\r' then "\\r"
    else if c == '\t' then "\\t"
    else if c as int == 0x0C then "\\f"
    else if c as int == 0x08 then "\\b"
    else if c as int < 0x20 then ['\\', 'u', '0', '0', HexDigit(c as int / 16), HexDigit(c as int % 16)]
    else [c]
  }

  function Escape(s: string): string {
    if s == [] then [] else EscapeChar(s[0]) + Escape(s[1..])
  }

  // ---------- The decoder ----------

  function StripPrefix(prefix: string, t: string): (r: Option<string>)
    ensures r.Some? <==> prefix <= t
    ensures r.Some? ==> t == prefix + r.value
  {
    if prefix <= t then Some(t[|prefix|..]) else None
  }

  /** The longest run of leading digits of t and what follows it. */
  function SpanDigits(t: string): (string, string) {
    if t != [] && IsDigit(t[0]) then
      var (digits, rest) := SpanDigits(t[1..]);
      ([t[0]] + digits, rest)
    else
      ([], t)
  }

  function DigitsValue(t: string): nat
    requires forall i :: 0 <= i < |t| ==> IsDigit(t[i])
  {
    if t == [] then 0
    else
      assert IsDigit(t[|t| - 1]);
      10 * DigitsValue(t[..|t| - 1]) + (t[|t| - 1] as int - '0' as int)
  }

  lemma {:induction false} SpanDigitsAreDigits(t: string)
    ensures forall i :: 0 <= i < |SpanDigits(t).0| ==> IsDigit(SpanDigits(t).0[i])
    ensures SpanDigits(t).0 + SpanDigits(t).1 == t
  {
    if t != [] && IsDigit(t[0]) {
      SpanDigitsAreDigits(t[1..]);
    }
  }

  function ReadNat(t: string): Option<(nat, string)> {
    var (digits, rest) := SpanDigits(t);
    SpanDigitsAreDigits(t);
    if digits == [] then None else Some((DigitsValue(digits), rest))
  }

  function ReadInt(t: string): Option<(int, string)> {
    if t != [] && t[0] == '-' then
      match ReadNat(t[1..])
      case None => None
      case Some(p) => var n: int := p.0; Some((-n, p.1))
    else
      match ReadNat(t)
      case None => None
      case Some(p) => Some((p.0, p.1))
  }

  function ReadAmount(t: string): Option<(nat, string)> {
    match ReadNat(t)
    case None => None
    case Some(p) =>
      var rest := p.1;
      if |rest| >= 3 && rest[0] == '.' && IsDigit(rest[1]) && IsDigit(rest[2]) then
        Some((100 * p.0 + 10 * (rest[1] as int - '0' as int) + (rest[2] as int - '0' as int), rest[3..]))
      else
        None
  }

  function HexValue(c: char): Option<nat> {
    if '0' <= c <= '9' then Some(c as int - '0' as int)
    else if 'a' <= c <= 'f' then Some(c as int - 'a' as int + 10)
    else if 'A' <= c <= 'F' then Some(c as int - 'A' as int + 10)
    else None
  }

  /** The character named by four hexadecimal digits; surrogate halves name no character. */
  function ReadHex4(t: string): Option<char>
    requires |t| == 4
  {
    var (a, b, c, d) := (HexValue(t[0]), HexValue(t[1]), HexValue(t[2]), HexValue(t[3]));
    if a.Some? && b.Some? && c.Some? && d.Some? && a.value < 16 && b.value < 16 && c.value < 16 && d.value < 16 then
      var code := 4096 * a.value + 256 * b.value + 16 * c.value + d.value;
      if code < 0xD800 || 0xE000 <= code < 0x10000 then Some(code as char) else None
    else
      None
  }

  function ReadSimpleEscape(c: char): Option<char> {
    if c == '\"' || c == '\\' || c == '/' then Some(c)
    else if c == 'n' then Some('\n')
    else if c == 'r' then Some('\r')
    else if c == 't' then Some('\t')
    else if c == 'f' then Some(0x0C as char)
    else if c == 'b' then Some(0x08 as char)
    else None
  }

  /** One possibly escaped character inside a JSON string, and the text after it. */
  function ReadChar(t: string): (r: Option<(char, string)>)
    ensures r.Some? ==> |r.value.1| < |t|
  {
    if t == [] || t[0] == '\"' then None
    else if t[0] != '\\' then Some((t[0], t[1..]))
    else if |t| >= 2 && ReadSimpleEscape(t[1]).Some? then Some((ReadSimpleEscape(t[1]).value, t[2..]))
    else if |t| >= 6 && t[1] == 'u' && ReadHex4(t[2..6]).Some? then Some((ReadHex4(t[2..6]).value, t[6..]))
    else None
  }

  /** The contents of a JSON string up to its closing quote, and the text after the quote. */
  function ReadString(t: string): Option<(string, string)>
    decreases |t|
  {
    if t != [] && t[0] == '\"' then Some(("", t[1..]))
    else
      match ReadChar(t)
      case None => None
      case Some(p) =>
        match ReadString(p.1)
        case None => None
        case Some(q) => Some(([p.0] + q.0, q.1))
  }

  /** The object member after the amount, to the closing brace. */
  function DecodeTarget(t: string, cents: nat): Option<Payload> {
    match StripPrefix(RECIPIENT, t)
    case Some(afterName) => (
      match ReadString(afterName)
      case None => None
      case Some(name) => if name.1 == VERSION_1 then Some(ByName(name.0, cents)) else None)
    case None =>
      match StripPrefix(ROOM, t)
      case None => None
      case Some(afterRoom) =>
        match ReadInt(afterRoom)
        case None => None
        case Some(room) => if room.1 == VERSION_2 then Some(ByRoom(room.0, cents)) else None
  }

  function Decode(t: string): Option<Payload> {
    match StripPrefix(OPENING, t)
    case None => None
    case Some(afterOpen) =>
      match ReadAmount(afterOpen)
      case None => None
      case Some(amount) => DecodeTarget(amount.1, amount.0)
  }

  // ---------- Reading undoes printing ----------

  lemma {:induction false} SpanDigitsStops(digits: string, rest: string)
    requires forall i :: 0 <= i < |digits| ==> IsDigit(digits[i])
    requires rest == [] || !IsDigit(rest[0])
    ensures SpanDigits(digits + rest) == (digits, rest)
  {
    if digits == [] {
      assert digits + rest == rest;
    } else {
      assert IsDigit(digits[0]);
      assert (digits + rest)[1..] == digits[1..] + rest;
      assert (digits + rest)[0] == digits[0];
      assert forall i :: 0 <= i < |digits[1..]| ==> digits[1..][i] == digits[i + 1];
      SpanDigitsStops(digits[1..], rest);
      assert [digits[0]] + digits[1..] == digits;
    }
  }

  lemma {:induction false} DigitsValueOfNatText(n: nat)
    ensures DigitsValue(NatText(n)) == n
  {
    if n >= 10 {
      DigitsValueOfNatText(n / 10);
      var t := NatText(n);
      assert t[..|t| - 1] == NatText(n / 10);
    }
  }

  lemma {:induction false} ReadNatOfText(n: nat, rest: string)
    requires rest == [] || !IsDigit(rest[0])
    ensures ReadNat(NatText(n) + rest) == Some((n, rest))
  {
    SpanDigitsStops(NatText(n), rest);
    DigitsValueOfNatText(n);
  }

  /** A sign in front of digits that read as value. */
  lemma ReadSigned(digits: string, value: nat, rest: string)
    requires digits != [] && IsDigit(digits[0]) && ReadNat(digits + rest) == Some((value, rest))
    ensures ReadInt(digits + rest) == Some((value, rest))
    ensures value != 0 ==> ReadInt("-" + digits + rest) == Some((0 - value, rest))
  {
    assert (digits + rest)[0] == digits[0];
    var t := "-" + digits + rest;
    assert t[0] == '-' && t[1..] == digits + rest;
  }

  lemma ReadIntOfText(n: int, rest: string)
    requires rest == [] || !IsDigit(rest[0])
    ensures ReadInt(IntText(n) + rest) == Some((n, rest))
  {
    var m: nat := if n < 0 then 0 - n else n;
    ReadNatOfText(m, rest);
    ReadSigned(NatText(m), m, rest);
  }

  lemma ReadAmountOfText(cents: nat, rest: string)
    ensures ReadAmount(AmountText(cents) + rest) == Some((cents, rest))
  {
    var fraction := [Digit(cents % 100 / 10), Digit(cents % 10)];
    var tail := "." + fraction + rest;
    assert AmountText(cents) + rest == NatText(cents / 100) + tail;
    ReadNatOfText(cents / 100, tail);
    assert tail[3..] == rest;
    assert cents == 100 * (cents / 100) + 10 * (cents % 100 / 10) + cents % 10;
  }

  lemma HexValueOfDigit(d: nat)
    requires d < 16
    ensures HexValue(HexDigit(d)) == Some(d)
  {
  }

  lemma ReadCharOfEscape(c: char, rest: string)
    ensures EscapeChar(c) != [] && EscapeChar(c)[0] != '\"'
    ensures ReadChar(EscapeChar(c) + rest) == Some((c, rest))
  {
    var t := EscapeChar(c) + rest;
    if |EscapeChar(c)| == 6 {
      HexValueOfDigit(c as int / 16);
      HexValueOfDigit(c as int % 16);
      assert t[2..6] == ['0', '0', HexDigit(c as int / 16), HexDigit(c as int % 16)];
      assert t[6..] == rest;
      assert HexValue('0') == Some(0);
      assert 4096 * 0 + 256 * 0 + 16 * (c as int / 16) + c as int % 16 == c as int;
      assert ReadSimpleEscape('u').None?;
    } else if |EscapeChar(c)| == 2 {
      assert t[2..] == rest;
    } else {
      assert t[1..] == rest;
    }
  }

  lemma {:induction false} ReadStringOfEscape(s: string, rest: string)
    ensures ReadString(Escape(s) + "\"" + rest) == Some((s, rest))
  {
    var t := Escape(s) + "\"" + rest;
    if s == [] {
      assert t == "\"" + rest;
      assert t[1..] == rest;
    } else {
      var inner := Escape(s[1..]) + "\"" + rest;
      assert t == EscapeChar(s[0]) + inner;
      ReadCharOfEscape(s[0], inner);
      ReadStringOfEscape(s[1..], rest);
      assert [s[0]] + s[1..] == s;
    }
  }

  // ---------- Main results ----------

  lemma StripPrefixOfConcat(prefix: string, rest: string)
    ensures StripPrefix(prefix, prefix + rest) == Some(rest)
  {
  }

  lemma DecodeTargetByName(recipient: string, cents: nat)
    ensures DecodeTarget(RECIPIENT + (Escape(recipient) + "\"" + VERSION_1), cents) == Some(ByName(recipient, cents))
  {
    ReadStringOfEscape(recipient, VERSION_1);
    StripPrefixOfConcat(RECIPIENT, Escape(recipient) + "\"" + VERSION_1);
  }

  lemma DecodeTargetByRoom(room: int, cents: nat)
    ensures DecodeTarget(ROOM + (IntText(room) + VERSION_2), cents) == Some(ByRoom(room, cents))
  {
    var t := ROOM + (IntText(room) + VERSION_2);
    ReadIntOfText(room, VERSION_2);
    StripPrefixOfConcat(ROOM, IntText(room) + VERSION_2);
    assert t[4] == ROOM[4] == 'o' && RECIPIENT[4] == 'e';
  }

  lemma DecodeOfParts(cents: nat, target: string)
    ensures Decode(OPENING + AmountText(cents) + target) == DecodeTarget(target, cents)
  {
    assert OPENING + AmountText(cents) + target == OPENING + (AmountText(cents) + target);
    StripPrefixOfConcat(OPENING, AmountText(cents) + target);
    ReadAmountOfText(cents, target);
  }

  lemma Regroup(a: string, b: string, c: string, d: string)
    ensures a + b + c + d == a + b + (c + d)
  {
  }

  /** Every canonical text decodes to the request it was made from. */
  lemma DecodeEncode(p: Payload)
    ensures Decode(Encode(p)) == Some(p)
  {
    match p
    case ByName(recipient, cents) =>
      var value := Escape(recipient) + "\"" + VERSION_1;
      Regroup(OPENING, AmountText(cents), RECIPIENT, value);
      DecodeOfParts(cents, RECIPIENT + value);
      DecodeTargetByName(recipient, cents);
    case ByRoom(room, cents) =>
      var value := IntText(room) + VERSION_2;
      Regroup(OPENING, AmountText(cents), ROOM, value);
      DecodeOfParts(cents, ROOM + value);
      DecodeTargetByRoom(room, cents);
  }

  /** Two requests have the same canonical text only when they are the same request: each
      encoding is injective and the two encodings never meet. */
  lemma EncodeInjective(p: Payload, q: Payload)
    ensures Encode(p) == Encode(q) <==> p == q
  {
    DecodeEncode(p);
    DecodeEncode(q);
  }

  lemma KnownAmount()
    ensures AmountText(12_305) == "123.05"
  {
    assert NatText(12) == "12";
    assert NatText(123) == "123";
  }

  lemma KnownName()
    ensures Escape("a\"b") == "a\\\"b"
  {
    assert Escape("b") == "b";
    assert Escape("\"b") == "\\\"b";
  }

  /** A text in full: sorted keys, no spaces, two decimals, escaped quotes. */
  lemma KnownText()
    ensures CanonicalByName("a\"b", 12_305) == "{\"amount\":\"123.05\",\"recipient\":\"a\\\"b\",\"version\":1}"
  {
    KnownAmount();
    KnownName();
    JoinedText(AmountText(12_305), Escape("a\"b"));
  }

  lemma JoinedText(amount: string, name: string)
    requires amount == "123.05" && name == "a\\\"b"
    ensures OPENING + amount + RECIPIENT + (name + "\"" + VERSION_1) == "{\"amount\":\"123.05\",\"recipient\":\"a\\\"b\",\"version\":1}"
  {
    assert OPENING + amount == "{\"amount\":\"123.05";
    assert OPENING + amount + RECIPIENT == "{\"amount\":\"123.05\",\"recipient\":\"";
    assert name + "\"" + VERSION_1 == "a\\\"b\",\"version\":1}";
  }
}
