/** JSON strings as the evidence log writes them (RFC 8259, section 7), and the values built from them. */
module Json {
  import opened Wrappers
  import opened HunkHeader

  /** A value read from the front of a text, and the text after it. */
  datatype Read<T> = Read(value: T, rest: string)

  // ---- string escapes ----

  function HexChar(d: nat): char
    requires d < 16
  {
    if d < 10 then ('0' as int + d) as char else ('a' as int + (d - 10)) as char
  }

  function HexValue(c: char): Option<nat> {
    if '0' <= c <= '9' then Some(c as int - '0' as int)
    else if 'a' <= c <= 'f' then Some(10 + c as int - 'a' as int)
    else if 'A' <= c <= 'F' then Some(10 + c as int - 'A' as int)
    else None
  }

  predicate IsControl(c: char) {
    c < ' '
  }

  /** Quote, backslash and control characters are escaped; every other character stands for itself. */
  function EscapeChar(c: char): (s: string)
    ensures s != "" && forall i :: 0 <= i < |s| ==> !IsControl(s[i])
  {
    if c == '"' then "\\\""
    else if c == '\\' then "\\\\"
    else if c == '\n' then "\\n"
    else if c == '\r' then "\\r"
    else if c == '\t' then "\\t"
    else if c == '\U{08}' then "\\b"
    else if c == '\U{0C}' then "\\f"
    else if IsControl(c) then ['\\', 'u', '0', '0', HexChar(c as int / 16), HexChar(c as int % 16)]
    else [c]
  }

  /** The named escapes of section 7 of RFC 8259, one of the others, and the characters that stand for themselves. */
  lemma NamedEscapes(c: char)
    ensures EscapeChar('"') == "\\\"" && EscapeChar('\\') == "\\\\"
    ensures EscapeChar('\n') == "\\n" && EscapeChar('\r') == "\\r" && EscapeChar('\t') == "\\t"
    ensures EscapeChar('\U{08}') == "\\b" && EscapeChar('\U{0C}') == "\\f" && EscapeChar('\U{1F}') == "\\u001f"
    ensures '\U{20}' <= c && c != '"' && c != '\\' ==> EscapeChar(c) == [c]
  {
  }

  function Escape(s: string): (r: string)
    ensures forall i :: 0 <= i < |r| ==> !IsControl(r[i])
  {
    if s == "" then "" else EscapeChar(s[0]) + Escape(s[1..])
  }

  /** The character after a backslash, \u aside. */
  function Unescape(c: char): Option<char> {
    match c
    case '"' => Some('"')
    case '\\' => Some('\\')
    case '/' => Some('/')
    case 'n' => Some('\n')
    case 'r' => Some('\r')
    case 't' => Some('\t')
    case 'b' => Some('\U{08}')
    case 'f' => Some('\U{0C}')
    case _ => None
  }

  /** Four hexadecimal digits; the surrogate codes stand for no character of their own. */
  function ReadCode(s: string): Option<char> {
    if |s| < 4 then None
    else
      var a :- HexValue(s[0]);
      var b :- HexValue(s[1]);
      var c :- HexValue(s[2]);
      var d :- HexValue(s[3]);
      var code := ((a * 16 + b) * 16 + c) * 16 + d;
      if 0xD800 <= code < 0xE000 || code >= 0x10000 then None else Some(code as char)
  }

  /** One character of a string body, escaped or not; a raw control character is an error. */
  function ReadChar(s: string): (r: Option<Read<char>>)
    ensures r.Some? ==> |r.value.rest| < |s|
  {
    if s == "" || IsControl(s[0]) then None
    else if s[0] != '\\' then Some(Read(s[0], s[1..]))
    else if |s| == 1 then None
    else if s[1] == 'u' then
      var c :- ReadCode(s[2..]);
      Some(Read(c, s[6..]))
    else
      var c :- Unescape(s[1]);
      Some(Read(c, s[2..]))
  }

  /** The rest of a string after its opening quote. */
  function ReadBody(s: string): Option<Read<string>>
    decreases |s|
  {
    if s != "" && s[0] == '"' then Some(Read("", s[1..]))
    else
      var first :- ReadChar(s);
      var more :- ReadBody(first.rest);
      Some(Read([first.value] + more.value, more.rest))
  }

  lemma EscapedCharReads(c: char, rest: string)
    ensures ReadChar(EscapeChar(c) + rest) == Some(Read(c, rest))
    ensures (EscapeChar(c) + rest)[0] != '"'
  {
    var s := EscapeChar(c) + rest;
    if c in ['"', '\\', '\n', '\r', '\t', '\U{08}', '\U{0C}'] {
      assert s[2..] == rest;
    } else if IsControl(c) {
      assert s[2..][..4] == ['0', '0', HexChar(c as int / 16), HexChar(c as int % 16)];
      assert s[6..] == rest;
    } else {
      assert s[1..] == rest;
    }
  }

  /** A written string reads back, whatever follows its closing quote. */
  lemma {:induction false} EscapedReads(v: string, rest: string)
    ensures ReadBody(Escape(v) + (['"'] + rest)) == Some(Read(v, rest))
  {
    if v == "" {
      assert Escape(v) + (['"'] + rest) == ['"'] + rest;
    } else {
      var tail := Escape(v[1..]) + (['"'] + rest);
      assert Escape(v) + (['"'] + rest) == EscapeChar(v[0]) + tail;
      EscapedCharReads(v[0], tail);
      EscapedReads(v[1..], rest);
      assert v == [v[0]] + v[1..];
    }
  }

  // ---- values followed by more text ----

  function WriteText(v: string, rest: string): string {
    ['"'] + (Escape(v) + (['"'] + rest))
  }

  function ReadText(s: string): Option<Read<string>> {
    if s == "" || s[0] != '"' then None else ReadBody(s[1..])
  }

  lemma TextReads(v: string, rest: string)
    ensures ReadText(WriteText(v, rest)) == Some(Read(v, rest))
  {
    EscapedReads(v, rest);
    assert WriteText(v, rest)[1..] == Escape(v) + (['"'] + rest);
  }

  /** A string or null. */
  function WriteOptional(v: Option<string>, rest: string): string {
    if v.None? then "null" + rest else WriteText(v.value, rest)
  }

  function ReadOptional(s: string): Option<Read<Option<string>>> {
    if "null" <= s then Some(Read(None, s[4..]))
    else
      var text :- ReadText(s);
      Some(Read(Some(text.value), text.rest))
  }

  lemma OptionalReads(v: Option<string>, rest: string)
    ensures ReadOptional(WriteOptional(v, rest)) == Some(Read(v, rest))
  {
    if v.None? {
      assert ("null" + rest)[4..] == rest;
    } else {
      TextReads(v.value, rest);
      assert WriteText(v.value, rest)[0] == '"';
    }
  }

  function ReadNumber(s: string): Option<Read<nat>> {
    var n := DigitRun(s);
    if n == 0 then None else Some(Read(ToNat(s[..n]), s[n..]))
  }

  lemma NumberReads(n: nat, rest: string)
    requires rest != "" && !IsDigit(rest[0])
    ensures ReadNumber(Decimal(n) + rest) == Some(Read(n, rest))
  {
    DigitRunOfNumeral(Decimal(n), rest);
  }

  /** What follows an expected piece of punctuation or key. */
  function Expect(s: string, piece: string): Option<string> {
    if piece <= s then Some(s[|piece|..]) else None
  }

  lemma ExpectReads(piece: string, rest: string)
    ensures Expect(piece + rest, piece) == Some(rest)
  {
    assert (piece + rest)[..|piece|] == piece && (piece + rest)[|piece|..] == rest;
  }
}
