/** Scalars on one line: how strings are written and what the written text means (YAML 1.2.2).
    Plain scalars follow section 7.3.3, their meaning the core schema.
*/
module YamlScalars {
  import opened Text

  /** A configuration value; a number is its rendering, an object its entries in order. */
  datatype Value =
    | Null
    | Undefined
    | Bool(b: bool)
    | Num(text: string)
    | Str(s: string)
    | Arr(items: seq<Value>)
    | Obj(fields: seq<Field>)

  datatype Field = Field(key: string, value: Value)

  // ----- Writing -----

  /** The characters that make the printer quote a string. */
  predicate IsSpecial(c: char)
  {
    c in {':', '{', '}', '[', ']', ',', '&', '*', '?', '|', '>', '!', '%', '@', '`', '#', '\'', '"'}
  }

  predicate IsTrimmed(s: string)
  {
    s == "" || (!IsJsSpace(s[0]) && !IsJsSpace(s[|s|-1]))
  }

  predicate NeedsQuotes(s: string)
  {
    s == "" || (exists i :: 0 <= i < |s| && (IsSpecial(s[i]) || s[i] == '\n')) || !IsTrimmed(s)
  }

  function HexDigit(n: nat): char
    requires n < 16
  {
    "0123456789abcdef"[n]
  }

  function JsonChar(c: char): (r: string)
    ensures |r| > 0
  {
    if c == '"' then "\\\""
    else if c == '\\' then "\\\\"
    else if c as int == 8 then "\\b"
    else if c as int == 12 then "\\f"
    else if c == '\n' then "\\n"
    else if c == '\r' then "\\r"
    else if c == '\t' then "\\t"
    else if c < ' ' then "\\u00" + [HexDigit(c as int / 16), HexDigit(c as int % 16)]
    else [c]
  }

  function JsonChars(s: string): string
  {
    if s == "" then "" else JsonChar(s[0]) + JsonChars(s[1..])
  }

  /** JSON.stringify on a string. */
  function JsonString(s: string): string
  {
    "\"" + JsonChars(s) + "\""
  }

  function YamlString(s: string): string
  {
    if NeedsQuotes(s) then JsonString(s) else s
  }

  // ----- Reading -----

  function HexValue(c: char): Option<nat>
  {
    if '0' <= c <= '9' then Some(c as int - '0' as int)
    else if 'a' <= c <= 'f' then Some(c as int - 'a' as int + 10)
    else if 'A' <= c <= 'F' then Some(c as int - 'A' as int + 10)
    else None
  }

  /** The character of four hexadecimal digits; surrogates are not read. */
  function HexChar(t: string): Option<char>
    requires |t| == 4
  {
    match (HexValue(t[0]), HexValue(t[1]), HexValue(t[2]), HexValue(t[3]))
    case (Some(a), Some(b), Some(c), Some(d)) =>
      var n := ((a * 16 + b) * 16 + c) * 16 + d;
      if n < 0xD800 || 0xE000 <= n < 0x1_0000 then Some(n as char) else None
    case _ => None
  }

  /** The one-character escapes that JSON and YAML share. */
  function Escaped(c: char): Option<char>
  {
    if c in {'"', '\\', '/'} then Some(c)
    else if c == 'b' then Some(8 as char)
    else if c == 'f' then Some(12 as char)
    else if c == 'n' then Some('\n')
    else if c == 'r' then Some('\r')
    else if c == 't' then Some('\t')
    else None
  }

  function Prefixed(c: char, rest: Option<string>): Option<string>
  {
    match rest
    case None => None
    case Some(s) => Some([c] + s)
  }

  /** What follows the opening quote, through the closing one at the end. */
  function Unquote(t: string): Option<string>
  {
    if t == "" then None
    else if t[0] == '"' then (if |t| == 1 then Some("") else None)
    else if t[0] == '\\' then
      if |t| >= 6 && t[1] == 'u' then
        match HexChar(t[2..6])
        case None => None
        case Some(c) => Prefixed(c, Unquote(t[6..]))
      else if |t| >= 2 then
        match Escaped(t[1])
        case None => None
        case Some(c) => Prefixed(c, Unquote(t[2..]))
      else None
    else if t[0] < ' ' then None
    else Prefixed(t[0], Unquote(t[1..]))
  }

  /** Characters that may stand in a line (sections 5.1 and 5.4): printable, no byte order mark. */
  predicate IsLineChar(c: char)
  {
    var n := c as int;
    (n == 9 || 0x20 <= n <= 0x7E || n == 0x85 || 0xA0 <= n <= 0xFFFD || n >= 0x1_0000) && n != 0xFEFF
  }

  /** White space (section 5.5). */
  predicate IsBlank(c: char)
  {
    c in {' ', '\t'}
  }

  predicate IsInk(c: char)
  {
    IsLineChar(c) && !IsBlank(c)
  }

  /** The indicators (section 5.3). */
  predicate IsIndicator(c: char)
  {
    c in {'-', '?', ':', ',', '[', ']', '{', '}', '#', '&', '*', '!', '|', '>', '\'', '"', '%', '@', '`'}
  }

  /** No indicator, or a dash, question mark or colon that ink follows. */
  predicate PlainStart(t: string)
    requires t != ""
  {
    IsInk(t[0]) && (IsIndicator(t[0]) ==> t[0] in {'-', '?', ':'} && |t| > 1 && IsInk(t[1]))
  }

  /** A hash that a blank precedes starts a comment (section 6.6), a colon that a blank follows ends a key. */
  predicate PlainAt(t: string, i: nat)
    requires 0 < i < |t|
  {
    IsLineChar(t[i]) && (t[i] == '#' ==> IsInk(t[i-1])) && (t[i] == ':' ==> i + 1 < |t| && IsInk(t[i+1]))
  }

  /** A plain scalar on one line, outside flow collections (section 7.3.3). */
  predicate IsPlain(t: string)
  {
    t != "" && PlainStart(t) && IsInk(t[|t|-1]) && forall i :: 0 < i < |t| ==> PlainAt(t, i)
  }

  predicate AllDigits(s: string)
  {
    forall i :: 0 <= i < |s| ==> '0' <= s[i] <= '9'
  }

  function Unsigned(t: string): string
  {
    if t != "" && t[0] in {'+', '-'} then t[1..] else t
  }

  predicate IsMantissa(m: string)
  {
    (m != "" && AllDigits(m)) ||
    (|m| > 1 && exists i :: 0 <= i < |m| && m[i] == '.' && AllDigits(m[..i]) && AllDigits(m[i+1..]))
  }

  predicate IsExponent(e: string)
  {
    Unsigned(e) != "" && AllDigits(Unsigned(e))
  }

  /** The integers and floats of the core schema (section 10.3.2). */
  predicate IsNumber(t: string)
  {
    var u := Unsigned(t);
    IsMantissa(u) ||
    (exists i :: 0 <= i < |u| && u[i] in {'e', 'E'} && IsMantissa(u[..i]) && IsExponent(u[i+1..])) ||
    (|t| > 2 && t[..2] == "0o" && forall i :: 2 <= i < |t| ==> '0' <= t[i] <= '7') ||
    (|t| > 2 && t[..2] == "0x" && forall i :: 2 <= i < |t| ==> HexValue(t[i]).Some?) ||
    u in {".inf", ".Inf", ".INF"} || t in {".nan", ".NaN", ".NAN"}
  }

  predicate IsNullWord(t: string)
  {
    t in {"null", "Null", "NULL", "~", ""}
  }

  predicate IsTrueWord(t: string)
  {
    t in {"true", "True", "TRUE"}
  }

  predicate IsFalseWord(t: string)
  {
    t in {"false", "False", "FALSE"}
  }

  /** What the core schema makes of a plain scalar. */
  function Resolve(t: string): Value
  {
    if IsNullWord(t) then Null
    else if IsTrueWord(t) then Bool(true)
    else if IsFalseWord(t) then Bool(false)
    else if IsNumber(t) then Num(t)
    else Str(t)
  }

  /** The value of a scalar, or of an empty collection, written on one line. */
  function Scalar(t: string): Option<Value>
  {
    if t != "" && t[0] == '"' then
      match Unquote(t[1..])
      case None => None
      case Some(s) => Some(Str(s))
    else if t == "[]" then Some(Arr([]))
    else if t == "{}" then Some(Obj([]))
    else if IsPlain(t) then Some(Resolve(t))
    else None
  }

  // ----- Both -----

  lemma UnquoteChar(c: char, rest: string)
    ensures Unquote(JsonChar(c) + rest) == Prefixed(c, Unquote(rest))
  {
    var j := JsonChar(c);
    var t := j + rest;
    assert t[|j|..] == rest;
    if |j| == 6 {
      var hex := [HexDigit(c as int / 16), HexDigit(c as int % 16)];
      assert j == "\\u00" + hex;
      assert t[2..6] == ['0', '0', hex[0], hex[1]];
      HexPair(c as int / 16, c as int % 16);
    }
  }

  lemma HexPair(a: nat, b: nat)
    requires a < 16 && b < 16
    ensures HexValue(HexDigit(a)) == Some(a) && HexValue(HexDigit(b)) == Some(b)
  {
    HexOne(a);
    HexOne(b);
  }

  lemma HexOne(a: nat)
    requires a < 16
    ensures HexValue(HexDigit(a)) == Some(a)
  {
  }

  lemma {:induction false} UnquoteJson(s: string)
    ensures Unquote(JsonChars(s) + "\"") == Some(s)
  {
    if s != "" {
      UnquoteJson(s[1..]);
      UnquoteChar(s[0], JsonChars(s[1..]) + "\"");
      assert JsonChars(s) + "\"" == JsonChar(s[0]) + (JsonChars(s[1..]) + "\"");
      assert [s[0]] + s[1..] == s;
    }
  }

  /** The value that a written string is read as. */
  function ReadString(s: string): Option<Value>
  {
    if NeedsQuotes(s) then Some(Str(s)) else if IsPlain(s) then Some(Resolve(s)) else None
  }

  lemma PlainStarts(t: string)
    requires IsPlain(t)
    ensures t[0] != '"' && t != "[]" && t != "{}" && t[0] != ' '
  {
    assert IsIndicator('[') && IsIndicator('{');
  }

  lemma ScalarOfString(s: string)
    ensures Scalar(YamlString(s)) == ReadString(s)
  {
    if NeedsQuotes(s) {
      UnquoteJson(s);
      assert JsonString(s)[1..] == JsonChars(s) + "\"";
    } else {
      assert !IsSpecial(s[0]);
    }
  }
}
