/** Python's `str()` and `repr()` for the values that end up in the rendered tables. */
module PyStr {
  import opened Wrappers
  import opened Text
  import opened Decimal

  /** A table cell of the Python renderer: `str | int | None`. */
  datatype Cell = Str(text: string) | Int(n: int) | Null

  /** `str(cell)`: a string as itself, an int in decimal, None as "None". */
  function CellText(c: Cell): (r: string)
    ensures c.Str? ==> r == c.text
    ensures c.Null? ==> r == "None"
    ensures c.Int? ==> |r| >= 1 && (r[0] == '-' <==> c.n < 0)
  {
    match c
    case Str(s) => s
    case Int(n) => IntToString(n)
    case Null => "None"
  }

  /** `str(xs)` for a list of ints, e.g. "[5, 4]". */
  function IntListText(xs: seq<int>): (r: string)
    ensures |r| >= 2 && r[0] == '[' && r[|r| - 1] == ']'
    ensures xs == [] <==> r == "[]"
  {
    "[" + Join(", ", seq(|xs|, k requires 0 <= k < |xs| => IntToString(xs[k]))) + "]"
  }

  /** `str(o)` for a nullable list of ints: the list's text, or "None" for null. */
  function NullableIntListText(o: Option<seq<int>>): (r: string)
    ensures r == "None" <==> o.None?
    ensures o.Some? ==> r == IntListText(o.value)
  {
    match o
    case Some(xs) => IntListText(xs)
    case None => "None"
  }

  /** `str(xs)` for a list of strs: each element through `repr`, e.g. "['a', 'b']". */
  function StrListText(xs: seq<string>): string
  {
    "[" + Join(", ", seq(|xs|, k requires 0 <= k < |xs| => StrRepr(xs[k]))) + "]"
  }

  /** The quote `repr` picks: a double quote only when the text holds a single quote and
      no double quote. */
  function ReprQuote(s: string): char
  {
    if '\'' in s && '"' !in s then '"' else '\''
  }

  /** `repr(s)` for a str. */
  function StrRepr(s: string): string
  {
    var q := ReprQuote(s);
    [q] + Escape(s, q) + [q]
  }

  function HexDigit(d: nat): char
    requires d < 16
  {
    "0123456789abcdef"[d]
  }

  /** How `repr` writes one character inside quotes `q`. */
  function EscapeChar(c: char, q: char): string
  {
    if c == q || c == '\\' then ['\\', c]
    else if c == '\t' then "\\t"
    else if c == '\n' then "\\n"
    else if c == '\r' then "\\r"
    else if c < ' ' || c == '\U{7F}' then "\\x" + [HexDigit(c as int / 16), HexDigit(c as int % 16)]
    else [c]
  }

  function Escape(s: string, q: char): string
  {
    if |s| == 0 then "" else EscapeChar(s[0], q) + Escape(s[1..], q)
  }

  // ---------------------------------------------------------------------------
  // Reading a repr back

  /** The value of a lower-case hexadecimal digit. */
  function HexValue(c: char): Option<nat>
  {
    if '0' <= c <= '9' then Some(c as int - '0' as int)
    else if 'a' <= c <= 'f' then Some(c as int - 'a' as int + 10)
    else None
  }

  function Prepend(c: char, rest: Option<string>): Option<string>
  {
    match rest
    case None => None
    case Some(t) => Some([c] + t)
  }

  /** Python's reading of the inside of a quoted string literal, for the escapes `repr`
      writes: a backslash before t, n or r, "\\x" with two hexadecimal digits, and a
      backslash before any other character, which stands for that character. A trailing
      backslash or a short "\\x" is an error. */
  function Unescape(t: string): (r: Option<string>)
    decreases |t|
  {
    if |t| == 0 then Some("")
    else if t[0] != '\\' then Prepend(t[0], Unescape(t[1..]))
    else if |t| < 2 then None
    else if t[1] == 't' then Prepend('\t', Unescape(t[2..]))
    else if t[1] == 'n' then Prepend('\n', Unescape(t[2..]))
    else if t[1] == 'r' then Prepend('\r', Unescape(t[2..]))
    else if t[1] == 'x' then
      if |t| < 4 || HexValue(t[2]).None? || HexValue(t[3]).None? then None
      else Prepend((16 * HexValue(t[2]).value + HexValue(t[3]).value) as char, Unescape(t[4..]))
    else Prepend(t[1], Unescape(t[2..]))
  }

  /** The text a `repr` stands for: what lies between matching quotes, unescaped. */
  function ReadRepr(r: string): Option<string>
  {
    if |r| >= 2 && (r[0] == '\'' || r[0] == '"') && r[|r| - 1] == r[0] then Unescape(r[1..|r| - 1])
    else None
  }

  lemma HexDigitValue(d: nat)
    requires d < 16
    ensures HexValue(HexDigit(d)) == Some(d)
  {
  }

  /** One escaped character followed by any text reads back as that character. */
  lemma UnescapeChar(c: char, q: char, rest: string)
    requires q == '\'' || q == '"'
    ensures Unescape(EscapeChar(c, q) + rest) == Prepend(c, Unescape(rest))
  {
    var e := EscapeChar(c, q);
    var t := e + rest;
    if c == q || c == '\\' {
      assert t[2..] == rest;
    } else if c == '\t' || c == '\n' || c == '\r' {
      assert t[2..] == rest;
    } else if c < ' ' || c == '\U{7F}' {
      var hi, lo := c as int / 16, c as int % 16;
      HexDigitValue(hi);
      HexDigitValue(lo);
      assert t[2] == HexDigit(hi) && t[3] == HexDigit(lo);
      assert t[4..] == rest;
      assert (16 * hi + lo) as char == c;
    } else {
      assert t[1..] == rest;
    }
  }

  lemma {:induction false} UnescapeEscape(s: string, q: char)
    requires q == '\'' || q == '"'
    ensures Unescape(Escape(s, q)) == Some(s)
  {
    if |s| > 0 {
      UnescapeEscape(s[1..], q);
      UnescapeChar(s[0], q, Escape(s[1..], q));
      assert [s[0]] + s[1..] == s;
    }
  }

  /** `repr` loses nothing: the literal it writes reads back as the original text. */
  lemma ReprRoundTrip(s: string)
    ensures ReadRepr(StrRepr(s)) == Some(s)
  {
    var q := ReprQuote(s);
    var r := StrRepr(s);
    assert r[1..|r| - 1] == Escape(s, q);
    UnescapeEscape(s, q);
  }

  /** Distinct texts have distinct `repr`s. */
  lemma ReprInjective(s: string, t: string)
    ensures StrRepr(s) == StrRepr(t) ==> s == t
  {
    ReprRoundTrip(s);
    ReprRoundTrip(t);
  }
}
