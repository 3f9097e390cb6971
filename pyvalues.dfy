/**
 * The Python values that flow through the generator (a `str`, a list of `str`, or `None`),
 * Python's truth test and `str()` on them, `repr()` of a string, and the exceptions the
 * generator can raise.
 */
module PyValues {
  import opened Wrappers
  import opened PyStr

  /** A configured default, a git probe result, or a resolved answer. */
  datatype Value = Str(s: string) | List(items: seq<string>) | Null

  /** Python's `bool(v)`: the empty string, the empty list and `None` are false. */
  predicate Truthy(v: Value) {
    match v
    case Str(s) => s != ""
    case List(xs) => xs != []
    case Null => false
  }

  /** The exceptions that escape the generator. */
  datatype Exception =
    | KeyError(key: string)  // a dictionary lookup with `[...]` on a missing key
    | GitNotFound            // `git` itself cannot be started (FileNotFoundError)
    | Abort                  // the prompt reached end of input (click.exceptions.Abort)

  /** Lower-case hexadecimal digit, as `repr` writes it. */
  function HexDigit(n: nat): (d: char)
    requires n < 16
    ensures HexValue(d) == Some(n)
  {
    if n < 10 then ('0' as int + n) as char else ('a' as int + n - 10) as char
  }

  /** The value of a hexadecimal digit of either case. */
  function HexValue(d: char): Option<nat> {
    if '0' <= d <= '9' then Some(d as int - '0' as int)
    else if 'a' <= d <= 'f' then Some(d as int - 'a' as int + 10)
    else if 'A' <= d <= 'F' then Some(d as int - 'A' as int + 10)
    else None
  }

  /**
   * The quote `repr` chooses: a double quote when the text holds a single quote and no
   * double quote, a single quote otherwise.
   */
  function QuoteFor(s: string): char {
    if '\'' in s && '"' !in s then '"' else '\''
  }

  /**
   * How `repr` writes one character inside quotes `q`. Control characters, DEL and the
   * non-printable Latin-1 characters (U+0080 to U+00A0 and U+00AD) become `\xhh`.
   */
  function EscapeChar(c: char, q: char): string {
    var n := c as int;
    if c == q || c == '\\' then ['\\', c]
    else if c == '\t' then "\\t"
    else if c == '\n' then "\\n"
    else if c == '\r' then "\\r"
    else if n < 0x20 || (0x7F <= n <= 0xA0) || n == 0xAD then ['\\', 'x', HexDigit(n / 16), HexDigit(n % 16)]
    else [c]
  }

  function Escape(s: string, q: char): string {
    if s == [] then "" else EscapeChar(s[0], q) + Escape(s[1..], q)
  }

  /** `repr(s)` for a string. */
  function Repr(s: string): string {
    var q := QuoteFor(s);
    [q] + Escape(s, q) + [q]
  }

  /** `str(xs)` for a list of strings: the items' reprs, comma-separated, in brackets. */
  function ListRepr(xs: seq<string>): string {
    "[" + Join(seq(|xs|, k requires 0 <= k < |xs| => Repr(xs[k])), ", ") + "]"
  }

  /** `str(v)`, which is also what an f-string interpolates. */
  function ToStr(v: Value): string {
    match v
    case Str(s) => s
    case List(xs) => ListRepr(xs)
    case Null => "None"
  }

  function Cons(c: char, rest: Option<string>): Option<string> {
    match rest
    case Some(t) => Some([c] + t)
    case None => None
  }

  /**
   * Reads the body of a Python string literal delimited by `q`: the escapes `repr` writes are
   * decoded, and a bare delimiter, a bare line break or an unknown escape is rejected.
   */
  function Unescape(body: string, q: char): Option<string> {
    if body == [] then Some("")
    else if body[0] == '\\' then
      if |body| < 2 then None
      else
        var e := body[1];
        if e == 'n' then Cons('\n', Unescape(body[2..], q))
        else if e == 't' then Cons('\t', Unescape(body[2..], q))
        else if e == 'r' then Cons('\r', Unescape(body[2..], q))
        else if e == '\\' || e == '\'' || e == '"' then Cons(e, Unescape(body[2..], q))
        else if e == 'x' && |body| >= 4 && HexValue(body[2]).Some? && HexValue(body[3]).Some? then
          Cons((HexValue(body[2]).value * 16 + HexValue(body[3]).value) as char, Unescape(body[4..], q))
        else None
    else if body[0] == q || body[0] == '\n' then None
    else Cons(body[0], Unescape(body[1..], q))
  }

  /** Reads a one-line Python string literal in single or double quotes. */
  function ParseStrLiteral(t: string): Option<string> {
    if |t| >= 2 && (t[0] == '\'' || t[0] == '"') && t[|t| - 1] == t[0] then
      Unescape(t[1..|t| - 1], t[0])
    else None
  }

  lemma UnescapeChar(c: char, q: char, rest: string)
    requires q == '\'' || q == '"'
    ensures Unescape(EscapeChar(c, q) + rest, q) == Cons(c, Unescape(rest, q))
  {
    var e := EscapeChar(c, q);
    var n := c as int;
    if c == q || c == '\\' || c == '\t' || c == '\n' || c == '\r' {
      assert (e + rest)[2..] == rest;
    } else if n < 0x20 || (0x7F <= n <= 0xA0) || n == 0xAD {
      assert (e + rest)[4..] == rest;
      assert (e + rest)[2] == HexDigit(n / 16);
      assert (e + rest)[3] == HexDigit(n % 16);
    } else {
      assert (e + rest)[1..] == rest;
    }
  }

  lemma {:induction false} UnescapeEscape(s: string, q: char)
    requires q == '\'' || q == '"'
    ensures Unescape(Escape(s, q), q) == Some(s)
  {
    if s != [] {
      UnescapeChar(s[0], q, Escape(s[1..], q));
      UnescapeEscape(s[1..], q);
      assert [s[0]] + s[1..] == s;
    }
  }

  /** `repr` is faithful: reading the literal it writes gives back the same string. */
  lemma ReprRoundTrip(s: string)
    ensures ParseStrLiteral(Repr(s)) == Some(s)
  {
    var q := QuoteFor(s);
    var t := Repr(s);
    assert t[1..|t| - 1] == Escape(s, q);
    UnescapeEscape(s, q);
  }
}
