/** The client side of the command connection (orchestrator/app/client.py): a JSON printer and a
    write to the stream. */
module OrchestratorClient {
  import opened Doubles

  datatype Value = NoValue | Number(x: Num) | Text(s: string)

  datatype Command = Command(name: string, value: Value)

  // ----- json.dumps with its default ensure_ascii -----

  const HEX := "0123456789abcdef"

  function HexDigit(k: nat): (c: char)
    requires k < 16
    ensures ' ' <= c <= '~'
  {
    HEX[k]
  }

  /** The low `digits` hexadecimal digits of n. */
  function Hex(n: nat, digits: nat): (s: string)
    ensures |s| == digits && Printable(s)
  {
    if digits == 0 then "" else Hex(n / 16, digits - 1) + [HexDigit(n % 16)]
  }

  function UnicodeEscape(n: nat): (u: string)
    ensures Printable(u) && |u| > 0 && u[0] == '\\'
  {
    "\\u" + Hex(n, 4)
  }

  function SurrogatePair(v: nat): (u: string)
    ensures Printable(u) && |u| > 0 && u[0] == '\\'
  {
    var hi, lo := UnicodeEscape(0xD800 + v / 1024), UnicodeEscape(0xDC00 + v % 1024);
    PrintableConcat(hi, lo);
    hi + lo
  }

  /** Characters printed as themselves. */
  predicate PlainChar(c: char) { ' ' <= c <= '~' && c != '"' && c != '\\' }

  predicate Plain(s: string) { forall i :: 0 <= i < |s| ==> PlainChar(s[i]) }

  /** The second character of a two-character escape. */
  function ShortEscape(c: char): (letter: string)
    ensures |letter| <= 1 && Printable(letter)
  {
    if c == '"' then "\""
    else if c == '\\' then "\\"
    else if c == '\n' then "n"
    else if c == '\r' then "r"
    else if c == '\t' then "t"
    else if c as int == 8 then "b"
    else if c as int == 12 then "f"
    else ""
  }

  function Escape(c: char): (e: string)
    ensures Printable(e)
    ensures |e| > 0 && (e == [c] || e[0] == '\\')
  {
    if PlainChar(c) then [c]
    else if |ShortEscape(c)| == 1 then "\\" + ShortEscape(c)
    else if c as int < 0x1_0000 then UnicodeEscape(c as int)
    else SurrogatePair(c as int - 0x1_0000)
  }

  function EscapeAll(s: string): string {
    if s == "" then "" else Escape(s[0]) + EscapeAll(s[1..])
  }

  const NAME_HEAD := "{\"command\": "
  const VALUE_HEAD := ", \"value\": "

  /** A string literal and what is printed after it. */
  function Quoted(s: string, rest: string): string { "\"" + (EscapeAll(s) + "\"" + rest) }

  /** `repr` prints a number; it is a parameter because float formatting is not part of this model. */
  function Dumps(c: Command, repr: Num -> string): string {
    NAME_HEAD + Quoted(c.name, Member(c.value, repr))
  }

  /** The optional second member and the closing brace. */
  function Member(v: Value, repr: Num -> string): string {
    match v
    case NoValue => "}"
    case Number(x) => VALUE_HEAD + (repr(x) + "}")
    case Text(s) => VALUE_HEAD + Quoted(s, "}")
  }

  function Encode(c: Command, repr: Num -> string): string { Dumps(c, repr) + "\n" }

  /** The connection as the client sees it: every byte written so far. */
  class Client {
    var connected: bool
    var written: string

    constructor ()
      ensures !connected && written == ""
    {
      connected, written := false, "";
    }

    method SendCommand(name: string, value: Value, repr: Num -> string)
      modifies this
      ensures connected == old(connected)
      ensures written == old(written) + (if connected then Encode(Command(name, value), repr) else "")
    {
      if !connected { return; }
      var msg := Command(name, NoValue);
      if value != NoValue {
        msg := msg.(value := value);
      }
      written := written + (Dumps(msg, repr) + "\n");
    }
  }

  // ----- What the printer guarantees -----

  predicate Printable(s: string) { forall i :: 0 <= i < |s| ==> ' ' <= s[i] <= '~' }

  lemma PrintableConcat(a: string, b: string)
    ensures Printable(a + b) <==> Printable(a) && Printable(b)
  {
    assert a == (a + b)[..|a|] && b == (a + b)[|a|..];
    if Printable(a + b) {
      forall i | 0 <= i < |b| ensures ' ' <= b[i] <= '~' { assert b[i] == (a + b)[|a| + i]; }
    }
  }

  lemma EscapeStartsWithBackslash(c: char)
    requires !PlainChar(c)
    ensures |Escape(c)| > 0 && Escape(c)[0] == '\\'
  {}

  /** Everything a string literal is printed as is printable ASCII. */
  lemma {:induction false} EscapeAllPrintable(s: string)
    ensures Printable(EscapeAll(s))
  {
    if s != "" {
      EscapeAllPrintable(s[1..]);
      PrintableConcat(Escape(s[0]), EscapeAll(s[1..]));
    }
  }

  lemma {:induction false} EscapePlain(s: string)
    requires Plain(s)
    ensures EscapeAll(s) == s
  {
    if s != "" { EscapePlain(s[1..]); }
  }

  /** Index of the first double quote, or the length. */
  function QuoteIndex(s: string): (k: nat)
    ensures k <= |s| && '"' !in s[..k] && (k < |s| ==> s[k] == '"')
  {
    if s == "" || s[0] == '"' then 0
    else
      var k := QuoteIndex(s[1..]);
      assert s[..k + 1] == [s[0]] + s[1..][..k];
      k + 1
  }

  /** The part of a literal that a reader stopping at the first quote sees. */
  function UpToQuote(s: string): string { s[..QuoteIndex(s)] }

  lemma UpToQuoteCons(c: char, t: string)
    requires c != '"'
    ensures UpToQuote([c] + t) == [c] + UpToQuote(t)
  {
    assert ([c] + t)[1..] == t;
  }

  lemma UpToQuoteHead(e: string)
    requires e != "" && e[0] == '\\'
    ensures '\\' in UpToQuote(e)
  {
    assert UpToQuote(e)[0] == '\\';
  }

  /** A literal that is not plain shows a backslash before its first quote, so it can never be read
      as a plain keyword. */
  lemma {:induction false} EscapedShowsBackslash(s: string)
    requires !Plain(s)
    ensures '\\' in UpToQuote(EscapeAll(s))
  {
    var rest := EscapeAll(s[1..]);
    if PlainChar(s[0]) {
      EscapedShowsBackslash(s[1..]);
      UpToQuoteCons(s[0], rest);
    } else {
      EscapeStartsWithBackslash(s[0]);
      UpToQuoteHead(Escape(s[0]) + rest);
    }
  }

  // ----- A reader of JSON literals, as a reference for the printer -----

  function DigitValue(c: char): nat {
    if '0' <= c <= '9' then c as int - '0' as int
    else if 'a' <= c <= 'f' then c as int - 'a' as int + 10
    else 0
  }

  function HexValue(s: string): nat {
    if s == "" then 0 else HexValue(s[..|s| - 1]) * 16 + DigitValue(s[|s| - 1])
  }

  function Scalar(n: int): char {
    if 0 <= n < 0xD800 || 0xE000 <= n < 0x11_0000 then n as char else '?'
  }

  /** Whether the literal starts with two unicode escapes that form a surrogate pair. */
  predicate StartsWithPair(s: string) {
    |s| >= 12 && s[6] == '\\' && s[7] == 'u'
    && 0xD800 <= HexValue(s[2..6]) < 0xDC00 && 0xDC00 <= HexValue(s[8..12]) < 0xE000
  }

  function PairValue(hi: nat, lo: nat): int { (hi - 0xD800) * 1024 + (lo - 0xDC00) }

  function ReadUnicode(s: string): (char, nat) {
    if |s| < 6 then ('?', |s|)
    else if StartsWithPair(s) then (Scalar(0x1_0000 + PairValue(HexValue(s[2..6]), HexValue(s[8..12]))), 12)
    else (Scalar(HexValue(s[2..6])), 6)
  }

  /** What an escape at the head of a literal stands for, and how many characters it takes. */
  function ReadEscape(s: string): (r: (char, nat))
    requires |s| >= 2
    ensures 2 <= r.1 <= |s|
  {
    if s[1] == 'u' then ReadUnicode(s)
    else if s[1] == 'n' then ('\n', 2)
    else if s[1] == 'r' then ('\r', 2)
    else if s[1] == 't' then ('\t', 2)
    else if s[1] == 'b' then (8 as char, 2)
    else if s[1] == 'f' then (12 as char, 2)
    else (s[1], 2)
  }

  function Unescape(s: string): string
    decreases |s|
  {
    if s == "" then ""
    else if s[0] != '\\' || |s| == 1 then [s[0]] + Unescape(s[1..])
    else
      var (c, k) := ReadEscape(s);
      [c] + Unescape(s[k..])
  }

  lemma DigitRoundTrip(k: nat)
    requires k < 16
    ensures DigitValue(HexDigit(k)) == k
  {
    assert HEX[k] == if k < 10 then (k + '0' as int) as char else (k - 10 + 'a' as int) as char;
  }

  function Pow16(digits: nat): nat { if digits == 0 then 1 else 16 * Pow16(digits - 1) }

  lemma {:induction false} HexRoundTrip(n: nat, digits: nat)
    requires n < Pow16(digits)
    ensures HexValue(Hex(n, digits)) == n
  {
    if digits > 0 {
      HexRoundTrip(n / 16, digits - 1);
      DigitRoundTrip(n % 16);
      assert Hex(n, digits)[..digits - 1] == Hex(n / 16, digits - 1);
    }
  }

  lemma ReadUnicodeEscape(n: nat, t: string, s: string)
    requires n < 0x1_0000 && s == UnicodeEscape(n) + t
    ensures |s| >= 6 && s[0] == '\\' && s[1] == 'u' && HexValue(s[2..6]) == n && s[6..] == t
  {
    assert Pow16(4) == 0x1_0000;
    HexRoundTrip(n, 4);
    assert s[2..6] == Hex(n, 4);
  }

  /** Splitting a number into two halves and joining them again. */
  lemma PairSplit(v: nat, hi: nat, lo: nat)
    requires v < 0x10_0000 && hi == 0xD800 + v / 1024 && lo == 0xDC00 + v % 1024
    ensures hi < 0xDC00 <= lo < 0xE000 && PairValue(hi, lo) == v
  {}

  lemma ReadTwoEscapes(hi: nat, lo: nat, t: string, s: string)
    requires hi < 0x1_0000 && lo < 0x1_0000 && s == UnicodeEscape(hi) + (UnicodeEscape(lo) + t)
    ensures |s| >= 12 && s[0] == '\\' && s[1] == 'u' && s[6] == '\\' && s[7] == 'u'
    ensures HexValue(s[2..6]) == hi && HexValue(s[8..12]) == lo && s[12..] == t
  {
    var second := UnicodeEscape(lo) + t;
    ReadUnicodeEscape(hi, second, s);
    ReadUnicodeEscape(lo, t, second);
    assert s[6] == s[6..][0] && s[7] == s[6..][1];
    assert s[8..12] == s[6..][2..6] && s[12..] == s[6..][6..];
  }

  lemma ReadPair(s: string, hi: nat, lo: nat, v: nat)
    requires |s| >= 12 && s[6] == '\\' && s[7] == 'u' && HexValue(s[2..6]) == hi && HexValue(s[8..12]) == lo
    requires 0xD800 <= hi < 0xDC00 <= lo < 0xE000 && PairValue(hi, lo) == v
    ensures ReadUnicode(s) == (Scalar(0x1_0000 + v), 12)
  {
    assert StartsWithPair(s);
  }

  lemma SurrogatePairParts(v: nat, hi: nat, lo: nat, t: string)
    requires hi == 0xD800 + v / 1024 && lo == 0xDC00 + v % 1024
    ensures SurrogatePair(v) + t == UnicodeEscape(hi) + (UnicodeEscape(lo) + t)
  {}

  lemma ReadSurrogatePair(v: nat, t: string, s: string)
    requires v < 0x10_0000 && s == SurrogatePair(v) + t
    ensures |s| >= 12 && s[0] == '\\' && s[1] == 'u' && ReadUnicode(s) == (Scalar(0x1_0000 + v), 12) && s[12..] == t
  {
    var hi, lo := 0xD800 + v / 1024, 0xDC00 + v % 1024;
    PairSplit(v, hi, lo);
    SurrogatePairParts(v, hi, lo, t);
    ReadTwoEscapes(hi, lo, t, s);
    ReadPair(s, hi, lo, v);
  }

  lemma ReadPlain(c: char, t: string, s: string)
    requires PlainChar(c) && s == [c] + t
    ensures Unescape(s) == [c] + Unescape(t)
  {
    assert s[1..] == t;
  }

  lemma ReadShort(c: char, t: string, s: string)
    requires |ShortEscape(c)| == 1 && s == "\\" + ShortEscape(c) + t
    ensures Unescape(s) == [c] + Unescape(t)
  {
    assert s[2..] == t && s[1] == ShortEscape(c)[0];
    assert ReadEscape(s) == (c, 2);
  }

  lemma ReadLong(c: char, t: string, s: string)
    requires 0x1_0000 <= c as int && s == SurrogatePair(c as int - 0x1_0000) + t
    ensures Unescape(s) == [c] + Unescape(t)
  {
    ReadSurrogatePair(c as int - 0x1_0000, t, s);
    assert ReadEscape(s) == (c, 12);
  }

  lemma ReadBasic(c: char, t: string, s: string)
    requires c as int < 0x1_0000 && s == UnicodeEscape(c as int) + t
    ensures Unescape(s) == [c] + Unescape(t)
  {
    ReadUnicodeEscape(c as int, t, s);
    assert ReadEscape(s) == (c, 6);
  }

  /** Reading one printed character gives it back and stops where it ends. */
  lemma ReadUndoesEscape(c: char, t: string)
    ensures Unescape(Escape(c) + t) == [c] + Unescape(t)
  {
    var s := Escape(c) + t;
    if PlainChar(c) { ReadPlain(c, t, s); }
    else if |ShortEscape(c)| == 1 { ReadShort(c, t, s); }
    else if c as int < 0x1_0000 { ReadBasic(c, t, s); }
    else { ReadLong(c, t, s); }
  }

  /** The printer loses nothing: reading a printed literal gives the string back. */
  lemma {:induction false} ReadUndoesPrint(s: string)
    ensures Unescape(EscapeAll(s)) == s
  {
    if s != "" {
      ReadUndoesEscape(s[0], EscapeAll(s[1..]));
      ReadUndoesPrint(s[1..]);
    }
  }
}
