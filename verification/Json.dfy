/** String literals as `JSON.stringify` prints them (section 7 of RFC 8259), and the one-line
    variant of `src/retrieval/render.js`, which also escapes the two Unicode line separators. */
module Json {
  import opened Sequences

  function HexDigit(n: nat): char
    requires n < 16
  {
    ['0', '1', '2', '3', '4', '5', '6', '7', '8', '9', 'a', 'b', 'c', 'd', 'e', 'f'][n]
  }

  /** `\u` and four lower-case hexadecimal digits. */
  function UnicodeEscape(code: nat): (s: string)
    requires code < 0x1_0000
    ensures |s| == 6
  {
    ['\\', 'u', HexDigit(code / 0x1000), HexDigit(code / 0x100 % 16), HexDigit(code / 16 % 16), HexDigit(code % 16)]
  }

  function EscapeChar(oneLine: bool, c: char): (s: string)
    ensures s != []
    ensures s[0] != '"'
  {
    if c == '"' then ['\\', '"']
    else if c == '\\' then ['\\', '\\']
    else if c == '\U{8}' then ['\\', 'b']
    else if c == '\U{C}' then ['\\', 'f']
    else if c == '\n' then ['\\', 'n']
    else if c == '\r' then ['\\', 'r']
    else if c == '\t' then ['\\', 't']
    else if c as int < 0x20 then UnicodeEscape(c as int)
    else if oneLine && (c == '\U{2028}' || c == '\U{2029}') then UnicodeEscape(c as int)
    else [c]
  }

  function Escape(oneLine: bool, text: string): string {
    if text == [] then [] else EscapeChar(oneLine, text[0]) + Escape(oneLine, text[1..])
  }

  function Quote(oneLine: bool, text: string): string {
    ['"'] + Escape(oneLine, text) + ['"']
  }

  lemma {:induction false} EscapeConcat(oneLine: bool, a: string, b: string)
    ensures Escape(oneLine, a + b) == Escape(oneLine, a) + Escape(oneLine, b)
  {
    if a == [] {
      Nothing(b);
    } else {
      assert (a + b)[1..] == a[1..] + b;
      EscapeConcat(oneLine, a[1..], b);
      Associate(EscapeChar(oneLine, a[0]), Escape(oneLine, a[1..]), Escape(oneLine, b));
    }
  }

  /** Escaping a prefix gives a prefix of the escaped text. */
  lemma EscapePrefix(oneLine: bool, text: string, n: nat)
    requires n <= |text|
    ensures Escape(oneLine, text[..n]) <= Escape(oneLine, text)
  {
    EscapeConcat(oneLine, text[..n], text[n..]);
    Whole(text, n);
  }

  /** The character of the text that a position of the escaped text belongs to. */
  lemma {:induction false} EscapePosition(oneLine: bool, text: string, i: nat) returns (n: nat, k: nat)
    requires i < |Escape(oneLine, text)|
    ensures n < |text| && i == |Escape(oneLine, text[..n])| + k && k < |EscapeChar(oneLine, text[n])|
  {
    var first := EscapeChar(oneLine, text[0]);
    if i < |first| {
      n, k := 0, i;
    } else {
      n, k := EscapePosition(oneLine, text[1..], i - |first|);
      n := n + 1;
      assert text[..n][1..] == text[1..][..n - 1];
    }
  }

  /** There its characters stand, one after the other. */
  lemma EscapeAt(oneLine: bool, text: string, n: nat)
    requires n < |text|
    ensures var at := |Escape(oneLine, text[..n])|;
            && at + |EscapeChar(oneLine, text[n])| == |Escape(oneLine, text[..n + 1])| <= |Escape(oneLine, text)|
            && forall j :: 0 <= j < |EscapeChar(oneLine, text[n])| ==> Escape(oneLine, text)[at + j] == EscapeChar(oneLine, text[n])[j]
  {
    Grown(text, n);
    EscapeConcat(oneLine, text[..n], [text[n]]);
    EscapeOne(oneLine, text[n]);
    EscapePrefix(oneLine, text, n + 1);
    PartStands(Escape(oneLine, text), Escape(oneLine, text[..n]), EscapeChar(oneLine, text[n]));
  }

  lemma PartStands<T>(whole: seq<T>, a: seq<T>, b: seq<T>)
    requires a + b <= whole
    ensures |a| + |b| <= |whole| && forall j :: 0 <= j < |b| ==> whole[|a| + j] == b[j]
  {
    assert forall j :: 0 <= j < |b| ==> (a + b)[|a| + j] == b[j];
  }

  lemma EscapeOne(oneLine: bool, c: char)
    ensures Escape(oneLine, [c]) == EscapeChar(oneLine, c)
  {
    Nothing(EscapeChar(oneLine, c));
  }

  /** No control character, and neither of the two Unicode line separators: the text stays on one line for every
      reader. */
  ghost predicate SingleLine(text: string) {
    forall i :: 0 <= i < |text| ==> text[i] as int >= 0x20 && text[i] != '\U{2028}' && text[i] != '\U{2029}'
  }

  lemma SingleLineConcat(a: string, b: string)
    requires SingleLine(a) && SingleLine(b)
    ensures SingleLine(a + b)
  {
  }

  lemma HexDigitPrintable(n: nat)
    requires n < 16
    ensures '0' <= HexDigit(n) <= 'f'
  {
  }

  lemma EscapedCharSingleLine(c: char)
    ensures SingleLine(EscapeChar(true, c))
  {
    if |EscapeChar(true, c)| == 6 {
      HexDigitPrintable(c as int / 0x1000);
      HexDigitPrintable(c as int / 0x100 % 16);
      HexDigitPrintable(c as int / 16 % 16);
      HexDigitPrintable(c as int % 16);
    }
  }

  /** What the one-line variant is for: the escaped text is on one line, whatever the text says. */
  lemma {:induction false} EscapedSingleLine(text: string)
    ensures SingleLine(Escape(true, text))
  {
    if text != [] {
      EscapedSingleLine(text[1..]);
      EscapedCharSingleLine(text[0]);
      SingleLineConcat(EscapeChar(true, text[0]), Escape(true, text[1..]));
    }
  }

  /** In an escaped text every quote follows a backslash. */
  ghost predicate QuotesEscaped(text: string) {
    forall i :: 0 <= i < |text| && text[i] == '"' ==> i > 0 && text[i - 1] == '\\'
  }

  lemma HexDigitNoQuote(n: nat)
    requires n < 16
    ensures HexDigit(n) != '"'
  {
  }

  lemma UnicodeEscapeNoQuotes(code: nat)
    requires code < 0x1_0000
    ensures QuotesEscaped(UnicodeEscape(code))
  {
    HexDigitNoQuote(code / 0x1000);
    HexDigitNoQuote(code / 0x100 % 16);
    HexDigitNoQuote(code / 16 % 16);
    HexDigitNoQuote(code % 16);
  }

  lemma EscapedCharQuotes(oneLine: bool, c: char)
    ensures QuotesEscaped(EscapeChar(oneLine, c))
  {
    if |EscapeChar(oneLine, c)| == 6 {
      UnicodeEscapeNoQuotes(c as int);
    }
  }

  lemma {:induction false} EscapedQuotes(oneLine: bool, text: string)
    ensures QuotesEscaped(Escape(oneLine, text))
  {
    if text != [] {
      EscapedQuotes(oneLine, text[1..]);
      EscapedCharQuotes(oneLine, text[0]);
      QuotesEscapedConcat(EscapeChar(oneLine, text[0]), Escape(oneLine, text[1..]));
    }
  }

  lemma QuotesEscapedConcat(a: string, b: string)
    requires QuotesEscaped(a) && QuotesEscaped(b)
    ensures QuotesEscaped(a + b)
  {
    var text := a + b;
    forall i | 0 <= i < |text| && text[i] == '"'
      ensures i > 0 && text[i - 1] == '\\'
    {
      if i >= |a| {
        assert b[i - |a|] == '"';
        assert text[i - 1] == b[i - |a| - 1];
      }
    }
  }

  // ---------------------------------------------------------------------------------------
  // Reading it back
  // ---------------------------------------------------------------------------------------

  lemma HexDigitInjective(m: nat, n: nat)
    requires m < 16 && n < 16
    ensures HexDigit(m) == HexDigit(n) ==> m == n
  {
  }

  lemma HexDigits(n: nat)
    requires n < 0x1_0000
    ensures n == n / 0x1000 * 0x1000 + n / 0x100 % 16 * 0x100 + n / 16 % 16 * 16 + n % 16
  {
    assert n == n / 16 * 16 + n % 16;
    assert n / 16 / 16 == n / 0x100 && n / 0x100 / 16 == n / 0x1000;
  }

  lemma UnicodeEscapeInjective(m: nat, n: nat)
    requires m < 0x1_0000 && n < 0x1_0000
    requires UnicodeEscape(m) == UnicodeEscape(n)
    ensures m == n
  {
    HexDigits(m);
    HexDigits(n);
    var s, t := UnicodeEscape(m), UnicodeEscape(n);
    assert s[2] == t[2] && s[3] == t[3] && s[4] == t[4] && s[5] == t[5];
    HexDigitInjective(m / 0x1000, n / 0x1000);
    HexDigitInjective(m / 0x100 % 16, n / 0x100 % 16);
    HexDigitInjective(m / 16 % 16, n / 16 % 16);
    HexDigitInjective(m % 16, n % 16);
  }

  /** The escapes form a prefix-free code. */
  lemma EscapeCharDecodes(oneLine: bool, c: char, d: char, x: string, y: string)
    requires EscapeChar(oneLine, c) + x == EscapeChar(oneLine, d) + y
    ensures c == d && x == y
  {
    var s, t := EscapeChar(oneLine, c), EscapeChar(oneLine, d);
    var whole := s + x;
    assert whole[0] == s[0] == t[0];
    if s[0] == '\\' {
      assert whole[1] == s[1] == t[1];
    }
    assert |s| == |t|;
    Prefixes(s, t, x, y);
    if |s| == 6 {
      UnicodeEscapeInjective(c as int, d as int);
    }
  }

  lemma Prefixes<T>(s: seq<T>, t: seq<T>, x: seq<T>, y: seq<T>)
    requires |s| == |t| && s + x == t + y
    ensures s == t && x == y
  {
    assert s == (s + x)[..|s|] && t == (t + y)[..|t|];
    assert x == (s + x)[|s|..] && y == (t + y)[|t|..];
  }

  /** A quoted string ends where it says, whatever follows, and names one text. */
  lemma {:induction false} EscapeDecodes(oneLine: bool, s: string, t: string, x: string, y: string)
    requires Escape(oneLine, s) + ['"'] + x == Escape(oneLine, t) + ['"'] + y
    ensures s == t && x == y
    decreases |s|
  {
    Associate(Escape(oneLine, s), ['"'], x);
    Associate(Escape(oneLine, t), ['"'], y);
    if s == [] || t == [] {
      Nothing(['"'] + x);
      Nothing(['"'] + y);
      assert (Escape(oneLine, s) + (['"'] + x))[0] == (Escape(oneLine, t) + (['"'] + y))[0];
      assert s == [] && t == [];
      Prefixes(['"'], ['"'], x, y);
    } else {
      var a, b := Escape(oneLine, s[1..]), Escape(oneLine, t[1..]);
      Associate(EscapeChar(oneLine, s[0]), a, ['"'] + x);
      Associate(EscapeChar(oneLine, t[0]), b, ['"'] + y);
      EscapeCharDecodes(oneLine, s[0], t[0], a + (['"'] + x), b + (['"'] + y));
      Associate(a, ['"'], x);
      Associate(b, ['"'], y);
      EscapeDecodes(oneLine, s[1..], t[1..], x, y);
      Whole(s, 1);
      Whole(t, 1);
      assert s[..1] == [s[0]] == t[..1];
    }
  }

  lemma QuoteDecodes(oneLine: bool, s: string, t: string, x: string, y: string)
    requires Quote(oneLine, s) + x == Quote(oneLine, t) + y
    ensures s == t && x == y
  {
    QuoteSplits(oneLine, s, x);
    QuoteSplits(oneLine, t, y);
    Prefixes(['"'], ['"'], Escape(oneLine, s) + ['"'] + x, Escape(oneLine, t) + ['"'] + y);
    EscapeDecodes(oneLine, s, t, x, y);
  }

  lemma QuoteSplits(oneLine: bool, s: string, x: string)
    ensures Quote(oneLine, s) + x == ['"'] + (Escape(oneLine, s) + ['"'] + x)
  {
    Associate(['"'], Escape(oneLine, s), ['"']);
    Associate(['"'], Escape(oneLine, s) + ['"'], x);
  }
}
