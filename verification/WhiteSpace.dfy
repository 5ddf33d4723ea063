/** White space as regular expressions and `trim` understand it. */
module WhiteSpace {

  predicate IsSpace(c: char) {
    || '\t' as int <= c as int <= '\r' as int || c == ' ' || c == '\U{A0}' || c == '\U{1680}'
    || 0x2000 <= c as int <= 0x200A || c == '\U{2028}' || c == '\U{2029}' || c == '\U{202F}' || c == '\U{205F}'
    || c == '\U{3000}' || c == '\U{FEFF}'
  }

  function TrimStart(text: string): string {
    if text != [] && IsSpace(text[0]) then TrimStart(text[1..]) else text
  }

  function TrimEnd(text: string): string {
    if text != [] && IsSpace(text[|text| - 1]) then TrimEnd(text[..|text| - 1]) else text
  }

  function Trim(text: string): string {
    TrimEnd(TrimStart(text))
  }

  ghost predicate AllSpace(text: string) {
    forall i :: 0 <= i < |text| ==> IsSpace(text[i])
  }

  /** `line` is the text without the white space at its ends. */
  ghost predicate Trims(text: string, line: string) {
    if AllSpace(text) then line == []
    else
      && line != [] && !IsSpace(line[0]) && !IsSpace(line[|line| - 1])
      && exists a, b :: AllSpace(a) && AllSpace(b) && text == a + (line + b)
  }

  lemma {:induction false} TrimStartAfter(a: string, rest: string)
    requires AllSpace(a) && (rest == [] || !IsSpace(rest[0]))
    ensures TrimStart(a + rest) == rest
  {
    if a == [] {
      assert a + rest == rest;
    } else {
      assert (a + rest)[1..] == a[1..] + rest;
      TrimStartAfter(a[1..], rest);
    }
  }

  lemma {:induction false} TrimEndBefore(rest: string, b: string)
    requires AllSpace(b) && (rest == [] || !IsSpace(rest[|rest| - 1]))
    ensures TrimEnd(rest + b) == rest
  {
    if b == [] {
      assert rest + b == rest;
    } else {
      var init := b[..|b| - 1];
      assert (rest + b)[..|rest + b| - 1] == rest + init;
      TrimEndBefore(rest, init);
    }
  }

  lemma {:induction false} TrimStartCuts(text: string) returns (a: string)
    ensures AllSpace(a) && text == a + TrimStart(text)
    ensures TrimStart(text) == [] || !IsSpace(TrimStart(text)[0])
  {
    if text != [] && IsSpace(text[0]) {
      a := TrimStartCuts(text[1..]);
      a := [text[0]] + a;
      assert text == [text[0]] + text[1..];
    } else {
      a := [];
    }
  }

  lemma {:induction false} TrimEndCuts(text: string) returns (b: string)
    ensures AllSpace(b) && text == TrimEnd(text) + b
    ensures TrimEnd(text) == [] || !IsSpace(TrimEnd(text)[|TrimEnd(text)| - 1])
  {
    if text != [] && IsSpace(text[|text| - 1]) {
      var init := text[..|text| - 1];
      b := TrimEndCuts(init);
      b := b + [text[|text| - 1]];
      assert text == init + [text[|text| - 1]];
    } else {
      b := [];
    }
  }

  lemma NothingBetween(a: string, middle: string, b: string)
    requires AllSpace(a) && AllSpace(b)
    ensures middle == [] ==> AllSpace(a + (middle + b))
  {
  }

  /** Trimming takes away the white space at the ends, and nothing else. */
  lemma TrimIs(text: string, line: string)
    ensures Trim(text) == line <==> Trims(text, line)
  {
    if AllSpace(text) {
      TrimStartAfter(text, []);
      assert text + [] == text;
    } else {
      var a := TrimStartCuts(text);
      var b := TrimEndCuts(TrimStart(text));
      var trimmed := Trim(text);
      assert text == a + (trimmed + b);
      NothingBetween(a, trimmed, b);
      assert TrimStart(text)[0] == trimmed[0];
      if Trims(text, line) {
        var c, d :| AllSpace(c) && AllSpace(d) && text == c + (line + d);
        TrimStartAfter(c, line + d);
        TrimEndBefore(line, d);
      }
    }
  }
}
