/** One-code-point case folding with its cache (`src/config.js`). The Unicode tables are
    parameters. The cache never changes a result, and texts fold alike where they should. */
module CaseFold {

  /** A Unicode code point; a JavaScript string is read as its code points. */
  type CodePoint = c: int | 0 <= c < 0x11_0000

  type Text = seq<CodePoint>

  /** A folded code point: the string that JavaScript's case mapping returns for it. */
  type Token = Text

  /** The answer of the Unicode-aware, case-insensitive one-character pattern. */
  datatype Equivalence = Equivalent | Different | Rejected

  /** The case tables of the JavaScript engine. `equivalence(c, t)` is the outcome of testing
      `t` against the pattern built from `c`; `Rejected` is the pattern that fails to compile. */
  datatype CaseTables = CaseTables(
    lower: CodePoint -> Token,
    upper: CodePoint -> Text,
    lowerText: Text -> Token,
    equivalence: (CodePoint, Token) -> Equivalence)
  {
    function Candidate(c: CodePoint): Token {
      if |upper(c)| == 1 then lowerText(upper(c)) else lower(c)
    }

    /** The fold of one code point, computed without any cache. */
    function Fold(c: CodePoint): Token {
      if Candidate(c) == lower(c) then lower(c)
      else if equivalence(c, Candidate(c)).Equivalent? then Candidate(c)
      else lower(c)
    }

    function FoldAll(value: Text): (folded: seq<Token>)
      ensures |folded| == |value|
    {
      seq(|value|, i requires 0 <= i < |value| => Fold(value[i]))
    }
  }

  class CaseFolder {
    const tables: CaseTables
    var exceptions: map<CodePoint, Token>

    /** The cache is keyed by the character alone, although a miss is computed from the character
        and a candidate. It is sound because the candidate is itself a function of the character. */
    ghost predicate Valid()
      reads this
    {
      forall c :: c in exceptions ==> tables.Candidate(c) != tables.lower(c) && exceptions[c] == tables.Fold(c)
    }

    constructor (tables: CaseTables)
      ensures Valid() && this.tables == tables && exceptions == map[]
    {
      this.tables := tables;
      exceptions := map[];
    }

    method ExceptionalCaseFold(character: CodePoint, candidate: Token) returns (folded: Token)
      requires Valid()
      requires candidate == tables.Candidate(character) != tables.lower(character)
      modifies this`exceptions
      ensures Valid()
      ensures folded == tables.Fold(character)
      ensures exceptions == old(exceptions)[character := folded]
    {
      if character in exceptions {
        folded := exceptions[character];
        assert exceptions == exceptions[character := folded];
        return;
      }
      folded := tables.lower(character);
      if tables.equivalence(character, candidate) == Equivalent {
        folded := candidate;
      }
      exceptions := exceptions[character := folded];
    }

    method SimpleCaseFold(value: Text) returns (folded: seq<Token>)
      requires Valid()
      modifies this`exceptions
      ensures Valid()
      ensures folded == tables.FoldAll(value)
      ensures MapsAscii(tables) ==> forall i :: 0 <= i < |value| && Ascii(value[i]) ==>
                folded[i] == if UpperLetter(value[i]) then [value[i] + 32] else [value[i]]
      ensures old(exceptions.Keys) <= exceptions.Keys
    {
      folded := [];
      for i := 0 to |value|
        invariant Valid()
        invariant old(exceptions.Keys) <= exceptions.Keys
        invariant |folded| == i
        invariant forall j :: 0 <= j < i ==> folded[j] == tables.Fold(value[j])
      {
        var lower := tables.lower(value[i]);
        var upper := tables.upper(value[i]);
        var candidate := if |upper| == 1 then tables.lowerText(upper) else lower;
        var token := lower;
        if candidate != lower {
          token := ExceptionalCaseFold(value[i], candidate);
        }
        folded := folded + [token];
      }
      AsciiFoldAll(tables, value);
    }
  }

  // ---------------------------------------------------------------------------------------
  // What folding makes equal
  // ---------------------------------------------------------------------------------------

  predicate Ascii(c: CodePoint) {
    c < 0x80
  }

  predicate UpperLetter(c: CodePoint) {
    'A' as int <= c <= 'Z' as int
  }

  predicate LowerLetter(c: CodePoint) {
    'a' as int <= c <= 'z' as int
  }

  /** The two cases of an ASCII letter lie 32 apart. */
  predicate SameLetter(c: CodePoint, d: CodePoint) {
    c == d || (UpperLetter(c) && d == c + 32) || (UpperLetter(d) && c == d + 32)
  }

  ghost predicate MapsLetter(tables: CaseTables, c: CodePoint) {
    && tables.lower(c) == (if UpperLetter(c) then [c + 32] else [c])
    && tables.lowerText([c]) == (if UpperLetter(c) then [c + 32] else [c])
    && tables.upper(c) == (if LowerLetter(c) then [c - 32] else [c])
  }

  /** The engine maps ASCII text as it should. */
  ghost predicate MapsAscii(tables: CaseTables) {
    forall c: CodePoint :: Ascii(c) ==> MapsLetter(tables, c)
  }

  /** Two ASCII characters fold alike if and only if they are one letter in either case. */
  lemma AsciiFolds(tables: CaseTables, c: CodePoint, d: CodePoint)
    requires MapsAscii(tables) && Ascii(c) && Ascii(d)
    ensures tables.Fold(c) == tables.Fold(d) <==> SameLetter(c, d)
  {
    AsciiFold(tables, c);
    AsciiFold(tables, d);
    if tables.Fold(c) == tables.Fold(d) {
      assert tables.Fold(c)[0] == tables.Fold(d)[0];
    }
  }

  lemma AsciiFold(tables: CaseTables, c: CodePoint)
    requires MapsAscii(tables) && Ascii(c)
    ensures tables.Fold(c) == if UpperLetter(c) then [c + 32] else [c]
  {
    var up: CodePoint := if LowerLetter(c) then c - 32 else c;
    assert MapsLetter(tables, c) && MapsLetter(tables, up);
  }

  lemma AsciiFoldAll(tables: CaseTables, value: Text)
    ensures MapsAscii(tables) ==> forall i :: 0 <= i < |value| && Ascii(value[i]) ==>
              tables.FoldAll(value)[i] == if UpperLetter(value[i]) then [value[i] + 32] else [value[i]]
  {
    if MapsAscii(tables) {
      forall i | 0 <= i < |value| && Ascii(value[i])
        ensures tables.FoldAll(value)[i] == if UpperLetter(value[i]) then [value[i] + 32] else [value[i]]
      {
        AsciiFold(tables, value[i]);
      }
    }
  }

  /** Two texts differ at most in the case of ASCII letters. */
  ghost predicate SameLetters(a: Text, b: Text) {
    |a| == |b| && forall i :: 0 <= i < |a| ==> SameLetter(a[i], b[i])
  }

  ghost predicate AsciiText(text: Text) {
    forall i :: 0 <= i < |text| ==> Ascii(text[i])
  }

  /** ASCII texts fold alike if and only if they differ at most in case; other texts do so at least if they differ
      at most in the case of ASCII letters. */
  lemma FoldsAlikeIff(tables: CaseTables, a: Text, b: Text)
    requires MapsAscii(tables)
    ensures SameLetters(a, b) ==> tables.FoldAll(a) == tables.FoldAll(b)
    ensures AsciiText(a) && AsciiText(b) && tables.FoldAll(a) == tables.FoldAll(b) ==> SameLetters(a, b)
  {
    if SameLetters(a, b) {
      forall i | 0 <= i < |a|
        ensures tables.FoldAll(a)[i] == tables.FoldAll(b)[i]
      {
        if a[i] != b[i] {
          AsciiFolds(tables, a[i], b[i]);
        }
      }
    }
    if AsciiText(a) && AsciiText(b) && tables.FoldAll(a) == tables.FoldAll(b) {
      forall i | 0 <= i < |a|
        ensures SameLetter(a[i], b[i])
      {
        assert tables.FoldAll(a)[i] == tables.FoldAll(b)[i];
        AsciiFolds(tables, a[i], b[i]);
      }
    }
  }

  /** The lower case of the one capital of a character stands in for its own lower case exactly where they differ
      and the engine takes them for one character. */
  lemma ExceptionIff(tables: CaseTables, c: CodePoint)
    ensures tables.Fold(c) != tables.lower(c) <==>
              && |tables.upper(c)| == 1 && tables.lowerText(tables.upper(c)) != tables.lower(c)
              && tables.equivalence(c, tables.lowerText(tables.upper(c))) == Equivalent
    ensures tables.Fold(c) != tables.lower(c) ==> tables.Fold(c) == tables.lowerText(tables.upper(c))
  {
  }

  /** The engine takes a character and the lower case of its one capital for one character. */
  ghost predicate OneCapital(tables: CaseTables, c: CodePoint) {
    && |tables.upper(c)| == 1
    && (tables.lowerText(tables.upper(c)) == tables.lower(c)
        || tables.equivalence(c, tables.lowerText(tables.upper(c))) == Equivalent)
  }

  /** So characters with one capital fold alike, as the two small sigmas do. */
  lemma OneCapitalFoldsAlike(tables: CaseTables, c: CodePoint, d: CodePoint)
    requires OneCapital(tables, c) && OneCapital(tables, d) && tables.upper(c) == tables.upper(d)
    ensures tables.Fold(c) == tables.Fold(d)
  {
    ExceptionIff(tables, c);
    ExceptionIff(tables, d);
  }
}
