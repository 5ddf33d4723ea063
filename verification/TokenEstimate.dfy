/** The deterministic token estimator of `src/session/model-token-budget.js`, and the prefix
    search built on it. */
module TokenEstimate {
  import opened WhiteSpace
  import opened Scanner
  import opened Sequences

  // ---------------------------------------------------------------------------------------
  // Characters. Everything below 0x80 is spelled out; the Unicode properties of the rest are a
  // parameter.
  // ---------------------------------------------------------------------------------------

  datatype Traits = Traits(letter: bool, mark: bool, number: bool, lower: bool, upper: bool, cjk: bool)

  type Unicode = char -> Traits

  predicate IsAscii(c: char) {
    c as int < 0x80
  }

  predicate IsLetter(u: Unicode, c: char) {
    if IsAscii(c) then 'a' <= c <= 'z' || 'A' <= c <= 'Z' else u(c).letter && !IsSpace(c)
  }

  predicate IsNumber(u: Unicode, c: char) {
    if IsAscii(c) then '0' <= c <= '9' else u(c).number && !IsSpace(c)
  }

  predicate IsMark(u: Unicode, c: char) {
    !IsAscii(c) && u(c).mark && !IsSpace(c)
  }

  predicate IsLower(u: Unicode, c: char) {
    if IsAscii(c) then 'a' <= c <= 'z' else u(c).lower
  }

  predicate IsUpper(u: Unicode, c: char) {
    if IsAscii(c) then 'A' <= c <= 'Z' else u(c).upper
  }

  predicate IsCjk(u: Unicode, c: char) {
    !IsAscii(c) && u(c).cjk
  }

  predicate IsHex(c: char) {
    '0' <= c <= '9' || 'a' <= c <= 'f' || 'A' <= c <= 'F'
  }

  function ClassOf(u: Unicode, c: char): Class {
    if IsLetter(u, c) || IsMark(u, c) || IsNumber(u, c) || c == '_' then Word
    else if IsSpace(c) then Space
    else Other
  }

  /** UTF-8 length of one character (section 3 of RFC 3629). */
  function CharBytes(c: char): (n: nat)
    ensures 1 <= n <= 4
  {
    var code := c as int;
    if code < 0x80 then 1 else if code < 0x800 then 2 else if code < 0x1_0000 then 3 else 4
  }

  function Bytes(text: string): nat {
    if text == [] then 0 else CharBytes(text[0]) + Bytes(text[1..])
  }

  /** `length` of the JavaScript string. */
  function Units(text: string): nat {
    if text == [] then 0 else (if text[0] as int < 0x1_0000 then 1 else 2) + Units(text[1..])
  }

  // ---------------------------------------------------------------------------------------
  // The estimate
  // ---------------------------------------------------------------------------------------

  predicate OpaqueIdentifier(u: Unicode, word: string) {
    || Units(word) >= 12
    || '_' in word
    || ((exists c :: c in word && IsLetter(u, c)) && (exists c :: c in word && IsNumber(u, c)))
    || ((exists c :: c in word && IsLower(u, c)) && (exists c :: c in word && IsUpper(u, c)))
    || AsciiHex(word)
  }

  predicate AsciiHex(word: string) {
    |word| >= 6 && forall c :: c in word ==> IsHex(c)
  }

  /** Words charged by the byte. */
  predicate Costly(u: Unicode, word: string) {
    (exists c :: c in word && IsCjk(u, c)) || OpaqueIdentifier(u, word)
  }

  function Quarter(bytes: nat): nat {
    if bytes <= 4 then 1 else (bytes + 3) / 4
  }

  /** The charge of one lexical unit: white space, a word, or a single symbol. */
  function Charge(u: Unicode, unit: string): nat {
    if unit == [] then 0
    else match ClassOf(u, unit[0])
      case Space => Quarter(Bytes(unit))
      case Word => if Costly(u, unit) then Bytes(unit) else Quarter(Bytes(unit))
      case Other => Bytes(unit)
  }

  function Lex(u: Unicode): Lexicon {
    Lexicon((c: char) => ClassOf(u, c), (unit: string) => Charge(u, unit))
  }

  function Estimate(u: Unicode, text: string): nat {
    Total(Lex(u), text)
  }

  /** The loop over the matches of the unit pattern. */
  method EstimateModelVisibleTokens(u: Unicode, text: string) returns (total: nat)
    ensures total == Estimate(u, text)
  {
    total := 0;
    var rest := text;
    while rest != []
      invariant total + Estimate(u, rest) == Estimate(u, text)
      decreases |rest|
    {
      var n := UnitLength(Lex(u), rest);
      total := total + Charge(u, rest[..n]);
      rest := rest[n..];
    }
  }

  // ---------------------------------------------------------------------------------------
  // What a unit costs
  // ---------------------------------------------------------------------------------------

  /** Words of which byte length divided by four says too little: those with a character of Chinese, Japanese or
      Korean script, long ones, and those that look like identifiers, mixed of letters and digits or of both
      cases, joined by underscores, or hexadecimal. */
  ghost predicate ByTheByte(u: Unicode, word: string) {
    || (exists i :: 0 <= i < |word| && word[i] as int >= 0x80 && u(word[i]).cjk)
    || Units(word) >= 12
    || (exists i :: 0 <= i < |word| && word[i] == '_')
    || (exists i, j :: 0 <= i < |word| && 0 <= j < |word| && IsLetter(u, word[i]) && IsNumber(u, word[j]))
    || (exists i, j :: 0 <= i < |word| && 0 <= j < |word| && IsLower(u, word[i]) && IsUpper(u, word[j]))
    || (|word| >= 6 && forall i :: 0 <= i < |word| ==> IsHex(word[i]))
  }

  lemma MixedIff(u: Unicode, word: string)
    ensures (exists c :: c in word && IsLetter(u, c)) && (exists c :: c in word && IsNumber(u, c)) <==>
              exists i, j :: 0 <= i < |word| && 0 <= j < |word| && IsLetter(u, word[i]) && IsNumber(u, word[j])
    ensures (exists c :: c in word && IsLower(u, c)) && (exists c :: c in word && IsUpper(u, c)) <==>
              exists i, j :: 0 <= i < |word| && 0 <= j < |word| && IsLower(u, word[i]) && IsUpper(u, word[j])
  {
  }

  lemma CjkIff(u: Unicode, word: string)
    ensures (exists c :: c in word && IsCjk(u, c)) <==> exists i :: 0 <= i < |word| && word[i] as int >= 0x80 && u(word[i]).cjk
  {
    if c :| c in word && IsCjk(u, c) {
      var i :| 0 <= i < |word| && word[i] == c;
      assert word[i] as int >= 0x80 && u(word[i]).cjk;
    }
    if i :| 0 <= i < |word| && word[i] as int >= 0x80 && u(word[i]).cjk {
      assert word[i] in word && IsCjk(u, word[i]);
    }
  }

  lemma HexIff(word: string)
    ensures AsciiHex(word) <==> |word| >= 6 && forall i :: 0 <= i < |word| ==> IsHex(word[i])
    ensures '_' in word <==> exists i :: 0 <= i < |word| && word[i] == '_'
  {
  }

  lemma CostlyIff(u: Unicode, word: string)
    ensures Costly(u, word) <==> ByTheByte(u, word)
  {
    CjkIff(u, word);
    MixedIff(u, word);
    HexIff(word);
  }

  /** A quarter of the bytes, rounded up. */
  ghost predicate RoundedQuarter(bytes: nat, cost: nat) {
    bytes > 0 ==> 4 * (cost - 1) < bytes <= 4 * cost
  }

  lemma QuarterRounds(bytes: nat)
    ensures RoundedQuarter(bytes, Quarter(bytes))
  {
  }

  /** The cost of one unit: a symbol costs its bytes, white space a quarter of its bytes, and a word either all its
      bytes or a quarter of them. */
  ghost predicate UnitCost(u: Unicode, unit: string, cost: nat)
    requires unit != []
  {
    match ClassOf(u, unit[0])
    case Other => |unit| == 1 && cost == CharBytes(unit[0])
    case Space => RoundedQuarter(Bytes(unit), cost)
    case Word => if ByTheByte(u, unit) then cost == Bytes(unit) else RoundedQuarter(Bytes(unit), cost)
  }

  lemma ChargeIsUnitCost(u: Unicode, unit: string)
    requires IsUnit(Lex(u), unit)
    ensures UnitCost(u, unit, Charge(u, unit))
  {
    CostlyIff(u, unit);
    QuarterRounds(Bytes(unit));
    assert Lex(u).classOf(unit[0]) == ClassOf(u, unit[0]);
    assert Bytes(unit) == CharBytes(unit[0]) + Bytes(unit[1..]);
  }

  /** Each unit of a text adds its own cost. */
  lemma UnitCosts(u: Unicode, front: string, unit: string, rest: string)
    requires IsUnit(Lex(u), unit)
    requires front != [] ==> !Joined(Lex(u), front[|front| - 1], unit[0])
    requires rest != [] ==> !Joined(Lex(u), unit[0], rest[0])
    ensures Estimate(u, front + unit + rest) == Estimate(u, front) + Estimate(u, unit) + Estimate(u, rest)
    ensures UnitCost(u, unit, Estimate(u, unit))
  {
    TotalAround(Lex(u), front, unit, rest);
    SingleUnit(Lex(u), unit);
    ChargeIsUnitCost(u, unit);
  }

  // ---------------------------------------------------------------------------------------
  // Concatenation
  // ---------------------------------------------------------------------------------------

  lemma {:induction false} BytesConcat(a: string, b: string)
    ensures Bytes(a + b) == Bytes(a) + Bytes(b)
  {
    if a == [] {
      Nothing(b);
    } else {
      assert (a + b)[1..] == a[1..] + b;
      BytesConcat(a[1..], b);
    }
  }

  lemma {:induction false} UnitsConcat(a: string, b: string)
    ensures Units(a + b) == Units(a) + Units(b)
  {
    if a == [] {
      Nothing(b);
    } else {
      assert (a + b)[1..] == a[1..] + b;
      UnitsConcat(a[1..], b);
    }
  }

  /** Growing white space in the middle: the charge follows the bytes. */
  lemma SpaceCharge(u: Unicode, a: string, b: string)
    requires a + b != [] && ClassOf(u, (a + b)[0]) == Space
    ensures Charge(u, a + b) == Quarter(Bytes(a) + Bytes(b))
  {
    BytesConcat(a, b);
  }

  lemma SpaceInserted(u: Unicode, a: string, c: char, b: string)
    requires a + b != [] && ClassOf(u, (a + b)[0]) == Space && ClassOf(u, c) == Space
    ensures Charge(u, a + b) <= Charge(u, a + [c] + b)
  {
    SpaceCharge(u, a, b);
    assert (a + [c] + b)[0] == if a == [] then c else (a + b)[0];
    SpaceCharge(u, a + [c], b);
    BytesConcat(a, [c]);
  }

  lemma SpaceLaws(u: Unicode)
    ensures SpaceFuses(Lex(u)) && SpaceGrows(Lex(u))
  {
    var lex := Lex(u);
    forall a, b | IsUnit(lex, a) && IsUnit(lex, b) && lex.classOf(a[0]) == lex.classOf(b[0]) == Space
      ensures lex.charge(a + b) <= lex.charge(a) + lex.charge(b)
    {
      SpaceCharge(u, a, b);
    }
    forall a, b, c | IsUnit(lex, a + b) && lex.classOf(c) == lex.classOf((a + b)[0]) == Space
      ensures lex.charge(a + b) <= lex.charge(a + [c] + b)
    {
      SpaceInserted(u, a, c, b);
    }
  }

  /** A cut is exact where it does not run through a word or through white space. */
  lemma EstimateSplits(u: Unicode, a: string, b: string)
    requires a == [] || b == [] || ClassOf(u, a[|a| - 1]) != ClassOf(u, b[0]) || ClassOf(u, b[0]) == Other
    ensures Estimate(u, a + b) == Estimate(u, a) + Estimate(u, b)
  {
    TotalSplits(Lex(u), a, b);
  }

  /** Concatenation costs no more than its parts, unless it fuses two words. */
  lemma EstimateSubadditive(u: Unicode, a: string, b: string)
    requires a == [] || b == [] || ClassOf(u, a[|a| - 1]) != Word || ClassOf(u, b[0]) != Word
    ensures Estimate(u, a + b) <= Estimate(u, a) + Estimate(u, b)
  {
    SpaceLaws(u);
    TotalSubadditive(Lex(u), a, b);
  }

  /** Two words that meet are charged by the byte once they are one, and at least one of them was not
      before. */
  ghost predicate Fuses(u: Unicode, a: string, b: string) {
    && a != [] && b != []
    && ClassOf(u, a[|a| - 1]) == ClassOf(u, b[0]) == Word
    && var left, right := a[LastUnit(Lex(u), a)..], b[..UnitLength(Lex(u), b)];
       && Costly(u, left + right)
       && (Charge(u, left) < Bytes(left) || Charge(u, right) < Bytes(right))
  }

  lemma WordBytes(u: Unicode, word: string)
    requires word != [] && ClassOf(u, word[0]) == Word
    ensures Bytes(word) >= 1 && Charge(u, word) <= Bytes(word)
    ensures Charge(u, word) == Bytes(word) || Charge(u, word) == Quarter(Bytes(word))
    ensures Quarter(Bytes(word)) <= Charge(u, word)
  {
  }

  lemma QuarterSubadditive(a: nat, b: nat)
    ensures Quarter(a + b) <= Quarter(a) + Quarter(b)
  {
  }

  lemma FusedCharge(u: Unicode, left: string, right: string)
    requires left != [] && right != [] && ClassOf(u, left[0]) == ClassOf(u, right[0]) == Word
    ensures Charge(u, left + right) > Charge(u, left) + Charge(u, right)
       <==> Costly(u, left + right) && (Charge(u, left) < Bytes(left) || Charge(u, right) < Bytes(right))
  {
    BytesConcat(left, right);
    WordBytes(u, left);
    WordBytes(u, right);
    QuarterSubadditive(Bytes(left), Bytes(right));
    assert (left + right)[0] == left[0];
  }

  /** Concatenation costs more than its parts exactly when it fuses two words that way. */
  lemma EstimateSubadditiveIff(u: Unicode, a: string, b: string)
    ensures Estimate(u, a + b) <= Estimate(u, a) + Estimate(u, b) <==> !Fuses(u, a, b)
  {
    if a != [] && b != [] && ClassOf(u, a[|a| - 1]) == ClassOf(u, b[0]) == Word {
      var k, n := LastUnit(Lex(u), a), UnitLength(Lex(u), b);
      TotalFused(Lex(u), a, b, k, n);
      LastUnitTotal(Lex(u), a);
      FusedCharge(u, a[k..], b[..n]);
    } else {
      EstimateSubadditive(u, a, b);
    }
  }

  lemma DotEstimate(u: Unicode)
    ensures ClassOf(u, '.') == Other && Estimate(u, ['.']) == 1
  {
    EstimateSplits(u, [], ['.']);
  }

  /** The charge of a text that is one word. */
  lemma WordEstimate(u: Unicode, word: string)
    requires word != []
    requires forall i :: 0 <= i < |word| ==> ClassOf(u, word[i]) == Word
    ensures Estimate(u, word) == Charge(u, word) == if Costly(u, word) then Bytes(word) else Quarter(Bytes(word))
  {
    SingleUnit(Lex(u), word);
  }

  lemma {:induction false} AsciiLength(text: string)
    requires forall i :: 0 <= i < |text| ==> IsAscii(text[i])
    ensures Bytes(text) == Units(text) == |text|
  {
    if text != [] {
      AsciiLength(text[1..]);
    }
  }

  /** A short word of lower-case ASCII letters only. */
  lemma NaturalWord(u: Unicode, word: string)
    requires 0 < |word| < 12
    requires forall i :: 0 <= i < |word| ==> 'a' <= word[i] <= 'z'
    requires !AsciiHex(word)
    ensures Estimate(u, word) == Quarter(|word|)
  {
    WordEstimate(u, word);
    AsciiLength(word);
  }

  /** A short ASCII number. */
  lemma NaturalNumber(u: Unicode, word: string)
    requires 0 < |word| < 6
    requires forall i :: 0 <= i < |word| ==> '0' <= word[i] <= '9'
    ensures Estimate(u, word) == Quarter(|word|)
  {
    WordEstimate(u, word);
    AsciiLength(word);
  }

  lemma MixedWord(u: Unicode, letters: string, digits: string)
    requires letters != [] && digits != []
    requires forall i :: 0 <= i < |letters| ==> 'a' <= letters[i] <= 'z'
    requires forall i :: 0 <= i < |digits| ==> '0' <= digits[i] <= '9'
    ensures Estimate(u, letters + digits) == |letters| + |digits|
  {
    var word := letters + digits;
    WordEstimate(u, word);
    AsciiLength(word);
    assert letters[0] in word && IsLetter(u, letters[0]);
    assert digits[0] in word && IsNumber(u, digits[0]);
  }

  lemma PageLiterals() returns (word: string, number: string)
    ensures word == "page" && |word| == 4 && forall i :: 0 <= i < |word| ==> 'a' <= word[i] <= 'z'
    ensures number == "2048" && |number| == 4 && forall i :: 0 <= i < |number| ==> '0' <= number[i] <= '9'
  {
    word, number := "page", "2048";
  }

  /** Fusing two words can cost far more than the words: the general claim is false. */
  lemma EstimateNotSubadditive(u: Unicode) returns (word: string, number: string)
    ensures Estimate(u, word) + Estimate(u, number) == 2
    ensures Estimate(u, word + number) == 8
    ensures word == "page" && number == "2048"
  {
    word, number := PageLiterals();
    NaturalWord(u, word);
    NaturalNumber(u, number);
    MixedWord(u, word, number);
  }

  // ---------------------------------------------------------------------------------------
  // Prefixes
  // ---------------------------------------------------------------------------------------

  /** At `i`, a word that so far is a bare hexadecimal identifier goes on as a natural word. */
  ghost predicate HexStemEnds(u: Unicode, text: string, i: nat)
    requires i < |text|
  {
    && i > 0
    && Joined(Lex(u), text[i - 1], text[i])
    && Lex(u).classOf(text[i]) == Word
    && var word := text[..i][LastUnit(Lex(u), text[..i])..];
       AsciiHex(word) && !Costly(u, word + [text[i]])
  }

  lemma {:induction false} HexBytes(word: string)
    requires forall c :: c in word ==> IsHex(c)
    ensures Bytes(word) == |word|
  {
    if word != [] {
      assert word[0] in word;
      HexBytes(word[1..]);
    }
  }

  /** Growing a word lowers its charge exactly when it stops being a bare hexadecimal one. */
  lemma WordDrops(u: Unicode, word: string, c: char)
    requires word != [] && ClassOf(u, word[0]) == Word
    ensures Charge(u, word + [c]) < Charge(u, word) <==> AsciiHex(word) && !Costly(u, word + [c])
  {
    var grown := word + [c];
    BytesConcat(word, [c]);
    UnitsConcat(word, [c]);
    assert Bytes([c]) == CharBytes(c) + Bytes([]);
    assert grown[0] == word[0];
    assert forall d :: d in word ==> d in grown;
    if AsciiHex(word) {
      HexBytes(word);
    }
  }

  lemma GrownUnitDrops(u: Unicode, prefix: string, c: char)
    requires prefix != [] && Joined(Lex(u), prefix[|prefix| - 1], c)
    ensures var unit := prefix[LastUnit(Lex(u), prefix)..];
            Drops(Lex(u), prefix, c) <==> Lex(u).classOf(c) == Word && AsciiHex(unit) && !Costly(u, unit + [c])
  {
    var unit := prefix[LastUnit(Lex(u), prefix)..];
    assert unit[|unit| - 1] == prefix[|prefix| - 1];
    LastUnitDrops(u, unit, c);
  }

  /** Exactly there, the last unit of the prefix gets cheaper as it grows. */
  lemma DropsIsHexStem(u: Unicode, text: string, i: nat)
    requires i < |text|
    ensures Drops(Lex(u), text[..i], text[i]) <==> HexStemEnds(u, text, i)
  {
    if i > 0 && Joined(Lex(u), text[i - 1], text[i]) {
      GrownUnitDrops(u, text[..i], text[i]);
    }
  }

  /** And so does the prefix. */
  lemma PrefixDropsAt(u: Unicode, text: string, i: nat)
    requires i < |text|
    ensures Estimate(u, text[..i + 1]) < Estimate(u, text[..i]) <==> HexStemEnds(u, text, i)
  {
    Grown(text, i);
    GrowthStep(Lex(u), text[..i], text[i]);
    DropsIsHexStem(u, text, i);
  }

  lemma LastUnitDrops(u: Unicode, unit: string, c: char)
    requires IsUnit(Lex(u), unit) && Joined(Lex(u), unit[|unit| - 1], c)
    ensures Charge(u, unit + [c]) < Charge(u, unit)
       <==> Lex(u).classOf(c) == Word && AsciiHex(unit) && !Costly(u, unit + [c])
  {
    assert Lex(u).classOf(unit[0]) == Lex(u).classOf(unit[|unit| - 1]);
    if ClassOf(u, c) == Word {
      WordDrops(u, unit, c);
    } else {
      SpaceCharge(u, unit, [c]);
    }
  }

  /** No word of the text outgrows a hexadecimal stem of six or more digits. */
  ghost predicate NoHexStem(u: Unicode, text: string) {
    forall i: nat :: i < |text| ==> !HexStemEnds(u, text, i)
  }

  ghost predicate PrefixesGrow(u: Unicode, text: string, suffix: string) {
    forall i: nat, j: nat :: i <= j <= |text| ==> Estimate(u, text[..i] + suffix) <= Estimate(u, text[..j] + suffix)
  }

  /** Prefixes get dearer as they grow exactly when no word outgrows a hexadecimal stem. */
  lemma PrefixesGrowIff(u: Unicode, text: string)
    ensures PrefixesGrow(u, text, []) <==> NoHexStem(u, text)
  {
    if NoHexStem(u, text) {
      StemsGrow(u, text, []);
    }
    forall i: nat | i < |text| && HexStemEnds(u, text, i)
      ensures !PrefixesGrow(u, text, [])
    {
      PrefixDropsAt(u, text, i);
      assert text[..i] + [] == text[..i] && text[..i + 1] + [] == text[..i + 1];
    }
  }

  /** Cost of the first `n` characters in front of a fixed suffix. */
  ghost function PrefixCost(u: Unicode, text: string, suffix: string): int -> int {
    (n: int) => if 0 <= n <= |text| then Estimate(u, text[..n] + suffix) else 0
  }

  lemma {:induction false} StepsRise(cost: int -> int, i: int, j: int)
    requires i <= j
    requires forall k :: i <= k < j ==> cost(k) <= cost(k + 1)
    ensures cost(i) <= cost(j)
    decreases j - i
  {
    if i < j {
      StepsRise(cost, i, j - 1);
      assert cost(j - 1) <= cost(j - 1 + 1);
    }
  }

  /** The same holds in front of any suffix that does not start inside a word. */
  lemma StemsGrow(u: Unicode, text: string, suffix: string)
    requires NoHexStem(u, text)
    requires suffix == [] || ClassOf(u, suffix[0]) != Word
    ensures PrefixesGrow(u, text, suffix)
  {
    var cost := PrefixCost(u, text, suffix);
    forall i | 0 <= i < |text|
      ensures cost(i) <= cost(i + 1)
    {
      StemsGrowStep(u, text, suffix, i);
    }
    forall i: nat, j: nat | i <= j <= |text|
      ensures Estimate(u, text[..i] + suffix) <= Estimate(u, text[..j] + suffix)
    {
      StepsRise(cost, i, j);
    }
  }

  lemma StemsGrowStep(u: Unicode, text: string, suffix: string, i: nat)
    requires i < |text| && !HexStemEnds(u, text, i)
    requires suffix == [] || ClassOf(u, suffix[0]) != Word
    ensures Estimate(u, text[..i] + suffix) <= Estimate(u, text[..i + 1] + suffix)
  {
    DropsIsHexStem(u, text, i);
    GrowthInContext(u, text[..i], text[i], suffix);
    Grown(text, i);
  }

  lemma GrowthInContext(u: Unicode, prefix: string, c: char, suffix: string)
    requires !Drops(Lex(u), prefix, c)
    requires suffix == [] || Lex(u).classOf(suffix[0]) != Word
    ensures Estimate(u, prefix + suffix) <= Estimate(u, prefix + [c] + suffix)
  {
    SpaceLaws(u);
    GrowthBeforeSuffix(Lex(u), prefix, c, suffix);
  }

  /** `decade` is six hexadecimal digits and costs six; `decades` is a natural word and costs two. */
  lemma PrefixCanDrop(u: Unicode) returns (hex: string, natural: string)
    ensures hex == "decade" && natural == "decades" && hex <= natural
    ensures Estimate(u, hex) == 6 && Estimate(u, natural) == 2
  {
    hex, natural := StemLiterals();
    HexWord(u, hex);
    NaturalWord(u, natural);
  }

  lemma StemLiterals() returns (hex: string, natural: string)
    ensures hex == "decade" && natural == "decades" && hex <= natural
    ensures |natural| == 7 && forall i :: 0 <= i < |natural| ==> 'a' <= natural[i] <= 'z'
    ensures AsciiHex(hex) && |hex| == 6 && !AsciiHex(natural)
  {
    hex, natural := "decade", "decades";
    NotHex(natural, 6);
  }

  lemma NotHex(word: string, i: nat)
    requires i < |word| && !IsHex(word[i])
    ensures !AsciiHex(word)
  {
    assert word[i] in word;
  }

  lemma HexWord(u: Unicode, word: string)
    requires AsciiHex(word)
    ensures Estimate(u, word) == |word|
  {
    assert forall i :: 0 <= i < |word| ==> word[i] in word;
    WordEstimate(u, word);
    HexBytes(word);
  }

  // ---------------------------------------------------------------------------------------
  // Binary search for a prefix
  // ---------------------------------------------------------------------------------------

  /** The search both prefix fitters run: probe the middle, go right after a fit, left otherwise. */
  function Bisect(fits: int -> bool, low: int, high: int, best: int): int
    decreases high - low + 1
  {
    if low > high then best
    else
      var middle := (low + high) / 2;
      if fits(middle) then Bisect(fits, middle + 1, high, middle) else Bisect(fits, low, middle - 1, best)
  }

  /** Whatever the costs are, the answer fits, unless nothing that was probed did. */
  lemma {:induction false} BisectFits(fits: int -> bool, low: int, high: int, best: int)
    ensures var r := Bisect(fits, low, high, best);
            r == best || (low <= r <= high && fits(r))
    decreases high - low + 1
  {
    if low <= high {
      var middle := (low + high) / 2;
      if fits(middle) {
        BisectFits(fits, middle + 1, high, middle);
      } else {
        BisectFits(fits, low, middle - 1, best);
      }
    }
  }

  /** If everything shorter than a fit fits too, nothing longer than the answer does. */
  lemma {:induction false} BisectLongest(fits: int -> bool, low: int, high: int, best: int)
    requires best < low
    requires forall i, j :: low <= i <= j <= high && fits(j) ==> fits(i)
    ensures forall k :: Bisect(fits, low, high, best) < k && low <= k <= high ==> !fits(k)
    decreases high - low + 1
  {
    if low <= high {
      var middle := (low + high) / 2;
      if fits(middle) {
        BisectFits(fits, middle + 1, high, middle);
        BisectLongest(fits, middle + 1, high, middle);
      } else {
        BisectLongest(fits, low, middle - 1, best);
      }
    }
  }

  function PrefixFits(u: Unicode, text: string, maxTokens: nat, suffix: string): int -> bool {
    (n: int) => 0 <= n <= |text| && Estimate(u, text[..n] + suffix) <= maxTokens
  }

  /** `modelVisiblePrefix` for a non-negative budget. */
  function VisiblePrefix(u: Unicode, text: string, maxTokens: nat, suffix: string): (prefix: string)
  {
    if Estimate(u, suffix) > maxTokens then []
    else
      var n := Bisect(PrefixFits(u, text, maxTokens, suffix), 0, |text|, 0);
      BisectFits(PrefixFits(u, text, maxTokens, suffix), 0, |text|, 0);
      text[..n]
  }

  /** A budget that holds the suffix holds the prefix together with it, for every text. */
  lemma VisiblePrefixFits(u: Unicode, text: string, maxTokens: nat, suffix: string)
    requires Estimate(u, suffix) <= maxTokens
    ensures Estimate(u, VisiblePrefix(u, text, maxTokens, suffix) + suffix) <= maxTokens
    ensures VisiblePrefix(u, text, maxTokens, suffix) <= text
  {
    BisectFits(PrefixFits(u, text, maxTokens, suffix), 0, |text|, 0);
    assert text[..0] + suffix == suffix;
  }

  /** No longer prefix fits in front of the suffix. */
  ghost predicate Longest(u: Unicode, text: string, maxTokens: nat, suffix: string) {
    forall n: nat :: |VisiblePrefix(u, text, maxTokens, suffix)| < n <= |text| ==> Estimate(u, text[..n] + suffix) > maxTokens
  }

  /** "Longest prefix" holds for a text without a hexadecimal stem. */
  lemma VisiblePrefixLongest(u: Unicode, text: string, maxTokens: nat, suffix: string)
    requires NoHexStem(u, text)
    requires suffix == [] || ClassOf(u, suffix[0]) != Word
    ensures Longest(u, text, maxTokens, suffix)
  {
    StemsGrow(u, text, suffix);
    var fits := PrefixFits(u, text, maxTokens, suffix);
    if Estimate(u, suffix) <= maxTokens {
      assert text[..0] + suffix == suffix;
      BisectFits(fits, 0, |text|, 0);
      forall i, j | 1 <= i <= j <= |text| && fits(j)
        ensures fits(i)
      {
      }
      BisectLongestFromZero(fits, |text|);
      forall n: nat | |VisiblePrefix(u, text, maxTokens, suffix)| < n <= |text|
        ensures Estimate(u, text[..n] + suffix) > maxTokens
      {
        assert !fits(n);
      }
    } else {
      forall n: nat | 0 < n <= |text|
        ensures Estimate(u, text[..n] + suffix) > maxTokens
      {
        assert text[..0] + suffix == suffix;
        assert Estimate(u, text[..0] + suffix) <= Estimate(u, text[..n] + suffix);
      }
    }
  }

  lemma BisectLongestFromZero(fits: int -> bool, n: nat)
    requires fits(0)
    requires forall i, j :: 1 <= i <= j <= n && fits(j) ==> fits(i)
    ensures forall k :: Bisect(fits, 0, n, 0) < k <= n ==> !fits(k)
  {
    BisectFits(fits, 0, n, 0);
    BisectLongest(fits, 0, n, -1);
    BisectSeed(fits, 0, n, 0, -1);
  }

  /** The initial best is only returned when nothing fitted. */
  lemma {:induction false} BisectSeed(fits: int -> bool, low: int, high: int, a: int, b: int)
    ensures Bisect(fits, low, high, a) == Bisect(fits, low, high, b)
         || (Bisect(fits, low, high, a) == a && Bisect(fits, low, high, b) == b)
    decreases high - low + 1
  {
    if low <= high {
      var middle := (low + high) / 2;
      if !fits(middle) {
        BisectSeed(fits, low, middle - 1, a, b);
      }
    }
  }

  /** What comes right behind the answer does not fit. */
  lemma {:induction false} BisectStops(fits: int -> bool, low: int, high: int)
    requires low <= high + 1
    ensures var r := Bisect(fits, low, high, low - 1);
            low - 1 <= r <= high && (r < high ==> !fits(r + 1))
    decreases high - low + 1
  {
    if low <= high {
      var middle := (low + high) / 2;
      if fits(middle) {
        BisectStops(fits, middle + 1, high);
      } else {
        BisectStops(fits, low, middle - 1);
      }
    }
  }

  lemma BisectStopsFromZero(fits: int -> bool, n: nat)
    requires fits(0)
    ensures var r := Bisect(fits, 0, n, 0); 0 <= r <= n && fits(r) && (r < n ==> !fits(r + 1))
  {
    BisectStops(fits, 0, n);
    BisectFits(fits, 0, n, 0);
    BisectSeed(fits, 0, n, 0, -1);
  }

  /** `prefix` is what is kept of a text in front of a suffix: it fits, one more character would not, and no longer
      beginning does if the prefixes of the text only get dearer. */
  ghost predicate KeptBefore(u: Unicode, text: string, maxTokens: nat, suffix: string, prefix: string) {
    && prefix <= text && Estimate(u, prefix + suffix) <= maxTokens
    && (|prefix| < |text| ==> Estimate(u, text[..|prefix| + 1] + suffix) > maxTokens)
    && (NoHexStem(u, text) && (suffix == [] || ClassOf(u, suffix[0]) != Word) ==>
          forall n: nat :: |prefix| < n <= |text| ==> Estimate(u, text[..n] + suffix) > maxTokens)
  }

  lemma VisiblePrefixKept(u: Unicode, text: string, maxTokens: nat, suffix: string)
    requires Estimate(u, suffix) <= maxTokens
    ensures KeptBefore(u, text, maxTokens, suffix, VisiblePrefix(u, text, maxTokens, suffix))
  {
    assert text[..0] + suffix == suffix;
    BisectStopsFromZero(PrefixFits(u, text, maxTokens, suffix), |text|);
    if NoHexStem(u, text) && (suffix == [] || ClassOf(u, suffix[0]) != Word) {
      VisiblePrefixLongest(u, text, maxTokens, suffix);
    }
  }

  /** The last position is probed only after its predecessor fitted. */
  lemma {:induction false} BisectMisses(fits: int -> bool, low: int, high: int, best: int)
    requires low < high && best < high && !fits(high - 1)
    ensures Bisect(fits, low, high, best) != high
    decreases high - low + 1
  {
    var middle := (low + high) / 2;
    if fits(middle) {
      BisectMisses(fits, middle + 1, high, middle);
    } else {
      BisectFits(fits, low, middle - 1, best);
    }
  }

  lemma StemsOfPrefix(u: Unicode, text: string, prefix: string, i: nat)
    requires prefix <= text && i < |prefix|
    ensures HexStemEnds(u, prefix, i) <==> HexStemEnds(u, text, i)
  {
    assert prefix[..i] == text[..i];
    assert prefix[i] == text[i] && (i > 0 ==> prefix[i - 1] == text[i - 1]);
  }

  lemma NoStemInPrefix(u: Unicode, text: string, prefix: string)
    requires prefix <= text && NoHexStem(u, text)
    ensures NoHexStem(u, prefix)
  {
    forall i: nat | i < |prefix|
      ensures !HexStemEnds(u, prefix, i)
    {
      StemsOfPrefix(u, text, prefix, i);
    }
  }

  lemma GrownPrefixDrops(u: Unicode, text: string, prefix: string, grown: string)
    requires prefix <= text && grown <= text && |grown| == |prefix| + 1
    requires HexStemEnds(u, text, |prefix|)
    ensures Estimate(u, grown) < Estimate(u, prefix)
  {
    PrefixDropsAt(u, text, |prefix|);
    assert text[..|prefix|] == prefix && text[..|prefix| + 1] == grown;
  }

  /** What stands in front of a suffix that does not start inside a word costs what it costs alone. */
  lemma WordBeforeSuffix(u: Unicode, text: string, suffix: string)
    requires text != [] && ClassOf(u, text[|text| - 1]) == Word
    requires suffix == [] || ClassOf(u, suffix[0]) != Word
    ensures Estimate(u, text + suffix) == Estimate(u, text) + Estimate(u, suffix)
  {
    EstimateSplits(u, text, suffix);
  }

  lemma StemCosts(u: Unicode, text: string, i: nat, suffix: string)
    requires i < |text| && HexStemEnds(u, text, i)
    requires suffix == [] || ClassOf(u, suffix[0]) != Word
    ensures Estimate(u, text[..i + 1] + suffix) < Estimate(u, text[..i] + suffix)
  {
    PrefixDropsAt(u, text, i);
    StemIsWord(u, text, i);
    BothBeforeSuffix(u, text[..i], text[..i + 1], suffix);
  }

  lemma BothBeforeSuffix(u: Unicode, a: string, b: string, suffix: string)
    requires a != [] && ClassOf(u, a[|a| - 1]) == Word && b != [] && ClassOf(u, b[|b| - 1]) == Word
    requires suffix == [] || ClassOf(u, suffix[0]) != Word
    ensures Estimate(u, a + suffix) - Estimate(u, b + suffix) == Estimate(u, a) - Estimate(u, b)
  {
    WordBeforeSuffix(u, a, suffix);
    WordBeforeSuffix(u, b, suffix);
  }

  lemma StemIsWord(u: Unicode, text: string, i: nat)
    requires i < |text| && HexStemEnds(u, text, i)
    ensures i > 0 && ClassOf(u, text[..i][|text[..i]| - 1]) == Word
    ensures ClassOf(u, text[..i + 1][|text[..i + 1]| - 1]) == Word
  {
  }

  /** A search whose last position alone fits does not find it. */
  lemma LastMissed(fits: int -> bool, n: nat)
    requires n > 0 && !fits(n - 1)
    ensures Bisect(fits, 0, n, 0) < n
  {
    BisectMisses(fits, 0, n, 0);
    BisectFits(fits, 0, n, 0);
  }

  lemma PrefixLength(u: Unicode, text: string, maxTokens: nat, suffix: string)
    ensures |VisiblePrefix(u, text, maxTokens, suffix)|
         == if Estimate(u, suffix) > maxTokens then 0 else Bisect(PrefixFits(u, text, maxTokens, suffix), 0, |text|, 0)
  {
    BisectFits(PrefixFits(u, text, maxTokens, suffix), 0, |text|, 0);
  }

  lemma LastUnprobed(u: Unicode, text: string, maxTokens: nat, suffix: string)
    requires text != [] && !PrefixFits(u, text, maxTokens, suffix)(|text| - 1)
    ensures |VisiblePrefix(u, text, maxTokens, suffix)| < |text|
  {
    PrefixLength(u, text, maxTokens, suffix);
    LastMissed(PrefixFits(u, text, maxTokens, suffix), |text|);
  }

  /** A stem defeats the search: with the budget of the text that outgrows it, the probe at the stem fails
      and the text is never tried. */
  lemma StemDefeats(u: Unicode, text: string, suffix: string)
    requires text != [] && HexStemEnds(u, text, |text| - 1)
    requires suffix == [] || ClassOf(u, suffix[0]) != Word
    ensures !Longest(u, text, Estimate(u, text + suffix), suffix)
  {
    StemCosts(u, text, |text| - 1, suffix);
    All(text);
    LastUnprobed(u, text, Estimate(u, text + suffix), suffix);
  }

  /** The search finds the longest prefix, for every beginning of the text and every budget, if and only if no
      word of the text outgrows a hexadecimal stem. */
  lemma VisiblePrefixLongestIff(u: Unicode, text: string, suffix: string)
    requires suffix == [] || ClassOf(u, suffix[0]) != Word
    ensures NoHexStem(u, text) <==>
              forall n: nat, maxTokens: nat :: n <= |text| ==> Longest(u, text[..n], maxTokens, suffix)
  {
    if NoHexStem(u, text) {
      forall n: nat, maxTokens: nat | n <= |text|
        ensures Longest(u, text[..n], maxTokens, suffix)
      {
        NoStemInPrefix(u, text, text[..n]);
        VisiblePrefixLongest(u, text[..n], maxTokens, suffix);
      }
    } else {
      var i: nat :| i < |text| && HexStemEnds(u, text, i);
      StemsOfPrefix(u, text, text[..i + 1], i);
      StemDefeats(u, text[..i + 1], suffix);
    }
  }

  /** The loop of both prefix fitters. */
  method BisectLoop(fits: int -> bool, length: nat) returns (best: int)
    ensures best == Bisect(fits, 0, length, 0)
  {
    var low, high := 0, length as int;
    best := 0;
    while low <= high
      invariant Bisect(fits, low, high, best) == Bisect(fits, 0, length, 0)
      decreases high - low + 1
    {
      var midpoint := (low + high) / 2;
      if fits(midpoint) {
        best := midpoint;
        low := midpoint + 1;
      } else {
        high := midpoint - 1;
      }
    }
  }

  method ModelVisiblePrefix(u: Unicode, text: string, maxTokens: nat, suffix: string) returns (best: string)
    ensures best == VisiblePrefix(u, text, maxTokens, suffix)
  {
    var suffixTokens := EstimateModelVisibleTokens(u, suffix);
    if suffixTokens > maxTokens {
      return [];
    }
    BisectFits(PrefixFits(u, text, maxTokens, suffix), 0, |text|, 0);
    var n := BisectLoop(PrefixFits(u, text, maxTokens, suffix), |text|);
    return text[..n];
  }

  /** The search is not longest in general: `decades` fits a budget of two, but the probe at
      `decade` fails and the search settles for `decad`. */
  lemma VisiblePrefixNotLongest(u: Unicode) returns (text: string)
    ensures text == "decades"
    ensures Estimate(u, text) <= 2
    ensures VisiblePrefix(u, text, 2, []) == text[..5]
  {
    var hex;
    hex, text := StemLiterals();
    HexWord(u, hex);
    NaturalWord(u, text);
    NaturalWord(u, text[..3]);
    NaturalWord(u, text[..5]);
    assert text[..6] == hex;
    FitsAlone(u, text, 2, 3);
    FitsAlone(u, text, 2, 5);
    FitsAlone(u, text, 2, 6);
    BisectToFive(PrefixFits(u, text, 2, []));
  }

  lemma BisectToFive(fits: int -> bool)
    requires fits(3) && fits(5) && !fits(6)
    ensures Bisect(fits, 0, 7, 0) == 5
  {
    assert Bisect(fits, 0, 7, 0) == Bisect(fits, 4, 7, 3);
    assert Bisect(fits, 4, 7, 3) == Bisect(fits, 6, 7, 5);
    assert Bisect(fits, 6, 7, 5) == Bisect(fits, 6, 5, 5) == 5;
  }

  lemma FitsAlone(u: Unicode, text: string, maxTokens: nat, n: nat)
    requires n <= |text|
    ensures PrefixFits(u, text, maxTokens, [])(n) <==> Estimate(u, text[..n]) <= maxTokens
  {
    Nothing(text[..n]);
  }
}
