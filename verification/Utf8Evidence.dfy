/** Evidence in canonical text: UTF-16 strings of `eval/retrieval/schema.js`, their UTF-8 bytes (section 3
    of RFC 3629) and the scalar tokens of `eval/retrieval/rocksdb-backend.js`. */
module Utf8Evidence {
  import opened Sequences
  import opened Tiling

  /** A string as its code units, numbers below 0x10000. */
  type Text = seq<int>

  // ---------------------------------------------------------------------------------------
  // UTF-16 and UTF-8
  // ---------------------------------------------------------------------------------------

  predicate High(u: int) {
    0xD800 <= u < 0xDC00
  }

  predicate Low(u: int) {
    0xDC00 <= u < 0xE000
  }

  /** How many code units the first character takes. */
  function FirstLength(text: Text): (n: nat)
    requires text != []
    ensures 1 <= n <= |text|
  {
    if |text| > 1 && High(text[0]) && Low(text[1]) then 2 else 1
  }

  /** The first character; a surrogate that is alone stands for the replacement character. */
  function FirstScalar(text: Text): int
    requires text != []
  {
    if FirstLength(text) == 2 then 0x1_0000 + (text[0] - 0xD800) * 0x400 + (text[1] - 0xDC00)
    else if High(text[0]) || Low(text[0]) then 0xFFFD
    else text[0]
  }

  function Encode(scalar: int): (bytes: seq<int>)
    ensures bytes != []
  {
    if scalar < 0x80 then [scalar]
    else if scalar < 0x800 then [0xC0 + scalar / 0x40, 0x80 + scalar % 0x40]
    else if scalar < 0x1_0000 then [0xE0 + scalar / 0x1000, 0x80 + scalar / 0x40 % 0x40, 0x80 + scalar % 0x40]
    else [0xF0 + scalar / 0x4_0000, 0x80 + scalar / 0x1000 % 0x40, 0x80 + scalar / 0x40 % 0x40, 0x80 + scalar % 0x40]
  }

  /** `Buffer.from(text, "utf8")` */
  function Utf8(text: Text): seq<int> {
    if text == [] then [] else Encode(FirstScalar(text)) + Utf8(text[FirstLength(text)..])
  }

  /** All code units are in range, and no surrogate stands alone. */
  predicate WellFormed(text: Text)
    decreases |text|
  {
    text == []
    || ((FirstLength(text) == 1 ==> 0 <= text[0] < 0x1_0000 && !High(text[0]) && !Low(text[0]))
        && WellFormed(text[FirstLength(text)..]))
  }

  lemma FirstOfConcat(a: Text, b: Text)
    requires a != [] && (FirstLength(a) == 1 ==> !High(a[0]))
    ensures FirstLength(a + b) == FirstLength(a) && FirstScalar(a + b) == FirstScalar(a)
    ensures (a + b)[FirstLength(a)..] == a[FirstLength(a)..] + b
  {
  }

  lemma {:induction false} Utf8Concat(a: Text, b: Text)
    requires WellFormed(a)
    ensures Utf8(a + b) == Utf8(a) + Utf8(b)
    ensures WellFormed(a + b) <==> WellFormed(b)
    decreases |a|
  {
    if a == [] {
      Nothing(b);
      Nothing(Utf8(b));
    } else {
      var rest := a[FirstLength(a)..];
      FirstOfConcat(a, b);
      Utf8Concat(rest, b);
      Associate(Encode(FirstScalar(a)), Utf8(rest), Utf8(b));
      assert (a + b)[0] == a[0];
    }
  }

  /** A well-formed text can be cut before anything but the second half of a pair. */
  lemma {:induction false} CutWellFormed(text: Text, p: nat)
    requires WellFormed(text) && p < |text| && !Low(text[p])
    ensures WellFormed(text[..p])
    decreases |text|
  {
    if p > 0 {
      var n := FirstLength(text);
      assert n == 2 ==> p != 1;
      CutWellFormed(text[n..], p - n);
      assert text[..p][n..] == text[n..][..p - n];
      FirstOfCut(text, p);
    }
  }

  lemma FirstOfCut(text: Text, p: nat)
    requires 0 < p <= |text| && FirstLength(text) <= p
    ensures FirstLength(text[..p]) == FirstLength(text)
  {
  }

  // ---------------------------------------------------------------------------------------
  // Locating
  // ---------------------------------------------------------------------------------------

  predicate OccursAt(text: Text, evidence: Text, p: nat) {
    p + |evidence| <= |text| && text[p..p + |evidence|] == evidence
  }

  /** `text.indexOf(evidence, from)`: a start behind the end counts as the end. */
  function IndexOf(text: Text, evidence: Text, from: nat): (p: int)
    ensures -1 <= p <= |text|
    ensures p >= 0 ==> OccursAt(text, evidence, p)
    ensures forall k: nat :: (if from <= |text| then from else |text|) <= k < p ==> !OccursAt(text, evidence, k)
    ensures p < 0 ==> forall k: nat :: from <= k ==> !OccursAt(text, evidence, k)
    ensures p >= 0 ==> p >= (if from <= |text| then from else |text|)
    decreases |text| - from
  {
    if from > |text| then (if evidence == [] then |text| else -1)
    else if OccursAt(text, evidence, from) then from
    else if from == |text| then -1
    else IndexOf(text, evidence, from + 1)
  }

  function Utf8Offset(text: Text, codeUnitOffset: nat): nat
    requires codeUnitOffset <= |text|
  {
    |Utf8(text[..codeUnitOffset])|
  }

  datatype Location = Missing | Ambiguous | At(startByte: nat, endByte: nat)

  function LocateUtf8Evidence(text: Text, evidence: Text): Location {
    var start := IndexOf(text, evidence, 0);
    if start < 0 then Missing
    else if IndexOf(text, evidence, start + 1) >= 0 then Ambiguous
    else
      var startByte := Utf8Offset(text, start);
      At(startByte, startByte + |Utf8(evidence)|)
  }

  ghost predicate OccursOnce(text: Text, evidence: Text, p: nat) {
    OccursAt(text, evidence, p) && forall k: nat :: OccursAt(text, evidence, k) ==> k == p
  }

  /** A location is found exactly for evidence that is not empty and occurs exactly once, overlapping
      occurrences counted. */
  lemma LocatesUnique(text: Text, evidence: Text)
    ensures LocateUtf8Evidence(text, evidence).At? <==> evidence != [] && exists p: nat :: OccursOnce(text, evidence, p)
    ensures LocateUtf8Evidence(text, evidence).Missing? <==> forall k: nat :: !OccursAt(text, evidence, k)
  {
    var start := IndexOf(text, evidence, 0);
    if start >= 0 {
      var again := IndexOf(text, evidence, start + 1);
      if again < 0 {
        assert OccursOnce(text, evidence, start);
      } else if evidence != [] {
        assert OccursAt(text, evidence, start) && OccursAt(text, evidence, again) && again != start;
      }
    }
  }

  /** The parts of a text around an occurrence. */
  lemma Around(text: Text, evidence: Text, p: nat)
    requires WellFormed(text) && WellFormed(evidence) && evidence != []
    requires OccursAt(text, evidence, p)
    ensures WellFormed(text[..p])
    ensures text == text[..p] + (evidence + text[p + |evidence|..])
  {
    assert text[p] == text[p..p + |evidence|][0] == evidence[0];
    FirstNotLow(evidence);
    CutWellFormed(text, p);
    Whole(text, p);
    Whole(text[p..], |evidence|);
    assert text[p..][..|evidence|] == text[p..p + |evidence|] && text[p..][|evidence|..] == text[p + |evidence|..];
  }

  lemma FirstNotLow(text: Text)
    requires WellFormed(text) && text != []
    ensures !Low(text[0])
  {
  }

  lemma BytesBetween(a: Text, evidence: Text, b: Text)
    requires WellFormed(a) && WellFormed(evidence)
    ensures Utf8(a + (evidence + b)) == Utf8(a) + (Utf8(evidence) + Utf8(b))
  {
    Utf8Concat(a, evidence + b);
    Utf8Concat(evidence, b);
  }

  lemma LocatedAt(text: Text, evidence: Text)
    requires LocateUtf8Evidence(text, evidence).At?
    ensures var p := IndexOf(text, evidence, 0);
            && p >= 0 && evidence != [] && OccursAt(text, evidence, p)
            && LocateUtf8Evidence(text, evidence) == At(Utf8Offset(text, p), Utf8Offset(text, p) + |Utf8(evidence)|)
  {
    LocatesUnique(text, evidence);
  }

  lemma BytesAround(text: Text, evidence: Text, p: nat)
    requires WellFormed(text) && WellFormed(evidence) && evidence != []
    requires OccursAt(text, evidence, p)
    ensures BytesAt(text, evidence, Utf8Offset(text, p))
  {
    Around(text, evidence, p);
    BytesBetween(text[..p], evidence, text[p + |evidence|..]);
    Middle(Utf8(text[..p]), Utf8(evidence), Utf8(text[p + |evidence|..]));
  }

  predicate AtOffset(whole: seq<int>, part: seq<int>, q: nat) {
    q + |part| <= |whole| && whole[q..q + |part|] == part
  }

  /** The bytes of `evidence` stand in those of `text` at offset `q`. */
  predicate BytesAt(text: Text, evidence: Text, q: nat) {
    AtOffset(Utf8(text), Utf8(evidence), q)
  }

  /** The range that is found spells exactly the evidence. */
  lemma LocatedBytes(text: Text, evidence: Text)
    requires WellFormed(text) && WellFormed(evidence)
    requires LocateUtf8Evidence(text, evidence).At?
    ensures var at := LocateUtf8Evidence(text, evidence);
            at.endByte == at.startByte + |Utf8(evidence)| && BytesAt(text, evidence, at.startByte)
  {
    LocatedAt(text, evidence);
    BytesAround(text, evidence, IndexOf(text, evidence, 0));
  }

  lemma Middle(a: seq<int>, b: seq<int>, c: seq<int>)
    ensures AtOffset(a + (b + c), b, |a|)
  {
  }

  lemma SliceBehind<T>(whole: seq<T>, a: seq<T>, b: seq<T>, n: nat)
    requires whole == a + b && |a| + n <= |whole|
    ensures n <= |b| && whole[|a|..|a| + n] == b[..n]
  {
  }

  // ---------------------------------------------------------------------------------------
  // Occurrences of bytes
  // ---------------------------------------------------------------------------------------

  predicate Continues(byte: int) {
    0x80 <= byte < 0xC0
  }

  lemma EncodeLeads(scalar: int)
    requires 0 <= scalar < 0x11_0000
    ensures !Continues(Encode(scalar)[0])
    ensures forall i :: 1 <= i < |Encode(scalar)| ==> Continues(Encode(scalar)[i])
  {
  }

  lemma EncodeLength(s: int, t: int)
    requires 0 <= s < 0x11_0000 && 0 <= t < 0x11_0000
    requires Encode(s)[0] == Encode(t)[0]
    ensures |Encode(s)| == |Encode(t)|
  {
  }

  lemma EncodeInjective(s: int, t: int)
    requires 0 <= s < 0x11_0000 && 0 <= t < 0x11_0000
    requires Encode(s) == Encode(t)
    ensures s == t
  {
    EncodeDecodes(s);
    EncodeDecodes(t);
  }

  /** The scalar that bytes encode. */
  ghost function Decode(bytes: seq<int>): int {
    if |bytes| == 1 then bytes[0]
    else if |bytes| == 2 then (bytes[0] - 0xC0) * 0x40 + (bytes[1] - 0x80)
    else if |bytes| == 3 then (bytes[0] - 0xE0) * 0x1000 + (bytes[1] - 0x80) * 0x40 + (bytes[2] - 0x80)
    else if |bytes| == 4 then
      (bytes[0] - 0xF0) * 0x4_0000 + (bytes[1] - 0x80) * 0x1000 + (bytes[2] - 0x80) * 0x40 + (bytes[3] - 0x80)
    else 0
  }

  lemma EncodeDecodes(scalar: int)
    requires 0 <= scalar < 0x11_0000
    ensures Decode(Encode(scalar)) == scalar
  {
    assert scalar == scalar / 0x40 * 0x40 + scalar % 0x40;
    assert scalar / 0x40 / 0x40 == scalar / 0x1000 && scalar / 0x1000 / 0x40 == scalar / 0x4_0000;
  }

  lemma FirstInjective(a: Text, b: Text)
    requires a != [] && b != [] && WellFormed(a) && WellFormed(b)
    requires FirstScalar(a) == FirstScalar(b)
    ensures FirstLength(a) == FirstLength(b) && a[..FirstLength(a)] == b[..FirstLength(b)]
  {
    if FirstLength(a) == 2 && FirstLength(b) == 2 {
      assert a[0] == b[0] && a[1] == b[1];
      assert a[..2] == [a[0], a[1]] && b[..2] == [b[0], b[1]];
    } else {
      assert a[..1] == [a[0]] && b[..1] == [b[0]];
    }
  }

  /** Well-formed texts whose bytes start alike start alike. */
  lemma {:induction false} PrefixOfBytes(text: Text, evidence: Text)
    requires WellFormed(text) && WellFormed(evidence)
    requires Utf8(evidence) <= Utf8(text)
    ensures evidence <= text
    decreases |text|
  {
    if evidence != [] {
      assert Utf8(evidence)[0] == Utf8(text)[0];
      var s, t := FirstScalar(evidence), FirstScalar(text);
      var n := FirstLength(evidence);
      EncodeLength(s, t);
      assert Encode(s) == Utf8(evidence)[..|Encode(s)|] == Utf8(text)[..|Encode(t)|] == Encode(t);
      EncodeInjective(s, t);
      FirstInjective(evidence, text);
      assert Utf8(evidence[n..]) == Utf8(evidence)[|Encode(s)|..];
      assert Utf8(text[n..]) == Utf8(text)[|Encode(t)|..];
      PrefixOfBytes(text[n..], evidence[n..]);
      Whole(evidence, n);
      Whole(text, n);
    }
  }

  /** A single character. */
  ghost predicate Single(head: Text) {
    head != [] && WellFormed(head) && FirstLength(head) == |head|
  }

  /** A well-formed text is its first character and a well-formed rest. */
  lemma HeadAndRest(text: Text) returns (head: Text, rest: Text)
    requires text != [] && WellFormed(text)
    ensures text == head + rest && Single(head) && WellFormed(rest)
  {
    var n := FirstLength(text);
    head, rest := text[..n], text[n..];
    Whole(text, n);
    FirstOfCut(text, n);
    assert head[n..] == [];
  }

  lemma SingleBytes(head: Text)
    requires Single(head)
    ensures Utf8(head) != [] && !Continues(Utf8(head)[0])
    ensures forall i :: 1 <= i < |Utf8(head)| ==> Continues(Utf8(head)[i])
  {
    EncodeLeads(FirstScalar(head));
    assert head[|head|..] == [];
    Nothing(Encode(FirstScalar(head)));
  }

  /** Every byte that does not continue a character begins one. */
  lemma {:induction false} Begins(text: Text, q: nat) returns (a: Text, b: Text)
    requires WellFormed(text)
    requires q < |Utf8(text)| && !Continues(Utf8(text)[q])
    ensures text == a + b && WellFormed(a) && WellFormed(b)
    ensures Utf8(text) == Utf8(a) + Utf8(b) && |Utf8(a)| == q
    decreases |text|
  {
    if q == 0 {
      Nothing(text);
      Nothing(Utf8(text));
      return [], text;
    }
    var head, rest := HeadAndRest(text);
    SingleBytes(head);
    Utf8Concat(head, rest);
    var a' := [];
    a', b := Begins(rest, q - |Utf8(head)|);
    a := head + a';
    Utf8Concat(head, a');
    Associate(head, a', b);
    Utf8Concat(a, b);
  }

  /** The bytes of the evidence occur exactly where the evidence does. */
  lemma ByteOccurrence(text: Text, evidence: Text, q: nat) returns (p: nat)
    requires WellFormed(text) && WellFormed(evidence) && evidence != []
    requires BytesAt(text, evidence, q)
    ensures OccursAt(text, evidence, p) && Utf8Offset(text, p) == q
  {
    FirstByteLeads(evidence);
    assert Utf8(text)[q..q + |Utf8(evidence)|][0] == Utf8(text)[q];
    var a, b := Begins(text, q);
    SliceBehind(Utf8(text), Utf8(a), Utf8(b), |Utf8(evidence)|);
    PrefixOfBytes(b, evidence);
    p := |a|;
    OccursBehind(a, b, evidence);
  }

  lemma OccursBehind(a: Text, b: Text, evidence: Text)
    requires evidence <= b
    ensures OccursAt(a + b, evidence, |a|) && Utf8Offset(a + b, |a|) == |Utf8(a)|
  {
    SliceBehind(a + b, a, b, |evidence|);
    assert (a + b)[..|a|] == a;
  }

  lemma FirstByteLeads(text: Text)
    requires WellFormed(text) && text != []
    ensures Utf8(text) != [] && !Continues(Utf8(text)[0])
  {
    var head, rest := HeadAndRest(text);
    SingleBytes(head);
    Utf8Concat(head, rest);
  }

  /** Among the bytes of the text, those of the evidence occur at the range that is found and nowhere
      else. */
  lemma LocatedBytesUnique(text: Text, evidence: Text, q: nat)
    requires WellFormed(text) && WellFormed(evidence)
    requires LocateUtf8Evidence(text, evidence).At?
    ensures BytesAt(text, evidence, q) <==> q == LocateUtf8Evidence(text, evidence).startByte
  {
    LocatesUnique(text, evidence);
    LocatedAt(text, evidence);
    BytesAround(text, evidence, IndexOf(text, evidence, 0));
    if BytesAt(text, evidence, q) {
      var p := ByteOccurrence(text, evidence, q);
    }
  }

  // ---------------------------------------------------------------------------------------
  // Scalar tokens
  // ---------------------------------------------------------------------------------------

  function FirstCharacter(text: Text): (value: Text)
    requires text != []
    ensures 1 <= |value| <= |text|
  {
    text[..FirstLength(text)]
  }

  /** The characters a string iterates over. */
  function Characters(text: Text): seq<Text>
    decreases |text|
  {
    if text == [] then [] else [FirstCharacter(text)] + Characters(text[|FirstCharacter(text)|..])
  }

  function ByteLength(text: Text): nat {
    |Utf8(text)|
  }

  function Tokens(text: Text): seq<Token<Text>> {
    Laid(Characters(text), ByteLength, 0)
  }

  method Utf8ScalarTokens(text: Text) returns (tokens: seq<Token<Text>>)
    ensures tokens == Tokens(text)
  {
    tokens := [];
    var startByte: nat, i: nat := 0, 0;
    ghost var all := Tokens(text);
    TokensBegin(text);
    while i < |text|
      invariant i <= |text| && TokensUpTo(tokens, Characters(text[i..]), startByte, all)
      decreases |text| - i
    {
      var value := FirstCharacter(text[i..]);
      var endByte := startByte + ByteLength(value);
      CharactersStep(text, i);
      TokensStep(tokens, value, Characters(text[i + |value|..]), startByte, all);
      tokens := tokens + [Token(value, startByte, endByte)];
      startByte, i := endByte, i + |value|;
    }
    TokensDone(tokens, text[i..], startByte, all);
  }

  /** `tokens`, followed by those of the remaining parts, are all there are. */
  ghost predicate TokensUpTo(tokens: seq<Token<Text>>, parts: seq<Text>, start: nat, all: seq<Token<Text>>) {
    tokens + Laid(parts, ByteLength, start) == all
  }

  lemma TokensBegin(text: Text)
    ensures TokensUpTo([], Characters(text[0..]), 0, Tokens(text))
  {
    All(text);
    Nothing(Tokens(text));
  }

  lemma TokensDone(tokens: seq<Token<Text>>, rest: Text, start: nat, all: seq<Token<Text>>)
    requires rest == [] && TokensUpTo(tokens, Characters(rest), start, all)
    ensures tokens == all
  {
    Nothing(tokens);
  }

  lemma CharactersStep(text: Text, i: nat)
    requires i < |text|
    ensures var value := FirstCharacter(text[i..]);
            i + |value| <= |text| && Characters(text[i..]) == [value] + Characters(text[i + |value|..])
  {
    var value := FirstCharacter(text[i..]);
    assert text[i..][|value|..] == text[i + |value|..];
  }

  lemma TokensStep(tokens: seq<Token<Text>>, value: Text, parts: seq<Text>, start: nat, all: seq<Token<Text>>)
    requires TokensUpTo(tokens, [value] + parts, start, all)
    ensures TokensUpTo(tokens + [Token(value, start, start + ByteLength(value))], parts, start + ByteLength(value), all)
  {
    LaidStep(tokens, value, parts, ByteLength, start);
  }

  /** The characters put together. */
  function Flat(parts: seq<Text>): Text {
    if parts == [] then [] else parts[0] + Flat(parts[1..])
  }

  lemma {:induction false} CharactersFlat(text: Text)
    ensures Flat(Characters(text)) == text
    decreases |text|
  {
    if text != [] {
      CharactersFlat(text[|FirstCharacter(text)|..]);
      Whole(text, |FirstCharacter(text)|);
    }
  }

  lemma Utf8First(text: Text)
    requires text != []
    ensures Utf8(FirstCharacter(text)) == Encode(FirstScalar(text))
  {
    var n := FirstLength(text);
    FirstOfCut(text, n);
    assert FirstScalar(text[..n]) == FirstScalar(text);
    assert text[..n][n..] == [];
    Nothing(Encode(FirstScalar(text)));
  }

  /** Lone surrogates included, a text has as many bytes as its characters. */
  lemma {:induction false} CharacterSizes(text: Text)
    ensures Sum(Characters(text), ByteLength) == ByteLength(text)
    decreases |text|
  {
    if text != [] {
      Utf8First(text);
      CharacterSizes(text[|FirstCharacter(text)|..]);
    }
  }

  /** The tokens of any text lie end to end over its bytes, and their values put together are the
      text. */
  lemma TokensTile(text: Text)
    ensures Tiles(Tokens(text), ByteLength, 0, ByteLength(text))
    ensures Flat(seq(|Tokens(text)|, i requires 0 <= i < |Tokens(text)| => Tokens(text)[i].value)) == text
  {
    LaidTiles(Characters(text), ByteLength, 0);
    CharacterSizes(text);
    LaidValues(Characters(text), ByteLength, 0);
    CharactersFlat(text);
    assert seq(|Tokens(text)|, i requires 0 <= i < |Tokens(text)| => Tokens(text)[i].value) == Characters(text);
  }

  lemma FirstOfRest(a: Text, b: Text)
    requires WellFormed(a) && a != []
    ensures a + b != [] && FirstCharacter(a + b) == FirstCharacter(a)
    ensures (a + b)[|FirstCharacter(a)|..] == a[|FirstCharacter(a)|..] + b
    ensures WellFormed(a[|FirstCharacter(a)|..])
  {
    FirstOfConcat(a, b);
    assert (a + b)[..FirstLength(a)] == a[..FirstLength(a)];
  }

  lemma {:induction false} CharactersConcat(a: Text, b: Text)
    requires WellFormed(a)
    ensures Characters(a + b) == Characters(a) + Characters(b)
    decreases |a|
  {
    if a == [] {
      Nothing(b);
      Nothing(Characters(b));
    } else {
      var rest := a[|FirstCharacter(a)|..];
      FirstOfRest(a, b);
      CharactersConcat(rest, b);
      Associate([FirstCharacter(a)], Characters(rest), Characters(b));
    }
  }

  /** Every cut of a text into two parts, the first well-formed, falls between tokens. */
  lemma CutBetweenTokens(a: Text, b: Text)
    requires WellFormed(a)
    ensures Boundary(Tokens(a + b), ByteLength(a + b), ByteLength(a))
  {
    CharactersConcat(a, b);
    CharacterSizes(a);
    CharacterSizes(a + b);
    CutIsBoundary(Characters(a), Characters(b), ByteLength, 0);
  }

  /** Located evidence starts and ends between tokens. */
  lemma LocatedOnBoundaries(text: Text, evidence: Text)
    requires WellFormed(text) && WellFormed(evidence)
    requires LocateUtf8Evidence(text, evidence).At?
    ensures var at := LocateUtf8Evidence(text, evidence);
            && Boundary(Tokens(text), ByteLength(text), at.startByte)
            && Boundary(Tokens(text), ByteLength(text), at.endByte)
  {
    var p := IndexOf(text, evidence, 0);
    LocatedAt(text, evidence);
    Around(text, evidence, p);
    AroundBoundaries(text[..p], evidence, text[p + |evidence|..]);
  }

  lemma AroundBoundaries(a: Text, evidence: Text, b: Text)
    requires WellFormed(a) && WellFormed(evidence)
    ensures var text := a + (evidence + b);
            && Boundary(Tokens(text), ByteLength(text), ByteLength(a))
            && Boundary(Tokens(text), ByteLength(text), ByteLength(a) + ByteLength(evidence))
  {
    CutBetweenTokens(a, evidence + b);
    BothWellFormed(a, evidence);
    Associate(a, evidence, b);
    CutBetweenTokens(a + evidence, b);
  }

  lemma BothWellFormed(a: Text, b: Text)
    requires WellFormed(a) && WellFormed(b)
    ensures WellFormed(a + b) && ByteLength(a + b) == ByteLength(a) + ByteLength(b)
  {
    Utf8Concat(a, b);
  }
}
