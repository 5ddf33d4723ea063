/** The evidence document of `eval/release/verifiers.js`: a heading and one block of indented JSON, and the
    strict reader that accepts nothing else. What counts as valid evidence, `JSON.parse` and the texts that
    numbers are printed with are parameters. */
module EvidenceDocument {
  import opened Wrappers
  import opened JsonText
  import CanonicalJson

  const HEADING := "**Local aggregate " + "verification evidence**"
  const PREFIX := HEADING + "\n\n```json\n"
  const SUFFIX := "\n```\n"

  type Validity = Value -> bool

  /** `JSON.parse`: nothing where it throws. */
  type Parser = string -> Option<Value>

  datatype Reading = Accepted(evidence: Value) | BadFraming | BadJson | BadEvidence | NotCanonical

  /** The document, or nothing where invalid evidence is refused. */
  function Format(valid: Validity, evidence: Value): Option<string> {
    if valid(evidence) then Some(PREFIX + Print(2, 0, evidence) + SUFFIX) else None
  }

  predicate EndsWith(text: string, end: string) {
    |end| <= |text| && text[|text| - |end|..] == end
  }

  /** `document.slice(front, -back)` */
  function Inside(document: string, front: nat, back: nat): string
    requires back <= |document|
  {
    if front <= |document| - back then document[front..|document| - back] else []
  }

  function Read(parse: Parser, valid: Validity, document: string): Reading {
    if !(PREFIX <= document) || !EndsWith(document, SUFFIX) then BadFraming
    else
      var encoded := Inside(document, |PREFIX|, |SUFFIX|);
      var evidence := parse(encoded);
      if evidence.None? then BadJson
      else if !valid(evidence.value) then BadEvidence
      else if encoded != Print(2, 0, evidence.value) then NotCanonical
      else Accepted(evidence.value)
  }

  // ---------------------------------------------------------------------------------------
  // Parsing
  // ---------------------------------------------------------------------------------------

  /** The texts that numbers are printed with: "1", but neither "1.0" nor "-". */
  type Numerals = string -> bool

  /** A value the language can hold: numbers stand as they are printed, and objects list their keys as
      objects do, array indices first. */
  ghost predicate Representable(numerals: Numerals, value: Value)
    decreases value
  {
    match value
    case Number(text) => NumberText(text) && numerals(text)
    case Array(items) => forall i :: 0 <= i < |items| ==> Representable(numerals, items[i])
    case Object(members) =>
      && DistinctKeys(members) && CanonicalJson.FromEntries(members) == members
      && forall i :: 0 <= i < |members| ==> Representable(numerals, members[i].value)
    case _ => true
  }

  lemma {:induction false} RepresentableWellFormed(numerals: Numerals, value: Value)
    requires Representable(numerals, value)
    ensures WellFormed(value)
    decreases value
  {
    if value.Array? {
      forall i | 0 <= i < |value.items|
        ensures WellFormed(value.items[i])
      {
        RepresentableWellFormed(numerals, value.items[i]);
      }
    } else if value.Object? {
      forall i | 0 <= i < |value.members|
        ensures WellFormed(value.members[i].value)
      {
        RepresentableWellFormed(numerals, value.members[i].value);
      }
    }
  }

  /** What is read and valid is a value that is printed as itself. (Invalid values need not be: an overflowing
      number is read as infinity and printed as `null`.) */
  ghost predicate YieldsValues(parse: Parser, numerals: Numerals, valid: Validity) {
    forall text :: parse(text).Some? && valid(parse(text).value) ==> Representable(numerals, parse(text).value)
  }

  /** A parser also reads back what is printed for the values of the language. How it reads any other text is
      left open. */
  ghost predicate ReadsPrinted(parse: Parser, numerals: Numerals, valid: Validity) {
    && YieldsValues(parse, numerals, valid)
    && forall value :: Representable(numerals, value) ==> parse(Print(2, 0, value)) == Some(value)
  }

  ghost predicate IsPrinted(numerals: Numerals, text: string) {
    exists value :: Representable(numerals, value) && Print(2, 0, value) == text
  }

  /** The value a text is printed for. */
  ghost function Unprint(numerals: Numerals, text: string): Value
    requires IsPrinted(numerals, text)
  {
    var value :| Representable(numerals, value) && Print(2, 0, value) == text;
    value
  }

  /** A parser made to read back what is printed. */
  ghost function Corrected(parse: Parser, numerals: Numerals): Parser {
    (text: string) => if IsPrinted(numerals, text) then Some(Unprint(numerals, text)) else parse(text)
  }

  lemma UnprintPrinted(numerals: Numerals, value: Value)
    requires Representable(numerals, value)
    ensures IsPrinted(numerals, Print(2, 0, value)) && Unprint(numerals, Print(2, 0, value)) == value
  {
    var other := Unprint(numerals, Print(2, 0, value));
    RepresentableWellFormed(numerals, value);
    RepresentableWellFormed(numerals, other);
    PrintInjective(2, value, other);
  }

  /** What is asked of a parser contradicts nothing it may do with texts that are not printed: whatever it does
      there, it can be corrected to read back what is printed, because no two values are printed alike. And it
      needs no correction if and only if it reads back what is printed already. */
  lemma ParserExists(parse: Parser, numerals: Numerals, valid: Validity)
    requires YieldsValues(parse, numerals, valid)
    ensures ReadsPrinted(Corrected(parse, numerals), numerals, valid)
    ensures forall text :: !IsPrinted(numerals, text) ==> Corrected(parse, numerals)(text) == parse(text)
    ensures ReadsPrinted(parse, numerals, valid) <==> forall text :: Corrected(parse, numerals)(text) == parse(text)
  {
    var corrected := Corrected(parse, numerals);
    forall value | Representable(numerals, value)
      ensures corrected(Print(2, 0, value)) == Some(value)
    {
      UnprintPrinted(numerals, value);
    }
  }

  // ---------------------------------------------------------------------------------------
  // The inverse
  // ---------------------------------------------------------------------------------------

  lemma Framed(front: string, middle: string, back: string)
    ensures front <= front + middle + back && EndsWith(front + middle + back, back)
    ensures Inside(front + middle + back, |front|, |back|) == middle
  {
  }

  lemma Unframed(document: string, front: string, back: string)
    requires front <= document && EndsWith(document, back) && |front| + |back| <= |document|
    ensures document == front + Inside(document, |front|, |back|) + back
  {
  }

  /** Reading and writing are inverse: a document is accepted for evidence if and only if it is what is
      written for it. */
  lemma AcceptedIffFormatted(parse: Parser, numerals: Numerals, valid: Validity, document: string, evidence: Value)
    requires ReadsPrinted(parse, numerals, valid) && Representable(numerals, evidence)
    ensures Read(parse, valid, document) == Accepted(evidence) <==> Format(valid, evidence) == Some(document)
  {
    RepresentableWellFormed(numerals, evidence);
    if Format(valid, evidence) == Some(document) {
      Framed(PREFIX, Print(2, 0, evidence), SUFFIX);
    }
    if Read(parse, valid, document) == Accepted(evidence) {
      PrintOpens(2, 0, evidence);
      Unframed(document, PREFIX, SUFFIX);
    }
  }

  /** Whatever is accepted is a value of the language, valid and written as it is read. */
  lemma AcceptedIsCanonical(parse: Parser, numerals: Numerals, valid: Validity, document: string)
    requires ReadsPrinted(parse, numerals, valid)
    requires Read(parse, valid, document).Accepted?
    ensures var evidence := Read(parse, valid, document).evidence;
            Representable(numerals, evidence) && valid(evidence) && Format(valid, evidence) == Some(document)
  {
    AcceptedIffFormatted(parse, numerals, valid, document, Read(parse, valid, document).evidence);
  }

  /** A document in which the framing parts overlap starts and ends as it should, and is refused. */
  lemma OverlapRefused(parse: Parser, numerals: Numerals, valid: Validity, document: string)
    requires YieldsValues(parse, numerals, valid)
    requires PREFIX <= document && EndsWith(document, SUFFIX) && |document| < |PREFIX| + |SUFFIX|
    ensures !Read(parse, valid, document).Accepted? && Read(parse, valid, document) != BadFraming
  {
    var reading := Read(parse, valid, document);
    if reading.Accepted? {
      RepresentableWellFormed(numerals, reading.evidence);
      PrintOpens(2, 0, reading.evidence);
    }
  }

  /** There is such a document: the line break in front of the closing fence is the one behind the opening
      one. */
  lemma OverlapOccurs() returns (document: string)
    ensures document == PREFIX + SUFFIX[1..]
    ensures PREFIX <= document && EndsWith(document, SUFFIX) && |document| < |PREFIX| + |SUFFIX|
  {
    document := PREFIX + SUFFIX[1..];
    assert PREFIX[|PREFIX| - 1] == '\n' == SUFFIX[0];
    assert document[|document| - |SUFFIX|..] == [PREFIX[|PREFIX| - 1]] + SUFFIX[1..];
  }
}
