/** What a reader of JSON finds in the search records of `src/presentation.js`. */
module SearchRecords {
  import opened Wrappers
  import opened Sequences
  import opened Decimals
  import opened Json
  import opened JsonText
  import opened JsonReader
  import opened RecordReading
  import opened Presentation

  // ---------------------------------------------------------------------------------------
  // The fields
  // ---------------------------------------------------------------------------------------

  const FORMAT := "context-window." + "archived-search-result.v1"
  const TRUST := "untrusted-archived-data"
  const NOTICE := "retrieval truncated"

  /** What the texts that are printed as they come are the texts of. */
  datatype Printed = Printed(score: Value, structural: Value)

  function FormatField(): Field {
    PlainField("format", FORMAT)
  }

  function TrustField(): Field {
    PlainField("trust", TRUST)
  }

  function NoticeFields(truncated: bool): seq<Field> {
    if truncated then [Field("truncated", "true", Boolean(true)), PlainField("notice", NOTICE)] else []
  }

  function KindFields(result: SearchResult): seq<Field> {
    if result.kind.Some? then [TextField("kind", result.kind.value)] else []
  }

  function ScoreOf(result: SearchResult, printed: Printed): seq<Field> {
    if result.score.Some? then
      [Field("score", result.score.value.json, printed.score),
       TextField("relevanceBand", RelevanceBand(result.score.value.value))]
    else []
  }

  function TimestampFields(result: SearchResult): seq<Field> {
    if result.sourceTimestamp.Some? then [TextField("sourceTimestamp", result.sourceTimestamp.value)] else []
  }

  function StructuralFields(result: SearchResult, printed: Printed): seq<Field> {
    if result.structural.Some? then [Field("structural", result.structural.value, printed.structural)] else []
  }

  /** The properties behind the first. */
  function SearchFields(result: SearchResult, index: nat, snippet: string, truncated: bool, printed: Printed): seq<Field> {
    [TrustField()] + [NumberField("rank", index + 1)] + [TextField("recallId", result.id)]
    + KindFields(result) + ScoreOf(result, printed) + TimestampFields(result)
    + [TextField("snippet", snippet)] + StructuralFields(result, printed) + NoticeFields(truncated)
  }

  // ---------------------------------------------------------------------------------------
  // Their texts
  // ---------------------------------------------------------------------------------------

  lemma FirstKeysPlain()
    ensures Unescaped("format") && Unescaped("trust") && Unescaped("rank") && Unescaped("recallId") && Unescaped("kind")
    ensures Unescaped("score")
  {
  }

  lemma OtherKeysPlain()
    ensures Unescaped("relevanceBand") && Unescaped("sourceTimestamp") && Unescaped("snippet")
  {
  }

  lemma LastKeysPlain()
    ensures Unescaped("structural") && Unescaped("truncated") && Unescaped("notice")
  {
  }

  lemma ConcatPlain(a: string, b: string)
    requires Unescaped(a) && Unescaped(b)
    ensures Unescaped(a + b)
  {
  }

  lemma FormatPlain()
    ensures Unescaped(FORMAT)
  {
    ConcatPlain("context-window.", "archived-search-result.v1");
  }

  lemma TrustPlain()
    ensures Unescaped(TRUST) && Unescaped(NOTICE)
  {
  }

  lemma FormatText()
    ensures FieldText(FormatField()) == FORMAT_FIELD
  {
    PlainFieldParts("format", FORMAT);
    var a, b := "context-window.", "archived-search-result.v1";
    assert ['"'] + ("format" + ['"', ':']) == "\"format\":";
    assert "\"context-window." == ['"'] + a;
    assert "archived-search-result.v1\"" == b + ['"'];
    Five("\"format\":", ['"'], a, b, ['"']);
  }

  lemma Five(a: string, b: string, c: string, d: string, e: string)
    ensures a + (b + ((c + d) + e)) == a + (b + c) + (d + e)
  {
  }

  lemma TrustText()
    ensures FieldText(TrustField()) == TRUST_FIELD
  {
    PlainFieldParts("trust", TRUST);
    assert ['"'] + ("trust" + ['"', ':']) == "\"trust\":";
    assert "\"untrusted-archived-data\"" == ['"'] + (TRUST + ['"']);
  }

  lemma NoticeText()
    ensures FieldText(PlainField("notice", NOTICE)) == NOTICE_FIELD
  {
    PlainFieldParts("notice", NOTICE);
    assert ['"'] + ("notice" + ['"', ':']) == "\"notice\":";
    assert "\"retrieval truncated\"" == ['"'] + (NOTICE + ['"']);
  }

  lemma TruncatedText()
    ensures FieldText(Field("truncated", "true", Boolean(true))) == TRUNCATED_FIELD
  {
  }

  lemma RankText(n: nat)
    ensures Tail([NumberField("rank", n)]) == ",\"rank\":" + Decimal(n)
  {
    OneTail(NumberField("rank", n));
    KeyText("rank", Decimal(n), NumberField("rank", n));
    assert [','] + (['"'] + ("rank" + ['"', ':'])) == ",\"rank\":";
  }

  /** A property behind a comma. */
  lemma KeyText(key: string, text: string, f: Field)
    requires f.key == key && f.text == text
    ensures [','] + FieldText(f) == ([','] + (['"'] + (key + ['"', ':']))) + text
  {
    Associate(key, ['"', ':'], text);
    Associate(['"'], key + ['"', ':'], text);
    Associate([','], ['"'] + (key + ['"', ':']), text);
  }

  lemma TextText(key: string, text: string, front: string)
    requires front == [','] + (['"'] + (key + ['"', ':']))
    ensures Tail([TextField(key, text)]) == front + OneLine(text)
  {
    OneTail(TextField(key, text));
    KeyText(key, Quote(true, text), TextField(key, text));
  }

  lemma IdText(id: string)
    ensures Tail([TextField("recallId", id)]) == ",\"recallId\":" + OneLine(id)
  {
    assert [','] + (['"'] + ("recallId" + ['"', ':'])) == ",\"recallId\":";
    TextText("recallId", id, ",\"recallId\":");
  }

  lemma SnippetText(snippet: string)
    ensures Tail([TextField("snippet", snippet)]) == ",\"snippet\":" + OneLine(snippet)
  {
    assert [','] + (['"'] + ("snippet" + ['"', ':'])) == ",\"snippet\":";
    TextText("snippet", snippet, ",\"snippet\":");
  }

  lemma KindText(result: SearchResult)
    ensures Tail(KindFields(result)) == KindField(result)
  {
    if result.kind.Some? {
      assert [','] + (['"'] + ("kind" + ['"', ':'])) == ",\"kind\":";
      TextText("kind", result.kind.value, ",\"kind\":");
    }
  }

  lemma TimestampText(result: SearchResult)
    ensures Tail(TimestampFields(result)) == TimestampField(result)
  {
    if result.sourceTimestamp.Some? {
      assert [','] + (['"'] + ("sourceTimestamp" + ['"', ':'])) == ",\"sourceTimestamp\":";
      TextText("sourceTimestamp", result.sourceTimestamp.value, ",\"sourceTimestamp\":");
    }
  }

  lemma BandText(band: string)
    ensures Tail([TextField("relevanceBand", band)]) == ",\"relevanceBand\":" + OneLine(band)
  {
    assert [','] + (['"'] + ("relevanceBand" + ['"', ':'])) == ",\"relevanceBand\":";
    TextText("relevanceBand", band, ",\"relevanceBand\":");
  }

  lemma ScoreText(f: Field)
    requires f.key == "score"
    ensures Tail([f]) == ",\"score\":" + f.text
  {
    OneTail(f);
    KeyText("score", f.text, f);
    assert [','] + (['"'] + ("score" + ['"', ':'])) == ",\"score\":";
  }

  lemma ScoresText(result: SearchResult, printed: Printed)
    ensures Tail(ScoreOf(result, printed)) == ScoreFields(result)
  {
    if result.score.Some? {
      var score := Field("score", result.score.value.json, printed.score);
      var band := TextField("relevanceBand", RelevanceBand(result.score.value.value));
      assert ScoreOf(result, printed) == [score] + [band];
      TailConcat([score], [band]);
      ScoreText(score);
      BandText(RelevanceBand(result.score.value.value));
      Associate(",\"score\":" + score.text, ",\"relevanceBand\":", OneLine(RelevanceBand(result.score.value.value)));
    }
  }

  lemma StructuralText(result: SearchResult, printed: Printed)
    ensures Tail(StructuralFields(result, printed))
         == if result.structural.Some? then ",\"structural\":" + result.structural.value else ""
  {
    if result.structural.Some? {
      var f := Field("structural", result.structural.value, printed.structural);
      OneTail(f);
      KeyText("structural", f.text, f);
      assert [','] + (['"'] + ("structural" + ['"', ':'])) == ",\"structural\":";
    }
  }

  lemma NoticesText(truncated: bool)
    ensures Tail(NoticeFields(truncated)) == if truncated then "," + TRUNCATED_FIELD + "," + NOTICE_FIELD else ""
  {
    if truncated {
      var t, n := Field("truncated", "true", Boolean(true)), PlainField("notice", NOTICE);
      assert NoticeFields(truncated) == [t] + [n];
      TailConcat([t], [n]);
      OneTail(t);
      OneTail(n);
      TruncatedText();
      NoticeText();
      Associate("," + TRUNCATED_FIELD, ",", NOTICE_FIELD);
    }
  }

  /** The parts of a record, as they are printed and as properties. */
  lemma Assemble(
    a: string, b: string, c: string, d: string, e: string, f: string, g: string, h: string, i: string, j: string, k: string,
    l: string, m: string, snippet: string, q: string, x: string, n: string, z: string)
    ensures (a + b + c + d + e + f + g + h + i + j + k + l + m) + snippet + (q + x + n + z)
         == a + (b + ((c + d) + (e + f) + (g + h) + i + j + k + (l + (m + snippet + q)) + x + n + z))
  {
    var y1 := (c + d) + (e + f);
    var y2 := y1 + (g + h);
    var y6 := y2 + i + j + k + (l + (m + snippet + q));
    Associate(a, b, y6 + x + n + z);
    Associate(a + b, y6 + x + n, z);
    Associate(a + b, y6 + x, n);
    Associate(a + b, y6, x);
    Associate(a + b, y2 + i + j + k, l + (m + snippet + q));
    Associate(a + b, y2 + i + j, k);
    Associate(a + b, y2 + i, j);
    Associate(a + b, y2, i);
    Associate(a + b, y1, g + h);
    Associate(a + b, c + d, e + f);
    Associate(a + b, c, d);
    Associate(a + b + c + d, e, f);
    Associate(a + b + c + d + e + f, g, h);
    var p := a + b + c + d + e + f + g + h + i + j + k;
    Associate(p, l, m + snippet + q);
    Associate(p + l, m + snippet, q);
    Associate(p + l, m, snippet);
    Associate(p + l + m + snippet, q + x + n, z);
    Associate(p + l + m + snippet, q + x, n);
    Associate(p + l + m + snippet, q, x);
  }

  lemma Tails(f: seq<Field>, g: seq<Field>, h: seq<Field>, i: seq<Field>, j: seq<Field>, k: seq<Field>, l: seq<Field>, m: seq<Field>, n: seq<Field>)
    ensures Tail(f + g + h + i + j + k + l + m + n)
         == Tail(f) + Tail(g) + Tail(h) + Tail(i) + Tail(j) + Tail(k) + Tail(l) + Tail(m) + Tail(n)
  {
    TailConcat(f, g);
    TailConcat(f + g, h);
    TailConcat(f + g + h, i);
    TailConcat(f + g + h + i, j);
    TailConcat(f + g + h + i + j, k);
    TailConcat(f + g + h + i + j + k, l);
    TailConcat(f + g + h + i + j + k + l, m);
    TailConcat(f + g + h + i + j + k + l + m, n);
  }

  lemma FieldsText(result: SearchResult, index: nat, snippet: string, truncated: bool, printed: Printed)
    ensures Tail(SearchFields(result, index, snippet, truncated, printed))
         == ("," + TRUST_FIELD) + (",\"rank\":" + Decimal(index + 1)) + (",\"recallId\":" + OneLine(result.id))
            + KindField(result) + ScoreFields(result) + TimestampField(result) + (",\"snippet\":" + OneLine(snippet))
            + (if result.structural.Some? then ",\"structural\":" + result.structural.value else "")
            + (if truncated then "," + TRUNCATED_FIELD + "," + NOTICE_FIELD else "")
  {
    Tails([TrustField()], [NumberField("rank", index + 1)], [TextField("recallId", result.id)], KindFields(result),
          ScoreOf(result, printed), TimestampFields(result), [TextField("snippet", snippet)],
          StructuralFields(result, printed), NoticeFields(truncated));
    OneTail(TrustField());
    TrustText();
    RankText(index + 1);
    IdText(result.id);
    KindText(result);
    ScoresText(result, printed);
    TimestampText(result);
    SnippetText(snippet);
    StructuralText(result, printed);
    NoticesText(truncated);
  }

  /** A record is the text of its properties. */
  lemma RecordParts(result: SearchResult, index: nat, snippet: string, truncated: bool, printed: Printed)
    ensures Record(LayoutOf(result, index), snippet, truncated)
         == ['{'] + (FieldText(FormatField()) + (Tail(SearchFields(result, index, snippet, truncated, printed)) + ['}']))
  {
    FormatText();
    FieldsText(result, index, snippet, truncated, printed);
    Assemble(['{'], FORMAT_FIELD, ",", TRUST_FIELD, ",\"rank\":", Decimal(index + 1), ",\"recallId\":", OneLine(result.id),
             KindField(result), ScoreFields(result), TimestampField(result), ",\"snippet\":", ['"'], Escape(true, snippet), ['"'],
             if result.structural.Some? then ",\"structural\":" + result.structural.value else "",
             if truncated then "," + TRUNCATED_FIELD + "," + NOTICE_FIELD else "", "}");
  }

  // ---------------------------------------------------------------------------------------
  // Reading them back
  // ---------------------------------------------------------------------------------------

  lemma ReadableConcat(numeral: Numeral, a: seq<Field>, b: seq<Field>)
    requires AllReadable(numeral, a) && AllReadable(numeral, b)
    ensures AllReadable(numeral, a + b)
  {
  }

  lemma ConstantsReadable(numeral: Numeral, truncated: bool)
    ensures Readable(numeral, FormatField()) && Readable(numeral, TrustField()) && AllReadable(numeral, NoticeFields(truncated))
  {
    FirstKeysPlain();
    LastKeysPlain();
    FormatPlain();
    TrustPlain();
    PlainReadable(numeral, "format", FORMAT);
    PlainReadable(numeral, "trust", TRUST);
    PlainReadable(numeral, "notice", NOTICE);
    forall x | Follows(x)
      ensures ReadValue(numeral, "true" + x) == Some(Parsed(Boolean(true), x))
    {
      WordRead("true", Boolean(true), x);
    }
  }

  /** The texts that are printed as they come are the texts of the given values. */
  ghost predicate Prints(numeral: Numeral, result: SearchResult, printed: Printed) {
    && (result.score.Some? ==> Readable(numeral, Field("score", result.score.value.json, printed.score)))
    && (result.structural.Some? ==> Readable(numeral, Field("structural", result.structural.value, printed.structural)))
  }

  lemma OptionalReadable(numeral: Numeral, result: SearchResult, printed: Printed)
    requires Prints(numeral, result, printed)
    ensures AllReadable(numeral, KindFields(result)) && AllReadable(numeral, ScoreOf(result, printed))
    ensures AllReadable(numeral, TimestampFields(result)) && AllReadable(numeral, StructuralFields(result, printed))
  {
    FirstKeysPlain();
    OtherKeysPlain();
    if result.kind.Some? {
      TextReadable(numeral, "kind", result.kind.value);
    }
    if result.score.Some? {
      TextReadable(numeral, "relevanceBand", RelevanceBand(result.score.value.value));
    }
    if result.sourceTimestamp.Some? {
      TextReadable(numeral, "sourceTimestamp", result.sourceTimestamp.value);
    }
  }

  lemma FieldsReadable(numeral: Numeral, result: SearchResult, index: nat, snippet: string, truncated: bool, printed: Printed)
    requires Prints(numeral, result, printed) && numeral(Decimal(index + 1)) == Some(Decimal(index + 1))
    ensures AllReadable(numeral, SearchFields(result, index, snippet, truncated, printed))
  {
    FirstKeysPlain();
    OtherKeysPlain();
    ConstantsReadable(numeral, truncated);
    OptionalReadable(numeral, result, printed);
    NumberReadable(numeral, "rank", index + 1);
    TextReadable(numeral, "recallId", result.id);
    TextReadable(numeral, "snippet", snippet);
    ReadableParts(numeral, [TrustField()], [NumberField("rank", index + 1)], [TextField("recallId", result.id)], KindFields(result),
                  ScoreOf(result, printed), TimestampFields(result), [TextField("snippet", snippet)],
                  StructuralFields(result, printed), NoticeFields(truncated));
  }

  lemma ReadableParts(
    numeral: Numeral, f: seq<Field>, g: seq<Field>, h: seq<Field>, i: seq<Field>, j: seq<Field>, k: seq<Field>, l: seq<Field>,
    m: seq<Field>, n: seq<Field>)
    requires AllReadable(numeral, f) && AllReadable(numeral, g) && AllReadable(numeral, h) && AllReadable(numeral, i)
    requires AllReadable(numeral, j) && AllReadable(numeral, k) && AllReadable(numeral, l) && AllReadable(numeral, m)
    requires AllReadable(numeral, n)
    ensures AllReadable(numeral, f + g + h + i + j + k + l + m + n)
  {
    ReadableConcat(numeral, f, g);
    ReadableConcat(numeral, f + g, h);
    ReadableConcat(numeral, f + g + h, i);
    ReadableConcat(numeral, f + g + h + i, j);
    ReadableConcat(numeral, f + g + h + i + j, k);
    ReadableConcat(numeral, f + g + h + i + j + k, l);
    ReadableConcat(numeral, f + g + h + i + j + k + l, m);
    ReadableConcat(numeral, f + g + h + i + j + k + l + m, n);
  }

  /** A search record, whole or cut, reads as its format, its trust and the properties of the result, whatever these
      say: its place in the list as its rank, and the snippet it was given. */
  lemma RecordReads(numeral: Numeral, result: SearchResult, index: nat, snippet: string, truncated: bool, printed: Printed)
    requires Prints(numeral, result, printed) && numeral(Decimal(index + 1)) == Some(Decimal(index + 1))
    ensures ParseText(numeral, Record(LayoutOf(result, index), snippet, truncated))
         == Some(ObjectOf([Member("format", String(FORMAT))] + MembersOf(SearchFields(result, index, snippet, truncated, printed))))
  {
    ConstantsReadable(numeral, truncated);
    FieldsReadable(numeral, result, index, snippet, truncated, printed);
    RecordParts(result, index, snippet, truncated, printed);
    ObjectTextRead(numeral, Record(LayoutOf(result, index), snippet, truncated), FormatField(),
                   SearchFields(result, index, snippet, truncated, printed));
  }
}
