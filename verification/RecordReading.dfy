/** What a reader of JSON finds in the one-line records of `src/presentation.js`. */
module RecordReading {
  import opened Wrappers
  import opened Sequences
  import opened Decimals
  import opened Json
  import opened JsonText
  import opened JsonReader
  import opened TokenEstimate
  import opened PagePatterns
  import opened TraversalPage
  import Presentation
  import CanonicalJson

  // ---------------------------------------------------------------------------------------
  // Objects on one line
  // ---------------------------------------------------------------------------------------

  /** A property, the text its value is printed with, and the value that is. */
  datatype Field = Field(key: string, text: string, value: Value)

  function FieldText(f: Field): string {
    ['"'] + (f.key + (['"', ':'] + f.text))
  }

  /** Further properties, each behind a comma. */
  function Tail(fields: seq<Field>): string {
    if fields == [] then [] else [','] + (FieldText(fields[0]) + Tail(fields[1..]))
  }

  function MembersOf(fields: seq<Field>): seq<Member> {
    if fields == [] then [] else [Member(fields[0].key, fields[0].value)] + MembersOf(fields[1..])
  }

  /** The object whose properties are set in the given order. */
  function ObjectOf(members: seq<Member>): Value {
    Object(CanonicalJson.FromEntries(PutAll(members)))
  }

  /** Text that needs no escapes. */
  ghost predicate Unescaped(text: string) {
    forall i :: 0 <= i < |text| ==> ' ' <= text[i] <= '~' && text[i] != '"' && text[i] != '\\'
  }

  lemma {:induction false} UnescapedStays(text: string)
    requires Unescaped(text)
    ensures Escape(true, text) == text
  {
    if text != [] {
      UnescapedStays(text[1..]);
      FirstAndRest(text);
    }
  }

  /** The key needs no escapes, and the text reads as the value. */
  ghost predicate Readable(numeral: Numeral, f: Field) {
    && Unescaped(f.key)
    && f.text != [] && !Blank(f.text[0])
    && forall x :: Follows(x) ==> ReadValue(numeral, f.text + x) == Some(Parsed(f.value, x))
  }

  ghost predicate AllReadable(numeral: Numeral, fields: seq<Field>) {
    forall i :: 0 <= i < |fields| ==> Readable(numeral, fields[i])
  }

  lemma {:induction false} TailConcat(a: seq<Field>, b: seq<Field>)
    ensures Tail(a + b) == Tail(a) + Tail(b)
  {
    if a == [] {
      Nothing(b);
      Nothing(Tail(b));
    } else {
      assert (a + b)[1..] == a[1..] + b;
      TailConcat(a[1..], b);
      Associate(FieldText(a[0]), Tail(a[1..]), Tail(b));
      Associate([','], FieldText(a[0]) + Tail(a[1..]), Tail(b));
    }
  }

  lemma OneTail(f: Field)
    ensures Tail([f]) == [','] + FieldText(f)
  {
    Nothing(FieldText(f));
  }

  lemma FieldParts(f: Field, x: string)
    ensures FieldText(f) + x == ['"'] + (f.key + (['"'] + ([':'] + (f.text + x))))
  {
    Associate(['"'], f.key + (['"', ':'] + f.text), x);
    Associate(f.key, ['"', ':'] + f.text, x);
    Associate(['"', ':'], f.text, x);
    Associate(['"'], [':'], f.text + x);
  }

  lemma FieldRead(numeral: Numeral, f: Field, x: string)
    requires Readable(numeral, f) && Follows(x)
    ensures ReadMember(numeral, FieldText(f) + x) == Some(Parsed(Member(f.key, f.value), x))
  {
    var behind := f.text + x;
    FieldParts(f, x);
    Behind('"', f.key + (['"'] + ([':'] + behind)));
    UnescapedStays(f.key);
    StringRead(true, f.key, [':'] + behind);
    Behind(':', behind);
    assert SkipBlanks(behind) == behind;
    MemberStep(numeral, FieldText(f) + x, f.key, [':'] + behind, f.value, x);
  }

  lemma TailFollows(fields: seq<Field>, x: string)
    ensures Follows(Tail(fields) + (['}'] + x))
    ensures fields != [] ==> Tail(fields) + (['}'] + x) == [','] + (FieldText(fields[0]) + (Tail(fields[1..]) + (['}'] + x)))
    ensures fields == [] ==> Tail(fields) + (['}'] + x) == ['}'] + x
  {
    if fields != [] {
      Associate([','], FieldText(fields[0]) + Tail(fields[1..]), ['}'] + x);
      Associate(FieldText(fields[0]), Tail(fields[1..]), ['}'] + x);
    } else {
      Nothing(['}'] + x);
    }
  }

  lemma FieldOpens(f: Field, x: string)
    ensures FieldText(f) + x != [] && (FieldText(f) + x)[0] == '"'
    ensures SkipBlanks(FieldText(f) + x) == FieldText(f) + x
  {
  }

  lemma FieldsBehind(numeral: Numeral, text: string, first: Member, others: seq<Field>, x: string)
    requires ReadMember(numeral, text) == Some(Parsed(first, Tail(others) + (['}'] + x)))
    requires others != [] ==>
               ReadMembers(numeral, FieldText(others[0]) + (Tail(others[1..]) + (['}'] + x))) == Some(Parsed(MembersOf(others), x))
    ensures ReadMembers(numeral, text) == Some(Parsed([first] + MembersOf(others), x))
  {
    var rest := Tail(others) + (['}'] + x);
    TailFollows(others, x);
    if others == [] {
      Nothing([first]);
      MembersStep(numeral, text, first, rest, x);
    } else {
      var more := FieldText(others[0]) + (Tail(others[1..]) + (['}'] + x));
      FieldOpens(others[0], Tail(others[1..]) + (['}'] + x));
      MembersMore(numeral, text, first, rest, more, MembersOf(others), x);
    }
  }

  lemma {:induction false} FieldsRead(numeral: Numeral, first: Field, others: seq<Field>, x: string)
    requires Readable(numeral, first) && AllReadable(numeral, others)
    ensures ReadMembers(numeral, FieldText(first) + (Tail(others) + (['}'] + x)))
         == Some(Parsed([Member(first.key, first.value)] + MembersOf(others), x))
    decreases |others|
  {
    TailFollows(others, x);
    FieldRead(numeral, first, Tail(others) + (['}'] + x));
    if others != [] {
      FieldsRead(numeral, others[0], others[1..], x);
    }
    FieldsBehind(numeral, FieldText(first) + (Tail(others) + (['}'] + x)), Member(first.key, first.value), others, x);
  }

  /** A text that consists of properties is read as the object that has them. */
  lemma ObjectRead(numeral: Numeral, first: Field, others: seq<Field>, x: string)
    requires Readable(numeral, first) && AllReadable(numeral, others)
    ensures ReadValue(numeral, ['{'] + (FieldText(first) + (Tail(others) + (['}'] + x))))
         == Some(Parsed(ObjectOf([Member(first.key, first.value)] + MembersOf(others)), x))
  {
    var inner := FieldText(first) + (Tail(others) + (['}'] + x));
    FieldsRead(numeral, first, others, x);
    FieldOpens(first, Tail(others) + (['}'] + x));
    Nothing(inner);
    ObjectStep(numeral, ['{'] + inner, [], inner, [Member(first.key, first.value)] + MembersOf(others), x);
  }

  // ---------------------------------------------------------------------------------------
  // Values
  // ---------------------------------------------------------------------------------------

  function TextField(key: string, text: string): Field {
    Field(key, Quote(true, text), String(text))
  }

  function NumberField(key: string, n: nat): Field {
    Field(key, Decimal(n), Number(Decimal(n)))
  }

  lemma TextReadable(numeral: Numeral, key: string, text: string)
    requires Unescaped(key)
    ensures Readable(numeral, TextField(key, text))
  {
    forall x | Follows(x)
      ensures ReadValue(numeral, Quote(true, text) + x) == Some(Parsed(String(text), x))
    {
      QuoteRead(true, text, x);
    }
    assert Quote(true, text)[0] == '"';
  }

  /** Text that needs no escapes, as a value. */
  function PlainField(key: string, text: string): Field {
    Field(key, ['"'] + (text + ['"']), String(text))
  }

  lemma PlainReadable(numeral: Numeral, key: string, text: string)
    requires Unescaped(key) && Unescaped(text)
    ensures Readable(numeral, PlainField(key, text))
  {
    UnescapedStays(text);
    Associate(['"'], text, ['"']);
    TextReadable(numeral, key, text);
  }

  lemma PlainFieldParts(key: string, text: string)
    ensures FieldText(PlainField(key, text)) == (['"'] + (key + ['"', ':'])) + (['"'] + (text + ['"']))
  {
    var quoted := ['"'] + (text + ['"']);
    Associate(key, ['"', ':'], quoted);
    Associate(['"'], key + ['"', ':'], quoted);
  }

  lemma DecimalText(n: nat)
    ensures NumberText(Decimal(n)) && '0' <= Decimal(n)[0] <= '9'
  {
    assert Decimal(n)[0] in Decimal(n);
    forall i | 0 <= i < |Decimal(n)|
      ensures NumberChar(Decimal(n)[i])
    {
      assert Decimal(n)[i] in Decimal(n);
    }
  }

  lemma DecimalRead(numeral: Numeral, text: string, x: string)
    requires NumberText(text) && '0' <= text[0] <= '9' && numeral(text) == Some(text) && Follows(x)
    ensures ReadValue(numeral, text + x) == Some(Parsed(Number(text), x))
  {
    NumberRead(numeral, text, x);
    assert (text + x)[0] == text[0];
  }

  lemma NumberReadable(numeral: Numeral, key: string, n: nat)
    requires Unescaped(key) && numeral(Decimal(n)) == Some(Decimal(n))
    ensures Readable(numeral, NumberField(key, n))
  {
    DecimalText(n);
    forall x | Follows(x)
      ensures ReadValue(numeral, Decimal(n) + x) == Some(Parsed(Number(Decimal(n)), x))
    {
      DecimalRead(numeral, Decimal(n), x);
    }
  }

  // ---------------------------------------------------------------------------------------
  // Traversal records
  // ---------------------------------------------------------------------------------------

  lemma TextFieldParts(key: string, text: string)
    ensures FieldText(TextField(key, text)) == (['"'] + (key + ['"', ':', '"'])) + (Escape(true, text) + ['"'])
  {
    var escaped := Escape(true, text);
    Associate(['"'], escaped, ['"']);
    Associate(['"', ':'], ['"'], escaped + ['"']);
    assert ['"', ':'] + ['"'] == ['"', ':', '"'];
    Associate(key, ['"', ':', '"'], escaped + ['"']);
    Associate(['"'], key + ['"', ':', '"'], escaped + ['"']);
  }

  lemma SixParts(open: string, a: string, b: string, quote: string, c: string, close: string, d: string, e: string)
    ensures (open + a) + b + (quote + c + d) + e + (quote + close) == open + ((a + (b + quote)) + ((c + (d + (e + quote))) + close))
  {
    var left, right := (open + a) + b + (quote + c + d) + e + (quote + close), open + ((a + (b + quote)) + ((c + (d + (e + quote))) + close));
    assert |left| == |right|;
  }

  lemma RecordParts(id: string, snippet: string)
    ensures RecordText(id, snippet)
         == ['{'] + (FieldText(TextField("id", id)) + (Tail([TextField("snippet", snippet)]) + ['}']))
  {
    TextFieldParts("id", id);
    TextFieldParts("snippet", snippet);
    OneTail(TextField("snippet", snippet));
    assert OPEN_ID == ['{'] + (['"'] + ("id" + ['"', ':', '"']));
    assert OPEN_SNIPPET == ['"'] + [','] + (['"'] + ("snippet" + ['"', ':', '"']));
    assert CLOSE == ['"'] + ['}'];
    SixParts(['{'], ['"'] + ("id" + ['"', ':', '"']), Escape(true, id), ['"'], [','], ['}'],
             ['"'] + ("snippet" + ['"', ':', '"']), Escape(true, snippet));
  }

  lemma {:induction false} DigitsOnly(key: string)
    ensures CanonicalJson.DigitsValue(key).Some? ==> forall i :: 0 <= i < |key| ==> '0' <= key[i] <= '9'
  {
    if key != [] {
      DigitsOnly(key[..|key| - 1]);
    }
  }

  lemma NoIndex(key: string)
    requires key != [] && 'a' <= key[0] <= 'z'
    ensures CanonicalJson.ArrayIndex(key) == None
  {
    DigitsOnly(key);
  }

  lemma TwoMembers(members: seq<Member>)
    requires |members| == 2 && members[0].key == "id" && members[1].key == "snippet"
    ensures ObjectOf(members) == Object(members)
  {
    assert "id"[0] == 'i' && "snippet"[0] == 's';
    PutAllDistinct(members);
    NoIndex("id");
    NoIndex("snippet");
    CanonicalJson.SelectAll(members, false);
    Nothing(members);
  }

  /** The identifier and a snippet. */
  function RecordOf(id: string, snippet: string): Value {
    Object([Member("id", String(id)), Member("snippet", String(snippet))])
  }

  lemma WholeText(numeral: Numeral, text: string, value: Value)
    requires text != [] && !Blank(text[0]) && ReadValue(numeral, text) == Some(Parsed(value, []))
    ensures ParseText(numeral, text) == Some(value)
  {
  }

  lemma ObjectTextRead(numeral: Numeral, text: string, first: Field, others: seq<Field>)
    requires Readable(numeral, first) && AllReadable(numeral, others)
    requires text == ['{'] + (FieldText(first) + (Tail(others) + ['}']))
    ensures ParseText(numeral, text) == Some(ObjectOf([Member(first.key, first.value)] + MembersOf(others)))
  {
    Nothing(['}']);
    ObjectRead(numeral, first, others, []);
    WholeText(numeral, text, ObjectOf([Member(first.key, first.value)] + MembersOf(others)));
  }

  lemma OneMember(f: Field)
    ensures MembersOf([f]) == [Member(f.key, f.value)]
  {
    Nothing([Member(f.key, f.value)]);
  }

  lemma TwoFieldsRead(numeral: Numeral, text: string, first: Field, second: Field)
    requires Readable(numeral, first) && Readable(numeral, second) && first.key == "id" && second.key == "snippet"
    requires text == ['{'] + (FieldText(first) + (Tail([second]) + ['}']))
    ensures ParseText(numeral, text) == Some(Object([Member("id", first.value), Member("snippet", second.value)]))
  {
    ObjectTextRead(numeral, text, first, [second]);
    OneMember(second);
    TwoMembers([Member(first.key, first.value), Member(second.key, second.value)]);
    assert [Member(first.key, first.value)] + [Member(second.key, second.value)]
        == [Member(first.key, first.value), Member(second.key, second.value)];
  }

  /** A traversal record reads as its identifier and its snippet, whatever these say. */
  lemma RecordReads(numeral: Numeral, id: string, snippet: string)
    ensures ParseText(numeral, RecordText(id, snippet)) == Some(RecordOf(id, snippet))
  {
    TextReadable(numeral, "id", id);
    TextReadable(numeral, "snippet", snippet);
    RecordParts(id, snippet);
    TwoFieldsRead(numeral, RecordText(id, snippet), TextField("id", id), TextField("snippet", snippet));
  }

  // ---------------------------------------------------------------------------------------
  // Traversal pages
  // ---------------------------------------------------------------------------------------

  /** `text.split("\n")` */
  function Lines(text: string): (lines: seq<string>)
    ensures |lines| > 0
  {
    if text == [] then [[]]
    else
      var rest := Lines(text[1..]);
      if text[0] == '\n' then [[]] + rest else [[text[0]] + rest[0]] + rest[1..]
  }

  lemma LinesCons(c: char, text: string)
    ensures Lines([c] + text)
         == if c == '\n' then [[]] + Lines(text) else [[c] + Lines(text)[0]] + Lines(text)[1..]
  {
    Behind(c, text);
  }

  lemma FirstLineGrows(c: char, a: seq<string>, b: seq<string>)
    requires a != []
    ensures [[c] + (a + b)[0]] + (a + b)[1..] == [[c] + a[0]] + a[1..] + b
  {
  }

  lemma {:induction false} LinesConcat(a: string, b: string)
    ensures Lines(a + (['\n'] + b)) == Lines(a) + Lines(b)
  {
    if a == [] {
      Nothing(['\n'] + b);
      LinesCons('\n', b);
    } else {
      var c, rest := a[0], a[1..];
      LinesConcat(rest, b);
      FirstAndRest(a);
      Associate([c], rest, ['\n'] + b);
      LinesCons(c, rest);
      LinesCons(c, rest + (['\n'] + b));
      FirstLineGrows(c, Lines(rest), Lines(b));
      Associate([[]], Lines(rest), Lines(b));
    }
  }

  lemma {:induction false} OneLineText(text: string)
    requires '\n' !in text
    ensures Lines(text) == [text]
  {
    if text != [] {
      assert text[0] in text;
      OneLineText(text[1..]);
      FirstAndRest(text);
      LinesCons(text[0], text[1..]);
    }
  }

  ghost predicate OnOneLine(lines: seq<Line>) {
    forall i :: 0 <= i < |lines| ==> '\n' !in lines[i].text
  }

  lemma {:induction false} LinesOfText(lines: seq<Line>)
    requires lines != [] && OnOneLine(lines)
    ensures |Lines(LinesText(lines))| == |lines|
    ensures forall i :: 0 <= i < |lines| ==> Lines(LinesText(lines))[i] == lines[i].text
    decreases |lines|
  {
    OneLineText(lines[0].text);
    if |lines| > 1 {
      LinesOfText(lines[1..]);
      Associate(lines[0].text, ['\n'], LinesText(lines[1..]));
      LinesConcat(lines[0].text, LinesText(lines[1..]));
    }
  }

  lemma EndsLine(a: string, b: string) returns (head: string)
    requires b != [] && b[|b| - 1] == '\n'
    ensures a + b == head + ['\n']
  {
    head := (a + b)[..|a + b| - 1];
    Whole(a + b, |a + b| - 1);
  }

  /** In front of its records, a page ends a line. */
  lemma HeadEndsLine(details: Details, boundary: string, shown: nat, count: nat) returns (head: string)
    ensures PageHead(details, boundary, shown, count) == head + ['\n']
  {
    var front := Preamble(details, count) + "\n" + PagingFront(details, shown, count);
    var continuation := ContinuationText(boundary, DirectionOf(details));
    if HasMore(details, shown, count) {
      Associate(front, continuation, ".\n\n");
      head := EndsLine(front + continuation, ".\n\n");
    } else {
      head := EndsLine(front, "\n\n");
    }
  }

  lemma LastLines(head: string, lines: seq<Line>, i: nat)
    requires i < |lines| && OnOneLine(lines)
    ensures var all := Lines(head + ['\n'] + LinesText(lines)); |lines| < |all| && all[|all| - |lines| + i] == lines[i].text
  {
    Associate(head, ['\n'], LinesText(lines));
    LinesConcat(head, LinesText(lines));
    LinesOfText(lines);
  }

  lemma RecordsOnOneLine(results: seq<Traversed>)
    ensures OnOneLine(LinesOf(results))
  {
    forall i | 0 <= i < |results|
      ensures '\n' !in LinesOf(results)[i].text
    {
      RecordSingleLine(results[i].id, Snippet(results[i].text));
    }
  }

  /** The `i`-th of the last `n` lines reads as a handle and a snippet: the first 72 characters of the text, every
      run of white space in them a blank. */
  ghost predicate LineReads(numeral: Numeral, lines: seq<string>, n: nat, i: nat, result: Traversed) {
    var start := if |result.text| <= 72 then result.text else result.text[..72];
    i < n < |lines| && ParseText(numeral, lines[|lines| - n + i]) == Some(RecordOf(result.id, Collapse(start, false)))
  }

  lemma RecordLineReads(numeral: Numeral, lines: seq<string>, n: nat, i: nat, result: Traversed)
    requires i < n < |lines| && lines[|lines| - n + i] == LineOf(result).text
    ensures LineReads(numeral, lines, n, i, result)
  {
    RecordReads(numeral, result.id, Snippet(result.text));
  }

  /** A page consists of what stands before its records and of these. */
  lemma PageSplits(details: Details, lines: seq<Line>, n: nat) returns (front: string)
    requires 0 < n <= |lines|
    ensures Page(details, lines, n) == front + ['\n'] + LinesText(lines[..n])
  {
    front := HeadEndsLine(details, lines[n - 1].id, n, |lines|);
  }

  lemma PageTextSplits(u: Unicode, details: Details, results: seq<Traversed>, tokenLimit: Numeric, n: nat) returns (front: string)
    requires 0 < n == Shown(u, details, results, tokenLimit)
    ensures TraversalText(u, details, results, tokenLimit) == front + ['\n'] + LinesText(LinesOf(results)[..n])
  {
    front := PageSplits(details, LinesOf(results), n);
  }

  lemma LastLinesRead(numeral: Numeral, front: string, page: string, results: seq<Traversed>, n: nat, i: nat)
    requires i < n <= |results| && page == front + ['\n'] + LinesText(LinesOf(results)[..n])
    ensures LineReads(numeral, Lines(page), n, i, results[i])
  {
    RecordsOnOneLine(results);
    LastLines(front, LinesOf(results)[..n], i);
    RecordLineReads(numeral, Lines(page), n, i, results[i]);
  }

  /** The last lines of a page are the records of the displayed results. */
  lemma PageReads(u: Unicode, numeral: Numeral, details: Details, results: seq<Traversed>, tokenLimit: Numeric, i: nat)
    requires i < Shown(u, details, results, tokenLimit)
    ensures var page, n := TraversalText(u, details, results, tokenLimit), Shown(u, details, results, tokenLimit);
            LineReads(numeral, Lines(page), n, i, results[i])
  {
    var n := Shown(u, details, results, tokenLimit);
    var front := PageTextSplits(u, details, results, tokenLimit, n);
    LastLinesRead(numeral, front, TraversalText(u, details, results, tokenLimit), results, n, i);
  }
}
