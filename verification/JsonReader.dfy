/** A reader of JSON texts (RFC 8259) that meets what `EvidenceDocument` asks of `JSON.parse`. Which text a
    number is printed with once it was read is a parameter. */
module JsonReader {
  import opened Wrappers
  import opened Sequences
  import opened Decimals
  import opened Json
  import opened JsonText
  import CanonicalJson
  import EvidenceDocument

  /** What was read, and the text behind it. */
  datatype Parsed<T> = Parsed(value: T, rest: string)

  predicate Blank(c: char) {
    c == ' ' || c == '\n' || c == '\r' || c == '\t'
  }

  function SkipBlanks(text: string): (rest: string)
    ensures |rest| <= |text|
  {
    if text != [] && Blank(text[0]) then SkipBlanks(text[1..]) else text
  }

  // ---------------------------------------------------------------------------------------
  // Strings
  // ---------------------------------------------------------------------------------------

  function HexValue(c: char): (n: Option<nat>)
    ensures n.Some? ==> n.value < 16
  {
    if '0' <= c <= '9' then Some(c as int - '0' as int)
    else if 'a' <= c <= 'f' then Some(c as int - 'a' as int + 10)
    else if 'A' <= c <= 'F' then Some(c as int - 'A' as int + 10)
    else None
  }

  /** The four digits of a Unicode escape. Halves of surrogate pairs are not characters. */
  function ReadHex(text: string): (read: Option<Parsed<char>>)
    ensures read.Some? ==> |read.value.rest| < |text|
  {
    if |text| < 4 then None
    else
      var a, b, c, d := HexValue(text[0]), HexValue(text[1]), HexValue(text[2]), HexValue(text[3]);
      if a.None? || b.None? || c.None? || d.None? then None
      else
        var code := a.value * 0x1000 + b.value * 0x100 + c.value * 16 + d.value;
        if 0xD800 <= code < 0xE000 then None else Some(Parsed(code as char, text[4..]))
  }

  /** An escape behind its backslash. */
  function ReadEscape(text: string): (read: Option<Parsed<char>>)
    ensures read.Some? ==> |read.value.rest| < |text|
  {
    if text == [] then None
    else if text[0] == '"' || text[0] == '\\' || text[0] == '/' then Some(Parsed(text[0], text[1..]))
    else if text[0] == 'b' then Some(Parsed('\U{8}', text[1..]))
    else if text[0] == 'f' then Some(Parsed('\U{C}', text[1..]))
    else if text[0] == 'n' then Some(Parsed('\n', text[1..]))
    else if text[0] == 'r' then Some(Parsed('\r', text[1..]))
    else if text[0] == 't' then Some(Parsed('\t', text[1..]))
    else if text[0] == 'u' then ReadHex(text[1..])
    else None
  }

  /** A character of a string literal. */
  function ReadChar(text: string): (read: Option<Parsed<char>>)
    ensures read.Some? ==> |read.value.rest| < |text|
  {
    if text == [] || text[0] == '"' || text[0] as int < 0x20 then None
    else if text[0] == '\\' then ReadEscape(text[1..])
    else Some(Parsed(text[0], text[1..]))
  }

  /** A string literal behind its opening quote. */
  function ReadString(text: string): (read: Option<Parsed<string>>)
    ensures read.Some? ==> |read.value.rest| < |text|
    decreases |text|
  {
    if text != [] && text[0] == '"' then Some(Parsed([], text[1..]))
    else
      var first := ReadChar(text);
      if first.None? then None
      else
        var others := ReadString(first.value.rest);
        if others.None? then None
        else Some(Parsed([first.value.value] + others.value.value, others.value.rest))
  }

  // ---------------------------------------------------------------------------------------
  // Values
  // ---------------------------------------------------------------------------------------

  /** The text that the number of a token is printed with, and nothing if the token is no number. */
  type Numeral = string -> Option<string>

  function NumberRun(text: string): (n: nat)
    ensures n <= |text|
  {
    if text != [] && NumberChar(text[0]) then 1 + NumberRun(text[1..]) else 0
  }

  function ReadNumber(numeral: Numeral, text: string): (read: Option<Parsed<Value>>)
    ensures read.Some? ==> |read.value.rest| < |text|
  {
    var n := NumberRun(text);
    var printed := numeral(text[..n]);
    if n == 0 || printed.None? then None else Some(Parsed(Number(printed.value), text[n..]))
  }

  function ReadWord(word: string, value: Value, text: string): (read: Option<Parsed<Value>>)
    requires word != []
    ensures read.Some? ==> |read.value.rest| < |text|
  {
    if word <= text then Some(Parsed(value, text[|word|..])) else None
  }

  /** Setting a property of an object. */
  function Put(members: seq<Member>, m: Member): seq<Member> {
    if members == [] then [m]
    else if members[0].key == m.key then [m] + members[1..]
    else [members[0]] + Put(members[1..], m)
  }

  /** The properties set in the given order: the last value of a key counts. */
  function PutAll(members: seq<Member>): seq<Member> {
    if members == [] then [] else Put(PutAll(members[..|members| - 1]), members[|members| - 1])
  }

  function ReadValue(numeral: Numeral, text: string): (read: Option<Parsed<Value>>)
    ensures read.Some? ==> |read.value.rest| < |text|
    decreases |text|, 0
  {
    if text == [] then None
    else if text[0] == '"' then
      var literal := ReadString(text[1..]);
      if literal.None? then None else Some(Parsed(String(literal.value.value), literal.value.rest))
    else if text[0] == '[' then
      var items := ReadArray(numeral, SkipBlanks(text[1..]));
      if items.None? then None else Some(Parsed(Array(items.value.value), items.value.rest))
    else if text[0] == '{' then
      var members := ReadObject(numeral, SkipBlanks(text[1..]));
      if members.None? then None
      else Some(Parsed(Object(CanonicalJson.FromEntries(PutAll(members.value.value))), members.value.rest))
    else if text[0] == 'n' then ReadWord("null", Null, text)
    else if text[0] == 't' then ReadWord("true", Boolean(true), text)
    else if text[0] == 'f' then ReadWord("false", Boolean(false), text)
    else ReadNumber(numeral, text)
  }

  function ReadArray(numeral: Numeral, text: string): (read: Option<Parsed<seq<Value>>>)
    ensures read.Some? ==> |read.value.rest| < |text|
    decreases |text|, 2
  {
    if text != [] && text[0] == ']' then Some(Parsed([], text[1..])) else ReadItems(numeral, text)
  }

  /** Items up to the bracket that closes the array. */
  function ReadItems(numeral: Numeral, text: string): (read: Option<Parsed<seq<Value>>>)
    ensures read.Some? ==> |read.value.rest| < |text|
    decreases |text|, 1
  {
    var first := ReadValue(numeral, text);
    if first.None? then None
    else
      var rest := SkipBlanks(first.value.rest);
      if rest == [] then None
      else if rest[0] == ']' then Some(Parsed([first.value.value], rest[1..]))
      else if rest[0] == ',' then
        var others := ReadItems(numeral, SkipBlanks(rest[1..]));
        if others.None? then None else Some(Parsed([first.value.value] + others.value.value, others.value.rest))
      else None
  }

  function ReadObject(numeral: Numeral, text: string): (read: Option<Parsed<seq<Member>>>)
    ensures read.Some? ==> |read.value.rest| < |text|
    decreases |text|, 2
  {
    if text != [] && text[0] == '}' then Some(Parsed([], text[1..])) else ReadMembers(numeral, text)
  }

  function ReadMember(numeral: Numeral, text: string): (read: Option<Parsed<Member>>)
    ensures read.Some? ==> |read.value.rest| < |text|
    decreases |text|, 0
  {
    if text == [] || text[0] != '"' then None
    else
      var key := ReadString(text[1..]);
      if key.None? then None
      else
        var rest := SkipBlanks(key.value.rest);
        if rest == [] || rest[0] != ':' then None
        else
          var value := ReadValue(numeral, SkipBlanks(rest[1..]));
          if value.None? then None else Some(Parsed(Member(key.value.value, value.value.value), value.value.rest))
  }

  /** Members up to the brace that closes the object, as often as they are given. */
  function ReadMembers(numeral: Numeral, text: string): (read: Option<Parsed<seq<Member>>>)
    ensures read.Some? ==> |read.value.rest| < |text|
    decreases |text|, 1
  {
    var first := ReadMember(numeral, text);
    if first.None? then None
    else
      var rest := SkipBlanks(first.value.rest);
      if rest == [] then None
      else if rest[0] == '}' then Some(Parsed([first.value.value], rest[1..]))
      else if rest[0] == ',' then
        var others := ReadMembers(numeral, SkipBlanks(rest[1..]));
        if others.None? then None else Some(Parsed([first.value.value] + others.value.value, others.value.rest))
      else None
  }

  /** A text that is one value, with blanks around it. */
  function ParseText(numeral: Numeral, text: string): Option<Value> {
    var read := ReadValue(numeral, SkipBlanks(text));
    if read.None? || SkipBlanks(read.value.rest) != [] then None else Some(read.value.value)
  }

  // ---------------------------------------------------------------------------------------
  // Strings are read back
  // ---------------------------------------------------------------------------------------

  lemma HexDigitRead(n: nat)
    requires n < 16
    ensures HexValue(HexDigit(n)) == Some(n)
  {
  }

  lemma HexRead(code: nat, x: string)
    requires code < 0xD800
    ensures ReadHex(UnicodeEscape(code)[2..] + x) == Some(Parsed(code as char, x))
  {
    var text := UnicodeEscape(code)[2..] + x;
    HexDigits(code);
    HexDigitRead(code / 0x1000);
    HexDigitRead(code / 0x100 % 16);
    HexDigitRead(code / 16 % 16);
    HexDigitRead(code % 16);
    assert text[4..] == x;
  }

  lemma LongEscapeRead(code: nat, x: string)
    requires code < 0xD800
    ensures ReadChar(UnicodeEscape(code) + x) == Some(Parsed(code as char, x))
  {
    var text := UnicodeEscape(code) + x;
    HexRead(code, x);
    assert text[1..][1..] == UnicodeEscape(code)[2..] + x;
  }

  lemma ShortEscapeRead(letter: char, c: char, x: string)
    requires ReadEscape([letter] + x) == Some(Parsed(c, x))
    ensures ReadChar(['\\', letter] + x) == Some(Parsed(c, x))
  {
    assert (['\\', letter] + x)[1..] == [letter] + x;
  }

  lemma CharRead(oneLine: bool, c: char, x: string)
    ensures ReadChar(EscapeChar(oneLine, c) + x) == Some(Parsed(c, x))
  {
    var escape := EscapeChar(oneLine, c);
    if |escape| == 6 {
      LongEscapeRead(c as int, x);
    } else if |escape| == 2 {
      Behind(escape[1], x);
      ShortEscapeRead(escape[1], c, x);
    } else {
      Behind(c, x);
    }
  }

  lemma {:induction false} StringRead(oneLine: bool, text: string, x: string)
    ensures ReadString(Escape(oneLine, text) + (['"'] + x)) == Some(Parsed(text, x))
  {
    if text == [] {
      Nothing(['"'] + x);
      assert (['"'] + x)[1..] == x;
    } else {
      var first, others := EscapeChar(oneLine, text[0]), Escape(oneLine, text[1..]) + (['"'] + x);
      Associate(first, Escape(oneLine, text[1..]), ['"'] + x);
      CharRead(oneLine, text[0], others);
      StringRead(oneLine, text[1..], x);
      assert (first + others)[0] == first[0];
      FirstAndRest(text);
    }
  }

  /** A literal behind its opening quote. */
  lemma QuoteRead(oneLine: bool, text: string, x: string)
    ensures var literal := Quote(oneLine, text) + x;
            literal[0] == '"' && ReadString(literal[1..]) == Some(Parsed(text, x))
  {
    QuoteSplits(oneLine, text, x);
    Associate(Escape(oneLine, text), ['"'], x);
    StringRead(oneLine, text, x);
    Behind('"', Escape(oneLine, text) + ['"'] + x);
  }

  lemma Behind(c: char, rest: string)
    ensures ([c] + rest)[1..] == rest
  {
  }

  lemma FirstAndRest<T>(a: seq<T>)
    requires a != []
    ensures a == [a[0]] + a[1..]
  {
  }

  // ---------------------------------------------------------------------------------------
  // Blanks are skipped
  // ---------------------------------------------------------------------------------------

  ghost predicate NoBlank(text: string) {
    text == [] || !Blank(text[0])
  }

  lemma {:induction false} BlanksSkipped(n: nat, text: string)
    requires NoBlank(text)
    ensures SkipBlanks(Repeat(' ', n) + text) == text
  {
    if n == 0 {
      Nothing(text);
    } else {
      assert Repeat(' ', n) == [' '] + Repeat(' ', n - 1);
      Behind(' ', Repeat(' ', n - 1) + text);
      Associate([' '], Repeat(' ', n - 1), text);
      BlanksSkipped(n - 1, text);
    }
  }

  lemma BreakSkipped(step: nat, indent: nat, text: string)
    requires NoBlank(text)
    ensures SkipBlanks(Break(step, indent) + text) == text
  {
    if step == 0 {
      Nothing(text);
    } else {
      Associate(['\n'], Repeat(' ', indent), text);
      Behind('\n', Repeat(' ', indent) + text);
      BlanksSkipped(indent, text);
    }
  }

  lemma ColonSkipped(step: nat, text: string)
    requires NoBlank(text)
    ensures (Colon(step) + text)[0] == ':' && SkipBlanks((Colon(step) + text)[1..]) == text
  {
    if step == 0 {
      Behind(':', text);
    } else {
      assert (Colon(step) + text)[1..] == [' '] + text;
      Behind(' ', text);
    }
  }

  lemma PrintNoBlank(step: nat, indent: nat, value: Value, x: string)
    requires WellFormed(value)
    ensures Print(step, indent, value) + x != [] && NoBlank(Print(step, indent, value) + x)
    ensures Opens(value, (Print(step, indent, value) + x)[0])
  {
    PrintOpens(step, indent, value);
  }

  // ---------------------------------------------------------------------------------------
  // Numbers and words are read back
  // ---------------------------------------------------------------------------------------

  lemma {:induction false} NumberRunIs(token: string, x: string)
    requires forall i :: 0 <= i < |token| ==> NumberChar(token[i])
    requires Follows(x)
    ensures NumberRun(token + x) == |token|
  {
    if token == [] {
      Nothing(x);
    } else {
      FirstAndRest(token);
      Associate([token[0]], token[1..], x);
      Behind(token[0], token[1..] + x);
      NumberRunIs(token[1..], x);
    }
  }

  lemma TokenCut(token: string, x: string)
    ensures (token + x)[..|token|] == token && (token + x)[|token|..] == x
  {
  }

  lemma NumberRead(numeral: Numeral, token: string, x: string)
    requires NumberText(token) && numeral(token) == Some(token) && Follows(x)
    ensures ReadNumber(numeral, token + x) == Some(Parsed(Number(token), x))
  {
    NumberRunIs(token, x);
    TokenCut(token, x);
  }

  lemma WordRead(word: string, value: Value, x: string)
    requires word != []
    ensures ReadWord(word, value, word + x) == Some(Parsed(value, x))
  {
    TokenCut(word, x);
  }

  // ---------------------------------------------------------------------------------------
  // Objects hold each key once
  // ---------------------------------------------------------------------------------------

  lemma {:induction false} PutNew(members: seq<Member>, m: Member)
    requires forall x :: x in members ==> x.key != m.key
    ensures Put(members, m) == members + [m]
  {
    if members != [] {
      assert members[0] in members;
      PutNew(members[1..], m);
      FirstAndRest(members);
      Associate([members[0]], members[1..], [m]);
    }
  }

  lemma {:induction false} PutAllDistinct(members: seq<Member>)
    requires DistinctKeys(members)
    ensures PutAll(members) == members
  {
    if members != [] {
      var init := members[..|members| - 1];
      PutAllDistinct(init);
      forall x | x in init
        ensures x.key != members[|members| - 1].key
      {
        var i :| 0 <= i < |init| && init[i] == x;
      }
      PutNew(init, members[|members| - 1]);
      Whole(members, |members| - 1);
    }
  }

  // ---------------------------------------------------------------------------------------
  // Values are read back
  // ---------------------------------------------------------------------------------------

  /** The number texts that are printed as they are read. */
  function Printed(numeral: Numeral): EvidenceDocument.Numerals {
    (text: string) => numeral(text) == Some(text)
  }

  ghost predicate CanHold(numeral: Numeral, value: Value) {
    EvidenceDocument.Representable(Printed(numeral), value)
  }

  lemma ItemsStep(numeral: Numeral, text: string, first: Value, rest: string, x: string)
    requires ReadValue(numeral, text) == Some(Parsed(first, rest)) && SkipBlanks(rest) == [']'] + x
    ensures ReadItems(numeral, text) == Some(Parsed([first], x))
  {
    Behind(']', x);
  }

  lemma ItemsMore(
    numeral: Numeral, text: string, first: Value, rest: string, more: string, others: seq<Value>, x: string)
    requires ReadValue(numeral, text) == Some(Parsed(first, rest)) && rest == [','] + more
    requires ReadItems(numeral, SkipBlanks(more)) == Some(Parsed(others, x))
    ensures ReadItems(numeral, text) == Some(Parsed([first] + others, x))
  {
    Behind(',', more);
  }

  lemma MembersStep(numeral: Numeral, text: string, first: Member, rest: string, x: string)
    requires ReadMember(numeral, text) == Some(Parsed(first, rest)) && SkipBlanks(rest) == ['}'] + x
    ensures ReadMembers(numeral, text) == Some(Parsed([first], x))
  {
    Behind('}', x);
  }

  lemma MembersMore(
    numeral: Numeral, text: string, first: Member, rest: string, more: string, others: seq<Member>, x: string)
    requires ReadMember(numeral, text) == Some(Parsed(first, rest)) && rest == [','] + more
    requires ReadMembers(numeral, SkipBlanks(more)) == Some(Parsed(others, x))
    ensures ReadMembers(numeral, text) == Some(Parsed([first] + others, x))
  {
    Behind(',', more);
  }

  lemma ArrayStep(numeral: Numeral, text: string, front: string, inner: string, items: seq<Value>, x: string)
    requires text == ['['] + (front + inner) && SkipBlanks(front + inner) == inner && inner != [] && inner[0] != ']'
    requires ReadItems(numeral, inner) == Some(Parsed(items, x))
    ensures ReadValue(numeral, text) == Some(Parsed(Array(items), x))
  {
    Behind('[', front + inner);
  }

  lemma EmptyArray(numeral: Numeral, x: string)
    ensures ReadValue(numeral, ['['] + ([']'] + x)) == Some(Parsed(Array([]), x))
  {
    Behind('[', [']'] + x);
    Behind(']', x);
  }

  lemma ObjectStep(numeral: Numeral, text: string, front: string, inner: string, members: seq<Member>, x: string)
    requires text == ['{'] + (front + inner) && SkipBlanks(front + inner) == inner && inner != [] && inner[0] != '}'
    requires ReadMembers(numeral, inner) == Some(Parsed(members, x))
    ensures ReadValue(numeral, text) == Some(Parsed(Object(CanonicalJson.FromEntries(PutAll(members))), x))
  {
    Behind('{', front + inner);
  }

  lemma EmptyObject(numeral: Numeral, x: string)
    ensures ReadValue(numeral, ['{'] + (['}'] + x)) == Some(Parsed(Object([]), x))
  {
    Behind('{', ['}'] + x);
    Behind('}', x);
    assert CanonicalJson.FromEntries([]) == [];
  }

  lemma Regroup(c: char, front: string, p: string, r: string, x: string)
    ensures [c] + (front + (p + r)) + x == [c] + (front + (p + (r + x)))
  {
    Associate([c], front + (p + r), x);
    Associate(front, p + r, x);
    Associate(p, r, x);
  }

  ghost predicate AllHeld(numeral: Numeral, items: seq<Value>) {
    forall i :: 0 <= i < |items| ==> CanHold(numeral, items[i])
  }

  ghost predicate MembersHeld(numeral: Numeral, members: seq<Member>) {
    forall i :: 0 <= i < |members| ==> CanHold(numeral, members[i].value)
  }

  /** An item stands behind a break, which is skipped. */
  lemma ItemSkipped(numeral: Numeral, step: nat, indent: nat, item: Value, x: string)
    requires CanHold(numeral, item)
    ensures var inner := Print(step, indent, item) + x;
            inner != [] && inner[0] != ']' && SkipBlanks(Break(step, indent) + inner) == inner
  {
    EvidenceDocument.RepresentableWellFormed(Printed(numeral), item);
    PrintNoBlank(step, indent, item, x);
    BreakSkipped(step, indent, Print(step, indent, item) + x);
  }

  lemma MemberSkipped(step: nat, indent: nat, m: Member, x: string)
    ensures var inner := PrintMember(step, indent, m) + x;
            inner != [] && inner[0] != '}' && SkipBlanks(Break(step, indent) + inner) == inner
  {
    assert Quote(false, m.key)[0] == '"';
    BreakSkipped(step, indent, PrintMember(step, indent, m) + x);
  }

  /** A printed value is read back, whatever may follow it. */
  lemma {:induction false} ValueRead(numeral: Numeral, step: nat, indent: nat, value: Value, x: string)
    requires CanHold(numeral, value) && Follows(x)
    ensures ReadValue(numeral, Print(step, indent, value) + x) == Some(Parsed(value, x))
    decreases value, 1
  {
    EvidenceDocument.RepresentableWellFormed(Printed(numeral), value);
    PrintNoBlank(step, indent, value, x);
    match value
    case Null => WordRead("null", Null, x);
    case Boolean(truth) => WordRead(if truth then "true" else "false", value, x);
    case Number(text) => NumberRead(numeral, text, x);
    case String(text) => QuoteRead(false, text, x);
    case Array(items) =>
      if items == [] {
        Associate(['['], [']'], x);
        EmptyArray(numeral, x);
      } else {
        ItemsRead(numeral, step, indent, items, x);
        ArrayText(step, indent, items, x);
        ArrayOpens(numeral, step, indent + step, Print(step, indent, value) + x, items[0],
                   PrintItems(step, indent, items[1..]) + x, items, x);
      }
    case Object(members) =>
      PutAllDistinct(members);
      if members == [] {
        Associate(['{'], ['}'], x);
        EmptyObject(numeral, x);
      } else {
        MembersRead(numeral, step, indent, members, x);
        ObjectText(step, indent, members, x);
        ObjectOpens(numeral, step, indent + step, Print(step, indent, value) + x, members[0],
                    PrintMembers(step, indent, members[1..]) + x, members, x);
      }
  }

  /** The items after the first are read back if the next one is, and those after it. */
  lemma ItemsBehind(
    numeral: Numeral, step: nat, indent: nat, text: string, first: Value, others: seq<Value>, x: string)
    requires AllHeld(numeral, others)
    requires ReadValue(numeral, text) == Some(Parsed(first, PrintItems(step, indent, others) + x))
    requires others != [] ==>
               ReadItems(numeral, Print(step, indent + step, others[0]) + (PrintItems(step, indent, others[1..]) + x))
               == Some(Parsed(others, x))
    ensures ReadItems(numeral, text) == Some(Parsed([first] + others, x))
  {
    var rest := PrintItems(step, indent, others) + x;
    if others == [] {
      Associate(Break(step, indent), [']'], x);
      BreakSkipped(step, indent, [']'] + x);
      Nothing([first]);
      ItemsStep(numeral, text, first, rest, x);
    } else {
      var next, last := Print(step, indent + step, others[0]), PrintItems(step, indent, others[1..]);
      Regroup(',', Break(step, indent + step), next, last, x);
      ItemSkipped(numeral, step, indent + step, others[0], last + x);
      ItemsMore(numeral, text, first, rest, Break(step, indent + step) + (next + (last + x)), others, x);
    }
  }

  lemma {:induction false} ItemsRead(numeral: Numeral, step: nat, indent: nat, items: seq<Value>, x: string)
    requires items != [] && AllHeld(numeral, items) && Follows(x)
    ensures ReadItems(numeral, Print(step, indent + step, items[0]) + (PrintItems(step, indent, items[1..]) + x))
         == Some(Parsed(items, x))
    decreases items, 2
  {
    var others := items[1..];
    ItemsFollow(step, indent, others, x);
    ValueRead(numeral, step, indent + step, items[0], PrintItems(step, indent, others) + x);
    if others != [] {
      ItemsRead(numeral, step, indent, others, x);
    }
    FirstAndRest(items);
    ItemsBehind(numeral, step, indent, Print(step, indent + step, items[0]) + (PrintItems(step, indent, others) + x),
                items[0], others, x);
  }

  lemma ArrayText(step: nat, indent: nat, items: seq<Value>, x: string)
    requires items != []
    ensures Print(step, indent, Array(items)) + x
         == ['['] + (Break(step, indent + step)
                     + (Print(step, indent + step, items[0]) + (PrintItems(step, indent, items[1..]) + x)))
  {
    Regroup('[', Break(step, indent + step), Print(step, indent + step, items[0]), PrintItems(step, indent, items[1..]), x);
  }

  lemma ArrayOpens(
    numeral: Numeral, step: nat, indent: nat, text: string, first: Value, behind: string, items: seq<Value>, x: string)
    requires CanHold(numeral, first)
    requires text == ['['] + (Break(step, indent) + (Print(step, indent, first) + behind))
    requires ReadItems(numeral, Print(step, indent, first) + behind) == Some(Parsed(items, x))
    ensures ReadValue(numeral, text) == Some(Parsed(Array(items), x))
  {
    ItemSkipped(numeral, step, indent, first, behind);
    ArrayStep(numeral, text, Break(step, indent), Print(step, indent, first) + behind, items, x);
  }

  /** The members after the first are read back if the next one is, and those after it. */
  lemma MembersBehind(
    numeral: Numeral, step: nat, indent: nat, text: string, first: Member, others: seq<Member>, x: string)
    requires ReadMember(numeral, text) == Some(Parsed(first, PrintMembers(step, indent, others) + x))
    requires others != [] ==>
               ReadMembers(numeral, PrintMember(step, indent + step, others[0]) + (PrintMembers(step, indent, others[1..]) + x))
               == Some(Parsed(others, x))
    ensures ReadMembers(numeral, text) == Some(Parsed([first] + others, x))
  {
    var rest := PrintMembers(step, indent, others) + x;
    if others == [] {
      Associate(Break(step, indent), ['}'], x);
      BreakSkipped(step, indent, ['}'] + x);
      Nothing([first]);
      MembersStep(numeral, text, first, rest, x);
    } else {
      var next, last := PrintMember(step, indent + step, others[0]), PrintMembers(step, indent, others[1..]);
      Regroup(',', Break(step, indent + step), next, last, x);
      MemberSkipped(step, indent + step, others[0], last + x);
      MembersMore(numeral, text, first, rest, Break(step, indent + step) + (next + (last + x)), others, x);
    }
  }

  lemma {:induction false} MembersRead(numeral: Numeral, step: nat, indent: nat, members: seq<Member>, x: string)
    requires members != [] && MembersHeld(numeral, members) && Follows(x)
    ensures ReadMembers(numeral, PrintMember(step, indent + step, members[0]) + (PrintMembers(step, indent, members[1..]) + x))
         == Some(Parsed(members, x))
    decreases members, 2
  {
    var others := members[1..];
    MembersFollow(step, indent, others, x);
    MemberRead(numeral, step, indent + step, members[0], PrintMembers(step, indent, others) + x);
    if others != [] {
      MembersRead(numeral, step, indent, others, x);
    }
    FirstAndRest(members);
    MembersBehind(numeral, step, indent, PrintMember(step, indent + step, members[0]) + (PrintMembers(step, indent, others) + x),
                members[0], others, x);
  }

  lemma ObjectText(step: nat, indent: nat, members: seq<Member>, x: string)
    requires members != []
    ensures Print(step, indent, Object(members)) + x
         == ['{'] + (Break(step, indent + step)
                     + (PrintMember(step, indent + step, members[0]) + (PrintMembers(step, indent, members[1..]) + x)))
  {
    Regroup('{', Break(step, indent + step), PrintMember(step, indent + step, members[0]),
            PrintMembers(step, indent, members[1..]), x);
  }

  lemma ObjectOpens(
    numeral: Numeral, step: nat, indent: nat, text: string, first: Member, behind: string, members: seq<Member>, x: string)
    requires text == ['{'] + (Break(step, indent) + (PrintMember(step, indent, first) + behind))
    requires ReadMembers(numeral, PrintMember(step, indent, first) + behind) == Some(Parsed(members, x))
    ensures ReadValue(numeral, text) == Some(Parsed(Object(CanonicalJson.FromEntries(PutAll(members))), x))
  {
    MemberSkipped(step, indent, first, behind);
    ObjectStep(numeral, text, Break(step, indent), PrintMember(step, indent, first) + behind, members, x);
  }

  lemma MemberStep(numeral: Numeral, text: string, key: string, rest: string, value: Value, x: string)
    requires text != [] && text[0] == '"' && ReadString(text[1..]) == Some(Parsed(key, rest))
    requires rest != [] && rest[0] == ':' && ReadValue(numeral, SkipBlanks(rest[1..])) == Some(Parsed(value, x))
    ensures ReadMember(numeral, text) == Some(Parsed(Member(key, value), x))
  {
  }

  lemma MemberText(step: nat, indent: nat, m: Member, x: string)
    ensures PrintMember(step, indent, m) + x == Quote(false, m.key) + (Colon(step) + (Print(step, indent, m.value) + x))
  {
    Associate(Quote(false, m.key), Colon(step) + Print(step, indent, m.value), x);
    Associate(Colon(step), Print(step, indent, m.value), x);
  }

  lemma {:induction false} MemberRead(numeral: Numeral, step: nat, indent: nat, m: Member, x: string)
    requires CanHold(numeral, m.value) && Follows(x)
    ensures ReadMember(numeral, PrintMember(step, indent, m) + x) == Some(Parsed(m, x))
    decreases m, 2
  {
    var behind := Print(step, indent, m.value) + x;
    EvidenceDocument.RepresentableWellFormed(Printed(numeral), m.value);
    PrintNoBlank(step, indent, m.value, x);
    ValueRead(numeral, step, indent, m.value, x);
    MemberText(step, indent, m, x);
    QuoteRead(false, m.key, Colon(step) + behind);
    ColonSkipped(step, behind);
    MemberStep(numeral, PrintMember(step, indent, m) + x, m.key, Colon(step) + behind, m.value, x);
  }

  lemma PrintedParsed(numeral: Numeral, step: nat, value: Value)
    requires CanHold(numeral, value)
    ensures ParseText(numeral, Print(step, 0, value)) == Some(value)
  {
    EvidenceDocument.RepresentableWellFormed(Printed(numeral), value);
    PrintNoBlank(step, 0, value, []);
    ValueRead(numeral, step, 0, value, []);
    Nothing(Print(step, 0, value));
  }

  // ---------------------------------------------------------------------------------------
  // What is read is a value of the language
  // ---------------------------------------------------------------------------------------

  /** A number that was read is printed as a number text that is read alike. */
  ghost predicate Normalizes(numeral: Numeral) {
    forall token :: numeral(token).Some? ==>
      NumberText(numeral(token).value) && numeral(numeral(token).value) == numeral(token)
  }

  lemma {:induction false} PutElements(members: seq<Member>, m: Member)
    requires DistinctKeys(members)
    ensures DistinctKeys(Put(members, m))
    ensures forall x :: x in Put(members, m) ==> x == m || x in members
  {
    if members == [] {
    } else if members[0].key == m.key {
      CanonicalJson.DistinctConcat([m], members[1..]);
    } else {
      PutElements(members[1..], m);
      CanonicalJson.DistinctConcat([members[0]], Put(members[1..], m));
    }
  }

  lemma {:induction false} PutAllElements(members: seq<Member>)
    ensures DistinctKeys(PutAll(members))
    ensures forall x :: x in PutAll(members) ==> x in members
  {
    if members != [] {
      PutAllElements(members[..|members| - 1]);
      PutElements(PutAll(members[..|members| - 1]), members[|members| - 1]);
    }
  }

  lemma ObjectHeld(numeral: Numeral, members: seq<Member>)
    requires MembersHeld(numeral, members)
    ensures CanHold(numeral, Object(CanonicalJson.FromEntries(PutAll(members))))
  {
    var entries := PutAll(members);
    PutAllElements(members);
    CanonicalJson.FromEntriesElements(entries);
    CanonicalJson.FromEntriesAgain(entries);
    var listed := CanonicalJson.FromEntries(entries);
    forall i | 0 <= i < |listed|
      ensures CanHold(numeral, listed[i].value)
    {
      assert listed[i] in listed && listed[i] in members;
    }
  }

  lemma {:induction false} ReadHeld(numeral: Numeral, text: string)
    requires Normalizes(numeral)
    ensures ReadValue(numeral, text).Some? ==> CanHold(numeral, ReadValue(numeral, text).value.value)
    decreases |text|, 0
  {
    if text != [] && ReadValue(numeral, text).Some? {
      if text[0] == '[' {
        ArrayHeld(numeral, SkipBlanks(text[1..]));
      } else if text[0] == '{' {
        MembersReadHeld(numeral, SkipBlanks(text[1..]));
        ObjectHeld(numeral, ReadObject(numeral, SkipBlanks(text[1..])).value.value);
      }
    }
  }

  lemma {:induction false} ArrayHeld(numeral: Numeral, text: string)
    requires Normalizes(numeral)
    ensures ReadArray(numeral, text).Some? ==> AllHeld(numeral, ReadArray(numeral, text).value.value)
    ensures ReadItems(numeral, text).Some? ==> AllHeld(numeral, ReadItems(numeral, text).value.value)
    decreases |text|, 1
  {
    var first := ReadValue(numeral, text);
    ReadHeld(numeral, text);
    if first.Some? {
      var rest := SkipBlanks(first.value.rest);
      if rest != [] && rest[0] == ',' {
        ArrayHeld(numeral, SkipBlanks(rest[1..]));
      }
    }
  }

  lemma {:induction false} MemberReadHeld(numeral: Numeral, text: string)
    requires Normalizes(numeral)
    ensures ReadMember(numeral, text).Some? ==> CanHold(numeral, ReadMember(numeral, text).value.value.value)
    decreases |text|, 0
  {
    if ReadMember(numeral, text).Some? {
      var rest := SkipBlanks(ReadString(text[1..]).value.rest);
      ReadHeld(numeral, SkipBlanks(rest[1..]));
    }
  }

  lemma {:induction false} MembersReadHeld(numeral: Numeral, text: string)
    requires Normalizes(numeral)
    ensures ReadObject(numeral, text).Some? ==> MembersHeld(numeral, ReadObject(numeral, text).value.value)
    ensures ReadMembers(numeral, text).Some? ==> MembersHeld(numeral, ReadMembers(numeral, text).value.value)
    decreases |text|, 1
  {
    var first := ReadMember(numeral, text);
    MemberReadHeld(numeral, text);
    if first.Some? {
      var rest := SkipBlanks(first.value.rest);
      if rest != [] && rest[0] == ',' {
        MembersReadHeld(numeral, SkipBlanks(rest[1..]));
      }
    }
  }

  /** The reader as a parser of evidence. */
  function Parse(numeral: Numeral): EvidenceDocument.Parser {
    (text: string) => ParseText(numeral, text)
  }

  /** It reads back whatever is printed, and yields nothing but values of the language. */
  lemma ReaderReadsPrinted(numeral: Numeral, valid: EvidenceDocument.Validity)
    requires Normalizes(numeral)
    ensures EvidenceDocument.ReadsPrinted(Parse(numeral), Printed(numeral), valid)
  {
    forall text | Parse(numeral)(text).Some?
      ensures CanHold(numeral, Parse(numeral)(text).value)
    {
      ReadHeld(numeral, SkipBlanks(text));
    }
    forall value | EvidenceDocument.Representable(Printed(numeral), value)
      ensures Parse(numeral)(Print(2, 0, value)) == Some(value)
    {
      PrintedParsed(numeral, 2, value);
    }
  }
}
