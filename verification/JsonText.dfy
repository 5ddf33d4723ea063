/** JSON values and the text that `JSON.stringify` prints for them, compact or indented (RFC 8259). */
module JsonText {
  import opened Sequences
  import opened Json

  /** A JSON value. A number is the text it is printed with; an object lists its properties in their
      own order. */
  datatype Value =
    | Null
    | Boolean(truth: bool)
    | Number(text: string)
    | String(text: string)
    | Array(items: seq<Value>)
    | Object(members: seq<Member>)

  datatype Member = Member(key: string, value: Value)

  predicate NumberChar(c: char) {
    '0' <= c <= '9' || c == '-' || c == '+' || c == '.' || c == 'e' || c == 'E'
  }

  predicate NumberText(text: string) {
    text != [] && ('0' <= text[0] <= '9' || text[0] == '-') && forall i :: 0 <= i < |text| ==> NumberChar(text[i])
  }

  predicate DistinctKeys(members: seq<Member>) {
    forall i, j :: 0 <= i < j < |members| ==> members[i].key != members[j].key
  }

  /** Numbers look like numbers, and no object has the same key twice. */
  predicate WellFormed(value: Value)
    decreases value
  {
    match value
    case Number(text) => NumberText(text)
    case Array(items) => forall i :: 0 <= i < |items| ==> WellFormed(items[i])
    case Object(members) => DistinctKeys(members) && forall i :: 0 <= i < |members| ==> WellFormed(members[i].value)
    case _ => true
  }

  // ---------------------------------------------------------------------------------------
  // Printing
  // ---------------------------------------------------------------------------------------

  /** A line break and an indentation; nothing in compact text, which has a step of zero. */
  function Break(step: nat, indent: nat): string {
    if step == 0 then [] else ['\n'] + Repeat(' ', indent)
  }

  function Colon(step: nat): string {
    if step == 0 then [':'] else [':', ' ']
  }

  /** `JSON.stringify(value, null, step)`, with the value standing at an indentation. */
  function Print(step: nat, indent: nat, value: Value): string
    decreases value
  {
    match value
    case Null => "null"
    case Boolean(truth) => if truth then "true" else "false"
    case Number(text) => text
    case String(text) => Quote(false, text)
    case Array(items) =>
      ['['] + (if items == [] then [']']
               else Break(step, indent + step) + (Print(step, indent + step, items[0]) + PrintItems(step, indent, items[1..])))
    case Object(members) =>
      ['{'] + (if members == [] then ['}']
               else Break(step, indent + step) + (PrintMember(step, indent + step, members[0]) + PrintMembers(step, indent, members[1..])))
  }

  /** The items after the first, with the bracket that closes the array. */
  function PrintItems(step: nat, indent: nat, items: seq<Value>): string
    decreases items
  {
    if items == [] then Break(step, indent) + [']']
    else [','] + (Break(step, indent + step) + (Print(step, indent + step, items[0]) + PrintItems(step, indent, items[1..])))
  }

  function PrintMember(step: nat, indent: nat, m: Member): string
    decreases m
  {
    Quote(false, m.key) + (Colon(step) + Print(step, indent, m.value))
  }

  function PrintMembers(step: nat, indent: nat, members: seq<Member>): string
    decreases members
  {
    if members == [] then Break(step, indent) + ['}']
    else [','] + (Break(step, indent + step) + (PrintMember(step, indent + step, members[0]) + PrintMembers(step, indent, members[1..])))
  }

  // ---------------------------------------------------------------------------------------
  // Printed values
  // ---------------------------------------------------------------------------------------

  /** What can come after a value: nothing, a separator, a bracket or a line break. */
  ghost predicate Follows(rest: string) {
    rest == [] || rest[0] == ',' || rest[0] == ']' || rest[0] == '}' || rest[0] == '\n'
  }

  /** The first character of a printed value tells its kind. */
  ghost predicate Opens(value: Value, c: char) {
    match value
    case Null => c == 'n'
    case Boolean(truth) => c == if truth then 't' else 'f'
    case Number(text) => '0' <= c <= '9' || c == '-'
    case String(_) => c == '"'
    case Array(_) => c == '['
    case Object(_) => c == '{'
  }

  lemma PrintOpens(step: nat, indent: nat, value: Value)
    requires WellFormed(value)
    ensures Print(step, indent, value) != [] && Opens(value, Print(step, indent, value)[0])
  {
  }

  lemma OpenDecides(a: Value, b: Value, c: char)
    requires Opens(a, c) && Opens(b, c)
    ensures a.Null? == b.Null? && a.Boolean? == b.Boolean? && a.Number? == b.Number?
    ensures a.String? == b.String? && a.Array? == b.Array? && a.Object? == b.Object?
    ensures a.Boolean? ==> a == b
  {
  }

  lemma SameHead(s: string, x: string, t: string, y: string)
    requires s != [] && t != [] && s + x == t + y
    ensures s[0] == t[0]
  {
    assert (s + x)[0] == (t + y)[0];
  }

  lemma NumberNoLonger(s: string, x: string, t: string, y: string)
    requires NumberText(s) && NumberText(t) && Follows(x) && s + x == t + y
    ensures |s| >= |t|
  {
    var text := s + x;
    assert forall i :: 0 <= i < |t| ==> (t + y)[i] == t[i];
    assert |s| < |text| ==> text[|s|] == x[0];
  }

  lemma NumberDecodes(s: string, x: string, t: string, y: string)
    requires NumberText(s) && NumberText(t) && Follows(x) && Follows(y) && s + x == t + y
    ensures s == t && x == y
  {
    NumberNoLonger(s, x, t, y);
    NumberNoLonger(t, y, s, x);
    Prefixes(s, t, x, y);
  }

  ghost predicate AllWellFormed(items: seq<Value>) {
    forall i :: 0 <= i < |items| ==> WellFormed(items[i])
  }

  ghost predicate MembersWellFormed(members: seq<Member>) {
    forall i :: 0 <= i < |members| ==> WellFormed(members[i].value)
  }

  lemma ItemsFollow(step: nat, indent: nat, items: seq<Value>, x: string)
    ensures Follows(PrintItems(step, indent, items) + x)
  {
  }

  lemma MembersFollow(step: nat, indent: nat, members: seq<Member>, x: string)
    ensures Follows(PrintMembers(step, indent, members) + x)
  {
  }

  /** What is common in front can be taken away. */
  lemma Strip(front: string, p: string, r: string, x: string, q: string, s: string, y: string)
    requires front + (p + r) + x == front + (q + s) + y
    ensures p + (r + x) == q + (s + y)
  {
    Associate(front, p + r, x);
    Associate(front, q + s, y);
    Prefixes(front, front, p + r + x, q + s + y);
    Associate(p, r, x);
    Associate(q, s, y);
  }

  lemma StripBoth(c: char, front: string, p: string, r: string, x: string, q: string, s: string, y: string)
    requires [c] + (front + (p + r)) + x == [c] + (front + (q + s)) + y
    ensures p + (r + x) == q + (s + y)
  {
    Associate([c], front, p + r);
    Associate([c], front, q + s);
    Strip([c] + front, p, r, x, q, s, y);
  }

  /** A printed value is read back unambiguously, whatever can follow it. */
  lemma {:induction false} PrintDecodes(step: nat, indent: nat, a: Value, x: string, b: Value, y: string)
    requires WellFormed(a) && WellFormed(b) && Follows(x) && Follows(y)
    requires Print(step, indent, a) + x == Print(step, indent, b) + y
    ensures a == b && x == y
    decreases a, 1
  {
    PrintOpens(step, indent, a);
    PrintOpens(step, indent, b);
    SameHead(Print(step, indent, a), x, Print(step, indent, b), y);
    OpenDecides(a, b, Print(step, indent, a)[0]);
    match a
    case Null => Prefixes("null", "null", x, y);
    case Boolean(truth) => Prefixes(Print(step, indent, a), Print(step, indent, b), x, y);
    case Number(text) => NumberDecodes(text, x, b.text, y);
    case String(text) => QuoteDecodes(false, text, b.text, x, y);
    case Array(items) => ArrayDecodes(step, indent, items, x, b.items, y);
    case Object(members) => ObjectDecodes(step, indent, members, x, b.members, y);
  }

  /** An empty array is not the beginning of another. */
  lemma ArrayHeads(step: nat, indent: nat, a: seq<Value>, x: string, b: seq<Value>, y: string)
    requires AllWellFormed(b)
    requires a == [] && b != []
    ensures Print(step, indent, Array(a)) + x != Print(step, indent, Array(b)) + y
  {
    PrintOpens(step, indent + step, b[0]);
    var s, t := Print(step, indent, Array(a)) + x, Print(step, indent, Array(b)) + y;
    assert s[1] == ']';
    assert t[1] == if step == 0 then Print(step, indent + step, b[0])[0] else '\n';
  }

  lemma {:induction false} ArrayDecodes(step: nat, indent: nat, a: seq<Value>, x: string, b: seq<Value>, y: string)
    requires AllWellFormed(a) && AllWellFormed(b) && Follows(x) && Follows(y)
    requires Print(step, indent, Array(a)) + x == Print(step, indent, Array(b)) + y
    ensures a == b && x == y
    decreases Array(a), 0
  {
    if a != [] && b != [] {
      var p, r := Print(step, indent + step, a[0]), PrintItems(step, indent, a[1..]);
      var q, s := Print(step, indent + step, b[0]), PrintItems(step, indent, b[1..]);
      StripBoth('[', Break(step, indent + step), p, r, x, q, s, y);
      ItemsFollow(step, indent, a[1..], x);
      ItemsFollow(step, indent, b[1..], y);
      PrintDecodes(step, indent + step, a[0], r + x, b[0], s + y);
      ItemsDecode(step, indent, a[1..], x, b[1..], y);
      Whole(a, 1);
      Whole(b, 1);
    } else if a != [] {
      ArrayHeads(step, indent, b, y, a, x);
    } else if b != [] {
      ArrayHeads(step, indent, a, x, b, y);
    } else {
      Prefixes(Print(step, indent, Array(a)), Print(step, indent, Array(b)), x, y);
    }
  }

  lemma ItemsHeads(step: nat, indent: nat, a: seq<Value>, x: string, b: seq<Value>, y: string)
    requires a == [] && b != []
    ensures PrintItems(step, indent, a) + x != PrintItems(step, indent, b) + y
  {
    assert (PrintItems(step, indent, b) + y)[0] == ',';
    assert (PrintItems(step, indent, a) + x)[0] == if step == 0 then ']' else '\n';
  }

  lemma {:induction false} ItemsDecode(step: nat, indent: nat, a: seq<Value>, x: string, b: seq<Value>, y: string)
    requires AllWellFormed(a) && AllWellFormed(b) && Follows(x) && Follows(y)
    requires PrintItems(step, indent, a) + x == PrintItems(step, indent, b) + y
    ensures a == b && x == y
    decreases a, 0
  {
    if a != [] && b != [] {
      var p, r := Print(step, indent + step, a[0]), PrintItems(step, indent, a[1..]);
      var q, s := Print(step, indent + step, b[0]), PrintItems(step, indent, b[1..]);
      StripBoth(',', Break(step, indent + step), p, r, x, q, s, y);
      ItemsFollow(step, indent, a[1..], x);
      ItemsFollow(step, indent, b[1..], y);
      PrintDecodes(step, indent + step, a[0], r + x, b[0], s + y);
      ItemsDecode(step, indent, a[1..], x, b[1..], y);
      Whole(a, 1);
      Whole(b, 1);
    } else if a != [] {
      ItemsHeads(step, indent, b, y, a, x);
    } else if b != [] {
      ItemsHeads(step, indent, a, x, b, y);
    } else {
      Prefixes(PrintItems(step, indent, a), PrintItems(step, indent, b), x, y);
    }
  }

  lemma ObjectHeads(step: nat, indent: nat, a: seq<Member>, x: string, b: seq<Member>, y: string)
    requires a == [] && b != []
    ensures Print(step, indent, Object(a)) + x != Print(step, indent, Object(b)) + y
  {
    var s, t := Print(step, indent, Object(a)) + x, Print(step, indent, Object(b)) + y;
    assert PrintMember(step, indent + step, b[0])[0] == Quote(false, b[0].key)[0] == '"';
    assert s[1] == '}';
    assert t[1] == if step == 0 then '"' else '\n';
  }

  lemma {:induction false} ObjectDecodes(step: nat, indent: nat, a: seq<Member>, x: string, b: seq<Member>, y: string)
    requires MembersWellFormed(a) && MembersWellFormed(b) && Follows(x) && Follows(y)
    requires Print(step, indent, Object(a)) + x == Print(step, indent, Object(b)) + y
    ensures a == b && x == y
    decreases Object(a), 0
  {
    if a != [] && b != [] {
      var p, r := PrintMember(step, indent + step, a[0]), PrintMembers(step, indent, a[1..]);
      var q, s := PrintMember(step, indent + step, b[0]), PrintMembers(step, indent, b[1..]);
      StripBoth('{', Break(step, indent + step), p, r, x, q, s, y);
      MembersFollow(step, indent, a[1..], x);
      MembersFollow(step, indent, b[1..], y);
      MemberDecodes(step, indent + step, a[0], r + x, b[0], s + y);
      MembersDecode(step, indent, a[1..], x, b[1..], y);
      Whole(a, 1);
      Whole(b, 1);
    } else if a != [] {
      ObjectHeads(step, indent, b, y, a, x);
    } else if b != [] {
      ObjectHeads(step, indent, a, x, b, y);
    } else {
      Prefixes(Print(step, indent, Object(a)), Print(step, indent, Object(b)), x, y);
    }
  }

  lemma MembersHeads(step: nat, indent: nat, a: seq<Member>, x: string, b: seq<Member>, y: string)
    requires a == [] && b != []
    ensures PrintMembers(step, indent, a) + x != PrintMembers(step, indent, b) + y
  {
    assert (PrintMembers(step, indent, b) + y)[0] == ',';
    assert (PrintMembers(step, indent, a) + x)[0] == if step == 0 then '}' else '\n';
  }

  lemma {:induction false} MembersDecode(step: nat, indent: nat, a: seq<Member>, x: string, b: seq<Member>, y: string)
    requires MembersWellFormed(a) && MembersWellFormed(b) && Follows(x) && Follows(y)
    requires PrintMembers(step, indent, a) + x == PrintMembers(step, indent, b) + y
    ensures a == b && x == y
    decreases a, 0
  {
    if a != [] && b != [] {
      var p, r := PrintMember(step, indent + step, a[0]), PrintMembers(step, indent, a[1..]);
      var q, s := PrintMember(step, indent + step, b[0]), PrintMembers(step, indent, b[1..]);
      StripBoth(',', Break(step, indent + step), p, r, x, q, s, y);
      MembersFollow(step, indent, a[1..], x);
      MembersFollow(step, indent, b[1..], y);
      MemberDecodes(step, indent + step, a[0], r + x, b[0], s + y);
      MembersDecode(step, indent, a[1..], x, b[1..], y);
      Whole(a, 1);
      Whole(b, 1);
    } else if a != [] {
      MembersHeads(step, indent, b, y, a, x);
    } else if b != [] {
      MembersHeads(step, indent, a, x, b, y);
    } else {
      Prefixes(PrintMembers(step, indent, a), PrintMembers(step, indent, b), x, y);
    }
  }

  lemma {:induction false} MemberDecodes(step: nat, indent: nat, m: Member, x: string, n: Member, y: string)
    requires WellFormed(m.value) && WellFormed(n.value) && Follows(x) && Follows(y)
    requires PrintMember(step, indent, m) + x == PrintMember(step, indent, n) + y
    ensures m == n && x == y
    decreases m, 0
  {
    var p, q := Print(step, indent, m.value), Print(step, indent, n.value);
    Associate(Quote(false, m.key), Colon(step) + p, x);
    Associate(Quote(false, n.key), Colon(step) + q, y);
    QuoteDecodes(false, m.key, n.key, (Colon(step) + p) + x, (Colon(step) + q) + y);
    Associate(Colon(step), p, x);
    Associate(Colon(step), q, y);
    Prefixes(Colon(step), Colon(step), p + x, q + y);
    PrintDecodes(step, indent, m.value, x, n.value, y);
  }

  /** No two values are printed alike. */
  lemma PrintInjective(step: nat, a: Value, b: Value)
    requires WellFormed(a) && WellFormed(b) && Print(step, 0, a) == Print(step, 0, b)
    ensures a == b
  {
    Nothing(Print(step, 0, a));
    Nothing(Print(step, 0, b));
    PrintDecodes(step, 0, a, [], b, []);
  }

  // ---------------------------------------------------------------------------------------
  // Compact text
  // ---------------------------------------------------------------------------------------

  /** How much white space a text holds. */
  ghost function Blanks(text: string): nat {
    if text == [] then 0
    else (if text[0] in {' ', '\t', '\n', '\r'} then 1 else 0) + Blanks(text[1..])
  }

  lemma {:induction false} BlanksConcat(a: string, b: string)
    ensures Blanks(a + b) == Blanks(a) + Blanks(b)
  {
    if a == [] {
      Nothing(b);
    } else {
      assert (a + b)[1..] == a[1..] + b;
      BlanksConcat(a[1..], b);
    }
  }

  lemma OneBlank(c: char)
    ensures Blanks([c]) == if c in {' ', '\t', '\n', '\r'} then 1 else 0
  {
    assert [c][1..] == [];
  }

  lemma {:induction false} NumberBlanks(text: string)
    requires forall i :: 0 <= i < |text| ==> NumberChar(text[i])
    ensures Blanks(text) == 0
  {
    if text != [] {
      NumberBlanks(text[1..]);
    }
  }

  lemma WordBlanks()
    ensures Blanks("null") == Blanks("true") == Blanks("false") == 0
  {
  }

  lemma QuoteBlanks(text: string)
    ensures Blanks(Quote(false, text)) == Blanks(Escape(false, text))
  {
    OneBlank('"');
    BlanksConcat(['"'], Escape(false, text));
    BlanksConcat(['"'] + Escape(false, text), ['"']);
  }

  /** The white space in the strings of a value. */
  ghost function OwnBlanks(value: Value): nat
    decreases value
  {
    match value
    case String(text) => Blanks(Escape(false, text))
    case Array(items) => ItemsBlanks(items)
    case Object(members) => MembersBlanks(members)
    case _ => 0
  }

  ghost function ItemsBlanks(items: seq<Value>): nat
    decreases items
  {
    if items == [] then 0 else OwnBlanks(items[0]) + ItemsBlanks(items[1..])
  }

  ghost function MembersBlanks(members: seq<Member>): nat
    decreases members
  {
    if members == [] then 0
    else Blanks(Escape(false, members[0].key)) + OwnBlanks(members[0].value) + MembersBlanks(members[1..])
  }

  lemma Parts4(c: char, a: string, b: string)
    ensures Blanks([c] + ([] + (a + b))) == Blanks([c]) + Blanks(a) + Blanks(b)
  {
    Nothing(a + b);
    BlanksConcat([c], a + b);
    BlanksConcat(a, b);
  }

  /** Compact text holds no white space but that of the strings in it. */
  lemma {:induction false} CompactBlanks(indent: nat, value: Value)
    requires WellFormed(value)
    ensures Blanks(Print(0, indent, value)) == OwnBlanks(value)
    decreases value, 1
  {
    match value
    case Null => WordBlanks();
    case Boolean(truth) => WordBlanks();
    case Number(text) => NumberBlanks(text);
    case String(text) => QuoteBlanks(text);
    case Array(items) =>
      if items == [] {
        OneBlank('[');
        OneBlank(']');
        BlanksConcat(['['], [']']);
      } else {
        OneBlank('[');
        Parts4('[', Print(0, indent, items[0]), PrintItems(0, indent, items[1..]));
        CompactBlanks(indent, items[0]);
        CompactItems(indent, items[1..]);
      }
    case Object(members) =>
      if members == [] {
        OneBlank('{');
        OneBlank('}');
        BlanksConcat(['{'], ['}']);
      } else {
        OneBlank('{');
        Parts4('{', PrintMember(0, indent, members[0]), PrintMembers(0, indent, members[1..]));
        CompactMember(indent, members[0]);
        CompactMembers(indent, members[1..]);
      }
  }

  lemma {:induction false} CompactItems(indent: nat, items: seq<Value>)
    requires AllWellFormed(items)
    ensures Blanks(PrintItems(0, indent, items)) == ItemsBlanks(items)
    decreases items, 0
  {
    if items == [] {
      Nothing([']']);
      OneBlank(']');
    } else {
      OneBlank(',');
      Parts4(',', Print(0, indent, items[0]), PrintItems(0, indent, items[1..]));
      CompactBlanks(indent, items[0]);
      CompactItems(indent, items[1..]);
    }
  }

  lemma {:induction false} CompactMember(indent: nat, m: Member)
    requires WellFormed(m.value)
    ensures Blanks(PrintMember(0, indent, m)) == Blanks(Escape(false, m.key)) + OwnBlanks(m.value)
    decreases m, 0
  {
    QuoteBlanks(m.key);
    OneBlank(':');
    BlanksConcat(Quote(false, m.key), [':'] + Print(0, indent, m.value));
    BlanksConcat([':'], Print(0, indent, m.value));
    CompactBlanks(indent, m.value);
  }

  lemma {:induction false} CompactMembers(indent: nat, members: seq<Member>)
    requires MembersWellFormed(members)
    ensures Blanks(PrintMembers(0, indent, members)) == MembersBlanks(members)
    decreases members, 0
  {
    if members == [] {
      Nothing(['}']);
      OneBlank('}');
    } else {
      OneBlank(',');
      Parts4(',', PrintMember(0, indent, members[0]), PrintMembers(0, indent, members[1..]));
      CompactMember(indent, members[0]);
      CompactMembers(indent, members[1..]);
    }
  }
}
