/** Canonical JSON of `eval/retrieval/schema.js`: object keys are sorted at every level, then the value is
    printed without white space. */
module CanonicalJson {
  import opened Wrappers
  import opened Sequences
  import opened Decimals
  import opened Json
  import opened JsonText

  // ---------------------------------------------------------------------------------------
  // Key order
  // ---------------------------------------------------------------------------------------

  /** The UTF-16 code units of a character. */
  function CodeUnits(c: char): (units: seq<nat>)
    ensures units != []
  {
    var code := c as int;
    if code < 0x1_0000 then [code] else [0xD800 + (code - 0x1_0000) / 0x400, 0xDC00 + (code - 0x1_0000) % 0x400]
  }

  function Units(text: string): seq<nat> {
    if text == [] then [] else CodeUnits(text[0]) + Units(text[1..])
  }

  predicate UnitsBefore(a: seq<nat>, b: seq<nat>) {
    b != [] && (a == [] || a[0] < b[0] || (a[0] == b[0] && UnitsBefore(a[1..], b[1..])))
  }

  /** The order of `sort()` without a comparison function. */
  predicate KeyBefore(a: string, b: string) {
    UnitsBefore(Units(a), Units(b))
  }

  const MAX_INDEX: nat := 0xFFFF_FFFE

  function DigitsValue(digits: string): Option<nat> {
    if digits == [] then Some(0)
    else
      var front := DigitsValue(digits[..|digits| - 1]);
      var last := digits[|digits| - 1];
      if front.Some? && '0' <= last <= '9' then Some(front.value * 10 + (last as int - '0' as int)) else None
  }

  /** The array index a key stands for, if it does: objects list such keys first, by value. */
  function ArrayIndex(key: string): Option<nat> {
    if key == [] || (key[0] == '0' && |key| > 1) then None
    else
      var value := DigitsValue(key);
      if value.Some? && value.value <= MAX_INDEX then value else None
  }

  function IndexOf(key: string): nat {
    if ArrayIndex(key).Some? then ArrayIndex(key).value else 0
  }

  // ---------------------------------------------------------------------------------------
  // Canonical form
  // ---------------------------------------------------------------------------------------

  type Order = (string, string) -> bool

  function Insert(before: Order, m: Member, sorted: seq<Member>): seq<Member> {
    if sorted == [] || before(m.key, sorted[0].key) then [m] + sorted
    else [sorted[0]] + Insert(before, m, sorted[1..])
  }

  function Sort(before: Order, members: seq<Member>): seq<Member> {
    if members == [] then [] else Insert(before, members[0], Sort(before, members[1..]))
  }

  function Select(members: seq<Member>, indices: bool): seq<Member> {
    if members == [] then []
    else (if ArrayIndex(members[0].key).Some? == indices then [members[0]] else []) + Select(members[1..], indices)
  }

  /** `Object.fromEntries`: the properties in the order in which the new object lists them. */
  function FromEntries(entries: seq<Member>): seq<Member> {
    Sort((a, b) => IndexOf(a) < IndexOf(b), Select(entries, true)) + Select(entries, false)
  }

  function Arrange(members: seq<Member>): seq<Member> {
    FromEntries(Sort(KeyBefore, members))
  }

  function Canonicalize(value: Value): Value
    decreases value
  {
    match value
    case Array(items) => Array(CanonicalItems(items))
    case Object(members) => Object(Arrange(CanonicalMembers(members)))
    case _ => value
  }

  function CanonicalItems(items: seq<Value>): (canonical: seq<Value>)
    ensures |canonical| == |items|
    ensures forall i :: 0 <= i < |items| ==> canonical[i] == Canonicalize(items[i])
    decreases items
  {
    seq(|items|, i requires 0 <= i < |items| => Canonicalize(items[i]))
  }

  function CanonicalMembers(members: seq<Member>): (canonical: seq<Member>)
    ensures |canonical| == |members|
    ensures forall i :: 0 <= i < |members| ==> canonical[i] == Member(members[i].key, Canonicalize(members[i].value))
    decreases members
  {
    seq(|members|, i requires 0 <= i < |members| => Member(members[i].key, Canonicalize(members[i].value)))
  }

  function CanonicalText(value: Value): string {
    Print(0, 0, Canonicalize(value))
  }

  // ---------------------------------------------------------------------------------------
  // What is meant
  // ---------------------------------------------------------------------------------------

  /** The position of the first member with this key, or the length. */
  function Find(members: seq<Member>, key: string): (j: nat)
    ensures j <= |members|
    ensures j < |members| ==> members[j].key == key
    ensures forall k :: 0 <= k < j ==> members[k].key != key
  {
    if members == [] || members[0].key == key then 0 else 1 + Find(members[1..], key)
  }

  /** Equal up to the order of object keys, at every level: objects have the same keys, with the same
      values. */
  ghost predicate Same(a: Value, b: Value)
    decreases a
  {
    match a
    case Array(items) => b.Array? && |items| == |b.items| && forall i :: 0 <= i < |items| ==> Same(items[i], b.items[i])
    case Object(members) =>
      && b.Object?
      && (forall i :: 0 <= i < |members| ==> Find(b.members, members[i].key) < |b.members|)
      && (forall j :: 0 <= j < |b.members| ==> Find(members, b.members[j].key) < |members|)
      && (forall i :: 0 <= i < |members| ==> Same(members[i].value, b.members[Find(b.members, members[i].key)].value))
    case _ => a == b
  }

  // ---------------------------------------------------------------------------------------
  // The order of keys is total
  // ---------------------------------------------------------------------------------------

  lemma {:induction false} UnitsOrdered(a: seq<nat>, b: seq<nat>)
    ensures a == b || UnitsBefore(a, b) || UnitsBefore(b, a)
    ensures !(UnitsBefore(a, b) && UnitsBefore(b, a))
    decreases |a|
  {
    if a != [] {
      if b != [] && a[0] == b[0] {
        UnitsOrdered(a[1..], b[1..]);
        Whole(a, 1);
        Whole(b, 1);
      }
    }
  }

  lemma {:induction false} UnitsTransitive(a: seq<nat>, b: seq<nat>, c: seq<nat>)
    requires UnitsBefore(a, b) && UnitsBefore(b, c)
    ensures UnitsBefore(a, c)
    decreases |a|
  {
    if a != [] && a[0] == b[0] == c[0] {
      UnitsTransitive(a[1..], b[1..], c[1..]);
    }
  }

  lemma {:induction false} UnitsInjective(a: string, b: string)
    requires Units(a) == Units(b)
    ensures a == b
    decreases |a|
  {
    assert (a != [] ==> Units(a) != []) && (b != [] ==> Units(b) != []);
    if a != [] && b != [] {
      var rest, rest' := Units(a[1..]), Units(b[1..]);
      assert (CodeUnits(a[0]) + rest)[0] == (CodeUnits(b[0]) + rest')[0];
      assert |CodeUnits(a[0])| == |CodeUnits(b[0])|;
      Prefixes(CodeUnits(a[0]), CodeUnits(b[0]), rest, rest');
      CodeUnitsInjective(a[0], b[0]);
      UnitsInjective(a[1..], b[1..]);
      Whole(a, 1);
      Whole(b, 1);
    }
  }

  lemma CodeUnitsInjective(c: char, d: char)
    requires CodeUnits(c) == CodeUnits(d)
    ensures c == d
  {
    if |CodeUnits(c)| == 2 {
      assert CodeUnits(c)[0] == CodeUnits(d)[0] && CodeUnits(c)[1] == CodeUnits(d)[1];
    } else {
      assert CodeUnits(c)[0] == CodeUnits(d)[0];
    }
  }

  ghost predicate StrictTotal(before: Order) {
    && (forall a, b :: a == b || before(a, b) || before(b, a))
    && (forall a, b :: !(before(a, b) && before(b, a)))
    && (forall a, b, c :: before(a, b) && before(b, c) ==> before(a, c))
  }

  lemma KeyOrderTotal()
    ensures StrictTotal(KeyBefore)
  {
    forall a, b
      ensures a == b || KeyBefore(a, b) || KeyBefore(b, a)
      ensures !(KeyBefore(a, b) && KeyBefore(b, a))
    {
      UnitsOrdered(Units(a), Units(b));
      if Units(a) == Units(b) {
        UnitsInjective(a, b);
      }
    }
    forall a, b, c | KeyBefore(a, b) && KeyBefore(b, c)
      ensures KeyBefore(a, c)
    {
      UnitsTransitive(Units(a), Units(b), Units(c));
    }
  }

  /** Characters in UTF-16 order: those beyond the Basic Multilingual Plane, which take two surrogates, come before the
      last part of it. */
  predicate CharBefore(c: char, d: char) {
    if c as int >= 0x1_0000 && d as int < 0x1_0000 then d as int >= 0xE000
    else if c as int < 0x1_0000 && d as int >= 0x1_0000 then c as int < 0xD800
    else c < d
  }

  lemma UnitsOfFirst(text: string)
    requires text != []
    ensures Units(text)[0] == CodeUnits(text[0])[0]
    ensures |CodeUnits(text[0])| == 1 ==> Units(text)[1..] == Units(text[1..])
    ensures |CodeUnits(text[0])| == 2 ==>
              |Units(text)| >= 2 && Units(text)[1] == CodeUnits(text[0])[1] && Units(text)[1..][1..] == Units(text[1..])
  {
    var units, rest := CodeUnits(text[0]), Units(text[1..]);
    assert |units| == 1 ==> (units + rest)[1..] == rest;
    assert |units| == 2 ==> (units + rest)[1..][1..] == rest;
  }

  lemma CharOrder(c: char, d: char)
    ensures var a, b := CodeUnits(c), CodeUnits(d);
            && (c == d <==> a == b)
            && (CharBefore(c, d) <==> a[0] < b[0] || (a[0] == b[0] && |a| == 2 && |b| == 2 && a[1] < b[1]))
            && (a[0] == b[0] ==> |a| == |b|)
  {
    var m, n := c as int - 0x1_0000, d as int - 0x1_0000;
    assert m >= 0 ==> m == m / 0x400 * 0x400 + m % 0x400;
    assert n >= 0 ==> n == n / 0x400 * 0x400 + n % 0x400;
  }

  lemma PairBefore(s: seq<nat>, t: seq<nat>)
    requires |s| >= 2 && |t| >= 2
    ensures UnitsBefore(s, t) <==>
              s[0] < t[0] || (s[0] == t[0] && (s[1] < t[1] || (s[1] == t[1] && UnitsBefore(s[1..][1..], t[1..][1..]))))
  {
  }

  /** Keys are compared character by character, in UTF-16 order. */
  lemma KeyBeforeIff(a: string, b: string)
    ensures KeyBefore(a, b) <==>
              b != [] && (a == [] || CharBefore(a[0], b[0]) || (a[0] == b[0] && KeyBefore(a[1..], b[1..])))
  {
    if a != [] && b != [] {
      UnitsOfFirst(a);
      UnitsOfFirst(b);
      CharOrder(a[0], b[0]);
      if |CodeUnits(a[0])| == 2 && |CodeUnits(b[0])| == 2 {
        PairBefore(Units(a), Units(b));
        assert a[0] == b[0] <==> CodeUnits(a[0])[0] == CodeUnits(b[0])[0] && CodeUnits(a[0])[1] == CodeUnits(b[0])[1];
      } else {
        assert CodeUnits(a[0])[0] == CodeUnits(b[0])[0] ==> CodeUnits(a[0]) == CodeUnits(b[0]);
      }
    } else if b != [] {
      UnitsOfFirst(b);
    }
  }

  // ---------------------------------------------------------------------------------------
  // Arranging
  // ---------------------------------------------------------------------------------------

  ghost predicate SameElements(a: seq<Member>, b: seq<Member>) {
    forall m :: m in a <==> m in b
  }

  ghost predicate Sorted(before: Order, members: seq<Member>) {
    forall i, j :: 0 <= i < j < |members| ==> before(members[i].key, members[j].key)
  }

  lemma {:induction false} InsertElements(before: Order, m: Member, sorted: seq<Member>)
    ensures forall x :: x in Insert(before, m, sorted) <==> x == m || x in sorted
    ensures DistinctKeys(sorted) && (forall x :: x in sorted ==> x.key != m.key) ==> DistinctKeys(Insert(before, m, sorted))
  {
    if sorted != [] && !before(m.key, sorted[0].key) {
      var rest := Insert(before, m, sorted[1..]);
      InsertElements(before, m, sorted[1..]);
      if DistinctKeys(sorted) && (forall x :: x in sorted ==> x.key != m.key) {
        DistinctConcat([sorted[0]], rest);
      }
    }
  }

  lemma {:induction false} SortElements(before: Order, members: seq<Member>)
    ensures SameElements(Sort(before, members), members)
    ensures DistinctKeys(members) ==> DistinctKeys(Sort(before, members))
  {
    if members != [] {
      SortElements(before, members[1..]);
      InsertElements(before, members[0], Sort(before, members[1..]));
    }
  }

  lemma {:induction false} InsertSorted(before: Order, m: Member, sorted: seq<Member>)
    requires StrictTotal(before) && Sorted(before, sorted)
    requires forall x :: x in sorted ==> x.key != m.key
    ensures Sorted(before, Insert(before, m, sorted))
  {
    if sorted != [] && !before(m.key, sorted[0].key) {
      InsertSorted(before, m, sorted[1..]);
      InsertElements(before, m, sorted[1..]);
      PrependSorted(before, sorted[0], Insert(before, m, sorted[1..]));
    } else if sorted != [] {
      PrependSorted(before, m, sorted);
    }
  }

  lemma PrependSorted(before: Order, m: Member, sorted: seq<Member>)
    requires Sorted(before, sorted) && forall x :: x in sorted ==> before(m.key, x.key)
    ensures Sorted(before, [m] + sorted)
  {
  }

  lemma {:induction false} SortSorted(before: Order, members: seq<Member>)
    requires StrictTotal(before) && DistinctKeys(members)
    ensures Sorted(before, Sort(before, members))
  {
    if members != [] {
      SortSorted(before, members[1..]);
      SortElements(before, members[1..]);
      InsertSorted(before, members[0], Sort(before, members[1..]));
    }
  }

  lemma EmptyAgree(a: seq<Member>, b: seq<Member>)
    requires SameElements(a, b)
    ensures a == [] <==> b == []
  {
    if a != [] {
      assert a[0] in b;
    }
    if b != [] {
      assert b[0] in a;
    }
  }

  /** A sorted list is determined by its elements. */
  lemma {:induction false} SortedUnique(before: Order, a: seq<Member>, b: seq<Member>)
    requires StrictTotal(before) && Sorted(before, a) && Sorted(before, b)
    requires SameElements(a, b)
    ensures a == b
  {
    EmptyAgree(a, b);
    if a != [] {
      HeadsAgree(before, a, b);
      TailsAgree(before, a, b);
      SortedUnique(before, a[1..], b[1..]);
      Whole(a, 1);
      Whole(b, 1);
    }
  }

  lemma HeadsAgree(before: Order, a: seq<Member>, b: seq<Member>)
    requires StrictTotal(before) && Sorted(before, a) && Sorted(before, b)
    requires SameElements(a, b) && a != [] && b != []
    ensures a[0] == b[0]
  {
    assert a[0] in b && b[0] in a;
    var i :| 0 <= i < |b| && b[i] == a[0];
    var j :| 0 <= j < |a| && a[j] == b[0];
    assert i > 0 ==> before(b[0].key, a[0].key);
    assert j > 0 ==> before(a[0].key, b[0].key);
  }

  lemma TailsAgree(before: Order, a: seq<Member>, b: seq<Member>)
    requires StrictTotal(before) && Sorted(before, a) && Sorted(before, b)
    requires SameElements(a, b) && a != [] && b != [] && a[0] == b[0]
    ensures SameElements(a[1..], b[1..])
  {
    forall m
      ensures m in a[1..] <==> m in a && m != a[0]
      ensures m in b[1..] <==> m in b && m != b[0]
    {
      TailElements(before, a, m);
      TailElements(before, b, m);
    }
  }

  lemma TailElements(before: Order, a: seq<Member>, m: Member)
    requires StrictTotal(before) && Sorted(before, a) && a != []
    ensures m in a[1..] <==> m in a && m != a[0]
  {
    assert a == [a[0]] + a[1..];
    assert forall k :: 0 < k < |a| ==> before(a[0].key, a[k].key);
    assert !before(m.key, m.key);
  }

  lemma {:induction false} SelectElements(members: seq<Member>, indices: bool)
    ensures forall m :: m in Select(members, indices) <==> m in members && ArrayIndex(m.key).Some? == indices
    ensures DistinctKeys(members) ==> DistinctKeys(Select(members, indices))
  {
    if members != [] {
      SelectElements(members[1..], indices);
      assert members == [members[0]] + members[1..];
    }
  }

  lemma DistinctConcat(a: seq<Member>, b: seq<Member>)
    requires DistinctKeys(a) && DistinctKeys(b)
    requires forall x, y :: x in a && y in b ==> x.key != y.key
    ensures DistinctKeys(a + b)
  {
    var c := a + b;
    forall i, j | 0 <= i < j < |c|
      ensures c[i].key != c[j].key
    {
      if i < |a| <= j {
        assert a[i] in a && b[j - |a|] in b;
      }
    }
  }

  /** Listing properties as an object does loses and repeats none. */
  lemma FromEntriesElements(entries: seq<Member>)
    ensures SameElements(FromEntries(entries), entries)
    ensures DistinctKeys(entries) ==> DistinctKeys(FromEntries(entries))
  {
    var byIndex: Order := (a, b) => IndexOf(a) < IndexOf(b);
    SelectElements(entries, true);
    SelectElements(entries, false);
    SortElements(byIndex, Select(entries, true));
    if DistinctKeys(entries) {
      DistinctConcat(Sort(byIndex, Select(entries, true)), Select(entries, false));
    }
  }

  lemma DecimalSnoc(n: nat, d: nat)
    requires n > 0 && d < 10
    ensures Decimal(n * 10 + d) == Decimal(n) + [Digit(d)]
  {
    assert (n * 10 + d) / 10 == n && (n * 10 + d) % 10 == d;
  }

  lemma DigitOf(c: char)
    requires '0' <= c <= '9'
    ensures Digit(c as int - '0' as int) == c
  {
  }

  lemma {:induction false} DigitsValueDecimal(digits: string)
    requires digits != [] && DigitsValue(digits).Some? && (digits[0] == '0' ==> |digits| == 1)
    ensures digits == Decimal(DigitsValue(digits).value)
    ensures DigitsValue(digits).value == 0 ==> digits[0] == '0'
  {
    var front, last := digits[..|digits| - 1], digits[|digits| - 1];
    Whole(digits, |digits| - 1);
    DigitOf(last);
    if front == [] {
      assert DigitsValue(front) == Some(0);
    } else {
      DigitsValueDecimal(front);
      DecimalSnoc(DigitsValue(front).value, last as int - '0' as int);
    }
  }

  lemma DigitIs(d: nat)
    requires d < 10
    ensures '0' <= Digit(d) <= '9' && Digit(d) as int - '0' as int == d
    ensures Digit(d) == '0' <==> d == 0
  {
  }

  lemma {:induction false} DecimalValue(n: nat)
    ensures DigitsValue(Decimal(n)) == Some(n)
    ensures n > 0 ==> Decimal(n)[0] != '0'
  {
    if n < 10 {
      DigitIs(n);
      assert Decimal(n)[..|Decimal(n)| - 1] == [];
    } else {
      DigitIs(n % 10);
      DecimalValue(n / 10);
      assert Decimal(n)[..|Decimal(n)| - 1] == Decimal(n / 10);
      assert Decimal(n)[0] == Decimal(n / 10)[0];
    }
  }

  /** A key stands for an array index if and only if it is how that index is printed. */
  lemma ArrayIndexIff(key: string, n: nat)
    ensures ArrayIndex(key) == Some(n) <==> key == Decimal(n) && n <= 4_294_967_294
  {
    DecimalValue(n);
    if n == 0 {
      assert Decimal(n) == ['0'];
    }
    if ArrayIndex(key).Some? {
      DigitsValueDecimal(key);
    }
  }

  /** Keys that stand for one array index are one key. */
  lemma IndexInjective(a: string, b: string)
    requires ArrayIndex(a).Some? && ArrayIndex(a) == ArrayIndex(b)
    ensures a == b
  {
    DigitsValueDecimal(a);
    DigitsValueDecimal(b);
  }

  lemma {:induction false} SortKeeps(before: Order, sorted: seq<Member>)
    requires Sorted(before, sorted)
    ensures Sort(before, sorted) == sorted
  {
    if sorted != [] {
      SortKeeps(before, sorted[1..]);
      Whole(sorted, 1);
    }
  }

  lemma {:induction false} SelectAll(members: seq<Member>, indices: bool)
    requires forall m :: m in members ==> ArrayIndex(m.key).Some? == indices
    ensures Select(members, indices) == members && Select(members, !indices) == []
  {
    if members != [] {
      assert members[0] in members;
      SelectAll(members[1..], indices);
      Whole(members, 1);
    }
  }

  lemma {:induction false} SelectConcat(a: seq<Member>, b: seq<Member>, indices: bool)
    ensures Select(a + b, indices) == Select(a, indices) + Select(b, indices)
  {
    if a == [] {
      Nothing(b);
    } else {
      assert (a + b)[1..] == a[1..] + b && (a + b)[0] == a[0];
      SelectConcat(a[1..], b, indices);
      Associate(if ArrayIndex(a[0].key).Some? == indices then [a[0]] else [], Select(a[1..], indices), Select(b, indices));
    }
  }

  /** The indices among the keys of an object come in strictly ascending order. */
  lemma IndicesSorted(entries: seq<Member>)
    requires DistinctKeys(entries)
    ensures var byIndex: Order := (a, b) => IndexOf(a) < IndexOf(b);
            Sorted(byIndex, Sort(byIndex, Select(entries, true)))
  {
    var byIndex: Order := (a, b) => IndexOf(a) < IndexOf(b);
    var front := Sort(byIndex, Select(entries, true));
    SelectElements(entries, true);
    SortElements(byIndex, Select(entries, true));
    SortAscending(Select(entries, true));
    forall i, j | 0 <= i < j < |front|
      ensures byIndex(front[i].key, front[j].key)
    {
      assert front[i] in front && front[j] in front;
      if ArrayIndex(front[i].key) == ArrayIndex(front[j].key) {
        IndexInjective(front[i].key, front[j].key);
      }
    }
  }

  /** An object keeps the order in which it lists its properties. */
  lemma FromEntriesAgain(entries: seq<Member>)
    requires DistinctKeys(entries)
    ensures FromEntries(FromEntries(entries)) == FromEntries(entries)
  {
    var byIndex: Order := (a, b) => IndexOf(a) < IndexOf(b);
    var front, back := Sort(byIndex, Select(entries, true)), Select(entries, false);
    SelectElements(entries, true);
    SelectElements(entries, false);
    SortElements(byIndex, Select(entries, true));
    SelectAll(front, true);
    SelectAll(back, false);
    SelectConcat(front, back, true);
    SelectConcat(front, back, false);
    Nothing(front);
    Nothing(back);
    IndicesSorted(entries);
    SortKeeps(byIndex, front);
  }

  lemma ArrangeElements(members: seq<Member>)
    ensures SameElements(Arrange(members), members)
    ensures DistinctKeys(members) ==> DistinctKeys(Arrange(members))
  {
    SortElements(KeyBefore, members);
    FromEntriesElements(Sort(KeyBefore, members));
  }

  /** The arrangement forgets the order it was given. */
  lemma ArrangeUnique(a: seq<Member>, b: seq<Member>)
    requires DistinctKeys(a) && DistinctKeys(b)
    ensures Arrange(a) == Arrange(b) <==> SameElements(a, b)
  {
    ArrangeElements(a);
    ArrangeElements(b);
    if SameElements(a, b) {
      KeyOrderTotal();
      SortSorted(KeyBefore, a);
      SortSorted(KeyBefore, b);
      SortElements(KeyBefore, a);
      SortElements(KeyBefore, b);
      SortedUnique(KeyBefore, Sort(KeyBefore, a), Sort(KeyBefore, b));
    }
  }

  // ---------------------------------------------------------------------------------------
  // Canonical forms
  // ---------------------------------------------------------------------------------------

  /** Canonical forms agree exactly where the values agree up to key order. */
  lemma {:induction false} CanonicalAgrees(a: Value, b: Value)
    requires WellFormed(a) && WellFormed(b)
    ensures Canonicalize(a) == Canonicalize(b) <==> Same(a, b)
    decreases a
  {
    if a.Array? && b.Array? {
      if |a.items| == |b.items| {
        forall i | 0 <= i < |a.items|
          ensures Canonicalize(a.items[i]) == Canonicalize(b.items[i]) <==> Same(a.items[i], b.items[i])
        {
          CanonicalAgrees(a.items[i], b.items[i]);
        }
        ItemsAgree(a.items, b.items);
      }
    } else if a.Object? && b.Object? {
      forall i, j | 0 <= i < |a.members| && 0 <= j < |b.members|
        ensures CanonicalMembers(a.members)[i] == CanonicalMembers(b.members)[j] <==>
                  a.members[i].key == b.members[j].key && Same(a.members[i].value, b.members[j].value)
      {
        CanonicalAgrees(a.members[i].value, b.members[j].value);
      }
      MembersAgree(a.members, b.members, CanonicalMembers(a.members), CanonicalMembers(b.members));
      ArrangeUnique(CanonicalMembers(a.members), CanonicalMembers(b.members));
    }
  }

  lemma ItemsAgree(a: seq<Value>, b: seq<Value>)
    requires |a| == |b|
    ensures CanonicalItems(a) == CanonicalItems(b) <==> forall i :: 0 <= i < |a| ==> Canonicalize(a[i]) == Canonicalize(b[i])
  {
    if CanonicalItems(a) == CanonicalItems(b) {
      assert forall i :: 0 <= i < |a| ==> CanonicalItems(a)[i] == CanonicalItems(b)[i];
    }
  }

  lemma FindMember(members: seq<Member>, j: nat)
    requires DistinctKeys(members) && j < |members|
    ensures Find(members, members[j].key) == j
  {
  }

  /** Two lists of members have the same elements if and only if the objects are the same. */
  lemma MembersAgree(a: seq<Member>, b: seq<Member>, c: seq<Member>, d: seq<Member>)
    requires DistinctKeys(a) && DistinctKeys(b)
    requires |a| == |c| && |b| == |d|
    requires forall i :: 0 <= i < |a| ==> c[i].key == a[i].key
    requires forall j :: 0 <= j < |b| ==> d[j].key == b[j].key
    requires forall i, j :: 0 <= i < |a| && 0 <= j < |b| ==>
               (c[i] == d[j] <==> a[i].key == b[j].key && Same(a[i].value, b[j].value))
    ensures SameElements(c, d) <==> Same(Object(a), Object(b))
  {
    if SameElements(c, d) {
      forall i | 0 <= i < |a|
        ensures Find(b, a[i].key) < |b| && Same(a[i].value, b[Find(b, a[i].key)].value)
      {
        assert c[i] in d;
        var j :| 0 <= j < |d| && d[j] == c[i];
        FindMember(b, j);
      }
      forall j | 0 <= j < |b|
        ensures Find(a, b[j].key) < |a|
      {
        assert d[j] in c;
        var i :| 0 <= i < |c| && c[i] == d[j];
      }
    }
    if Same(Object(a), Object(b)) {
      forall i | 0 <= i < |c|
        ensures c[i] in d
      {
        assert c[i] == d[Find(b, a[i].key)];
      }
      forall j | 0 <= j < |d|
        ensures d[j] in c
      {
        var i := Find(a, b[j].key);
        FindMember(b, j);
        assert c[i] == d[Find(b, a[i].key)];
      }
    }
  }

  lemma {:induction false} CanonicalWellFormed(value: Value)
    requires WellFormed(value)
    ensures WellFormed(Canonicalize(value))
    decreases value
  {
    if value.Array? {
      forall i | 0 <= i < |value.items|
        ensures WellFormed(CanonicalItems(value.items)[i])
      {
        CanonicalWellFormed(value.items[i]);
      }
    } else if value.Object? {
      var members := CanonicalMembers(value.members);
      forall i | 0 <= i < |members|
        ensures WellFormed(members[i].value)
      {
        CanonicalWellFormed(value.members[i].value);
      }
      ArrangeElements(members);
      forall i | 0 <= i < |Arrange(members)|
        ensures WellFormed(Arrange(members)[i].value)
      {
        assert Arrange(members)[i] in members;
      }
    }
  }

  /** Canonical texts are equal if and only if the values are, up to the order of object keys. */
  lemma CanonicalTextsAgree(a: Value, b: Value)
    requires WellFormed(a) && WellFormed(b)
    ensures CanonicalText(a) == CanonicalText(b) <==> Same(a, b)
  {
    CanonicalAgrees(a, b);
    if CanonicalText(a) == CanonicalText(b) {
      CanonicalWellFormed(a);
      CanonicalWellFormed(b);
      PrintInjective(0, Canonicalize(a), Canonicalize(b));
    }
  }

  /** Canonicalizing changes nothing but the order of keys, and doing it again changes nothing. */
  lemma {:induction false} CanonicalSame(value: Value)
    requires WellFormed(value)
    ensures Same(value, Canonicalize(value))
    ensures Canonicalize(Canonicalize(value)) == Canonicalize(value)
    decreases value
  {
    CanonicalizeKeeps(value);
    CanonicalWellFormed(value);
    CanonicalAgrees(value, Canonicalize(value));
  }

  lemma {:induction false} CanonicalizeKeeps(value: Value)
    requires WellFormed(value)
    ensures Same(value, Canonicalize(value))
    decreases value
  {
    if value.Array? {
      forall i | 0 <= i < |value.items|
        ensures Same(value.items[i], CanonicalItems(value.items)[i])
      {
        CanonicalizeKeeps(value.items[i]);
      }
    } else if value.Object? {
      var members, canonical := value.members, CanonicalMembers(value.members);
      ArrangeElements(canonical);
      forall i | 0 <= i < |members|
        ensures Same(members[i].value, canonical[i].value)
      {
        CanonicalizeKeeps(members[i].value);
      }
      KeepsMembers(members, canonical, Arrange(canonical));
    }
  }

  lemma KeepsMembers(members: seq<Member>, canonical: seq<Member>, arranged: seq<Member>)
    requires |members| == |canonical| && SameElements(arranged, canonical)
    requires DistinctKeys(members) && DistinctKeys(arranged)
    requires forall i :: 0 <= i < |members| ==> members[i].key == canonical[i].key
    requires forall i :: 0 <= i < |members| ==> Same(members[i].value, canonical[i].value)
    ensures Same(Object(members), Object(arranged))
  {
    forall i | 0 <= i < |members|
      ensures Find(arranged, members[i].key) < |arranged| && Same(members[i].value, arranged[Find(arranged, members[i].key)].value)
    {
      assert canonical[i] in arranged;
      var j :| 0 <= j < |arranged| && arranged[j] == canonical[i];
      FindMember(arranged, j);
    }
    forall j | 0 <= j < |arranged|
      ensures Find(members, arranged[j].key) < |members|
    {
      assert arranged[j] in canonical;
      var i :| 0 <= i < |canonical| && canonical[i] == arranged[j];
      FindMember(members, i);
    }
  }

  /** The order of the arranged keys: array indices by value, then the others by code units. */
  ghost predicate InOrder(a: string, b: string) {
    if ArrayIndex(b).Some? then ArrayIndex(a).Some? && IndexOf(a) <= IndexOf(b)
    else ArrayIndex(a).Some? || KeyBefore(a, b)
  }

  ghost predicate Ascending(sorted: seq<Member>) {
    forall i, j :: 0 <= i < j < |sorted| ==> IndexOf(sorted[i].key) <= IndexOf(sorted[j].key)
  }

  lemma {:induction false} InsertAscending(m: Member, sorted: seq<Member>)
    requires Ascending(sorted)
    ensures Ascending(Insert((a, b) => IndexOf(a) < IndexOf(b), m, sorted))
  {
    var byIndex: Order := (a, b) => IndexOf(a) < IndexOf(b);
    if sorted != [] && !byIndex(m.key, sorted[0].key) {
      InsertAscending(m, sorted[1..]);
      InsertElements(byIndex, m, sorted[1..]);
      var rest := Insert(byIndex, m, sorted[1..]);
      forall j | 0 <= j < |rest|
        ensures IndexOf(sorted[0].key) <= IndexOf(rest[j].key)
      {
        assert rest[j] in rest;
      }
    }
  }

  lemma {:induction false} SortAscending(members: seq<Member>)
    ensures Ascending(Sort((a, b) => IndexOf(a) < IndexOf(b), members))
  {
    if members != [] {
      SortAscending(members[1..]);
      InsertAscending(members[0], Sort((a, b) => IndexOf(a) < IndexOf(b), members[1..]));
    }
  }

  lemma {:induction false} SelectSorted(before: Order, members: seq<Member>, indices: bool)
    requires Sorted(before, members)
    ensures Sorted(before, Select(members, indices))
  {
    if members != [] {
      SelectSorted(before, members[1..], indices);
      SelectElements(members[1..], indices);
      if ArrayIndex(members[0].key).Some? == indices {
        PrependSorted(before, members[0], Select(members[1..], indices));
      } else {
        Nothing(Select(members[1..], indices));
      }
    }
  }

  /** Object keys are printed in ascending order: array indices by value, then the others by UTF-16
      code units. */
  lemma ArrangedInOrder(members: seq<Member>, i: nat, j: nat)
    requires DistinctKeys(members)
    requires i < j < |Arrange(members)|
    ensures InOrder(Arrange(members)[i].key, Arrange(members)[j].key)
  {
    var sorted := Sort(KeyBefore, members);
    KeyOrderTotal();
    SortSorted(KeyBefore, members);
    EntriesInOrder(KeyBefore, sorted, i, j);
  }

  lemma EntriesInOrder(before: Order, sorted: seq<Member>, i: nat, j: nat)
    requires Sorted(before, sorted)
    requires i < j < |FromEntries(sorted)|
    ensures var a, b := FromEntries(sorted)[i].key, FromEntries(sorted)[j].key;
            if ArrayIndex(b).Some? then ArrayIndex(a).Some? && IndexOf(a) <= IndexOf(b)
            else ArrayIndex(a).Some? || before(a, b)
  {
    var byIndex: Order := (a, b) => IndexOf(a) < IndexOf(b);
    var front, back := Sort(byIndex, Select(sorted, true)), Select(sorted, false);
    SelectElements(sorted, true);
    SelectElements(sorted, false);
    SelectSorted(before, sorted, false);
    SortElements(byIndex, Select(sorted, true));
    SortAscending(Select(sorted, true));
    forall k | 0 <= k < |front|
      ensures ArrayIndex(front[k].key).Some?
    {
      assert front[k] in front;
    }
    forall k | 0 <= k < |back|
      ensures ArrayIndex(back[k].key).None?
    {
      assert back[k] in back;
    }
    TwoParts(before, front, back, i, j);
  }

  lemma TwoParts(before: Order, front: seq<Member>, back: seq<Member>, i: nat, j: nat)
    requires Ascending(front) && Sorted(before, back)
    requires forall k :: 0 <= k < |front| ==> ArrayIndex(front[k].key).Some?
    requires forall k :: 0 <= k < |back| ==> ArrayIndex(back[k].key).None?
    requires i < j < |front + back|
    ensures var a, b := (front + back)[i].key, (front + back)[j].key;
            if ArrayIndex(b).Some? then ArrayIndex(a).Some? && IndexOf(a) <= IndexOf(b)
            else ArrayIndex(a).Some? || before(a, b)
  {
  }
}
