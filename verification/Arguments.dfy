/** The argument parser of `bin/context-windowd.js`, for any set of options. */
module Arguments {
  import opened Sequences

  /** The options that take a value, and those that do not. */
  datatype Grammar = Grammar(values: set<string>, flags: set<string>)

  datatype Parsed = Parsed(values: map<string, string>, flags: set<string>)

  datatype Outcome = Accepted(parsed: Parsed) | Duplicate(option: string) | Unknown(option: string) | RequiresValue(option: string)

  const NOTHING := Parsed(map[], {})

  predicate Usable(value: string) {
    value != [] && !(|value| >= 2 && value[0] == '-' && value[1] == '-')
  }

  function ParseFrom(g: Grammar, args: seq<string>, parsed: Parsed): Outcome
    decreases |args|
  {
    if args == [] then Accepted(parsed)
    else if args[0] in g.flags then
      if args[0] in parsed.flags then Duplicate(args[0])
      else ParseFrom(g, args[1..], parsed.(flags := parsed.flags + {args[0]}))
    else if args[0] !in g.values then Unknown(args[0])
    else if args[0] in parsed.values then Duplicate(args[0])
    else if |args| < 2 || !Usable(args[1]) then RequiresValue(args[0])
    else ParseFrom(g, args[2..], parsed.(values := parsed.values[args[0] := args[1]]))
  }

  function Parse(g: Grammar, args: seq<string>): Outcome {
    ParseFrom(g, args, NOTHING)
  }

  method ParseArguments(g: Grammar, args: seq<string>) returns (outcome: Outcome)
    ensures outcome == Parse(g, args)
  {
    var values: map<string, string>, flags: set<string> := map[], {};
    var index := 0;
    All(args);
    while index < |args|
      invariant 0 <= index <= |args|
      invariant ParseFrom(g, args[index..], Parsed(values, flags)) == Parse(g, args)
    {
      var option := args[index];
      assert args[index..][1..] == args[index + 1..];
      if option in g.flags {
        if option in flags {
          return Duplicate(option);
        }
        flags := flags + {option};
        index := index + 1;
        continue;
      }
      if option !in g.values {
        return Unknown(option);
      }
      if option in values {
        return Duplicate(option);
      }
      if index + 1 >= |args| || !Usable(args[index + 1]) {
        return RequiresValue(option);
      }
      assert args[index..][2..] == args[index + 2..];
      values := values[option := args[index + 1]];
      index := index + 2;
    }
    outcome := Accepted(Parsed(values, flags));
  }

  // ---------------------------------------------------------------------------------------
  // What the arguments say
  // ---------------------------------------------------------------------------------------

  datatype Item = Flag(name: string) | Valued(name: string, value: string)

  function Spelled(item: Item): seq<string> {
    if item.Flag? then [item.name] else [item.name, item.value]
  }

  /** The command line that lists the items. */
  function Render(items: seq<Item>): seq<string> {
    if items == [] then [] else Spelled(items[0]) + Render(items[1..])
  }

  /** An option of its own kind, whatever its value. */
  predicate Named(g: Grammar, item: Item) {
    if item.Flag? then item.name in g.flags else item.name in g.values && item.name !in g.flags
  }

  predicate Filled(item: Item) {
    item.Valued? ==> Usable(item.value)
  }

  predicate Proper(g: Grammar, item: Item) {
    Named(g, item) && Filled(item)
  }

  ghost predicate AllNamed(g: Grammar, items: seq<Item>) {
    forall i :: 0 <= i < |items| ==> Named(g, items[i])
  }

  ghost predicate AllFilled(items: seq<Item>) {
    forall i :: 0 <= i < |items| ==> Filled(items[i])
  }

  ghost predicate AllProper(g: Grammar, items: seq<Item>) {
    forall i :: 0 <= i < |items| ==> Proper(g, items[i])
  }

  ghost predicate Distinct(items: seq<Item>) {
    forall i, j :: 0 <= i < j < |items| ==> items[i].name != items[j].name
  }

  function Record(item: Item, parsed: Parsed): Parsed {
    if item.Flag? then parsed.(flags := parsed.flags + {item.name})
    else parsed.(values := parsed.values[item.name := item.value])
  }

  function Collect(items: seq<Item>, parsed: Parsed): Parsed {
    if items == [] then parsed else Collect(items[1..], Record(items[0], parsed))
  }

  ghost predicate Seen(parsed: Parsed, name: string) {
    name in parsed.values || name in parsed.flags
  }

  /** The names recorded so far are options, each of its own kind. */
  ghost predicate Sorted(g: Grammar, parsed: Parsed) {
    parsed.flags <= g.flags && forall name :: name in parsed.values ==> name in g.values && name !in g.flags
  }

  ghost predicate NoneSeen(items: seq<Item>, parsed: Parsed) {
    forall i :: 0 <= i < |items| ==> !Seen(parsed, items[i].name)
  }

  lemma RenderFirst(items: seq<Item>)
    requires items != []
    ensures var args := Render(items);
            && args != [] && args[0] == items[0].name
            && (items[0].Flag? ==> args[1..] == Render(items[1..]))
            && (items[0].Valued? ==> |args| >= 2 && args[1] == items[0].value && args[2..] == Render(items[1..]))
  {
  }

  /** Parsing the spelling of distinct proper items gives back the items. */
  lemma {:induction false} ParseRender(g: Grammar, items: seq<Item>, parsed: Parsed)
    requires AllProper(g, items) && Distinct(items) && NoneSeen(items, parsed)
    ensures ParseFrom(g, Render(items), parsed) == Accepted(Collect(items, parsed))
    decreases |items|
  {
    if items != [] {
      RenderFirst(items);
      ParseRender(g, items[1..], Record(items[0], parsed));
    }
  }

  /** Whatever is accepted is the spelling of distinct proper items, and the result is what they say. */
  lemma {:induction false} AcceptedSpells(g: Grammar, args: seq<string>, parsed: Parsed) returns (items: seq<Item>)
    requires Sorted(g, parsed)
    requires ParseFrom(g, args, parsed).Accepted?
    ensures AllProper(g, items) && Distinct(items) && NoneSeen(items, parsed)
    ensures Render(items) == args
    ensures ParseFrom(g, args, parsed) == Accepted(Collect(items, parsed))
    decreases |args|
  {
    items := [];
    if args != [] {
      var item := if args[0] in g.flags then Flag(args[0]) else Valued(args[0], args[1]);
      var rest := AcceptedSpells(g, args[|Spelled(item)|..], Record(item, parsed));
      items := [item] + rest;
      assert items[1..] == rest;
      Whole(args, |Spelled(item)|);
      assert args[..|Spelled(item)|] == Spelled(item);
    }
  }

  ghost predicate Spells(g: Grammar, items: seq<Item>, args: seq<string>) {
    AllProper(g, items) && Distinct(items) && Render(items) == args
  }

  /** Exactly the spellings of distinct proper items are accepted. */
  lemma AcceptedIff(g: Grammar, args: seq<string>)
    ensures Parse(g, args).Accepted? <==> exists items :: Spells(g, items, args)
  {
    if Parse(g, args).Accepted? {
      var items := AcceptedSpells(g, args, NOTHING);
      assert Spells(g, items, args);
    }
    if items :| Spells(g, items, args) {
      ParseRender(g, items, NOTHING);
    }
  }

  lemma FirstDistinct(items: seq<Item>, parsed: Parsed)
    requires items != [] && !Seen(parsed, items[0].name)
    requires Distinct(items[1..]) && NoneSeen(items[1..], Record(items[0], parsed))
    ensures Distinct(items) && NoneSeen(items, parsed)
  {
    assert forall i :: 1 <= i < |items| ==> items[1..][i - 1] == items[i];
  }

  /** Proper items of which one repeats a name, or a name recorded before, are rejected for that. */
  lemma {:induction false} RepeatRejected(g: Grammar, items: seq<Item>, parsed: Parsed)
    requires AllProper(g, items) && Sorted(g, parsed)
    requires !(Distinct(items) && NoneSeen(items, parsed))
    ensures ParseFrom(g, Render(items), parsed).Duplicate?
    ensures exists i :: 0 <= i < |items| && items[i].name == ParseFrom(g, Render(items), parsed).option
    decreases |items|
  {
    RenderFirst(items);
    if !Seen(parsed, items[0].name) {
      var next := Record(items[0], parsed);
      if Distinct(items[1..]) && NoneSeen(items[1..], next) {
        FirstDistinct(items, parsed);
        assert false;
      }
      RepeatRejected(g, items[1..], next);
      var i :| 0 <= i < |items[1..]| && items[1..][i].name == ParseFrom(g, Render(items[1..]), next).option;
      assert items[i + 1].name == items[1..][i].name;
    }
  }

  /** Distinct options of which one has no usable value are rejected for that. */
  lemma {:induction false} UnusableRejected(g: Grammar, items: seq<Item>, parsed: Parsed)
    requires AllNamed(g, items) && Distinct(items) && NoneSeen(items, parsed)
    requires !AllFilled(items)
    ensures ParseFrom(g, Render(items), parsed).RequiresValue?
    decreases |items|
  {
    RenderFirst(items);
    if Filled(items[0]) {
      UnusableRejected(g, items[1..], Record(items[0], parsed));
    }
  }

  lemma {:induction false} RenderConcat(a: seq<Item>, b: seq<Item>)
    ensures Render(a + b) == Render(a) + Render(b)
  {
    if a == [] {
      Nothing(b);
      Nothing(Render(b));
    } else {
      assert (a + b)[1..] == a[1..] + b;
      RenderConcat(a[1..], b);
      Associate(Spelled(a[0]), Render(a[1..]), Render(b));
    }
  }

  /** `parsed` records exactly the items, on top of `before`. */
  ghost predicate Records(parsed: Parsed, items: seq<Item>, before: Parsed) {
    && (forall name :: name in parsed.flags <==> name in before.flags || Flag(name) in items)
    && (forall name, value :: (name in parsed.values && parsed.values[name] == value) <==>
          (name in before.values && before.values[name] == value) || Valued(name, value) in items)
  }

  lemma {:induction false} CollectRecords(items: seq<Item>, parsed: Parsed)
    requires Distinct(items) && NoneSeen(items, parsed)
    ensures Records(Collect(items, parsed), items, parsed)
    decreases |items|
  {
    if items != [] {
      var next := Record(items[0], parsed);
      CollectRecords(items[1..], next);
      RecordsFirst(items, parsed, Collect(items, parsed));
    }
  }

  lemma MemberFirst<T>(items: seq<T>, item: T)
    requires items != []
    ensures item in items <==> item == items[0] || item in items[1..]
  {
    Whole(items, 1);
    assert items[..1] == [items[0]];
  }

  lemma RecordsFirst(items: seq<Item>, parsed: Parsed, collected: Parsed)
    requires items != [] && !Seen(parsed, items[0].name)
    requires Records(collected, items[1..], Record(items[0], parsed))
    ensures Records(collected, items, parsed)
  {
    forall name
      ensures name in collected.flags <==> name in parsed.flags || Flag(name) in items
    {
      MemberFirst(items, Flag(name));
    }
    forall name, value
      ensures (name in collected.values && collected.values[name] == value) <==>
                (name in parsed.values && parsed.values[name] == value) || Valued(name, value) in items
    {
      MemberFirst(items, Valued(name, value));
    }
  }

  lemma RecordsUnique(a: Parsed, b: Parsed, items: seq<Item>, others: seq<Item>)
    requires Records(a, items, NOTHING) && Records(b, others, NOTHING)
    requires forall item :: item in items <==> item in others
    ensures a == b
  {
    forall name | name in a.values
      ensures name in b.values && b.values[name] == a.values[name]
    {
      assert Valued(name, a.values[name]) in others;
    }
    forall name | name in b.values
      ensures name in a.values
    {
      assert Valued(name, b.values[name]) in items;
    }
  }

  ghost predicate Apart(a: seq<Item>, b: seq<Item>) {
    forall i, j :: 0 <= i < |a| && 0 <= j < |b| ==> a[i].name != b[j].name
  }

  lemma BothDistinct(a: seq<Item>, b: seq<Item>)
    requires Distinct(a) && Distinct(b) && Apart(a, b)
    ensures Distinct(a + b) && Distinct(b + a)
  {
  }

  /** Two command lines of proper items without a common name parse to the same in either order, which is
      what their items say. */
  lemma EitherOrder(g: Grammar, a: seq<Item>, b: seq<Item>)
    requires AllProper(g, a) && AllProper(g, b) && Distinct(a) && Distinct(b) && Apart(a, b)
    ensures Parse(g, Render(a) + Render(b)).Accepted?
    ensures Parse(g, Render(b) + Render(a)) == Parse(g, Render(a) + Render(b))
    ensures Records(Parse(g, Render(a) + Render(b)).parsed, a + b, NOTHING)
  {
    BothDistinct(a, b);
    RenderConcat(a, b);
    RenderConcat(b, a);
    ParseRender(g, a + b, NOTHING);
    ParseRender(g, b + a, NOTHING);
    CollectRecords(a + b, NOTHING);
    CollectRecords(b + a, NOTHING);
    RecordsUnique(Collect(a + b, NOTHING), Collect(b + a, NOTHING), a + b, b + a);
  }
}
