/** The readiness line of `bench/archive/system-daemon.js`: output that arrives in arbitrary chunks is cut
    into lines, and the first event that decides settles the promise. */
module ReadyLine {
  import opened Wrappers
  import opened Sequences
  import opened WhiteSpace

  /** What `JSON.parse` makes of a line: nothing, `null`, or a value whose status is or is not ready. */
  datatype Parsed = Invalid | NullValue | Message(ready: bool)

  /** How the promise stands. Asking `null` for its status throws out of the listener, which ends the
      process. */
  datatype Outcome =
    | Pending
    | Ready(line: string)
    | NotReady(line: string)
    | InvalidJson(line: string)
    | Thrown(line: string)
    | ChildError
    | ChildExit
    | TimedOut

  datatype Event = Data(chunk: string) | ErrorEvent | ExitEvent | TimeoutEvent

  type Parser = string -> Parsed

  // ---------------------------------------------------------------------------------------
  // What a text decides
  // ---------------------------------------------------------------------------------------

  /** The first line break, or the length. */
  function LineEnd(text: string): (n: nat)
    ensures n <= |text|
    ensures n < |text| ==> text[n] == '\n'
    ensures forall i :: 0 <= i < n ==> text[i] != '\n'
  {
    if text == [] || text[0] == '\n' then 0 else 1 + LineEnd(text[1..])
  }

  /** What a complete line decides: nothing, if it is blank. */
  type Judging = string -> Outcome

  function JudgeTrimmed(parse: Parser, line: string): (outcome: Outcome)
    ensures !outcome.Pending?
  {
    match parse(line)
    case Invalid => InvalidJson(line)
    case NullValue => Thrown(line)
    case Message(ready) => if ready then Ready(line) else NotReady(line)
  }

  function LineJudge(parse: Parser): Judging {
    (line: string) => if Trim(line) == [] then Pending else JudgeTrimmed(parse, Trim(line))
  }

  /** The first complete line that decides anything. */
  function Decide(judge: Judging, text: string): Outcome
    decreases |text|
  {
    var n := LineEnd(text);
    if n == |text| then Pending
    else if judge(text[..n]).Pending? then Decide(judge, text[n + 1..])
    else judge(text[..n])
  }

  /** What is left of an undecided text: the line that is not complete. */
  function Rest(text: string): string
    decreases |text|
  {
    var n := LineEnd(text);
    if n == |text| then text else Rest(text[n + 1..])
  }

  // ---------------------------------------------------------------------------------------
  // The listeners on values
  // ---------------------------------------------------------------------------------------

  datatype State = State(outcome: Outcome, buffer: string, settlements: nat)

  const INITIAL := State(Pending, [], 0)

  function Settles(outcome: Outcome): bool {
    !outcome.Pending? && !outcome.Thrown?
  }

  function Finish(s: State, outcome: Outcome): State {
    s.(outcome := outcome, settlements := s.settlements + if Settles(outcome) then 1 else 0)
  }

  function OnEvent(judge: Judging, s: State, event: Event): State {
    if !s.outcome.Pending? then s
    else
      match event
      case Data(chunk) =>
        var text := s.buffer + chunk;
        var outcome := Decide(judge, text);
        if outcome.Pending? then s.(buffer := Rest(text)) else Finish(s.(buffer := Undecided(judge, text)), outcome)
      case ErrorEvent => Finish(s, ChildError)
      case ExitEvent => Finish(s, ChildExit)
      case TimeoutEvent => Finish(s, TimedOut)
  }

  /** What is left behind the line that decides. */
  function Undecided(judge: Judging, text: string): string
    decreases |text|
  {
    var n := LineEnd(text);
    if n == |text| then text
    else if judge(text[..n]).Pending? then Undecided(judge, text[n + 1..])
    else text[n + 1..]
  }

  function Run(judge: Judging, events: seq<Event>): State {
    if events == [] then INITIAL
    else OnEvent(judge, Run(judge, events[..|events| - 1]), events[|events| - 1])
  }

  // ---------------------------------------------------------------------------------------
  // The listeners in place
  // ---------------------------------------------------------------------------------------

  class Readiness {
    const parse: Parser
    var outcome: Outcome
    var stdoutBuffer: string
    var settlements: nat

    ghost function Contents(): State
      reads this
    {
      State(outcome, stdoutBuffer, settlements)
    }

    constructor (parse: Parser)
      ensures this.parse == parse && Contents() == INITIAL
    {
      this.parse := parse;
      outcome, stdoutBuffer, settlements := Pending, [], 0;
    }

    /** `finish`, or an exception in a listener. */
    method End(how: Outcome)
      requires !how.Pending?
      modifies this
      ensures Contents() == if old(outcome).Pending? then Finish(old(Contents()), how) else old(Contents())
    {
      if !outcome.Pending? {
        return;
      }
      outcome := how;
      if !how.Thrown? {
        settlements := settlements + 1;
      }
    }

    method ParseLines()
      requires outcome.Pending?
      modifies this
      ensures var decided := Decide(LineJudge(parse), old(stdoutBuffer));
              Contents() == if decided.Pending? then old(Contents()).(buffer := Rest(old(stdoutBuffer)))
                            else Finish(old(Contents()).(buffer := Undecided(LineJudge(parse), old(stdoutBuffer))), decided)
      ensures SaidBy(parse, old(stdoutBuffer), outcome)
    {
      DecisionSaid(parse, stdoutBuffer);
      while true
        invariant outcome.Pending? && settlements == old(settlements)
        invariant Decide(LineJudge(parse), stdoutBuffer) == Decide(LineJudge(parse), old(stdoutBuffer))
        invariant Rest(stdoutBuffer) == Rest(old(stdoutBuffer))
        invariant Undecided(LineJudge(parse), stdoutBuffer) == Undecided(LineJudge(parse), old(stdoutBuffer))
        decreases |stdoutBuffer|
      {
        var newline := LineEnd(stdoutBuffer);
        if newline == |stdoutBuffer| {
          return;
        }
        var line := Trim(stdoutBuffer[..newline]);
        stdoutBuffer := stdoutBuffer[newline + 1..];
        if line == [] {
          continue;
        }
        End(JudgeTrimmed(parse, line));
        return;
      }
    }

    method OnStdout(chunk: string)
      modifies this
      ensures Contents() == OnEvent(LineJudge(parse), old(Contents()), Data(chunk))
    {
      if !outcome.Pending? {
        return;
      }
      stdoutBuffer := stdoutBuffer + chunk;
      ParseLines();
    }

    method OnOther(event: Event)
      requires !event.Data?
      modifies this
      ensures Contents() == OnEvent(LineJudge(parse), old(Contents()), event)
    {
      End(match event case ErrorEvent => ChildError case ExitEvent => ChildExit case _ => TimedOut);
    }
  }

  // ---------------------------------------------------------------------------------------
  // Chunks do not matter
  // ---------------------------------------------------------------------------------------

  lemma {:induction false} LineEndAppends(a: string, b: string)
    ensures LineEnd(a) < |a| ==> LineEnd(a + b) == LineEnd(a)
  {
    if a != [] && a[0] != '\n' {
      assert (a + b)[1..] == a[1..] + b;
      LineEndAppends(a[1..], b);
    }
  }

  lemma LineSplits(a: string, b: string)
    requires LineEnd(a) < |a|
    ensures var n := LineEnd(a);
            && LineEnd(a + b) == n
            && (a + b)[..n] == a[..n] && (a + b)[n + 1..] == a[n + 1..] + b
  {
    LineEndAppends(a, b);
  }

  /** `Decide` and `Rest` go on behind a line that decides nothing. */
  lemma DecideStep(judge: Judging, text: string, n: nat)
    requires n == LineEnd(text) < |text|
    ensures Decide(judge, text) == if judge(text[..n]).Pending? then Decide(judge, text[n + 1..]) else judge(text[..n])
    ensures Rest(text) == Rest(text[n + 1..])
  {
  }

  lemma LastLine(judge: Judging, text: string)
    requires LineEnd(text) == |text|
    ensures Decide(judge, text).Pending? && Rest(text) == text
  {
  }

  lemma LinesSplit(a: string, b: string, whole: string, n: nat)
    requires n == LineEnd(a) < |a| && whole == a + b
    ensures LineEnd(whole) == n < |whole| && whole[..n] == a[..n] && whole[n + 1..] == a[n + 1..] + b
  {
    LineSplits(a, b);
  }

  /** A text that decides keeps deciding alike; one that does not is as good as its last line. */
  lemma {:induction false} DecideAppends(judge: Judging, a: string, b: string)
    ensures Decide(judge, a + b) == if Decide(judge, a).Pending? then Decide(judge, Rest(a) + b) else Decide(judge, a)
    decreases |a|
  {
    var n := LineEnd(a);
    if n < |a| {
      LinesSplit(a, b, a + b, n);
      DecideStep(judge, a, n);
      DecideStep(judge, a + b, n);
      if judge(a[..n]).Pending? {
        DecideAppends(judge, a[n + 1..], b);
      }
    } else {
      LastLine(judge, a);
    }
  }

  lemma {:induction false} RestAppends(judge: Judging, a: string, b: string)
    requires Decide(judge, a).Pending?
    ensures Rest(a + b) == Rest(Rest(a) + b)
    decreases |a|
  {
    var n := LineEnd(a);
    if n < |a| {
      LinesSplit(a, b, a + b, n);
      DecideStep(judge, a, n);
      DecideStep(judge, a + b, n);
      RestAppends(judge, a[n + 1..], b);
    } else {
      LastLine(judge, a);
    }
  }

  /** All output of a run of events, decided or not. */
  function Output(events: seq<Event>): string {
    if events == [] then []
    else
      var last := events[|events| - 1];
      Output(events[..|events| - 1]) + if last.Data? then last.chunk else []
  }

  ghost predicate OnlyData(events: seq<Event>) {
    forall i :: 0 <= i < |events| ==> events[i].Data?
  }

  /** Up to the event that decides, the listeners have seen nothing but the output. */
  lemma {:induction false} RunDecides(judge: Judging, events: seq<Event>)
    requires OnlyData(events)
    ensures Run(judge, events).outcome == Decide(judge, Output(events))
    ensures Run(judge, events).outcome.Pending? ==> Run(judge, events).buffer == Rest(Output(events))
  {
    if events != [] {
      var init, chunk := events[..|events| - 1], events[|events| - 1].chunk;
      RunDecides(judge, init);
      DecideAppends(judge, Output(init), chunk);
      if Decide(judge, Output(init)).Pending? {
        RestAppends(judge, Output(init), chunk);
      }
    }
  }

  /** On output alone the outcome depends on the text, however it is cut into chunks. */
  lemma ChunksDoNotMatter(judge: Judging, a: seq<Event>, b: seq<Event>)
    requires OnlyData(a) && OnlyData(b) && Output(a) == Output(b)
    ensures Run(judge, a).outcome == Run(judge, b).outcome == Decide(judge, Output(a))
  {
    RunDecides(judge, a);
    RunDecides(judge, b);
  }

  // ---------------------------------------------------------------------------------------
  // Any order of events
  // ---------------------------------------------------------------------------------------

  /** The outcome of an event other than output. */
  function Other(event: Event): Outcome {
    match event
    case ErrorEvent => ChildError
    case ExitEvent => ChildExit
    case _ => TimedOut
  }

  /** The first event that decides, by itself or with the output before it, decides the promise. */
  function Expected(judge: Judging, events: seq<Event>, seen: string): Outcome
    decreases |events|
  {
    if events == [] then Pending
    else if !events[0].Data? then Other(events[0])
    else
      var text := seen + events[0].chunk;
      if Decide(judge, text).Pending? then Expected(judge, events[1..], text) else Decide(judge, text)
  }

  lemma {:induction false} ExpectedSnoc(judge: Judging, events: seq<Event>, seen: string, last: Event)
    requires Decide(judge, seen).Pending?
    ensures Expected(judge, events + [last], seen)
         == if !Expected(judge, events, seen).Pending? then Expected(judge, events, seen)
            else if !last.Data? then Other(last)
            else Decide(judge, seen + Output(events) + last.chunk)
    ensures Expected(judge, events, seen).Pending? ==> OnlyData(events) && Decide(judge, seen + Output(events)).Pending?
    decreases |events|
  {
    if events == [] {
      Nothing(seen);
    } else {
      assert (events + [last])[1..] == events[1..] + [last];
      if events[0].Data? && Decide(judge, seen + events[0].chunk).Pending? {
        ExpectedSnoc(judge, events[1..], seen + events[0].chunk, last);
        OutputFirst(events);
        Associate(seen, events[0].chunk, Output(events[1..]));
        Whole(events, 1);
      }
    }
  }

  lemma {:induction false} OutputFirst(events: seq<Event>)
    requires events != []
    ensures Output(events) == (if events[0].Data? then events[0].chunk else []) + Output(events[1..])
  {
    if |events| == 1 {
      Nothing(Output(events));
    } else {
      var init, tail := events[..|events| - 1], events[1..];
      var last := if events[|events| - 1].Data? then events[|events| - 1].chunk else [];
      OutputFirst(init);
      assert tail[..|tail| - 1] == init[1..];
      Associate(if events[0].Data? then events[0].chunk else [], Output(init[1..]), last);
    }
  }

  ghost predicate Stands(s: State, expected: Outcome, output: string) {
    && s.outcome == expected
    && s.settlements == (if Settles(expected) then 1 else 0)
    && (expected.Pending? ==> s.buffer == Rest(output))
  }

  lemma OutputSnoc(events: seq<Event>, last: Event)
    ensures Output(events + [last]) == Output(events) + if last.Data? then last.chunk else []
  {
    assert (events + [last])[..|events|] == events;
  }

  lemma StepExpected(judge: Judging, s: State, events: seq<Event>, last: Event)
    requires Stands(s, Expected(judge, events, []), Output(events))
    ensures Stands(OnEvent(judge, s, last), Expected(judge, events + [last], []), Output(events + [last]))
  {
    ExpectedSnoc(judge, events, [], last);
    OutputSnoc(events, last);
    Nothing(Output(events));
    if s.outcome.Pending? && last.Data? {
      DecideAppends(judge, Output(events), last.chunk);
      RestAppends(judge, Output(events), last.chunk);
    }
  }

  /** Over every order of output, errors, exit and timeout, the promise stands as the first deciding event
      says: it settles then, at most once, and never before. */
  lemma {:induction false} RunExpected(judge: Judging, events: seq<Event>)
    ensures Stands(Run(judge, events), Expected(judge, events, []), Output(events))
  {
    if events != [] {
      RunExpected(judge, events[..|events| - 1]);
      StepExpected(judge, Run(judge, events[..|events| - 1]), events[..|events| - 1], events[|events| - 1]);
      Grown(events, |events| - 1);
      All(events);
    }
  }

  /** The same as far as anyone can tell: what is left in the buffer no longer matters once settled. */
  ghost predicate Agree(s: State, t: State) {
    s.outcome == t.outcome && s.settlements == t.settlements && (s.outcome.Pending? ==> s.buffer == t.buffer)
  }

  lemma SplitEvent(judge: Judging, s: State, a: string, b: string)
    ensures Agree(OnEvent(judge, s, Data(a + b)), OnEvent(judge, OnEvent(judge, s, Data(a)), Data(b)))
  {
    Associate(s.buffer, a, b);
    DecideAppends(judge, s.buffer + a, b);
    if Decide(judge, s.buffer + a).Pending? {
      RestAppends(judge, s.buffer + a, b);
    }
  }

  lemma AgreeStep(judge: Judging, s: State, t: State, event: Event)
    requires Agree(s, t)
    ensures Agree(OnEvent(judge, s, event), OnEvent(judge, t, event))
  {
  }

  /** Cutting a chunk in two changes nothing, whatever comes before and after. */
  lemma {:induction false} SplitChunk(judge: Judging, before: seq<Event>, a: string, b: string, after: seq<Event>)
    ensures Agree(Run(judge, before + [Data(a + b)] + after), Run(judge, before + [Data(a)] + [Data(b)] + after))
    decreases |after|
  {
    if after == [] {
      Nothing(before + [Data(a + b)]);
      Nothing(before + [Data(a)] + [Data(b)]);
      RunSnoc(judge, before, Data(a + b));
      RunSnoc(judge, before, Data(a));
      RunSnoc(judge, before + [Data(a)], Data(b));
      SplitEvent(judge, Run(judge, before), a, b);
    } else {
      var init, last := after[..|after| - 1], after[|after| - 1];
      SplitChunk(judge, before, a, b, init);
      Grown(after, |after| - 1);
      All(after);
      Associate(before + [Data(a + b)], init, [last]);
      Associate(before + [Data(a)] + [Data(b)], init, [last]);
      RunSnoc(judge, before + [Data(a + b)] + init, last);
      RunSnoc(judge, before + [Data(a)] + [Data(b)] + init, last);
      AgreeStep(judge, Run(judge, before + [Data(a + b)] + init), Run(judge, before + [Data(a)] + [Data(b)] + init), last);
    }
  }

  lemma RunSnoc(judge: Judging, events: seq<Event>, last: Event)
    ensures Run(judge, events + [last]) == OnEvent(judge, Run(judge, events), last)
  {
    assert (events + [last])[..|events|] == events;
  }

  // ---------------------------------------------------------------------------------------
  // What the outcome means
  // ---------------------------------------------------------------------------------------

  /** A complete line behind blank ones. */
  ghost predicate LineBehind(text: string, front: string, body: string) {
    && front + (body + ['\n']) <= text
    && AllSpace(front) && (front != [] ==> front[|front| - 1] == '\n')
    && '\n' !in body
  }

  /** The first complete line that is not blank lies behind `front`; without the white space around it, it is
      `line`. */
  ghost predicate FirstLineAt(text: string, front: string, body: string, line: string) {
    LineBehind(text, front, body) && line != [] && Trims(body, line)
  }

  ghost predicate FirstLine(text: string, line: string) {
    exists front, body :: FirstLineAt(text, front, body, line)
  }

  /** Every complete line is blank. */
  ghost predicate BlankLines(text: string) {
    forall i :: 0 <= i < |text| && text[i] == '\n' ==> AllSpace(text[..i])
  }

  lemma LineEndIs(text: string, n: nat)
    requires n < |text| && text[n] == '\n' && forall i :: 0 <= i < n ==> text[i] != '\n'
    ensures LineEnd(text) == n
  {
  }

  lemma LineBegins(text: string, body: string)
    requires LineBehind(text, [], body)
    ensures LineEnd(text) == |body| < |text| && text[..|body|] == body
  {
    Nothing(body + ['\n']);
    assert text[..|body|] == body;
    assert text[|body|] == (body + ['\n'])[|body|];
    assert forall i :: 0 <= i < |body| ==> text[i] == body[i] && body[i] in body;
    LineEndIs(text, |body|);
  }

  lemma CutFront(text: string, front: string, rest: string, n: nat)
    requires front + rest <= text && n <= |front|
    ensures front[n..] + rest <= text[n..]
  {
    assert front[n..] + rest == (front + rest)[n..];
  }

  lemma SpacePart(text: string, i: nat, j: nat)
    requires i <= j <= |text| && AllSpace(text)
    ensures AllSpace(text[i..j])
  {
  }

  lemma FrontLine(text: string, front: string, rest: string)
    requires front != [] && front[|front| - 1] == '\n' && AllSpace(front) && front + rest <= text
    ensures var n := LineEnd(text); n < |front| && AllSpace(text[..n])
  {
    var n := LineEnd(text);
    assert text[|front| - 1] == (front + rest)[|front| - 1] == front[|front| - 1];
    assert text[..n] == front[0..n];
    SpacePart(front, 0, n);
  }

  /** Blank lines, of which some have been passed. */
  lemma BlankTail(front: string, n: nat)
    requires n <= |front| && AllSpace(front) && (front != [] ==> front[|front| - 1] == '\n')
    ensures AllSpace(front[n..]) && (front[n..] != [] ==> front[n..][|front[n..]| - 1] == '\n')
  {
  }

  lemma LineBehindStep(text: string, front: string, body: string)
    requires LineBehind(text, front, body) && front != []
    ensures var n := LineEnd(text);
            && n < |front| <= |text| && AllSpace(text[..n])
            && LineBehind(text[n + 1..], front[n + 1..], body)
  {
    FrontLine(text, front, body + ['\n']);
    CutFront(text, front, body + ['\n'], LineEnd(text) + 1);
    BlankTail(front, LineEnd(text) + 1);
  }

  /** What the first such line says decides. */
  lemma {:induction false} FirstLineDecides(parse: Parser, text: string, front: string, body: string, line: string)
    requires FirstLineAt(text, front, body, line)
    ensures Decide(LineJudge(parse), text) == JudgeTrimmed(parse, line)
    decreases |text|
  {
    if front == [] {
      LineBegins(text, body);
      TrimIs(body, line);
    } else {
      var n := LineEnd(text);
      LineBehindStep(text, front, body);
      TrimIs(text[..n], []);
      FirstLineDecides(parse, text[n + 1..], front[n + 1..], body, line);
    }
  }

  lemma CompleteLine(text: string, n: nat)
    requires n < |text| && text[n] == '\n' && forall i :: 0 <= i < n ==> text[i] != '\n'
    ensures LineBehind(text, [], text[..n])
  {
    assert [] + (text[..n] + ['\n']) == text[..n + 1];
  }

  lemma FirstLineHere(text: string)
    requires var n := LineEnd(text); n < |text| && Trim(text[..n]) != []
    ensures var n := LineEnd(text); FirstLineAt(text, [], text[..n], Trim(text[..n]))
  {
    var n := LineEnd(text);
    CompleteLine(text, n);
    TrimIs(text[..n], Trim(text[..n]));
  }

  /** As long as there is none, nothing is decided. */
  lemma {:induction false} UndecidedIsBlank(parse: Parser, text: string) returns (front: string, body: string, line: string)
    ensures if Decide(LineJudge(parse), text).Pending? then BlankLines(text) else FirstLineAt(text, front, body, line)
    decreases |text|
  {
    var n := LineEnd(text);
    front, body, line := [], [], [];
    if n < |text| {
      if Trim(text[..n]) == [] {
        TrimIs(text[..n], []);
        front, body, line := UndecidedIsBlank(parse, text[n + 1..]);
        if Decide(LineJudge(parse), text).Pending? {
          BlankFirst(text, n);
        } else {
          FirstLineLater(text, n, front, body, line);
          front := text[..n + 1] + front;
        }
      } else {
        FirstLineHere(text);
        body, line := text[..n], Trim(text[..n]);
      }
    }
  }

  lemma BlankFirst(text: string, n: nat)
    requires n < |text| && AllSpace(text[..n]) && text[n] == '\n'
    ensures BlankLines(text[n + 1..]) ==> BlankLines(text)
  {
    if BlankLines(text[n + 1..]) {
      forall i | 0 <= i < |text| && text[i] == '\n'
        ensures AllSpace(text[..i])
      {
        if i > n {
          assert AllSpace(text[n + 1..][..i - n - 1]);
          assert forall j :: n < j < i ==> text[j] == text[n + 1..][..i - n - 1][j - n - 1];
        }
      }
    }
  }

  lemma FirstLineLater(text: string, n: nat, front: string, body: string, line: string)
    requires n < |text| && AllSpace(text[..n]) && text[n] == '\n'
    requires FirstLineAt(text[n + 1..], front, body, line)
    ensures FirstLineAt(text, text[..n + 1] + front, body, line)
  {
    Whole(text, n + 1);
    Associate(text[..n + 1], front, body + ['\n']);
  }

  /** A text with such a line has more than blank lines. */
  lemma FirstLineNotBlank(text: string, front: string, body: string, line: string)
    requires FirstLineAt(text, front, body, line)
    ensures !BlankLines(text)
  {
    var end := |front| + |body|;
    assert text[end] == (front + (body + ['\n']))[end];
    assert text[..end] == front + body;
    SpaceEnds(front, body);
  }

  lemma SpaceEnds(front: string, body: string)
    ensures AllSpace(front + body) ==> AllSpace(body)
  {
    assert forall i :: 0 <= i < |body| ==> body[i] == (front + body)[|front| + i];
  }

  /** What was put out before anything else happened. */
  function Leading(events: seq<Event>): string {
    if events == [] || !events[0].Data? then [] else events[0].chunk + Leading(events[1..])
  }

  /** The first event other than output. */
  function FirstOther(events: seq<Event>): Option<Event> {
    if events == [] then None else if events[0].Data? then FirstOther(events[1..]) else Some(events[0])
  }

  lemma {:induction false} ExpectedLeading(judge: Judging, events: seq<Event>, seen: string)
    requires Decide(judge, seen).Pending?
    ensures Expected(judge, events, seen)
         == if !Decide(judge, seen + Leading(events)).Pending? then Decide(judge, seen + Leading(events))
            else if FirstOther(events).Some? then Other(FirstOther(events).value)
            else Pending
    decreases |events|
  {
    if events == [] || !events[0].Data? {
      Nothing(seen);
    } else {
      Associate(seen, events[0].chunk, Leading(events[1..]));
      if Decide(judge, seen + events[0].chunk).Pending? {
        ExpectedLeading(judge, events[1..], seen + events[0].chunk);
      } else {
        DecideAppends(judge, seen + events[0].chunk, Leading(events[1..]));
      }
    }
  }

  /** The first line that says anything ends the wait as that line says. */
  ghost predicate SaidBy(parse: Parser, text: string, outcome: Outcome) {
    && (forall line :: outcome == Ready(line) <==> FirstLine(text, line) && parse(line) == Message(true))
    && (forall line :: outcome == NotReady(line) <==> FirstLine(text, line) && parse(line) == Message(false))
    && (forall line :: outcome == InvalidJson(line) <==> FirstLine(text, line) && parse(line) == Invalid)
    && (forall line :: outcome == Thrown(line) <==> FirstLine(text, line) && parse(line) == NullValue)
  }

  /** Without such a line, the first other event ends it, if there is one. */
  ghost predicate EndedBy(other: Option<Event>, text: string, outcome: Outcome) {
    && (outcome == ChildError <==> BlankLines(text) && other == Some(ErrorEvent))
    && (outcome == ChildExit <==> BlankLines(text) && other == Some(ExitEvent))
    && (outcome == TimedOut <==> BlankLines(text) && other == Some(TimeoutEvent))
    && (outcome == Pending <==> BlankLines(text) && other == None)
  }

  /** The outcome is what the given line says. */
  ghost predicate SaidByLine(parse: Parser, line: string, outcome: Outcome) {
    && (outcome == Ready(line) <==> parse(line) == Message(true))
    && (outcome == NotReady(line) <==> parse(line) == Message(false))
    && (outcome == InvalidJson(line) <==> parse(line) == Invalid)
    && (outcome == Thrown(line) <==> parse(line) == NullValue)
    && outcome in {Ready(line), NotReady(line), InvalidJson(line), Thrown(line)}
  }

  lemma JudgedLine(parse: Parser, line: string)
    ensures SaidByLine(parse, line, JudgeTrimmed(parse, line))
  {
  }

  lemma SaidByFirst(parse: Parser, text: string, line: string, outcome: Outcome)
    requires FirstLine(text, line) && SaidByLine(parse, line, outcome)
    requires forall other :: FirstLine(text, other) ==> other == line
    ensures SaidBy(parse, text, outcome)
  {
  }

  lemma SaidByNone(parse: Parser, text: string, outcome: Outcome)
    requires forall line :: !FirstLine(text, line)
    requires outcome in {Pending, ChildError, ChildExit, TimedOut}
    ensures SaidBy(parse, text, outcome)
  {
  }

  /** A text either has only blank lines or one first line that is not, and then that line decides. */
  lemma DecisionMeans(parse: Parser, text: string) returns (line: string)
    ensures Decide(LineJudge(parse), text).Pending? <==> BlankLines(text)
    ensures BlankLines(text) ==> forall other :: !FirstLine(text, other)
    ensures !BlankLines(text) ==>
              && FirstLine(text, line) && (forall other :: FirstLine(text, other) ==> other == line)
              && SaidByLine(parse, line, Decide(LineJudge(parse), text))
  {
    var front, body;
    front, body, line := UndecidedIsBlank(parse, text);
    forall other | FirstLine(text, other)
      ensures Decide(LineJudge(parse), text) == JudgeTrimmed(parse, other) && !BlankLines(text)
    {
      var f, b :| FirstLineAt(text, f, b, other);
      FirstLineDecides(parse, text, f, b, other);
      FirstLineNotBlank(text, f, b, other);
    }
    JudgedLine(parse, line);
    forall other | FirstLine(text, other)
      ensures SaidByLine(parse, other, Decide(LineJudge(parse), text))
    {
      JudgedLine(parse, other);
    }
    if !Decide(LineJudge(parse), text).Pending? {
      assert FirstLine(text, line);
    }
  }

  lemma DecisionSaid(parse: Parser, text: string)
    ensures SaidBy(parse, text, Decide(LineJudge(parse), text))
  {
    var line := DecisionMeans(parse, text);
    if BlankLines(text) {
      SaidByNone(parse, text, Decide(LineJudge(parse), text));
    } else {
      SaidByFirst(parse, text, line, Decide(LineJudge(parse), text));
    }
  }

  /** Over every order of events: the outcome is what the first line that is not blank says, if it is complete
      before anything but output happens, and otherwise what happens first. The promise is settled then, once,
      unless the line throws. */
  lemma OutcomeMeans(parse: Parser, events: seq<Event>)
    ensures var s := Run(LineJudge(parse), events);
            && SaidBy(parse, Leading(events), s.outcome)
            && EndedBy(FirstOther(events), Leading(events), s.outcome)
            && s.settlements == if s.outcome.Pending? || s.outcome.Thrown? then 0 else 1
  {
    RunExpected(LineJudge(parse), events);
    ExpectedMeans(parse, events, Expected(LineJudge(parse), events, []));
  }

  lemma ExpectedMeans(parse: Parser, events: seq<Event>, outcome: Outcome)
    requires outcome == Expected(LineJudge(parse), events, [])
    ensures SaidBy(parse, Leading(events), outcome) && EndedBy(FirstOther(events), Leading(events), outcome)
  {
    ExpectedLeading(LineJudge(parse), events, []);
    Nothing(Leading(events));
    FirstOtherIs(events);
    var line := DecisionMeans(parse, Leading(events));
    EndMeans(parse, Leading(events), FirstOther(events), line, Decide(LineJudge(parse), Leading(events)), outcome);
  }

  lemma EndMeans(parse: Parser, text: string, other: Option<Event>, line: string, decided: Outcome, outcome: Outcome)
    requires other.Some? ==> !other.value.Data?
    requires decided.Pending? <==> BlankLines(text)
    requires BlankLines(text) ==> forall l :: !FirstLine(text, l)
    requires !BlankLines(text) ==>
               FirstLine(text, line) && (forall l :: FirstLine(text, l) ==> l == line) && SaidByLine(parse, line, decided)
    requires outcome == if !decided.Pending? then decided else if other.Some? then Other(other.value) else Pending
    ensures SaidBy(parse, text, outcome) && EndedBy(other, text, outcome)
  {
    if BlankLines(text) {
      SaidByNone(parse, text, outcome);
    } else {
      SaidByFirst(parse, text, line, outcome);
    }
  }

  lemma {:induction false} FirstOtherIs(events: seq<Event>)
    ensures FirstOther(events).Some? ==> !FirstOther(events).value.Data?
  {
    if events != [] {
      FirstOtherIs(events[1..]);
    }
  }
}
