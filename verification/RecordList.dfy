/** The accumulating loop of `formatSearchResults` in `src/presentation.js`, for any cost of a text and
    any way to fit one record. `Presentation` supplies the repository's own. */
module RecordList {
  import opened Wrappers
  import opened Sequences

  datatype Fitted = Fitted(text: string, truncated: bool)

  /** `fit(index, available)` is the record of one result, fitted into the tokens that are left;
      `minimal` is the cost of the smallest record there is. */
  datatype Renderer = Renderer(
    count: nat,
    separator: string,
    minimal: nat,
    cost: string -> nat,
    fit: (nat, int) -> Option<Fitted>)

  datatype Step = Step(output: string, more: bool)

  /** One turn of the loop: the text so far with one more record, and whether the loop goes on. */
  function Turn(r: Renderer, index: nat, maxTokens: nat, output: string): Step
    requires index < r.count
  {
    var available := maxTokens - r.cost(output) - r.cost(r.separator);
    if available <= 0 then Step(output, false)
    else
      var fitted := r.fit(index, available);
      if fitted.None? then Step(output, false)
      else
        var next := output + (r.separator + fitted.value.text);
        Step(next, !fitted.value.truncated
                   && (index == r.count - 1 || maxTokens - r.cost(next) - r.cost(r.separator) >= r.minimal))
  }

  /** The loop from `index` on, with the text produced so far. */
  function RenderFrom(r: Renderer, index: nat, maxTokens: nat, output: string): string
    requires index <= r.count
    decreases r.count - index
  {
    if index == r.count then output
    else
      var step := Turn(r, index, maxTokens, output);
      if step.more then RenderFrom(r, index + 1, maxTokens, step.output) else step.output
  }

  method RenderRecords(r: Renderer, maxTokens: nat, header: string) returns (output: string)
    ensures output == RenderFrom(r, 0, maxTokens, header)
  {
    output := header;
    for index := 0 to r.count
      invariant RenderFrom(r, index, maxTokens, output) == RenderFrom(r, 0, maxTokens, header)
    {
      var available := maxTokens - r.cost(output) - r.cost(r.separator);
      if available <= 0 {
        break;
      }
      var fitted := r.fit(index, available);
      if fitted.None? {
        break;
      }
      output := output + (r.separator + fitted.value.text);
      if fitted.value.truncated {
        break;
      }
      if index < r.count - 1 {
        var remaining := maxTokens - r.cost(output) - r.cost(r.separator);
        if remaining < r.minimal {
          break;
        }
      }
    }
  }

  /** A fitted record stays within its share, and appending it costs no more than its parts. */
  ghost predicate EconomicalAt(r: Renderer, index: nat, available: int, output: string) {
    r.fit(index, available).Some? ==>
      var text := r.fit(index, available).value.text;
      && r.cost(text) <= available
      && r.cost(output + (r.separator + text)) <= r.cost(output) + r.cost(r.separator) + r.cost(text)
  }

  ghost predicate Economical(r: Renderer) {
    forall index: nat, available, output :: index < r.count ==> EconomicalAt(r, index, available, output)
  }

  /** The loop never exceeds the budget. */
  lemma {:induction false} RenderFits(r: Renderer, index: nat, maxTokens: nat, output: string)
    requires Economical(r)
    requires index <= r.count
    requires r.cost(output) <= maxTokens
    ensures r.cost(RenderFrom(r, index, maxTokens, output)) <= maxTokens
    decreases r.count - index
  {
    if index < r.count {
      var step := Turn(r, index, maxTokens, output);
      assert EconomicalAt(r, index, maxTokens - r.cost(output) - r.cost(r.separator), output);
      assert r.cost(step.output) <= maxTokens;
      RenderFits(r, index + 1, maxTokens, step.output);
    }
  }

  /** What the records of the results are: `full(index)`, or one of its truncated forms. */
  datatype Forms = Forms(full: nat -> string, truncates: (nat, string) -> bool)

  /** A fitted record is the whole one exactly when that fits, and else a truncated form; no whole record
      is free. */
  ghost predicate FaithfulAt(r: Renderer, forms: Forms, index: nat, available: int) {
    && r.cost(forms.full(index)) > 0
    && (r.cost(forms.full(index)) <= available <==> r.fit(index, available) == Some(Fitted(forms.full(index), false)))
    && (r.cost(forms.full(index)) > available && r.fit(index, available).Some? ==>
          r.fit(index, available).value.truncated && forms.truncates(index, r.fit(index, available).value.text))
  }

  ghost predicate Faithful(r: Renderer, forms: Forms) {
    forall index: nat, available :: index < r.count ==> FaithfulAt(r, forms, index, available)
  }

  /** The header and the first `m` records, whole. */
  ghost function Listed(r: Renderer, forms: Forms, header: string, m: nat): string {
    if m == 0 then header else Listed(r, forms, header, m - 1) + (r.separator + forms.full(m - 1))
  }

  /** The tokens that are left behind the first `m` records. */
  ghost function Left(r: Renderer, forms: Forms, header: string, maxTokens: nat, m: nat): int {
    maxTokens - r.cost(Listed(r, forms, header, m)) - r.cost(r.separator)
  }

  /** The loop may stop behind `m` whole records, with `rest` as the last thing it adds: all are shown, or
      what is left is less than the smallest record costs, or the next one does not fit whole. In that last
      case it adds what fits of it, if anything does. */
  ghost predicate StopsAt(r: Renderer, forms: Forms, header: string, maxTokens: nat, m: nat, rest: string) {
    var left := Left(r, forms, header, maxTokens, m);
    && m <= r.count
    && (if m == r.count || (0 < m && left < r.minimal) then rest == []
        else
          && r.cost(forms.full(m)) > left
          && (if left > 0 && r.fit(m, left).Some? then
                forms.truncates(m, r.fit(m, left).value.text) && rest == r.separator + r.fit(m, left).value.text
              else rest == []))
  }

  /** What follows the listing where another record may. */
  lemma NextShown(r: Renderer, forms: Forms, header: string, maxTokens: nat, m: nat, rest: string)
    requires m < r.count && r.separator != [] && StopsAt(r, forms, header, maxTokens, m, rest)
    requires m == 0 || Left(r, forms, header, maxTokens, m) >= r.minimal
    ensures var left := Left(r, forms, header, maxTokens, m);
            && r.cost(forms.full(m)) > left
            && (rest == [] <==> !(left > 0 && r.fit(m, left).Some?))
  {
  }

  /** The loop goes on at `index`. */
  ghost predicate GoesOn(r: Renderer, forms: Forms, header: string, maxTokens: nat, index: nat) {
    index <= r.count && (0 < index < r.count ==> Left(r, forms, header, maxTokens, index) >= r.minimal)
  }

  /** The loop shows whole records in order and stops only where it has to. */
  lemma {:induction false} RenderShows(r: Renderer, forms: Forms, header: string, maxTokens: nat, index: nat)
    returns (m: nat, rest: string)
    requires Faithful(r, forms) && GoesOn(r, forms, header, maxTokens, index)
    ensures RenderFrom(r, index, maxTokens, Listed(r, forms, header, index)) == Listed(r, forms, header, m) + rest
    ensures index <= m && StopsAt(r, forms, header, maxTokens, m, rest)
    decreases r.count - index
  {
    var output := Listed(r, forms, header, index);
    if index == r.count {
      m, rest := index, [];
      Nothing(output);
    } else {
      var left := Left(r, forms, header, maxTokens, index);
      assert FaithfulAt(r, forms, index, left);
      if r.cost(forms.full(index)) <= left {
        WholeTurn(r, forms, header, maxTokens, index);
        if GoesOn(r, forms, header, maxTokens, index + 1) {
          m, rest := RenderShows(r, forms, header, maxTokens, index + 1);
        } else {
          m, rest := index + 1, [];
          Nothing(Listed(r, forms, header, index + 1));
        }
      } else {
        m := index;
        rest := if left > 0 && r.fit(index, left).Some? then r.separator + r.fit(index, left).value.text else [];
        Nothing(output);
      }
    }
  }

  lemma WholeTurn(r: Renderer, forms: Forms, header: string, maxTokens: nat, index: nat)
    requires index < r.count && FaithfulAt(r, forms, index, Left(r, forms, header, maxTokens, index))
    requires r.cost(forms.full(index)) <= Left(r, forms, header, maxTokens, index)
    ensures Turn(r, index, maxTokens, Listed(r, forms, header, index))
         == Step(Listed(r, forms, header, index + 1), GoesOn(r, forms, header, maxTokens, index + 1))
  {
  }
}
