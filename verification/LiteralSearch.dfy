/** The Knuth-Morris-Pratt search of `src/config.js`, proved to return the least occurrence
    within a linear number of token comparisons. */
module LiteralSearch {

  /** `literal` occurs in `text` at position `p`. */
  ghost predicate OccursAt<T>(text: seq<T>, literal: seq<T>, p: int) {
    && 0 <= p
    && p + |literal| <= |text|
    && text[p..p + |literal|] == literal
  }

  /** The `k` tokens of `text` that end at `index`, none of them before `start`,
      are the first `k` tokens of `literal`. */
  ghost predicate Overlap<T>(literal: seq<T>, text: seq<T>, start: nat, index: nat, k: nat) {
    && index <= |text|
    && k <= |literal|
    && start + k <= index
    && text[index - k..index] == literal[..k]
  }

  ghost predicate LongestOverlap<T>(literal: seq<T>, text: seq<T>, start: nat, index: nat, k: nat) {
    && Overlap(literal, text, start, index, k)
    && forall j: nat :: Overlap(literal, text, start, index, j) ==> j <= k
  }

  /** A border of `word` is a proper prefix of it that is also a suffix of it. */
  ghost predicate ProperBorder<T>(word: seq<T>, k: nat) {
    k < |word| && word[..k] == word[|word| - k..]
  }

  ghost predicate LongestBorder<T>(word: seq<T>, k: nat) {
    && ProperBorder(word, k)
    && forall j: nat :: ProperBorder(word, j) ==> j <= k
  }

  /** Overlaps of a literal with itself from position 1 are the proper borders of the prefix
      that ends there. */
  lemma OverlapIsBorder<T>(literal: seq<T>, index: nat, k: nat)
    requires 0 < index <= |literal|
    ensures Overlap(literal, literal, 1, index, k) <==> ProperBorder(literal[..index], k)
  {
    if k < index {
      assert literal[..index][..k] == literal[..k];
      assert literal[..index][index - k..] == literal[index - k..index];
    }
  }

  lemma LongestOverlapIsBorder<T>(literal: seq<T>, index: nat, k: nat)
    requires 0 < index <= |literal|
    ensures LongestOverlap(literal, literal, 1, index, k) <==> LongestBorder(literal[..index], k)
  {
    forall j: nat
      ensures Overlap(literal, literal, 1, index, j) <==> ProperBorder(literal[..index], j)
    {
      OverlapIsBorder(literal, index, j);
    }
  }

  lemma OverlapExtends<T>(literal: seq<T>, text: seq<T>, start: nat, index: nat, k: nat)
    requires index < |text|
    ensures Overlap(literal, text, start, index + 1, k + 1)
       <==> (k < |literal| && Overlap(literal, text, start, index, k) && text[index] == literal[k])
  {
    if k < |literal| && start + k <= index {
      assert literal[..k + 1] == literal[..k] + [literal[k]];
      assert text[index - k..index + 1] == text[index - k..index] + [text[index]];
    }
  }

  /** Below an overlap of length `m`, the shorter overlaps are the literal's own overlaps. */
  lemma OverlapNests<T>(literal: seq<T>, text: seq<T>, start: nat, index: nat, m: nat, k: nat)
    requires Overlap(literal, text, start, index, m)
    requires k < m
    ensures Overlap(literal, text, start, index, k) <==> Overlap(literal, literal, 1, m, k)
  {
    assert text[index - k..index] == text[index - m..index][m - k..] == literal[m - k..m];
  }

  /** Every overlap longer than `m` that could still grow fails to extend over `text[index]`. */
  ghost predicate RuledOutAbove<T>(literal: seq<T>, text: seq<T>, start: nat, index: nat, m: nat)
    requires index < |text|
  {
    forall k: nat :: m < k < |literal| && Overlap(literal, text, start, index, k) ==> text[index] != literal[k]
  }

  /** After a mismatch at length `m`, no overlap strictly between the fallback and `m` survives. */
  lemma Fallback<T>(literal: seq<T>, text: seq<T>, start: nat, index: nat, m: nat, fallback: nat)
    requires index < |text|
    requires 0 < m < |literal|
    requires Overlap(literal, text, start, index, m)
    requires RuledOutAbove(literal, text, start, index, m)
    requires text[index] != literal[m]
    requires LongestBorder(literal[..m], fallback)
    ensures fallback < m
    ensures Overlap(literal, text, start, index, fallback)
    ensures RuledOutAbove(literal, text, start, index, fallback)
  {
    LongestOverlapIsBorder(literal, m, fallback);
    OverlapNests(literal, text, start, index, m, fallback);
    forall k: nat | fallback < k < m
      ensures !Overlap(literal, text, start, index, k)
    {
      OverlapNests(literal, text, start, index, m, k);
    }
  }

  /** One text token advances the longest overlap, once every longer candidate is ruled out. */
  lemma Advance<T>(literal: seq<T>, text: seq<T>, start: nat, index: nat, m: nat)
    requires start <= index < |text|
    requires m < |literal|
    requires Overlap(literal, text, start, index, m)
    requires RuledOutAbove(literal, text, start, index, m)
    requires text[index] != literal[m] ==> m == 0
    ensures LongestOverlap(literal, text, start, index + 1, if text[index] == literal[m] then m + 1 else 0)
  {
    OverlapExtends(literal, text, start, index, m);
    forall j: nat {:trigger Overlap(literal, text, start, index + 1, j)} | Overlap(literal, text, start, index + 1, j)
      ensures j <= if text[index] == literal[m] then m + 1 else 0
    {
      if j > 0 {
        OverlapExtends(literal, text, start, index, j - 1);
      }
    }
  }

  /** Each entry is the length of the longest proper border of the prefix ending there. */
  ghost predicate IsBorderTable<T>(literal: seq<T>, entries: seq<nat>) {
    && |entries| <= |literal|
    && forall i: nat :: i < |entries| ==> LongestBorder(literal[..i + 1], entries[i])
  }

  lemma EntryMeaning<T>(literal: seq<T>, entries: seq<nat>, m: nat)
    requires IsBorderTable(literal, entries)
    requires 0 < m <= |entries|
    ensures LongestBorder(literal[..m], entries[m - 1])
  {
    assert m == (m - 1) + 1;
  }

  lemma TableExtends<T>(literal: seq<T>, entries: seq<nat>, entry: nat)
    requires IsBorderTable(literal, entries)
    requires |entries| < |literal|
    requires LongestBorder(literal[..|entries| + 1], entry)
    ensures IsBorderTable(literal, entries + [entry])
  {
    var extended := entries + [entry];
    forall i: nat | i < |extended|
      ensures LongestBorder(literal[..i + 1], extended[i])
    {
      if i < |entries| {
        assert extended[i] == entries[i];
      }
    }
  }

  /** The fallback loop both halves of the search run on a mismatch: `matched` shrinks along the
      table until the next token extends it or nothing is left. */
  method FallBack<T(==)>(literal: seq<T>, table: array<nat>, ghost entries: seq<nat>, text: seq<T>, start: nat, index: nat,
                        from: nat)
    returns (matched: nat, ghost comparisons: nat)
    requires index < |text| && from < |literal|
    requires from <= |entries| <= table.Length
    requires forall i :: 0 <= i < |entries| ==> table[i] == entries[i]
    requires IsBorderTable(literal, entries)
    requires Overlap(literal, text, start, index, from)
    requires RuledOutAbove(literal, text, start, index, from)
    ensures matched <= from
    ensures Overlap(literal, text, start, index, matched)
    ensures RuledOutAbove(literal, text, start, index, matched)
    ensures text[index] != literal[matched] ==> matched == 0
    ensures comparisons + matched <= from + 1
  {
    matched, comparisons := from, 0;
    while matched > 0 && text[index] != literal[matched]
      invariant matched <= from
      invariant Overlap(literal, text, start, index, matched)
      invariant RuledOutAbove(literal, text, start, index, matched)
      invariant comparisons + matched <= from
    {
      EntryMeaning(literal, entries, matched);
      Fallback(literal, text, start, index, matched, table[matched - 1]);
      matched := table[matched - 1];
      comparisons := comparisons + 1;
    }
    if matched > 0 {
      comparisons := comparisons + 1;
    }
  }

  /** One token of the text: the fallback, and the comparison that may extend what is left. */
  method Extend<T(==)>(literal: seq<T>, table: array<nat>, ghost entries: seq<nat>, text: seq<T>, start: nat, index: nat,
                      from: nat)
    returns (matched: nat, ghost comparisons: nat)
    requires start <= index < |text| && from < |literal|
    requires from <= |entries| <= table.Length
    requires forall i :: 0 <= i < |entries| ==> table[i] == entries[i]
    requires IsBorderTable(literal, entries)
    requires LongestOverlap(literal, text, start, index, from)
    ensures matched <= from + 1
    ensures LongestOverlap(literal, text, start, index + 1, matched)
    ensures comparisons + matched <= from + 3
  {
    matched, comparisons := FallBack(literal, table, entries, text, start, index, from);
    comparisons := comparisons + 1;
    Advance(literal, text, start, index, matched);
    if text[index] == literal[matched] {
      matched := matched + 1;
    }
  }

  method BorderTable<T(==)>(literal: seq<T>) returns (table: array<nat>, ghost comparisons: nat)
    requires 0 < |literal|
    ensures fresh(table) && table.Length == |literal|
    ensures IsBorderTable(literal, table[..])
    ensures comparisons <= 3 * |literal|
  {
    table := new nat[|literal|](_ => 0);
    comparisons := 0;
    var index: nat, matched: nat := 1, 0;
    LongestOverlapIsBorder(literal, 1, 0);
    assert literal[..1] == [literal[0]];
    while index < |literal|
      invariant 1 <= index <= |literal|
      invariant LongestOverlap(literal, literal, 1, index, matched)
      invariant IsBorderTable(literal, table[..index])
      invariant comparisons + matched <= 3 * (index - 1)
    {
      ghost var filled := table[..index];
      ghost var spent;
      matched, spent := Extend(literal, table, filled, literal, 1, index, matched);
      comparisons := comparisons + spent;
      table[index] := matched;
      index := index + 1;
      LongestOverlapIsBorder(literal, index, matched);
      TableExtends(literal, filled, matched);
      assert table[..index] == filled + [matched];
    }
    assert table[..] == table[..index];
  }

  /** Occurrences that end at `index` are the full-length overlaps there. */
  lemma OccurrenceIsOverlap<T>(literal: seq<T>, text: seq<T>, start: nat, p: int)
    requires start <= p
    ensures OccursAt(text, literal, p) <==> Overlap(literal, text, start, p + |literal|, |literal|)
  {
    assert literal[..|literal|] == literal;
  }

  /** `literal` occurs nowhere at or after `start` with its last token before `bound`. */
  ghost predicate NoneBefore<T>(candidate: seq<T>, literal: seq<T>, start: nat, bound: int) {
    forall p :: start <= p && p + |literal| <= bound ==> !OccursAt(candidate, literal, p)
  }

  lemma NoneEndsHere<T>(candidate: seq<T>, literal: seq<T>, start: nat, index: nat, matched: nat)
    requires NoneBefore(candidate, literal, start, index)
    requires LongestOverlap(literal, candidate, start, index + 1, matched) && matched < |literal|
    ensures NoneBefore(candidate, literal, start, index + 1)
  {
    forall p | start <= p && p + |literal| == index + 1
      ensures !OccursAt(candidate, literal, p)
    {
      OccurrenceIsOverlap(literal, candidate, start, p);
    }
  }

  /** Least occurrence of `literal` inside `candidate[start..end]`, or -1 exactly when there is
      none. The comparisons of a hit are charged to the stretch of text it consumes. */
  method LiteralPosition<T(==)>(candidate: seq<T>, literal: seq<T>, start: nat, end: nat)
    returns (position: int, ghost comparisons: nat)
    requires 0 < |literal|
    requires end <= |candidate|
    ensures position == -1 || start <= position
    ensures position >= 0 ==>
              && position + |literal| <= end
              && OccursAt(candidate, literal, position)
              && NoneBefore(candidate, literal, start, position + |literal| - 1)
              && comparisons <= 3 * |literal| + 3 * (position + |literal| - start)
    ensures position == -1 ==>
              && NoneBefore(candidate, literal, start, end)
              && comparisons <= 3 * |literal| + 3 * (if start <= end then end - start else 0)
  {
    var table;
    table, comparisons := BorderTable(literal);
    ghost var entries := table[..];
    ghost var building := comparisons;
    var index: nat, matched: nat := start, 0;
    while index < end
      invariant start <= index
      invariant table[..] == entries
      invariant index <= end || index == start
      invariant matched < |literal|
      invariant index <= end ==> LongestOverlap(literal, candidate, start, index, matched)
      invariant NoneBefore(candidate, literal, start, index)
      invariant comparisons + matched <= building + 3 * (index - start)
    {
      ghost var spent;
      matched, spent := Extend(literal, table, entries, candidate, start, index, matched);
      comparisons := comparisons + spent;
      if matched == |literal| {
        OccurrenceIsOverlap(literal, candidate, start, index + 1 - |literal|);
        return index - |literal| + 1, comparisons;
      }
      NoneEndsHere(candidate, literal, start, index, matched);
      index := index + 1;
    }
    return -1, comparisons;
  }
}
