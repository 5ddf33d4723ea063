/** Laying parts of known sizes end to end. */
module Tiling {
  import opened Sequences

  datatype Token<T> = Token(value: T, startByte: nat, endByte: nat)

  function Sum<T>(parts: seq<T>, size: T -> nat): nat {
    if parts == [] then 0 else size(parts[0]) + Sum(parts[1..], size)
  }

  function Laid<T>(parts: seq<T>, size: T -> nat, start: nat): seq<Token<T>>
    decreases |parts|
  {
    if parts == [] then []
    else [Token(parts[0], start, start + size(parts[0]))] + Laid(parts[1..], size, start + size(parts[0]))
  }

  lemma LaidStep<T>(tokens: seq<Token<T>>, value: T, parts: seq<T>, size: T -> nat, start: nat)
    ensures tokens + Laid([value] + parts, size, start)
         == tokens + [Token(value, start, start + size(value))] + Laid(parts, size, start + size(value))
  {
    assert ([value] + parts)[1..] == parts;
    Associate(tokens, [Token(value, start, start + size(value))], Laid(parts, size, start + size(value)));
  }

  /** Where a token starts or the last one ends. */
  ghost predicate Boundary<T>(tokens: seq<Token<T>>, end: nat, byte: nat) {
    byte == end || exists i :: 0 <= i < |tokens| && tokens[i].startByte == byte
  }

  lemma BoundaryLater<T>(token: Token<T>, tokens: seq<Token<T>>, end: nat, byte: nat)
    requires Boundary(tokens, end, byte)
    ensures Boundary([token] + tokens, end, byte)
  {
    if byte != end {
      var i :| 0 <= i < |tokens| && tokens[i].startByte == byte;
      assert ([token] + tokens)[i + 1].startByte == byte;
    }
  }

  /** The place between two runs of parts is one between tokens. */
  lemma {:induction false} CutIsBoundary<T>(a: seq<T>, b: seq<T>, size: T -> nat, start: nat)
    ensures Boundary(Laid(a + b, size, start), start + Sum(a + b, size), start + Sum(a, size))
    decreases |a|
  {
    if a == [] {
      Nothing(b);
      if b != [] {
        assert Laid(b, size, start)[0].startByte == start;
      }
    } else {
      assert (a + b)[1..] == a[1..] + b;
      CutIsBoundary(a[1..], b, size, start + size(a[0]));
      BoundaryLater(Token(a[0], start, start + size(a[0])), Laid(a[1..] + b, size, start + size(a[0])),
                    start + Sum(a + b, size), start + Sum(a, size));
    }
  }

  /** The tokens cover the bytes from `start` to `end` without a gap, each as long as its value. */
  ghost predicate Tiles<T>(tokens: seq<Token<T>>, size: T -> nat, start: nat, end: nat) {
    if tokens == [] then start == end
    else
      && tokens[0].startByte == start
      && tokens[0].endByte == start + size(tokens[0].value)
      && Tiles(tokens[1..], size, tokens[0].endByte, end)
  }

  lemma {:induction false} LaidTiles<T>(parts: seq<T>, size: T -> nat, start: nat)
    ensures Tiles(Laid(parts, size, start), size, start, start + Sum(parts, size))
    decreases |parts|
  {
    if parts != [] {
      LaidTiles(parts[1..], size, start + size(parts[0]));
      assert Laid(parts, size, start)[1..] == Laid(parts[1..], size, start + size(parts[0]));
    }
  }

  lemma {:induction false} LaidValues<T>(parts: seq<T>, size: T -> nat, start: nat)
    ensures |Laid(parts, size, start)| == |parts|
    ensures forall i :: 0 <= i < |parts| ==> Laid(parts, size, start)[i].value == parts[i]
    decreases |parts|
  {
    if parts != [] {
      LaidValues(parts[1..], size, start + size(parts[0]));
    }
  }
}
