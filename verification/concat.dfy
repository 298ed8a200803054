/**
 * Concatenating one piece of text per element, the shape of every
 * `for x in xs: out += piece(x)` loop in the converters.
 */
module Concat {
  import opened Strings

  /** The pieces of `xs`, in order, joined with nothing between them. */
  function Flatten<T>(xs: seq<T>, piece: T -> string): string
    decreases |xs|
  {
    if xs == [] then [] else Flatten(xs[..|xs| - 1], piece) + piece(xs[|xs| - 1])
  }

  /** The text is empty exactly when every piece is. */
  lemma {:induction false} FlattenEmpty<T>(xs: seq<T>, piece: T -> string)
    ensures Flatten(xs, piece) == [] <==> forall i :: 0 <= i < |xs| ==> piece(xs[i]) == []
    decreases |xs|
  {
    if xs != [] {
      var front := xs[..|xs| - 1];
      FlattenEmpty(front, piece);
      assert forall i :: 0 <= i < |front| ==> front[i] == xs[i];
    }
  }

  /** When every non-empty piece ends with `suffix`, so does a non-empty text. */
  lemma {:induction false} FlattenEndsWith<T>(xs: seq<T>, piece: T -> string, suffix: string)
    requires forall i :: 0 <= i < |xs| ==> piece(xs[i]) == [] || EndsWith(piece(xs[i]), suffix)
    ensures Flatten(xs, piece) != [] ==> EndsWith(Flatten(xs, piece), suffix)
    decreases |xs|
  {
    if xs != [] {
      var front := xs[..|xs| - 1];
      assert forall i :: 0 <= i < |front| ==> front[i] == xs[i];
      FlattenEndsWith(front, piece, suffix);
      var last := piece(xs[|xs| - 1]);
      var r := Flatten(xs, piece);
      if last != [] {
        assert r[|r| - |suffix|..] == last[|last| - |suffix|..];
      }
    }
  }

  /** Texts whose pieces agree element by element are equal. */
  lemma {:induction false} FlattenCongruent<T>(xs: seq<T>, piece: T -> string, other: T -> string)
    requires forall i :: 0 <= i < |xs| ==> piece(xs[i]) == other(xs[i])
    ensures Flatten(xs, piece) == Flatten(xs, other)
    decreases |xs|
  {
    if xs != [] {
      var front := xs[..|xs| - 1];
      assert forall i :: 0 <= i < |front| ==> front[i] == xs[i];
      FlattenCongruent(front, piece, other);
    }
  }

  /** Appending three pieces one after another appends them as one block. */
  lemma Regroup(a: string, b: string, c: string, d: string)
    ensures a + b + c + d == a + (b + c + d)
  {
  }
}
