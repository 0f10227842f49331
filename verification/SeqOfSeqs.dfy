/** Sequences cut into pieces. */
module SeqOfSeqs {

  /** The pieces put together again. */
  function Flatten<T>(pieces: seq<seq<T>>): (s: seq<T>)
    decreases |pieces|
  {
    if pieces == [] then [] else Flatten(pieces[..|pieces| - 1]) + pieces[|pieces| - 1]
  }

  lemma FlattenAppend<T>(pieces: seq<seq<T>>, piece: seq<T>)
    ensures Flatten(pieces + [piece]) == Flatten(pieces) + piece
  {
    assert (pieces + [piece])[..|pieces|] == pieces;
  }

  lemma {:induction false} FlattenConcat<T>(a: seq<seq<T>>, b: seq<seq<T>>)
    ensures Flatten(a + b) == Flatten(a) + Flatten(b)
    decreases |b|
  {
    hide *;
    if b == [] {
      FlattenNothing<T>();
      assert a + b == a;
    } else {
      var n := |b| - 1;
      assert b == b[..n] + [b[n]];
      assert a + b == (a + b[..n]) + [b[n]];
      FlattenConcat(a, b[..n]);
      FlattenAppend(a + b[..n], b[n]);
      FlattenAppend(b[..n], b[n]);
    }
  }

  lemma FlattenNothing<T>()
    ensures Flatten<T>([]) == []
  {
  }

  lemma FlattenOne<T>(piece: seq<T>)
    ensures Flatten([piece]) == piece
  {
    assert Flatten([piece]) == Flatten([piece][..0]) + piece;
  }

  lemma FlattenFirst<T>(piece: seq<T>, pieces: seq<seq<T>>)
    ensures Flatten([piece] + pieces) == piece + Flatten(pieces)
  {
    FlattenOne(piece);
    FlattenConcat([piece], pieces);
    hide Flatten;
  }
}
