/** Sequences cut into pieces and put together again, filtered, sorted and shuffled. */
module Seqs {
  function Min(a: nat, b: nat): nat {
    if a < b then a else b
  }

  function Flatten<T>(parts: seq<seq<T>>): seq<T> {
    if parts == [] then [] else Flatten(parts[..|parts| - 1]) + parts[|parts| - 1]
  }

  lemma TakeOneMore<T>(xs: seq<T>, i: nat)
    requires i < |xs|
    ensures xs[..i + 1] == xs[..i] + [xs[i]]
  {
  }

  lemma FlattenSnoc<T>(parts: seq<seq<T>>, last: seq<T>)
    ensures Flatten(parts + [last]) == Flatten(parts) + last
  {
    assert (parts + [last])[..|parts|] == parts;
  }

  /** The pieces of the given size, front to back; the last one may be shorter. */
  function Pieces<T>(data: seq<T>, size: nat): seq<seq<T>>
    requires 0 < size
    decreases |data|
  {
    if data == [] then [] else [data[..Min(size, |data|)]] + Pieces(data[Min(size, |data|)..], size)
  }

  function PieceCount(length: nat, size: nat): nat
    requires 0 < size
  {
    (length + size - 1) / size
  }

  lemma PieceCountStep(length: nat, size: nat)
    requires 0 < size < length
    ensures PieceCount(length, size) == 1 + PieceCount(length - size, size)
  {
    var rest := length - size + size - 1;
    assert rest + size == size * (1 + rest / size) + rest % size;
    DivisionIsUnique(rest + size, size, 1 + rest / size, rest % size);
  }

  lemma DivisionIsUnique(x: nat, d: nat, q: nat, r: nat)
    requires 0 < d && r < d && x == d * q + r
    ensures x / d == q
  {
    var p := x / d;
    assert x == d * p + x % d;
    TimesIsMonotone(d, p + 1, q);
    TimesIsMonotone(d, q + 1, p);
  }

  lemma TimesIsMonotone(d: nat, a: int, b: int)
    ensures a <= b ==> d * a <= d * b
  {
  }

  lemma {:induction false} PiecesCounted<T>(data: seq<T>, size: nat)
    requires 0 < size
    ensures |Pieces(data, size)| == PieceCount(|data|, size)
    decreases |data|
  {
    if |data| > size {
      PieceCountStep(|data|, size);
      PiecesCounted(data[size..], size);
    } else if data == [] {
      DivisionIsUnique(size - 1, size, 0, size - 1);
    } else {
      DivisionIsUnique(|data| + size - 1, size, 1, |data| - 1);
      assert Pieces(data[|data|..], size) == [];
    }
  }

  lemma {:induction false} FlattenCons<T>(first: seq<T>, rest: seq<seq<T>>)
    ensures Flatten([first] + rest) == first + Flatten(rest)
    decreases |rest|
  {
    if rest == [] {
      assert Flatten([first]) == Flatten([]) + first;
    } else {
      FlattenCons(first, rest[..|rest| - 1]);
      assert ([first] + rest)[..|rest|] == [first] + rest[..|rest| - 1];
    }
  }

  /** Cutting loses nothing: the pieces put together are the data, each one between 1 and size long. */
  lemma {:induction false} PiecesFlatten<T>(data: seq<T>, size: nat)
    requires 0 < size
    ensures Flatten(Pieces(data, size)) == data
    ensures forall p <- Pieces(data, size) :: 0 < |p| <= size
    decreases |data|
  {
    if data != [] {
      var n := Min(size, |data|);
      var rest := Pieces(data[n..], size);
      PiecesFlatten(data[n..], size);
      FlattenCons(data[..n], rest);
      assert Pieces(data, size) == [data[..n]] + rest && data == data[..n] + data[n..];
      forall p <- [data[..n]] + rest ensures 0 < |p| <= size {
        assert p == data[..n] || p in rest;
      }
    }
  }

  // ----- filtering -----

  function Filter<T(!new)>(xs: seq<T>, p: T -> bool): (r: seq<T>)
    ensures |r| <= |xs|
    ensures forall x :: x in r <==> x in xs && p(x)
  {
    if xs == [] then []
    else if p(xs[|xs| - 1]) then Filter(xs[..|xs| - 1], p) + [xs[|xs| - 1]]
    else Filter(xs[..|xs| - 1], p)
  }

  // ----- order -----

  /** Any order of the elements, chosen at random. */
  method Shuffle<T(==,!new)>(xs: seq<T>) returns (ys: seq<T>)
    ensures multiset(ys) == multiset(xs) && |ys| == |xs|
    ensures forall x :: x in ys <==> x in xs
  {
    ys := [];
    var rest := xs;
    while rest != []
      invariant multiset(ys) + multiset(rest) == multiset(xs)
      decreases |rest|
    {
      var k: nat :| k < |rest|;
      assert rest == rest[..k] + [rest[k]] + rest[k + 1..];
      ys := ys + [rest[k]];
      rest := rest[..k] + rest[k + 1..];
    }
    assert |multiset(ys)| == |multiset(xs)|;
    assert forall x :: x in ys <==> x in multiset(ys);
    assert forall x :: x in xs <==> x in multiset(xs);
  }
}
