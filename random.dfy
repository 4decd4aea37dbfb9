/** The random source, modelled as an input rather than a distribution.

    A Source is an infinite tape of raw draws and a read position; every call of
    the random module consumes exactly one draw (shuffle one per swap). Because
    the tape is arbitrary, every contract proved over a Source holds for every
    possible sequence of random outcomes. random.random() < p is modelled by a
    percent draw d in [0, 100) and the test d < 100 * p. */
module Rng {

  datatype Source = Source(tape: nat -> nat, pos: nat) {
    function Raw(): nat {
      tape(pos)
    }

    function Next(): Source {
      Source(tape, pos + 1)
    }
  }

  /** random.randrange(n), i.e. the generator's _randbelow. */
  method RandBelow(rng: Source, n: nat) returns (k: nat, rng': Source)
    requires n > 0
    ensures k < n && k == rng.Raw() % n
    ensures rng' == rng.Next()
  {
    k, rng' := rng.Raw() % n, rng.Next();
  }

  /** random.randint(a, b): both ends inclusive; the source raises when a > b. */
  method RandInt(rng: Source, a: int, b: int) returns (k: int, rng': Source)
    requires a <= b
    ensures a <= k <= b && k == a + rng.Raw() % (b - a + 1)
    ensures rng' == rng.Next()
  {
    var d;
    d, rng' := RandBelow(rng, b - a + 1);
    k := a + d;
  }

  /** random.random() scaled to whole percent. */
  method Percent(rng: Source) returns (d: nat, rng': Source)
    ensures d < 100 && d == rng.Raw() % 100
    ensures rng' == rng.Next()
  {
    d, rng' := RandBelow(rng, 100);
  }

  /** random.choice(xs); the source raises on an empty sequence. */
  method Choice<T>(rng: Source, xs: seq<T>) returns (x: T, rng': Source)
    requires |xs| > 0
    ensures x in xs && x == xs[rng.Raw() % |xs|]
    ensures rng' == rng.Next()
  {
    var k;
    k, rng' := RandBelow(rng, |xs|);
    x := xs[k];
  }

  /** random.shuffle(xs): for i from |xs|-1 down to 1, swap xs[i] with
      xs[randbelow(i + 1)]. */
  method Shuffle<T>(rng: Source, xs: seq<T>) returns (ys: seq<T>, rng': Source)
    ensures |ys| == |xs|
    ensures multiset(ys) == multiset(xs)
    ensures forall x :: x in ys <==> x in xs
  {
    ys, rng' := xs, rng;
    var i := |xs| - 1;
    while i >= 1
      invariant i < |xs|
      invariant |ys| == |xs|
      invariant multiset(ys) == multiset(xs)
    {
      var j;
      j, rng' := RandBelow(rng', i + 1);
      ys := ys[i := ys[j]][j := ys[i]];
      i := i - 1;
    }
    forall x ensures x in ys <==> x in xs {
      assert x in ys <==> x in multiset(ys);
      assert x in xs <==> x in multiset(xs);
    }
  }
}
