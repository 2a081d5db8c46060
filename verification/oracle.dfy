/** The seeded pseudo-random source, reduced to the outcomes it produces.

    The program threads one `random.Random(seed)` through every sampling call. Here the
    source is a pair of infinite outcome streams, fixed for a whole run, and the only state
    is a cursor `pos` that each call advances. `below(i)` is the answer of a comparison
    `random() < p`, `index(i)` an unbounded draw reduced modulo the number of choices.
    Every property proved about a user of this module holds for every pair of streams,
    that is, for every possible sequence of random outcomes. */
module Oracle {
  import opened Seqs

  datatype Source = Source(below: nat -> bool, index: nat -> nat)

  /** `rng.random() < p`, one outcome from the stream. */
  function Coin(src: Source, pos: nat): (r: (bool, nat))
    ensures r.0 == src.below(pos)
    ensures r.1 == pos + 1
  {
    (src.below(pos), pos + 1)
  }

  /** The index `rng.choice` picks among `n > 0` options. */
  function Choice(src: Source, pos: nat, n: nat): (r: (nat, nat))
    requires n > 0
    ensures r.0 < n
    ensures r.1 == pos + 1
  {
    (src.index(pos) % n, pos + 1)
  }

  /** `rng.shuffle`: a selection shuffle that picks the next element with one index draw.
      The result is a permutation of `xs`; `ShuffleReachesAll` shows that every permutation
      is the result of some stream. */
  function Shuffle<T>(src: Source, pos: nat, xs: seq<T>): (r: (seq<T>, nat))
    ensures multiset(r.0) == multiset(xs)
    ensures |r.0| == |xs|
    ensures r.1 >= pos
    decreases |xs|
  {
    if |xs| <= 1 then (xs, pos)
    else
      var (k, p1) := Choice(src, pos, |xs|);
      var rest := xs[..k] + xs[k + 1..];
      assert xs == xs[..k] + [xs[k]] + xs[k + 1..];
      var (shuffled, p2) := Shuffle(src, p1, rest);
      ([xs[k]] + shuffled, p2)
  }

  /** The index draws under which `Shuffle` yields `p`: at each step, where the next element
      of `p` sits among the elements not taken yet. */
  function Draws<T(==)>(xs: seq<T>, p: seq<T>): (ds: seq<nat>)
    requires multiset(p) == multiset(xs)
    decreases |xs|
  {
    if |xs| <= 1 then []
    else
      Taken(xs, p);
      var k := IndexOf(xs, p[0]);
      [k] + Draws(xs[..k] + xs[k + 1..], p[1..])
  }

  /** The head of a permutation of `xs` is in `xs`, and the rest of it is a permutation of
      what is left once that element is taken out. */
  lemma Taken<T>(xs: seq<T>, p: seq<T>)
    requires multiset(p) == multiset(xs) && |xs| > 0
    ensures |p| == |xs| && p[0] in xs
    ensures forall k :: 0 <= k < |xs| && xs[k] == p[0] ==>
              multiset(p[1..]) == multiset(xs[..k] + xs[k + 1..])
  {
    assert |p| == |multiset(p)| == |multiset(xs)| == |xs|;
    assert p == [p[0]] + p[1..];
    assert p[0] in multiset(xs);
    forall k | 0 <= k < |xs| && xs[k] == p[0]
      ensures multiset(p[1..]) == multiset(xs[..k] + xs[k + 1..])
    {
      Removed(xs, p, k);
    }
  }

  /** Taking the head of `p` out of `p` and its occurrence at `k` out of `xs` leaves two
      permutations of each other. */
  lemma Removed<T>(xs: seq<T>, p: seq<T>, k: nat)
    requires multiset(p) == multiset(xs) && k < |xs| && |p| > 0 && xs[k] == p[0]
    ensures multiset(p[1..]) == multiset(xs[..k] + xs[k + 1..])
  {
    var rest := xs[..k] + xs[k + 1..];
    assert multiset(xs) == multiset(rest) + multiset{p[0]} by {
      assert xs == xs[..k] + [xs[k]] + xs[k + 1..];
    }
    assert multiset(p) == multiset(p[1..]) + multiset{p[0]} by {
      assert p == [p[0]] + p[1..];
    }
    forall y ensures multiset(p[1..])[y] == multiset(rest)[y] {
      assert multiset(p)[y] == multiset(xs)[y];
    }
  }

  /** One step of `Shuffle`: the element the draw at `pos` selects, then the shuffle of the
      others from the next position. */
  lemma ShuffleStep<T>(src: Source, pos: nat, xs: seq<T>)
    requires |xs| > 1
    ensures var k := src.index(pos) % |xs|;
            Shuffle(src, pos, xs).0 == [xs[k]] + Shuffle(src, pos + 1, xs[..k] + xs[k + 1..]).0
  {
  }

  /** One step of `Draws`: the position of the head of `p`, then the draws for the rest. */
  lemma DrawsStep<T>(xs: seq<T>, p: seq<T>)
    requires multiset(p) == multiset(xs) && |xs| > 1
    ensures |p| == |xs| && p[0] in xs
    ensures var k := IndexOf(xs, p[0]);
            && multiset(p[1..]) == multiset(xs[..k] + xs[k + 1..])
            && Draws(xs, p) == [k] + Draws(xs[..k] + xs[k + 1..], p[1..])
  {
    Taken(xs, p);
  }

  lemma SmallMod(k: nat, n: nat)
    requires k < n
    ensures k % n == k
  {
  }

  /** The index draws of `src` from `pos` on begin with `ds`. */
  ghost predicate Supplies(src: Source, pos: nat, ds: seq<nat>) {
    forall i :: 0 <= i < |ds| ==> src.index(pos + i) == ds[i]
  }

  /** A stream that supplies `[d] + ds` draws `d` first and supplies `ds` after it. */
  lemma SuppliesTail(src: Source, pos: nat, d: nat, ds: seq<nat>)
    requires Supplies(src, pos, [d] + ds)
    ensures src.index(pos) == d && Supplies(src, pos + 1, ds)
  {
    assert src.index(pos + 0) == ([d] + ds)[0];
    forall i | 0 <= i < |ds| ensures src.index(pos + 1 + i) == ds[i] {
      assert src.index(pos + (1 + i)) == ([d] + ds)[1 + i];
    }
  }

  /** A stream whose index draws from `pos` on are `ds`. */
  function Scripted(pos: nat, ds: seq<nat>): (src: Source)
    ensures Supplies(src, pos, ds)
  {
    Source(_ => false, i => if pos <= i < pos + |ds| then ds[i - pos] else 0)
  }

  /** A stream that supplies `Draws(xs, p)` makes `Shuffle` yield `p`. */
  lemma {:induction false} ShuffleFollows<T>(src: Source, pos: nat, xs: seq<T>, p: seq<T>)
    requires multiset(p) == multiset(xs)
    requires Supplies(src, pos, Draws(xs, p))
    ensures Shuffle(src, pos, xs).0 == p
    decreases |xs|
  {
    if |xs| <= 1 {
      ShuffleShort(src, pos, xs, p);
    } else {
      FollowStep(src, pos, xs, p);
      var k := IndexOf(xs, p[0]);
      ShuffleFollows(src, pos + 1, xs[..k] + xs[k + 1..], p[1..]);
    }
  }

  /** A list of at most one element has itself as its only permutation, and `Shuffle`
      returns it as it is. */
  lemma ShuffleShort<T>(src: Source, pos: nat, xs: seq<T>, p: seq<T>)
    requires multiset(p) == multiset(xs) && |xs| <= 1
    ensures Shuffle(src, pos, xs).0 == p
  {
    if |xs| == 0 {
      assert |p| == |multiset(p)| == 0;
    } else {
      Taken(xs, p);
      assert p == [p[0]] == xs;
    }
  }

  /** One step of `ShuffleFollows`: the first draw selects the head of `p`, and the stream
      goes on to supply the draws for the rest of `p` among the remaining elements. */
  lemma FollowStep<T>(src: Source, pos: nat, xs: seq<T>, p: seq<T>)
    requires multiset(p) == multiset(xs) && |xs| > 1
    requires Supplies(src, pos, Draws(xs, p))
    ensures |p| == |xs| && p[0] in xs
    ensures var k := IndexOf(xs, p[0]);
            var rest := xs[..k] + xs[k + 1..];
            && multiset(p[1..]) == multiset(rest)
            && Supplies(src, pos + 1, Draws(rest, p[1..]))
            && (Shuffle(src, pos + 1, rest).0 == p[1..] ==> Shuffle(src, pos, xs).0 == p)
  {
    DrawsStep(xs, p);
    var k := IndexOf(xs, p[0]);
    var rest := xs[..k] + xs[k + 1..];
    SuppliesTail(src, pos, k, Draws(rest, p[1..]));
    SmallMod(k, |xs|);
    ShuffleStep(src, pos, xs);
    assert p == [p[0]] + p[1..];
  }

  /** Every permutation of `xs` is what `Shuffle` yields on some stream: the model of
      `rng.shuffle` rules out no order. */
  lemma ShuffleReachesAll<T>(pos: nat, xs: seq<T>, p: seq<T>)
    requires multiset(p) == multiset(xs)
    ensures exists src :: Shuffle(src, pos, xs).0 == p
  {
    var src := Scripted(pos, Draws(xs, p));
    ShuffleFollows(src, pos, xs, p);
  }
}
