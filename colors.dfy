/**
 * The eight player colours (niceColors) and the queue they are dealt from:
 * updateAvailableColors shuffles the palette, getAvailableColor takes the head
 * of the queue and refills it with a fresh shuffle once it is empty.
 */
module Colors {

  /** The ARGB values of niceColors, in declaration order. */
  const Palette: seq<int> := [
    0xFFFF595E, 0xFFFF924C, 0xFFFFCA3A, 0xFF8AC926,
    0xFF52A675, 0xFF1982C4, 0xFF4064A0, 0xFF6A4C93
  ]

  const PaletteSize: int := 8

  /** A colour, as its position in the palette. */
  type Color = c: int | 0 <= c < PaletteSize

  /** The colour's ARGB value: a 32-bit value with full alpha. */
  function Argb(c: Color): (argb: int)
    ensures 0xFF00_0000 <= argb <= 0xFFFF_FFFF
  {
    Palette[c]
  }

  /** The eight palette colours are pairwise different, so a colour is fixed by its ARGB value. */
  lemma ArgbInjective(c: Color, d: Color)
    ensures Argb(c) == Argb(d) <==> c == d
  {
  }

  /** Every colour of the palette, in palette order. */
  function AllColors(): (s: seq<Color>)
    ensures |s| == PaletteSize && forall c: Color :: s[c] == c
  {
    seq(PaletteSize, i requires 0 <= i < PaletteSize => i)
  }

  predicate Distinct(s: seq<Color>) {
    forall i, j :: 0 <= i < j < |s| ==> s[i] != s[j]
  }

  /** A result of `niceColors.shuffled()`: the palette in some order (the randomness is the caller's). */
  predicate IsShuffle(s: seq<Color>) {
    |s| == PaletteSize && Distinct(s)
  }

  /** A bag of colours in which no colour occurs twice. */
  predicate NoRepeats(m: multiset<Color>) {
    forall c | c in m :: m[c] == 1
  }

  /**
   * getAvailableColor on the queue `queue`: refill with `reshuffle` when empty,
   * then hand out the head and keep the tail.
   */
  function Draw(queue: seq<Color>, reshuffle: seq<Color>): (r: (Color, seq<Color>))
    requires IsShuffle(reshuffle)
    ensures [r.0] + r.1 == (if queue == [] then reshuffle else queue)
  {
    var q := if queue == [] then reshuffle else queue;
    (q[0], q[1..])
  }

  /**
   * Dealing is without replacement: the colour handed out and the queue left
   * behind are the old queue (or a whole fresh shuffle when it was empty), and
   * a non-empty queue is dealt from without shuffling.
   */
  lemma DrawWithoutReplacement(queue: seq<Color>, reshuffle: seq<Color>, other: seq<Color>)
    requires IsShuffle(reshuffle) && IsShuffle(other)
    ensures queue != [] ==> multiset{Draw(queue, reshuffle).0} + multiset(Draw(queue, reshuffle).1) == multiset(queue)
    ensures queue == [] ==> multiset{Draw(queue, reshuffle).0} + multiset(Draw(queue, reshuffle).1) == multiset(AllColors())
    ensures queue != [] ==> Draw(queue, reshuffle) == Draw(queue, other)
  {
    var r := Draw(queue, reshuffle);
    assert multiset([r.0] + r.1) == multiset{r.0} + multiset(r.1);
    if queue == [] {
      ShuffleIsPermutation(reshuffle);
    }
  }

  /** A sequence has distinct entries exactly when its multiset has no repeats. */
  lemma {:induction false} DistinctNoRepeats(s: seq<Color>)
    ensures Distinct(s) <==> NoRepeats(multiset(s))
    decreases |s|
  {
    if Distinct(s) && s != [] {
      var t := s[1..];
      assert s == [s[0]] + t;
      assert Distinct(t);
      DistinctNoRepeats(t);
      assert s[0] !in t;
      assert multiset(s) == multiset{s[0]} + multiset(t);
    }
    if !Distinct(s) {
      var i, j :| 0 <= i < j < |s| && s[i] == s[j];
      TwiceInSeq(s, i, j);
    }
  }

  /** Two equal entries of a sequence count twice in its multiset. */
  lemma TwiceInSeq<T>(s: seq<T>, i: nat, j: nat)
    requires i < j < |s| && s[i] == s[j]
    ensures multiset(s)[s[i]] >= 2
  {
    assert s == s[..j] + [s[j]] + s[j + 1..];
    assert s[i] in multiset(s[..j]) by { assert s[..j][i] == s[i]; }
    assert multiset(s) == multiset(s[..j]) + multiset{s[j]} + multiset(s[j + 1..]);
  }

  /** A bag without repeats is part of the palette, so it holds at most eight colours. */
  lemma NoRepeatsInPalette(m: multiset<Color>)
    requires NoRepeats(m)
    ensures m <= multiset(AllColors()) && |m| <= PaletteSize
  {
    var all := AllColors();
    forall c | c in m ensures m[c] <= multiset(all)[c] {
      assert all[c] == c;
      assert c in multiset(all);
    }
    SubMultisetCard(m, multiset(all));
  }

  /** A bag inside another one without repeats has no repeats. */
  lemma NoRepeatsSub(a: multiset<Color>, b: multiset<Color>)
    requires a <= b && NoRepeats(b)
    ensures NoRepeats(a)
  {
    forall c | c in a ensures a[c] == 1 {
      assert c in b;
    }
  }

  /** A shuffle holds each of the eight colours exactly once. */
  lemma ShuffleIsPermutation(s: seq<Color>)
    requires IsShuffle(s)
    ensures multiset(s) == multiset(AllColors())
    ensures forall c: Color :: c in s
  {
    DistinctNoRepeats(s);
    NoRepeatsInPalette(multiset(s));
    SubMultisetFull(multiset(s), multiset(AllColors()));
    forall c: Color ensures c in s {
      assert AllColors()[c] == c;
      assert c in multiset(AllColors());
    }
  }

  /** A sub-multiset has at most as many elements. */
  lemma {:induction false} SubMultisetCard<T>(a: multiset<T>, b: multiset<T>)
    requires a <= b
    ensures |a| <= |b|
    decreases |a|
  {
    if a != multiset{} {
      var x :| x in a;
      SubMultisetCard(a - multiset{x}, b - multiset{x});
    }
  }

  /** A sub-multiset as large as the whole is the whole. */
  lemma SubMultisetFull<T>(a: multiset<T>, b: multiset<T>)
    requires a <= b && |a| >= |b|
    ensures a == b
  {
    if a != b {
      var x :| a[x] < b[x];
      assert b == (b - multiset{x}) + multiset{x};
      SubMultisetCard(a, b - multiset{x});
    }
  }
}
