/** The unbalanced Feistel structure that SM4 uses twice: for its 32 rounds
    (section 7.1 of GB/T 32907-2016) and for its key expansion (section 7.3).
    Four words X[i], ..., X[i + 3] give the next word
      X[i + 4] = X[i] ^ F(X[i + 1] ^ X[i + 2] ^ X[i + 3] ^ rk[i]),
    and the output is the last four words in reverse order. The structure is
    stated for any round function F, so the round trip below holds whatever
    F is. */
module Feistel {
  import opened Word32

  /** The input of the round function: a ^ b ^ c ^ k. */
  function Mix(a: Word, b: Word, c: Word, k: Word): Word
  {
    Xor(Xor(Xor(a, b), c), k)
  }

  /** One round: the word after a0, a1, a2, a3 under the round key k. */
  function Round(f: Word -> Word, a0: Word, a1: Word, a2: Word, a3: Word, k: Word): Word
  {
    Xor(a0, f(Mix(a1, a2, a3, k)))
  }

  /** A round is undone by the round that starts from its result and the
      three middle words in reverse order, under the same key, whatever the
      round function. */
  lemma RoundUndo(f: Word -> Word, a0: Word, a1: Word, a2: Word, a3: Word, k: Word)
    ensures Round(f, Round(f, a0, a1, a2, a3, k), a3, a2, a1, k) == a0
  {
    XorDef(a1, a2);
    XorDef(a1 ^ a2, a3);
    XorDef(a1 ^ a2 ^ a3, k);
    XorDef(a3, a2);
    XorDef(a3 ^ a2, a1);
    XorDef(a3 ^ a2 ^ a1, k);
    assert Mix(a3, a2, a1, k) == Mix(a1, a2, a3, k);
    var v := f(Mix(a1, a2, a3, k));
    XorDef(a0, v);
    XorDef(a0 ^ v, v);
  }

  /** The words X[0], ..., X[m + 3] after m rounds started from the four words x. */
  function Chain(f: Word -> Word, x: seq<Word>, rk: seq<Word>, m: nat): (xs: seq<Word>)
    requires |x| == 4 && m <= |rk|
    ensures |xs| == m + 4
    decreases m, x
  {
    if m == 0 then x
    else
      var xs := Chain(f, x, rk, m - 1);
      xs + [Round(f, xs[m - 1], xs[m], xs[m + 1], xs[m + 2], rk[m - 1])]
  }

  /** A sequence that is the run of m rounds, extended by the word the next
      round computes from it, is the run of m + 1 rounds. */
  lemma ChainExtend(f: Word -> Word, x: seq<Word>, rk: seq<Word>, m: nat, s: seq<Word>, v: Word)
    requires |x| == 4 && m < |rk|
    requires s == Chain(f, x, rk, m)
    requires v == Round(f, s[m], s[m + 1], s[m + 2], s[m + 3], rk[m])
    ensures s + [v] == Chain(f, x, rk, m + 1)
  {
  }

  /** The first j rounds of a longer run are the run of j rounds. */
  lemma {:induction false} ChainPrefix(f: Word -> Word, x: seq<Word>, rk: seq<Word>, j: nat, m: nat)
    requires |x| == 4 && j <= m <= |rk|
    ensures Chain(f, x, rk, m)[..j + 4] == Chain(f, x, rk, j)
    decreases m
  {
    if j < m {
      ChainPrefix(f, x, rk, j, m - 1);
      assert Chain(f, x, rk, m)[..m + 3] == Chain(f, x, rk, m - 1);
    }
  }

  /** The run starts with the four words it was given. */
  lemma ChainStart(f: Word -> Word, x: seq<Word>, rk: seq<Word>, m: nat)
    requires |x| == 4 && m <= |rk|
    ensures Chain(f, x, rk, m)[..4] == x
  {
    ChainPrefix(f, x, rk, 0, m);
  }

  /** Every word after the first four is given by the round equation. */
  lemma {:induction false} ChainRound(f: Word -> Word, x: seq<Word>, rk: seq<Word>, m: nat, i: nat)
    requires |x| == 4 && i < m <= |rk|
    ensures var xs := Chain(f, x, rk, m);
      xs[i + 4] == Round(f, xs[i], xs[i + 1], xs[i + 2], xs[i + 3], rk[i])
  {
    ChainPrefix(f, x, rk, i + 1, m);
    var xs := Chain(f, x, rk, m);
    var ys := Chain(f, x, rk, i + 1);
    assert xs[i + 4] == ys[i + 4];
    assert xs[i] == ys[i] && xs[i + 1] == ys[i + 1] && xs[i + 2] == ys[i + 2] && xs[i + 3] == ys[i + 3];
  }

  /** The run is its four starting words followed by the words the rounds
      produce, each given by the round equation. */
  lemma ChainWords(f: Word -> Word, x: seq<Word>, rk: seq<Word>, m: nat, i: nat)
    requires |x| == 4 && i < m <= |rk|
    ensures var xs := x + Chain(f, x, rk, m)[4..];
      xs == Chain(f, x, rk, m) &&
      xs[i + 4] == Round(f, xs[i], xs[i + 1], xs[i + 2], xs[i + 3], rk[i])
  {
    ChainStart(f, x, rk, m);
    ChainRound(f, x, rk, m, i);
    var xs := Chain(f, x, rk, m);
    assert xs == xs[..4] + xs[4..];
  }

  /** All |rk| rounds followed by the reverse transform R. */
  function Run(f: Word -> Word, x: seq<Word>, rk: seq<Word>): (y: seq<Word>)
    requires |x| == 4
    ensures |y| == 4
  {
    var m := |rk|;
    var xs := Chain(f, x, rk, m);
    [xs[m + 3], xs[m + 2], xs[m + 1], xs[m]]
  }

  function Reverse(s: seq<Word>): (r: seq<Word>)
    ensures |r| == |s| && forall i :: 0 <= i < |s| ==> r[i] == s[|s| - 1 - i]
  {
    seq(|s|, i requires 0 <= i < |s| => s[|s| - 1 - i])
  }

  lemma ReverseReverse(s: seq<Word>)
    ensures Reverse(Reverse(s)) == s
  {
  }

  /** xs is a run of |rk| rounds: every word after the first four is given by
      the round equation. */
  predicate Rounds(f: Word -> Word, xs: seq<Word>, rk: seq<Word>)
  {
    |xs| == |rk| + 4 &&
    forall i {:trigger rk[i]} :: 0 <= i < |rk| ==> xs[i + 4] == Round(f, xs[i], xs[i + 1], xs[i + 2], xs[i + 3], rk[i])
  }

  lemma ChainRounds(f: Word -> Word, x: seq<Word>, rk: seq<Word>)
    requires |x| == 4
    ensures Rounds(f, Chain(f, x, rk, |rk|), rk)
  {
    forall i {:trigger rk[i]} | 0 <= i < |rk| {
      ChainRound(f, x, rk, |rk|, i);
    }
  }

  /** A run under the reversed keys that starts from the last four words of a
      forward run, in reverse order, retraces the forward run from its last
      word back to its first. */
  lemma {:induction false} Mirror(f: Word -> Word, xs: seq<Word>, ys: seq<Word>, rk: seq<Word>, j: nat)
    requires Rounds(f, xs, rk) && Rounds(f, ys, Reverse(rk))
    requires ys[0] == xs[|rk| + 3] && ys[1] == xs[|rk| + 2] && ys[2] == xs[|rk| + 1] && ys[3] == xs[|rk|]
    requires j < |rk| + 4
    ensures ys[j] == xs[|rk| + 3 - j]
    decreases j
  {
    if 4 <= j {
      Mirror(f, xs, ys, rk, j - 1);
      Mirror(f, xs, ys, rk, j - 2);
      Mirror(f, xs, ys, rk, j - 3);
      Mirror(f, xs, ys, rk, j - 4);
      var i := |rk| + 3 - j;
      assert ys[j] == Round(f, ys[j - 4], ys[j - 3], ys[j - 2], ys[j - 1], Reverse(rk)[j - 4]);
      assert xs[i + 4] == Round(f, xs[i], xs[i + 1], xs[i + 2], xs[i + 3], rk[i]);
      MirrorStep(f, xs, ys, rk, i, j);
    }
  }

  /** The inductive step of Mirror: the backward round j - 4 sees the forward
      words i + 4, i + 3, i + 2, i + 1 and the forward key rk[i], so it undoes
      forward round i. */
  lemma MirrorStep(f: Word -> Word, xs: seq<Word>, ys: seq<Word>, rk: seq<Word>, i: nat, j: nat)
    requires 4 <= j < |ys| && i + 4 < |xs| && i < |rk| && i + j == |rk| + 3
    requires ys[j - 4] == xs[i + 4] && ys[j - 3] == xs[i + 3] && ys[j - 2] == xs[i + 2] && ys[j - 1] == xs[i + 1]
    requires ys[j] == Round(f, ys[j - 4], ys[j - 3], ys[j - 2], ys[j - 1], Reverse(rk)[j - 4])
    requires xs[i + 4] == Round(f, xs[i], xs[i + 1], xs[i + 2], xs[i + 3], rk[i])
    ensures ys[j] == xs[i]
  {
    assert Reverse(rk)[j - 4] == rk[i];
    RoundUndo(f, xs[i], xs[i + 1], xs[i + 2], xs[i + 3], rk[i]);
  }

  /** Decryption undoes encryption: running the structure with the round keys
      in reverse order on its output gives back its input, for every round
      function, every number of rounds and every input. */
  lemma RoundTrip(f: Word -> Word, x: seq<Word>, rk: seq<Word>)
    requires |x| == 4
    ensures Run(f, Run(f, x, rk), Reverse(rk)) == x
  {
    var m := |rk|;
    var y := Run(f, x, rk);
    ChainRounds(f, x, rk);
    ChainRounds(f, y, Reverse(rk));
    ChainStart(f, x, rk, m);
    ChainStart(f, y, Reverse(rk), m);
    MirrorRun(f, Chain(f, x, rk, m), Chain(f, y, Reverse(rk), m), rk, x, y, Run(f, y, Reverse(rk)));
  }

  /** RoundTrip on plain sequences: xs is the forward run from x with output y,
      ys the backward run from y with output z. */
  lemma MirrorRun(f: Word -> Word, xs: seq<Word>, ys: seq<Word>, rk: seq<Word>, x: seq<Word>, y: seq<Word>, z: seq<Word>)
    requires Rounds(f, xs, rk) && Rounds(f, ys, Reverse(rk))
    requires xs[..4] == x && ys[..4] == y
    requires y == [xs[|rk| + 3], xs[|rk| + 2], xs[|rk| + 1], xs[|rk|]]
    requires z == [ys[|rk| + 3], ys[|rk| + 2], ys[|rk| + 1], ys[|rk|]]
    ensures z == x
  {
    var m := |rk|;
    assert ys[0] == y[0] && ys[1] == y[1] && ys[2] == y[2] && ys[3] == y[3];
    Mirror(f, xs, ys, rk, m);
    Mirror(f, xs, ys, rk, m + 1);
    Mirror(f, xs, ys, rk, m + 2);
    Mirror(f, xs, ys, rk, m + 3);
    assert x[0] == xs[0] && x[1] == xs[1] && x[2] == xs[2] && x[3] == xs[3];
  }
}
