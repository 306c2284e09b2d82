/**
 * Difficulty retargeting and the difficulty a block adds to its chain
 * (its own difficulty plus those of its uncles).
 */
module Difficulty {
  import opened ChainTypes

  /** `x >> n` on a non-negative big integer: n halvings, each rounding down. */
  function ShiftRight(x: nat, n: nat): nat {
    if n == 0 then x else ShiftRight(x / 2, n - 1)
  }

  /** Shifting right never makes a non-negative number larger. */
  lemma {:induction false} ShiftRightAtMost(x: nat, n: nat)
    ensures ShiftRight(x, n) <= x
  {
    if n > 0 {
      ShiftRightAtMost(x / 2, n - 1);
    }
  }

  function Pow2(n: nat): (p: nat)
    ensures p >= 1
  {
    if n == 0 then 1 else 2 * Pow2(n - 1)
  }

  /** Each halving loses at most what it rounds away: (x >> n) * 2^n <= x. */
  lemma {:induction false} ShiftRightScaled(x: nat, n: nat)
    ensures ShiftRight(x, n) * Pow2(n) <= x
  {
    if n > 0 {
      var s := ShiftRight(x / 2, n - 1);
      ShiftRightScaled(x / 2, n - 1);
      calc {
        ShiftRight(x, n) * Pow2(n);
        s * (2 * Pow2(n - 1));
        { assert s * (2 * Pow2(n - 1)) == 2 * (s * Pow2(n - 1)); }
        2 * (s * Pow2(n - 1));
      <=
        2 * (x / 2);
      <=
        x;
      }
    }
  }

  /** ...and loses less than one unit of 2^n: x < ((x >> n) + 1) * 2^n. */
  lemma {:induction false} ShiftRightAbove(x: nat, n: nat)
    ensures x < (ShiftRight(x, n) + 1) * Pow2(n)
  {
    if n > 0 {
      var s := ShiftRight(x / 2, n - 1);
      ShiftRightAbove(x / 2, n - 1);
      calc {
        x;
      <
        2 * (x / 2 + 1);
      <=
        2 * ((s + 1) * Pow2(n - 1));
        { assert 2 * ((s + 1) * Pow2(n - 1)) == (s + 1) * (2 * Pow2(n - 1)); }
        (s + 1) * Pow2(n);
      }
    }
  }

  /** `x >> 10` is x / 1024. */
  lemma ShiftRightTen(x: nat)
    ensures ShiftRight(x, 10) == x / 1024
  {
    ShiftRightScaled(x, 10);
    ShiftRightAbove(x, 10);
    assert Pow2(10) == 1024;
  }

  /**
   * The difficulty of a block templated on `parent`: with D the parent's
   * difficulty, D - (D >> 10) when the block comes at least 5 time units after
   * its parent, D + (D >> 10) otherwise.
   */
  function CalcDifficulty(block: Block, parent: Block): (d: nat)
    ensures block.time >= parent.time + 5 ==> d <= parent.difficulty
    ensures block.time < parent.time + 5 ==> d >= parent.difficulty
    ensures 1023 * parent.difficulty <= 1024 * d <= 1025 * parent.difficulty
    ensures block.time >= parent.time + 5 ==> d == parent.difficulty - parent.difficulty / 1024
    ensures block.time < parent.time + 5 ==> d == parent.difficulty + parent.difficulty / 1024
  {
    var adjust := ShiftRight(parent.difficulty, 10);
    ShiftRightTen(parent.difficulty);
    if block.time >= parent.time + 5 then parent.difficulty - adjust else parent.difficulty + adjust
  }

  /** The sum of the uncle difficulties a block includes. */
  function UncleSum(uncles: seq<nat>): nat {
    if uncles == [] then 0 else uncles[0] + UncleSum(uncles[1..])
  }

  /** Adding one more uncle at the end adds its difficulty to the sum. */
  lemma {:induction false} UncleSumSnoc(uncles: seq<nat>, d: nat)
    ensures UncleSum(uncles + [d]) == UncleSum(uncles) + d
  {
    if uncles != [] {
      assert (uncles + [d])[1..] == uncles[1..] + [d];
      UncleSumSnoc(uncles[1..], d);
    }
  }

  /** The sum over two runs of uncles is the sum of the two sums. */
  lemma {:induction false} UncleSumAppend(a: seq<nat>, b: seq<nat>)
    ensures UncleSum(a + b) == UncleSum(a) + UncleSum(b)
  {
    if a == [] {
      assert a + b == b;
    } else {
      assert (a + b)[1..] == a[1..] + b;
      UncleSumAppend(a[1..], b);
    }
  }

  /**
   * Every uncle's difficulty is counted exactly once: the sum is that uncle's
   * difficulty plus the sum over all the others.
   */
  lemma {:induction false} UncleSumCountsEach(uncles: seq<nat>, i: nat)
    requires i < |uncles|
    ensures UncleSum(uncles) == uncles[i] + UncleSum(uncles[..i] + uncles[i + 1..])
  {
    var before, after := uncles[..i], uncles[i + 1..];
    var rest := [uncles[i]] + after;
    assert rest[1..] == after;
    assert UncleSum(rest) == uncles[i] + UncleSum(after);
    assert uncles == before + rest;
    UncleSumAppend(before, rest);
    UncleSumAppend(before, after);
  }

  /** The difficulty a block adds to the total: its uncles' and its own. */
  function BlockTd(b: Block): nat {
    UncleSum(b.uncles) + b.difficulty
  }
}
