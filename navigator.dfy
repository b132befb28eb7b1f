/** The index arithmetic of `next_channel` and `prev_channel`. The field they update is
    `Player.IPTVPlayer.index`. */
module Navigator {

  /** `next_channel`: one forward, back to 0 once the index reaches the channel count. From any
      index the player can hold (-1 or more) it lands in range, or on 0 when the list is empty. */
  function NextIndex(i: int, n: nat): (r: int)
    ensures i >= -1 ==> (0 <= r < n || r == 0)
    ensures n == 0 && i >= -1 ==> r == 0
    ensures 0 <= i < n ==> r == (i + 1) % n
  {
    if i + 1 >= n then 0 else i + 1
  }

  /** `prev_channel`: one back, to the last channel once the index drops below 0. On an empty
      list that last channel is -1. */
  function PrevIndex(i: int, n: nat): (r: int)
    ensures 0 <= i < n ==> 0 <= r < n && r == (i - 1 + n) % n
    ensures n == 0 && i <= 0 ==> r == -1
    ensures i >= -1 ==> r >= -1
  {
    if i - 1 < 0 then n - 1 else i - 1
  }

  /** `next_channel` pressed k times. */
  function NextTimes(i: int, n: nat, k: nat): int
    decreases k
  {
    if k == 0 then i else NextTimes(NextIndex(i, n), n, k - 1)
  }

  /** `prev_channel` pressed k times. */
  function PrevTimes(i: int, n: nat, k: nat): int
    decreases k
  {
    if k == 0 then i else PrevTimes(PrevIndex(i, n), n, k - 1)
  }

  lemma {:induction false} NextTimesAdd(i: int, n: nat, a: nat, b: nat)
    ensures NextTimes(i, n, a + b) == NextTimes(NextTimes(i, n, a), n, b)
    decreases a
  {
    if a > 0 {
      NextTimesAdd(NextIndex(i, n), n, a - 1, b);
    }
  }

  lemma {:induction false} PrevTimesAdd(i: int, n: nat, a: nat, b: nat)
    ensures PrevTimes(i, n, a + b) == PrevTimes(PrevTimes(i, n, a), n, b)
    decreases a
  {
    if a > 0 {
      PrevTimesAdd(PrevIndex(i, n), n, a - 1, b);
    }
  }

  /** Short of the end of the list, next presses just count up. */
  lemma {:induction false} NextTimesBelow(i: int, n: nat, k: nat)
    requires 0 <= i && i + k < n
    ensures NextTimes(i, n, k) == i + k
    decreases k
  {
    if k > 0 {
      NextTimesBelow(i + 1, n, k - 1);
    }
  }

  /** Short of the start of the list, previous presses just count down. */
  lemma {:induction false} PrevTimesBelow(i: int, n: nat, k: nat)
    requires k <= i < n
    ensures PrevTimes(i, n, k) == i - k
    decreases k
  {
    if k > 0 {
      PrevTimesBelow(i - 1, n, k - 1);
    }
  }

  /** n presses of next, on a list of n channels, come back to where they started. */
  lemma NextWrapsAround(i: int, n: nat)
    requires 0 <= i < n
    ensures NextTimes(i, n, n) == i
  {
    NextTimesBelow(i, n, n - 1 - i);
    NextTimesAdd(i, n, n - 1 - i, i + 1);
    assert NextTimes(n - 1, n, i + 1) == NextTimes(0, n, i);
    NextTimesBelow(0, n, i);
  }

  /** n presses of previous, on a list of n channels, come back to where they started. */
  lemma PrevWrapsAround(i: int, n: nat)
    requires 0 <= i < n
    ensures PrevTimes(i, n, n) == i
  {
    PrevTimesBelow(i, n, i);
    PrevTimesAdd(i, n, i, n - i);
    assert PrevTimes(0, n, n - i) == PrevTimes(n - 1, n, n - i - 1);
    PrevTimesBelow(n - 1, n, n - i - 1);
  }

  /** Previous undoes next and next undoes previous. */
  lemma NextPrevInverse(i: int, n: nat)
    requires 0 <= i < n
    ensures PrevIndex(NextIndex(i, n), n) == i
    ensures NextIndex(PrevIndex(i, n), n) == i
  {
  }

  /** An index left beyond a shorter list that was loaded later is not brought back into range
      by previous: it only steps down by one. */
  lemma PrevFromStaleIndex(i: int, n: nat)
    requires i > n
    ensures PrevIndex(i, n) == i - 1 && PrevIndex(i, n) >= n
  {
  }
}
