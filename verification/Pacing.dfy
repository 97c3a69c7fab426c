/** The arithmetic of the paced sender: the bandwidth slice chosen by nwc_connection_init and what the
    send loop of nwc_connection_on_send (04-30_nwchecker_refactor/nwc_connection.c) adds up to. */
module Pacing {
  import opened Sequences
  import opened Words
  import Qos

  const PACKAGE_LEN := Qos.HEADER_LEN + Qos.PAYLOAD
  const DEFAULT_RATE := 125000

  // ---------- the slice ----------

  // The configured bandwidth is a signed int in bits per second, read as an unsigned word.
  function BytesPerSecond(bandwidth: int): uint32
    requires -0x8000_0000 <= bandwidth < 0x8000_0000
  {
    var bd := bandwidth % TWO32;
    if bd == 0 then DEFAULT_RATE else bd / 8
  }

  /** The rate in bytes per second: 1 Mbit/s when none is configured, otherwise the bits of the unsigned word over 8,
      rounded down. */
  lemma RateIsEighth(bandwidth: int)
    requires -0x8000_0000 <= bandwidth < 0x8000_0000
    ensures var rate := BytesPerSecond(bandwidth);
            && (bandwidth == 0 ==> rate == 125000)
            && (bandwidth > 0 ==> 8 * rate <= bandwidth < 8 * rate + 8)
            && (bandwidth < 0 ==> 8 * rate <= bandwidth + 0x1_0000_0000 < 8 * rate + 8)
  {
  }

  function Slice(bandwidth: int): uint32
    requires -0x8000_0000 <= bandwidth < 0x8000_0000
  {
    (BytesPerSecond(bandwidth) + 19) / 20
  }

  /** The slice is the least one whose twenty ticks cover the configured rate, and it is zero,
      so that the client never sends, exactly for a configured bandwidth of 1 to 7 bits per second. */
  lemma SliceIsLeastSufficient(bandwidth: int)
    requires -0x8000_0000 <= bandwidth < 0x8000_0000
    ensures var slice := Slice(bandwidth);
            && 20 * slice >= BytesPerSecond(bandwidth)
            && (forall less: nat :: less < slice ==> 20 * less < BytesPerSecond(bandwidth))
            && (slice == 0 <==> 1 <= bandwidth <= 7)
            && slice + PACKAGE_LEN < TWO32
  {
    var slice := Slice(bandwidth);
    forall less: nat | less < slice
      ensures 20 * less < BytesPerSecond(bandwidth)
    {
      assert less <= slice - 1;
    }
  }

  // ---------- the loop ----------

  // The bytes accepted by the first n sends.
  ghost function Total(answer: nat -> int, n: nat): int {
    if n == 0 then 0 else Total(answer, n - 1) + (if answer(n - 1) > 0 then answer(n - 1) else 0)
  }

  // As long as none fails, that is the sum of what the sends returned.
  lemma {:induction false} TotalIsSum(answer: nat -> int, n: nat)
    requires forall k: nat :: k < n ==> answer(k) > 0
    ensures Total(answer, n) == Sum(seq(n, i requires 0 <= i < n => answer(i)))
  {
    if n > 0 {
      TotalIsSum(answer, n - 1);
      var all := seq(n, i requires 0 <= i < n => answer(i));
      assert all[..n - 1] == seq(n - 1, i requires 0 <= i < n - 1 => answer(i));
    }
  }

  // The protocol state after n packages, the i-th stamped clock(i).
  function AfterSends(q: Qos.State, first: nat, clock: nat -> uint32, n: nat): Qos.State {
    if n == 0 then q
    else Qos.AfterCreate(AfterSends(q, first, clock, n - 1), Qos.Entry(first + n - 1, clock(n - 1)), Qos.PAYLOAD)
  }

  // Every send before the n-th found the slice uncovered, and none before the last failed.
  ghost predicate Uncovered(answer: nat -> int, slice: nat, n: nat) {
    && (forall k: nat :: k < n ==> Total(answer, k) < slice)
    && (forall k: nat :: k + 1 < n ==> answer(k) > 0)
  }

  lemma UncoveredStep(answer: nat -> int, slice: nat, n: nat)
    requires Uncovered(answer, slice, n) && Total(answer, n) < slice && (n > 0 ==> answer(n - 1) > 0)
    ensures Uncovered(answer, slice, n + 1)
    ensures Total(answer, n + 1) == Total(answer, n) + (if answer(n) > 0 then answer(n) else 0)
  {
  }

  // Before each of the n sends, what all the earlier ones had accepted, none of them failing, fell short of the slice.
  lemma UncoveredMeans(answer: nat -> int, slice: nat, n: nat, k: nat)
    requires Uncovered(answer, slice, n) && k < n
    ensures Sum(seq(k, i requires 0 <= i < k => answer(i))) < slice
    ensures forall i: nat :: i < k ==> answer(i) > 0
  {
    TotalIsSum(answer, k);
  }

  /** n sends queue n packages of 1316 bytes, in order, the i-th with the i-th stamp, and change nothing else. */
  lemma {:induction false} SendsAppendInOrder(q: Qos.State, first: nat, clock: nat -> uint32, n: nat)
    ensures AfterSends(q, first, clock, n)
         == q.(queue := q.queue + seq(n, i requires 0 <= i < n => Qos.Entry(first + i, clock(i))),
               sentPackages := (q.sentPackages + n) % 0x1_0000_0000,
               sentBytes := (q.sentBytes + 1316 * n) % 0x1_0000_0000)
  {
    if n > 0 {
      SendsAppendInOrder(q, first, clock, n - 1);
      Add32Sum(q.sentPackages + n - 1, 1);
      Add32Sum(q.sentBytes + 1316 * (n - 1), 1316);
    }
  }

  // ---------- consequences ----------

  lemma {:induction false} WholeSendsTotal(answer: nat -> int, n: nat)
    requires forall k: nat :: k < n ==> answer(k) == 1316
    ensures Total(answer, n) == n * 1316
  {
    if n > 0 {
      WholeSendsTotal(answer, n - 1);
    }
  }

  /** When every send accepts its whole package, a tick sends the slice rounded up to whole packages. */
  lemma WholeTick(answer: nat -> int, slice: nat, n: nat)
    requires forall k: nat :: k < n ==> answer(k) == 1316
    requires slice <= Total(answer, n) && Uncovered(answer, slice, n)
    ensures n == (slice + 1315) / 1316
    ensures Total(answer, n) == 1316 * ((slice + 1315) / 1316)
  {
    WholeSendsTotal(answer, n);
    if n > 0 {
      WholeSendsTotal(answer, n - 1);
      assert Total(answer, n - 1) < slice;
    }
  }

  lemma {:induction false} SumBounds(ticks: seq<int>, low: int, high: int)
    requires forall i :: 0 <= i < |ticks| ==> low <= ticks[i] <= high
    ensures |ticks| * low <= Sum(ticks) <= |ticks| * high
  {
    if ticks != [] {
      var rest := ticks[..|ticks| - 1];
      SumBounds(rest, low, high);
      assert |ticks| * low == |rest| * low + low && |ticks| * high == |rest| * high + high;
    }
  }

  /** A second of ticks without a failed send carries at least the configured rate
      and less than one package a tick more. */
  lemma OneSecondOfTicks(bandwidth: int, ticks: seq<int>)
    requires -0x8000_0000 <= bandwidth < 0x8000_0000 && |ticks| == 20
    requires forall i :: 0 <= i < |ticks| ==> Slice(bandwidth) <= ticks[i] <= Slice(bandwidth) + 1315
    ensures BytesPerSecond(bandwidth) <= Sum(ticks) < BytesPerSecond(bandwidth) + 20 * 1316
  {
    SliceIsLeastSufficient(bandwidth);
    SumBounds(ticks, Slice(bandwidth), Slice(bandwidth) + 1315);
  }
}
