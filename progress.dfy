/**
 * The block-progress indicator: how much of the nominal block time has
 * passed since the last block was processed, as a percentage.
 */
module Progress {

  /** `blockTimeMs`, the nominal block interval in milliseconds. */
  const BlockTimeMs: int := 6000

  /** `Math.min(blockTimeMs, Date.now() - this.lastBlockTime)`, in integer milliseconds. */
  function Elapsed(now: int, lastBlockTime: int): (e: int)
    ensures e <= BlockTimeMs && e <= now - lastBlockTime
    ensures e == BlockTimeMs || e == now - lastBlockTime
  {
    if BlockTimeMs <= now - lastBlockTime then BlockTimeMs else now - lastBlockTime
  }

  /** `(elapsed * 100) / blockTimeMs`, taken as an exact rational. */
  function ProgressPercent(now: int, lastBlockTime: int): (p: real)
    ensures p <= 100.0
    ensures p == 100.0 <==> now - lastBlockTime >= BlockTimeMs
    ensures p >= 0.0 <==> now >= lastBlockTime
    ensures now - lastBlockTime <= BlockTimeMs ==> p * 60.0 == (now - lastBlockTime) as real
  {
    (Elapsed(now, lastBlockTime) * 100) as real / BlockTimeMs as real
  }

  /** The indicator never moves backwards while the reference time stays put. */
  lemma ProgressMonotone(now1: int, now2: int, lastBlockTime: int)
    requires now1 <= now2
    ensures ProgressPercent(now1, lastBlockTime) <= ProgressPercent(now2, lastBlockTime)
  {
  }

  /** A later reference time (a newer block) never shows more progress at the same instant. */
  lemma ProgressResets(now: int, last1: int, last2: int)
    requires last1 <= last2
    ensures ProgressPercent(now, last2) <= ProgressPercent(now, last1)
  {
  }
}
