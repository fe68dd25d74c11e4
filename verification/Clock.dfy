/**
 millis() stored in 32 bits: it wraps every 49.7 days, and elapsed times are taken modulo the wrap.
 Where 64 bits are kept only the order of times matters.
 */
module Clock {

  const WRAP: nat := 0x1_0000_0000
  const HALF_WRAP: nat := 0x8000_0000

  /** The clock reading at true time t. */
  function Reading(t: nat): (r: nat)
    ensures r < WRAP
  {
    t % WRAP
  }

  /** Unsigned 32-bit subtraction of two readings. */
  function Since(now: nat, start: nat): (dt: nat)
    ensures dt < WRAP
  {
    (now - start) % WRAP
  }

  /** Elapsed time survives the wrap as long as it is shorter than one wrap. */
  lemma SinceIsElapsed(t: nat, start: nat)
    requires start <= t
    ensures Since(Reading(t), Reading(start)) == (t - start) % WRAP
    ensures t - start < WRAP ==> Since(Reading(t), Reading(start)) == t - start
    ensures Since(Reading(t), Reading(start)) <= t - start
  {
    var k := t / WRAP - start / WRAP;
    assert t % WRAP - start % WRAP == t - start - WRAP * k;
    ShiftedByWraps(t - start, -k);
    assert WRAP * (-k) == -(WRAP * k);
  }

  lemma ShiftedByWraps(a: int, k: int)
    ensures (a + WRAP * k) % WRAP == a % WRAP
  {
  }

  /** Events in the order of their times. */
  ghost predicate InOrder<E>(events: seq<E>, time: E -> nat) {
    forall i, j :: 0 <= i <= j < |events| ==> time(events[i]) <= time(events[j])
  }
}
