/** The sequence numbers a session draws (SMPP v3.4, section 3.2). */
module SequenceNumbers {

  /** The largest sequence number; also how many there are. */
  const PERIOD := 0x7FFF_FFFF

  type Counter = x: int | 0 <= x <= PERIOD

  /** session::next_sequence_number: the counter is 0 until the first draw. */
  function NextSequenceNumber(counter: Counter): Counter {
    if counter + 1 > 0x7FFF_FFFF then 1 else counter + 1
  }

  /** The number that draw `k` yields, counting draws from 1; 0 before the first. */
  function NthDraw(k: nat): Counter {
    if k == 0 then 0 else (k - 1) % PERIOD + 1
  }

  lemma NextIsNth(k: nat)
    ensures NextSequenceNumber(NthDraw(k)) == NthDraw(k + 1)
    ensures 1 <= NthDraw(k + 1) <= 0x7FFF_FFFF
  {
    if k > 0 {
      var q, r := (k - 1) / PERIOD, (k - 1) % PERIOD;
      assert k == q * PERIOD + (r + 1);
      if r + 1 == PERIOD {
        assert k == (q + 1) * PERIOD + 0;
        QuotientIsUnique(k, q + 1, 0);
      } else {
        QuotientIsUnique(k, q, r + 1);
      }
    }
  }

  lemma QuotientIsUnique(n: nat, q: nat, r: nat)
    requires n == q * PERIOD + r && r < PERIOD
    ensures n % PERIOD == r
  {
  }

  /** Two draws yield the same number exactly when a whole number of periods lies
      between them; so within one period all numbers differ. */
  lemma DrawsAgreeExactly(j: nat, k: nat)
    requires 1 <= j <= k
    ensures NthDraw(j) == NthDraw(k) <==> (k - j) % PERIOD == 0
    ensures 0 < k - j < PERIOD ==> NthDraw(j) != NthDraw(k)
  {
    var d := (k - 1) / PERIOD - (j - 1) / PERIOD;
    assert k - j == d * PERIOD + ((k - 1) % PERIOD - (j - 1) % PERIOD);
  }
}
