/**
  Sixteen-bit message ids that skip zero, and how far they stand for unbounded sequence
  numbers. Message n (counting from 1) carries the id ((n - 1) mod 65535) + 1.
 */
module SequenceNumbers {
  import opened Bytes

  const ID_PERIOD := 65535
  const DUPLICATE_WINDOW := 16384

  function WireId(n: int): (id: u16)
    requires n >= 1
    ensures 1 <= id <= n
  {
    (n - 1) % ID_PERIOD + 1
  }

  /** The counter increment of both ends: a 16-bit increment that steps over zero. */
  function NextId(id: u16): (next: u16)
    ensures next != 0
  {
    var bumped := (id + 1) % 0x1_0000;
    if bumped == 0 then 1 else bumped
  }

  datatype Verdict = Duplicate | InOrder | OutOfOrder

  /** The receiver's decision on 16-bit ids. */
  function Classify(id: u16, next: u16): Verdict {
    var isDuplicate := id < next && next - id < DUPLICATE_WINDOW;
    if isDuplicate then Duplicate
    else if id != next then OutOfOrder
    else InOrder
  }

  /** The decision a receiver with unbounded sequence numbers would take. */
  function ClassifyUnbounded(n: int, next: int): Verdict {
    if n < next then Duplicate else if n > next then OutOfOrder else InOrder
  }

  predicate SameLap(n: int, m: int) {
    (n - 1) / ID_PERIOD == (m - 1) / ID_PERIOD
  }

  /** Where the 16-bit decision can be trusted, for message n arriving when m is expected. */
  predicate InWindow(n: int, m: int) {
    if n >= m then n - m <= 49151 || SameLap(n, m)
    else m - n <= 16383 && SameLap(n, m)
  }

  lemma NextIdIsNextNumber(n: int)
    requires n >= 1
    ensures NextId(WireId(n)) == WireId(n + 1)
  {
  }

  /**
    Exactly inside the window, and nowhere else less than a full period away, the 16-bit
    decision equals the unbounded one.
   */
  lemma ClassifyRefinesUnbounded(n: int, m: int)
    requires 1 <= n && 1 <= m && -ID_PERIOD < n - m < ID_PERIOD
    ensures Classify(WireId(n), WireId(m)) == ClassifyUnbounded(n, m) <==> InWindow(n, m)
  {
    var ln, lm := (n - 1) / ID_PERIOD, (m - 1) / ID_PERIOD;
    assert WireId(n) == n - ln * ID_PERIOD && WireId(m) == m - lm * ID_PERIOD;
    assert ln - 1 <= lm <= ln + 1;
  }

  /** A stale message from before the id wrap is taken for one far ahead. */
  lemma StaleAcrossWrapIsNotDuplicate()
    ensures Classify(WireId(65535), WireId(65537)) == OutOfOrder
    ensures ClassifyUnbounded(65535, 65537) == Duplicate
  {
  }

  /** Ids repeat with the period, and only then: a message a full period old is taken for the expected one. */
  lemma IdsRepeatWithPeriod(n: int, m: int)
    requires n >= 1 && m >= 1
    ensures WireId(n) == WireId(m) <==> (n - m) % ID_PERIOD == 0
  {
    var ln, lm := (n - 1) / ID_PERIOD, (m - 1) / ID_PERIOD;
    assert n - m == (ln - lm) * ID_PERIOD + (WireId(n) - WireId(m));
  }

  /** The sequence number, from m on, that an id stands for. */
  function Lift(id: u16, m: int): (n: int)
    requires m >= 1
    ensures m <= n < m + ID_PERIOD
  {
    m + (id - WireId(m)) % ID_PERIOD
  }

  lemma LiftOfWireId(n: int, m: int)
    requires 1 <= m <= n < m + ID_PERIOD
    ensures Lift(WireId(n), m) == n
  {
    var ln, lm := (n - 1) / ID_PERIOD, (m - 1) / ID_PERIOD;
    assert WireId(n) == n - ln * ID_PERIOD && WireId(m) == m - lm * ID_PERIOD;
  }

  lemma LiftStands(id: u16, m: int)
    requires m >= 1 && id != 0
    ensures WireId(Lift(id, m)) == id
    ensures Lift(id, m) == m <==> id == WireId(m)
    ensures Lift(id, m) > m ==> Lift(id, m + 1) == Lift(id, m)
  {
    var n := Lift(id, m);
    var lm := (m - 1) / ID_PERIOD;
    assert WireId(m) == m - lm * ID_PERIOD;
    if id >= WireId(m) {
      assert n == id + lm * ID_PERIOD;
      assert (n - 1) == (id - 1) + lm * ID_PERIOD;
    } else {
      assert n == id + lm * ID_PERIOD + ID_PERIOD;
    }
    assert WireId(n) == id;
    if n > m {
      LiftOfWireId(n, m + 1);
    }
  }
}
