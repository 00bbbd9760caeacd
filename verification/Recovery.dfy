/** When a run whose execution was lost may be tried again: exponential delays with
    jitter drawn from a digest, so that every worker computes the same deadline. */
module Recovery {
  import opened Wrappers

  const MAX_I64 := 0x7FFF_FFFF_FFFF_FFFF

  /** Division of signed integers in Rust, towards zero. */
  function Quotient(a: int, b: int): int
    requires b > 0
  {
    if a >= 0 then a / b else -(-a / b)
  }

  function Base(completed: nat): int {
    if completed == 0 then 1000 else if completed < 4 then 2 * Base(completed - 1) else 16_000
  }

  /** The first two bytes of the digest, reduced to a jitter in thousandths. */
  function Jitter(head: nat): int {
    head % 401 - 200
  }

  function Delay(completed: nat, head: nat): int {
    Base(completed) + Quotient(Base(completed) * Jitter(head), 1000)
  }

  /** `retry_at_ms`: no deadline once the budget is spent or the clock would overflow. */
  function RetryAt(maximum: nat, completed: nat, anchor: int, head: nat): Option<int> {
    if completed >= maximum then None
    else if anchor + Delay(completed, head) > MAX_I64 then None
    else Some(anchor + Delay(completed, head))
  }

  lemma QuotientTruncates(a: int, b: int)
    requires b > 0
    ensures a >= 0 ==> 0 <= a - Quotient(a, b) * b < b
    ensures a <= 0 ==> -b < a - Quotient(a, b) * b <= 0
  {
    if a < 0 { assert -a == (-a / b) * b + (-a) % b; }
  }

  lemma BaseValues(completed: nat)
    ensures Base(completed) == if completed == 0 then 1000 else if completed == 1 then 2000
                               else if completed == 2 then 4000 else if completed == 3 then 8000 else 16_000
  {
    assert Base(1) == 2 * Base(0);
    assert Base(2) == 2 * Base(1);
    assert Base(3) == 2 * Base(2);
  }

  /** The jitter is exact, a fifth of the base either way. */
  lemma DelayRange(completed: nat, head: nat)
    ensures 1000 * Delay(completed, head) == Base(completed) * (1000 + Jitter(head))
    ensures 4 * Base(completed) <= 5 * Delay(completed, head) <= 6 * Base(completed)
    ensures Delay(completed, head) >= 800
  {
    hide Base, Quotient;
    BaseValues(completed);
    var unit := Base(completed) / 1000;
    assert Base(completed) * Jitter(head) == 1000 * (unit * Jitter(head));
    ExactQuotient(unit * Jitter(head));
  }

  lemma ExactQuotient(n: int)
    ensures Quotient(1000 * n, 1000) == n
  {
  }

  /** There is a deadline exactly while the budget lasts and the clock can hold it, and it lies
      one delay after the anchor. */
  lemma DeadlineIff(maximum: nat, completed: nat, anchor: int, head: nat)
    ensures var deadline := RetryAt(maximum, completed, anchor, head);
            && (deadline.Some? <==> completed < maximum && anchor + Delay(completed, head) <= MAX_I64)
            && (deadline.Some? ==> deadline.value == anchor + Delay(completed, head) >= anchor + 800)
  {
    hide Delay;
    DelayRange(completed, head);
  }

  /** Whatever the two digests say, the next delay is longer until the cap. */
  lemma DelaysGrow(completed: nat, head: nat, head': nat)
    requires completed < 4
    ensures Delay(completed, head) < Delay(completed + 1, head')
  {
    DelayRange(completed, head);
    DelayRange(completed + 1, head');
    BaseValues(completed);
    BaseValues(completed + 1);
  }

  /** Reservation `i` was made at `reserved[i]`, no earlier than the deadline before it. */
  predicate Reservations(maximum: nat, anchor: int, reserved: seq<int>, heads: seq<nat>) {
    && |heads| == |reserved|
    && forall i :: 0 <= i < |reserved| ==> Due(maximum, i, Anchor(anchor, reserved, i), heads[i], reserved[i])
  }

  function Anchor(anchor: int, reserved: seq<int>, i: nat): int
    requires i <= |reserved|
  {
    if i == 0 then anchor else reserved[i - 1]
  }

  predicate Due(maximum: nat, completed: nat, anchor: int, head: nat, at: int) {
    var deadline := RetryAt(maximum, completed, anchor, head);
    deadline.Some? && deadline.value <= at
  }

  /** Along such a chain the deadlines strictly increase, at least 800 ms apart, and
      there are no more of them than the budget. */
  lemma DeadlinesAdvance(maximum: nat, anchor: int, reserved: seq<int>, heads: seq<nat>, i: nat)
    requires Reservations(maximum, anchor, reserved, heads) && i < |reserved|
    ensures |reserved| <= maximum
    ensures var deadline := RetryAt(maximum, i, Anchor(anchor, reserved, i), heads[i]);
            && deadline.Some?
            && (i > 0 ==>
                  var before := RetryAt(maximum, i - 1, Anchor(anchor, reserved, i - 1), heads[i - 1]);
                  before.Some? && before.value + 800 <= deadline.value)
  {
    hide Delay;
    assert Due(maximum, i, Anchor(anchor, reserved, i), heads[i], reserved[i]);
    DelayRange(i, heads[i]);
    if i > 0 { assert Due(maximum, i - 1, Anchor(anchor, reserved, i - 1), heads[i - 1], reserved[i - 1]); }
    var last := |reserved| - 1;
    assert Due(maximum, last, Anchor(anchor, reserved, last), heads[last], reserved[last]);
  }
}
