/** The lease columns of a material processing task: who may work on it, under which
    epoch, until when. */
module Leases {
  import opened Wrappers
  import opened Utf8

  const MAX_ATTEMPTS := 3

  /** Database time, in microseconds. */
  const SECOND := 1_000_000

  datatype Status = Pending | Running | Completed | Failed

  datatype Row = Row(
    platform: bool,
    status: Status,
    errorCode: string,
    leaseOwner: string,
    leaseExpiresAt: Option<int>,
    leaseEpoch: nat,
    attemptCount: nat)

  datatype Lease = Lease(representationId: string, owner: string, epoch: nat)

  datatype ClaimResult = Granted(lease: Lease) | Refused | InvalidArguments

  predicate ValidArguments(owner: string, seconds: int) {
    && (exists i :: 0 <= i < |owner| && !IsSpace(owner[i] as int))
    && |owner| <= 128
    && 1 <= seconds <= 300
  }

  // ---------------------------------------------------------------- specification

  predicate Unexpired(row: Row, now: int) {
    row.leaseExpiresAt.Some? && row.leaseExpiresAt.value > now
  }

  /** `_check`: may the bearer of this lease act on the row at this moment? */
  predicate Passes(row: Row, now: int, lease: Lease, completedReplay: bool) {
    && row.platform
    && row.leaseOwner == lease.owner
    && row.leaseEpoch == lease.epoch
    && ((completedReplay && row.status == Completed)
        || (row.status == Running && Unexpired(row, now)))
  }

  /** The lease is the row's current one and still running. */
  predicate Live(row: Row, now: int, lease: Lease) {
    Passes(row, now, lease, false)
  }

  function ClaimRow(row: Row, now: int, owner: string, seconds: int): Row {
    if !ValidArguments(owner, seconds) || !row.platform || row.status !in {Pending, Running} || Unexpired(row, now) then
      row
    else if row.attemptCount >= MAX_ATTEMPTS then
      row.(status := Failed, errorCode := "material_processing_attempts_exhausted",
           leaseOwner := "", leaseExpiresAt := None)
    else
      row.(leaseEpoch := row.leaseEpoch + 1, attemptCount := row.attemptCount + 1, leaseOwner := owner,
           leaseExpiresAt := Some(now + seconds * SECOND), status := Running, errorCode := "")
  }

  function ClaimOutcome(id: string, row: Row, now: int, owner: string, seconds: int): ClaimResult {
    if !ValidArguments(owner, seconds) then InvalidArguments
    else
      var row' := ClaimRow(row, now, owner, seconds);
      if row'.leaseEpoch > row.leaseEpoch then Granted(Lease(id, owner, row'.leaseEpoch)) else Refused
  }

  function RenewRow(row: Row, now: int, seconds: int): Row {
    row.(leaseExpiresAt := Some(now + seconds * SECOND))
  }

  function ResetRow(row: Row): Row {
    row.(status := Pending, errorCode := "material_processor_attempt_failed", leaseOwner := "", leaseExpiresAt := None)
  }

  function CompleteRow(row: Row): Row {
    if row.status == Completed then row else row.(status := Completed, errorCode := "")
  }

  /** What every operation on the row keeps: the epoch counts the attempts and the
      budget is never exceeded; whoever runs or completed it was a named owner; a row that
      waits or has failed carries no expiry. */
  predicate RowInv(row: Row) {
    && row.leaseEpoch == row.attemptCount <= MAX_ATTEMPTS
    && (row.status in {Running, Completed} ==> row.leaseOwner != "" && row.leaseExpiresAt.Some?)
    && (row.status in {Pending, Failed} ==> row.leaseExpiresAt.None?)
  }

  function NewRow(): (row: Row)
    ensures RowInv(row)
  {
    Row(true, Pending, "", "", None, 0, 0)
  }

  // ---------------------------------------------------------------- the stored row

  /** A row held under `select_for_update`; each method is one transaction body. */
  class TaskRow {
    const id: string
    var platform: bool
    var status: Status
    var errorCode: string
    var leaseOwner: string
    var leaseExpiresAt: Option<int>
    var leaseEpoch: nat
    var attemptCount: nat

    constructor (id: string)
      ensures this.id == id && Columns() == NewRow()
    {
      this.id := id;
      platform, status, errorCode := true, Pending, "";
      leaseOwner, leaseExpiresAt := "", None;
      leaseEpoch, attemptCount := 0, 0;
    }

    function Columns(): Row
      reads this
    {
      Row(platform, status, errorCode, leaseOwner, leaseExpiresAt, leaseEpoch, attemptCount)
    }

    method Claim(now: int, owner: string, seconds: int) returns (r: ClaimResult)
      modifies this
      ensures Columns() == ClaimRow(old(Columns()), now, owner, seconds)
      ensures r == ClaimOutcome(id, old(Columns()), now, owner, seconds)
      ensures r.Granted? ==> Live(Columns(), now, r.lease)
      ensures old(RowInv(Columns())) ==> RowInv(Columns())
    {
      if !ValidArguments(owner, seconds) {
        return InvalidArguments;
      }
      if !platform || (status != Pending && status != Running) {
        return Refused;
      }
      if leaseExpiresAt.Some? && leaseExpiresAt.value > now {
        return Refused;
      }
      if attemptCount >= MAX_ATTEMPTS {
        status, errorCode := Failed, "material_processing_attempts_exhausted";
        leaseOwner, leaseExpiresAt := "", None;
        return Refused;
      }
      leaseEpoch := leaseEpoch + 1;
      attemptCount := attemptCount + 1;
      leaseOwner := owner;
      leaseExpiresAt := Some(now + seconds * SECOND);
      status, errorCode := Running, "";
      r := Granted(Lease(id, owner, leaseEpoch));
    }

    method Check(now: int, lease: Lease, completedReplay: bool) returns (ok: bool)
      ensures ok <==> Passes(Columns(), now, lease, completedReplay)
    {
      if !platform || leaseOwner != lease.owner || leaseEpoch != lease.epoch {
        return false;
      }
      if completedReplay && status == Completed {
        return true;
      }
      if status != Running || leaseExpiresAt.None? || leaseExpiresAt.value <= now {
        return false;
      }
      ok := true;
    }

    method Renew(now: int, lease: Lease, seconds: int) returns (ok: bool)
      modifies this
      ensures ok <==> ValidArguments(lease.owner, seconds) && old(Live(Columns(), now, lease))
      ensures Columns() == if ok then RenewRow(old(Columns()), now, seconds) else old(Columns())
      ensures ok ==> Live(Columns(), now, lease)
    {
      if !ValidArguments(lease.owner, seconds) {
        return false;
      }
      ok := Check(now, lease, false);
      if ok {
        leaseExpiresAt := Some(now + seconds * SECOND);
      }
    }

    /** The worker's reaction to a failed attempt. */
    method Reset(now: int, lease: Lease) returns (ok: bool)
      modifies this
      ensures ok <==> old(Live(Columns(), now, lease))
      ensures Columns() == if ok then ResetRow(old(Columns())) else old(Columns())
      ensures old(RowInv(Columns())) ==> RowInv(Columns())
    {
      ok := Check(now, lease, false);
      if ok {
        status, errorCode := Pending, "material_processor_attempt_failed";
        leaseOwner, leaseExpiresAt := "", None;
      }
    }
  }

  // ---------------------------------------------------------------- one change of the row

  /** The ways a committed transaction changes a row. */
  datatype RowChange =
    | ByClaim(owner: string, seconds: int)
    | ByRenewal(lease: Lease, seconds: int)
    | ByReset(lease: Lease)
    | ByCompletion(lease: Lease, checkedAt: int)

  predicate Admissible(row: Row, now: int, c: RowChange) {
    match c
    case ByClaim(_, _) => true
    case ByRenewal(lease, seconds) => ValidArguments(lease.owner, seconds) && Live(row, now, lease)
    case ByReset(lease) => Live(row, now, lease)
    case ByCompletion(lease, checkedAt) => checkedAt <= now && Passes(row, checkedAt, lease, true)
  }

  function Changed(row: Row, now: int, c: RowChange): Row {
    match c
    case ByClaim(owner, seconds) => ClaimRow(row, now, owner, seconds)
    case ByRenewal(_, seconds) => RenewRow(row, now, seconds)
    case ByReset(_) => ResetRow(row)
    case ByCompletion(_, _) => CompleteRow(row)
  }

  lemma ChangeKeepsRowInv(row: Row, now: int, c: RowChange)
    requires RowInv(row) && Admissible(row, now, c)
    ensures RowInv(Changed(row, now, c))
  {
    if c.ByClaim? && !ValidArguments(c.owner, c.seconds) { assert Changed(row, now, c) == row; }
  }

  /** Completed and failed rows never change again. */
  lemma TerminalIsAbsorbing(row: Row, now: int, c: RowChange)
    requires Admissible(row, now, c) && row.status in {Completed, Failed}
    ensures Changed(row, now, c) == row
  {
  }

  /** A row becomes completed only through a publication whose lease is the row's
      current one and had not expired when it was checked for the last time. */
  lemma OnlyLiveLeaseCompletes(row: Row, now: int, c: RowChange)
    requires Admissible(row, now, c) && row.status != Completed && Changed(row, now, c).status == Completed
    ensures c.ByCompletion? && Live(row, c.checkedAt, c.lease)
  {
  }

  /** An issued lease that is live after a change was live before it: expiry, reset
      and supersession cannot be undone, not even for the same owner. */
  lemma LiveWasLive(row: Row, now: int, c: RowChange, lease: Lease)
    requires RowInv(row) && Admissible(row, now, c)
    requires lease.epoch <= row.leaseEpoch
    requires Live(Changed(row, now, c), now, lease)
    ensures Live(row, now, lease)
  {
  }

  // ---------------------------------------------------------------- taking over

  ghost predicate Unclaimed(row: Row, now: int) {
    forall lease :: !Live(row, now, lease)
  }

  /** Work on the task is neither over nor going on. */
  ghost predicate Claimable(row: Row, now: int) {
    row.platform && row.status !in {Completed, Failed} && Unclaimed(row, now)
  }

  lemma UnclaimedIff(row: Row, now: int)
    ensures Unclaimed(row, now) <==> !(row.platform && row.status == Running && Unexpired(row, now))
  {
    if row.platform && row.status == Running && Unexpired(row, now) {
      assert Live(row, now, Lease("", row.leaseOwner, row.leaseEpoch));
    }
  }

  /** A claim takes over exactly the tasks that nobody works on: it is granted the next
      epoch, or fails the task when its attempts are used up. On any other task, or with
      invalid arguments, it changes nothing. */
  lemma ClaimTakesOver(id: string, row: Row, now: int, owner: string, seconds: int)
    requires RowInv(row)
    ensures var r, row' := ClaimOutcome(id, row, now, owner, seconds), ClaimRow(row, now, owner, seconds);
            if ValidArguments(owner, seconds) && Claimable(row, now) then
              if row.attemptCount < MAX_ATTEMPTS
              then r == Granted(Lease(id, owner, row.leaseEpoch + 1)) && Live(row', now, r.lease)
                   && row'.attemptCount == row.attemptCount + 1 && row'.errorCode == ""
              else r == Refused && row'.status == Failed && row'.attemptCount == row.attemptCount
                   && row'.errorCode == "material_processing_attempts_exhausted"
            else row' == row && r == if ValidArguments(owner, seconds) then Refused else InvalidArguments
  {
    UnclaimedIff(row, now);
  }

  /** A lease that was granted or renewed is live until its seconds are over, and no longer. */
  lemma LeaseLasts(id: string, row: Row, now: int, owner: string, seconds: int, t: int)
    ensures var r := ClaimOutcome(id, row, now, owner, seconds);
            r.Granted? ==> (Live(ClaimRow(row, now, owner, seconds), t, r.lease) <==> t < now + seconds * SECOND)
    ensures forall lease :: Live(row, now, lease) ==>
              (Live(RenewRow(row, now, seconds), t, lease) <==> t < now + seconds * SECOND)
  {
  }

  /** A reset task is claimable at once, and has lost no attempt by it. */
  lemma ResetIsClaimable(row: Row, now: int, lease: Lease, t: int)
    requires Live(row, now, lease)
    ensures Claimable(ResetRow(row), t) && ResetRow(row).attemptCount == row.attemptCount
    ensures ResetRow(row).leaseEpoch == row.leaseEpoch
  {
  }

  /** A completed task answers replays of the lease that completed it, for ever, and nothing
      else. */
  lemma CompletedAnswers(row: Row, at: int, lease: Lease, t: int, other: Lease, replay: bool)
    requires Live(row, at, lease)
    ensures Passes(CompleteRow(row), t, other, replay)
            <==> replay && other.owner == lease.owner && other.epoch == lease.epoch
  {
  }

  datatype Claiming = Claiming(now: int, owner: string, seconds: int)

  function ClaimAll(row: Row, claims: seq<Claiming>): Row
    decreases |claims|
  {
    if claims == [] then row
    else ClaimAll(ClaimRow(row, claims[0].now, claims[0].owner, claims[0].seconds), claims[1..])
  }

  /** Each claim is valid and finds the lease before it expired. */
  ghost predicate AllExpired(row: Row, claims: seq<Claiming>)
    decreases |claims|
  {
    claims == [] || (
      var c := claims[0];
      && ValidArguments(c.owner, c.seconds) && Unclaimed(row, c.now)
      && AllExpired(ClaimRow(row, c.now, c.owner, c.seconds), claims[1..]))
  }

  /** No task is stuck: if every worker dies, claiming it again and again ends it, after one
      claim more than it has attempts left. */
  lemma {:induction false} ClaimsRunOut(row: Row, claims: seq<Claiming>)
    requires RowInv(row) && row.platform && row.status !in {Completed, Failed} && AllExpired(row, claims)
    ensures |claims| <= MAX_ATTEMPTS - row.attemptCount ==>
              ClaimAll(row, claims).attemptCount == row.attemptCount + |claims|
    ensures |claims| > MAX_ATTEMPTS - row.attemptCount ==>
              ClaimAll(row, claims).status == Failed && ClaimAll(row, claims).attemptCount == MAX_ATTEMPTS
    decreases |claims|
  {
    hide ClaimRow, ValidArguments, RowInv;
    AttemptsBounded(row);
    if claims != [] {
      var c := claims[0];
      var row' := ClaimRow(row, c.now, c.owner, c.seconds);
      ClaimTakesOver("", row, c.now, c.owner, c.seconds);
      ChangeKeepsRowInv(row, c.now, ByClaim(c.owner, c.seconds));
      if row.attemptCount < MAX_ATTEMPTS {
        ClaimsRunOut(row', claims[1..]);
      } else {
        FailedStays(row', claims[1..]);
      }
    }
  }

  lemma AttemptsBounded(row: Row)
    requires RowInv(row)
    ensures row.attemptCount <= MAX_ATTEMPTS
  {
  }

  lemma {:induction false} FailedStays(row: Row, claims: seq<Claiming>)
    requires row.status == Failed
    ensures ClaimAll(row, claims) == row
  {
    if claims != [] { FailedStays(row, claims[1..]); }
  }

  /** At any moment at most one lease of a task passes the check. */
  lemma OneLeasePasses(row: Row, now: int, a: Lease, b: Lease, replayA: bool, replayB: bool)
    requires a.representationId == b.representationId
    requires Passes(row, now, a, replayA) && Passes(row, now, b, replayB)
    ensures a == b
  {
  }
}
