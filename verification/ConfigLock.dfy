/** The configuration lease: one row in a table, expired and changed inside a transaction. */
module ConfigLock {
  import opened Words

  datatype Lease = Lease(holder: string, acquired: real, reason: string)

  /** An operation and the clock reading of its transaction. */
  datatype Op =
    | Status(now: real)
    | Acquire(user: string, reason: string, now: real)
    | Release(user: string, now: real)
    | Override(now: real)

  predicate Expired(l: Lease, timeout: real, now: real) { now - l.acquired > timeout }

  /** What a transaction finds: an expired row is deleted first. */
  function Swept(row: Option<Lease>, timeout: real, now: real): (r: Option<Lease>)
  {
    if row.Some? && Expired(row.value, timeout, now) then None else row
  }

  /** An acquisition succeeds on a free lease or one's own; an empty name is refused before the
      transaction starts. */
  predicate Grants(row: Option<Lease>, timeout: real, o: Op)
  {
    o.Acquire? && o.user != "" && var r := Swept(row, timeout, o.now); r.None? || r.value.holder == o.user
  }

  function Step(row: Option<Lease>, timeout: real, o: Op): (r: Option<Lease>)
  {
    var r := Swept(row, timeout, o.now);
    match o
    case Status(_) => r
    case Acquire(user, reason, now) =>
      if user == "" then row else if Grants(row, timeout, o) then Some(Lease(user, now, reason)) else r
    case Release(user, _) => if r.Some? && r.value.holder == user then None else r
    case Override(_) => None
  }

  class Lock {
    const timeout: real
    var row: Option<Lease>

    constructor (timeout: real)
      ensures this.timeout == timeout && row == None
    {
      this.timeout, row := timeout, None;
    }

    method Begin(now: real)
      modifies this
      ensures row == Swept(old(row), timeout, now)
    {
      if row.Some? && now - row.value.acquired > timeout { row := None; }
    }

    /** The lease in force, with the seconds it has lasted and has left, neither below zero. */
    method GetStatus(now: real) returns (l: Option<(Lease, int, int)>)
      modifies this
      ensures row == Step(old(row), timeout, Status(now))
      ensures l.Some? <==> row.Some?
      ensures l.Some? ==> l.value.0 == row.value && l.value.1 >= 0 && l.value.2 >= 0
      ensures l.Some? && now >= row.value.acquired ==> l.value.1 as real <= now - row.value.acquired < l.value.1 as real + 1.0
      ensures l.Some? && now < row.value.acquired ==> l.value.1 == 0
      ensures l.Some? && timeout >= 0.0 ==> l.value.1 as real + l.value.2 as real <= timeout || l.value.2 == 0
    {
      Begin(now);
      if row.None? { return None; }
      var age := if now > row.value.acquired then now - row.value.acquired else 0.0;
      var left := if timeout > age then (timeout - age).Floor else 0;
      return Some((row.value, age.Floor, left));
    }

    /** None stands for the error on a missing owner. */
    method TryAcquire(user: string, reason: string, now: real) returns (ok: Option<bool>)
      modifies this
      ensures row == Step(old(row), timeout, Acquire(user, reason, now))
      ensures ok == if user == "" then None else Some(Grants(old(row), timeout, Acquire(user, reason, now)))
    {
      if user == "" { return None; }
      Begin(now);
      if row.Some? && row.value.holder != user { return Some(false); }
      row := Some(Lease(user, now, reason));
      return Some(true);
    }

    method TryRelease(user: string, now: real) returns (released: bool)
      modifies this
      ensures row == Step(old(row), timeout, Release(user, now))
      ensures released <==> Swept(old(row), timeout, now).Some? && row.None?
    {
      Begin(now);
      released := row.Some? && row.value.holder == user;
      if released { row := None; }
    }

    method ForceRelease(now: real) returns (owner: Option<string>)
      modifies this
      ensures row == Step(old(row), timeout, Override(now))
      ensures owner == match Swept(old(row), timeout, now) case None => None case Some(l) => Some(l.holder)
    {
      Begin(now);
      owner := if row.Some? then Some(row.value.holder) else None;
      row := None;
    }
  }

  // ---- whole runs ------------------------------------------------------------------------------

  function Run(row: Option<Lease>, timeout: real, ops: seq<Op>): (r: Option<Lease>)
  {
    if ops == [] then row else Step(Run(row, timeout, ops[..|ops| - 1]), timeout, ops[|ops| - 1])
  }

  /** The clock reading of the holder's last renewal. */
  function Renewed(user: string, start: real, ops: seq<Op>): (t: real)
  {
    if ops == [] then start
    else
      var o := ops[|ops| - 1];
      if o.Acquire? && o.user == user then o.now else Renewed(user, start, ops[..|ops| - 1])
  }

  /** The operation lets go of the user's lease: its release, an override, or any transaction
      more than the timeout after the last renewal. */
  predicate Breaks(user: string, timeout: real, renewed: real, o: Op)
  {
    || o.Override? || (o.Release? && o.user == user)
    || (o.now - renewed > timeout && !(o.Acquire? && o.user == ""))
  }

  ghost predicate Unbroken(user: string, timeout: real, start: real, ops: seq<Op>)
  {
    forall k :: 0 <= k < |ops| ==> !Breaks(user, timeout, Renewed(user, start, ops[..k]), ops[k])
  }

  /** Whatever the clock reads, until something breaks the lease its holder keeps it, every other
      user is refused, and the row carries the holder's last renewal. */
  lemma {:induction false} HolderKeeps(l: Lease, timeout: real, ops: seq<Op>)
    requires l.holder != "" && Unbroken(l.holder, timeout, l.acquired, ops)
    ensures var r := Run(Some(l), timeout, ops);
            r.Some? && r.value.holder == l.holder && r.value.acquired == Renewed(l.holder, l.acquired, ops)
    ensures forall k :: 0 <= k < |ops| && ops[k].Acquire? && ops[k].user != l.holder ==> !Grants(Run(Some(l), timeout, ops[..k]), timeout, ops[k])
  {
    if ops != [] {
      var n := |ops| - 1;
      UnbrokenPrefix(l.holder, timeout, l.acquired, ops);
      HolderKeeps(l, timeout, ops[..n]);
      forall k | 0 <= k < n
        ensures ops[..n][..k] == ops[..k]
      {
      }
      assert !Breaks(l.holder, timeout, Renewed(l.holder, l.acquired, ops[..n]), ops[n]);
    }
  }

  lemma UnbrokenPrefix(user: string, timeout: real, start: real, ops: seq<Op>)
    requires ops != [] && Unbroken(user, timeout, start, ops)
    ensures Unbroken(user, timeout, start, ops[..|ops| - 1])
  {
    forall k | 0 <= k < |ops| - 1
      ensures ops[..|ops| - 1][..k] == ops[..k]
    {
    }
  }

  /** A second user gets the lease only after an operation that broke it. */
  lemma SecondHolderMeansBroken(l: Lease, timeout: real, ops: seq<Op>, user: string, reason: string, now: real)
    requires l.holder != "" && user != l.holder
    requires Grants(Run(Some(l), timeout, ops), timeout, Acquire(user, reason, now))
    ensures exists k :: 0 <= k <= |ops| && Breaks(l.holder, timeout, Renewed(l.holder, l.acquired, ops[..k]), (ops + [Acquire(user, reason, now)])[k])
  {
    var all := ops + [Acquire(user, reason, now)];
    assert all[..|ops|] == ops;
    if Unbroken(l.holder, timeout, l.acquired, all) {
      HolderKeeps(l, timeout, all);
    } else {
      var k :| 0 <= k < |all| && Breaks(l.holder, timeout, Renewed(l.holder, l.acquired, all[..k]), all[k]);
      assert all[..k] == ops[..k];
    }
  }

  /** And the first operation that breaks it does end it: it frees the row, or is itself an
      acquisition that starts a new lease. */
  lemma BrokenMeansFree(l: Lease, timeout: real, ops: seq<Op>, o: Op)
    requires l.holder != "" && Unbroken(l.holder, timeout, l.acquired, ops)
    requires Breaks(l.holder, timeout, Renewed(l.holder, l.acquired, ops), o)
    ensures var row := Run(Some(l), timeout, ops);
            if o.Acquire? then Grants(row, timeout, o) else Step(row, timeout, o).None?
  {
    HolderKeeps(l, timeout, ops);
  }
}
