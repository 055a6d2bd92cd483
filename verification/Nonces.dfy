/** The mempool's table of reserved nonces: expiry, admission, recheck, reconcile. */
module Nonces {
  import opened Basics
  import Proposals

  datatype Reservation<T> = Reservation(txHash: T, reservedAt: real)

  type Reserved<T> = map<int, Reservation<T>>

  /** Reservations that have not outlived `ttl`; a `ttl` of zero or less never expires. */
  function Unexpired<T>(m: Reserved<T>, ttl: real, now: real): Reserved<T> {
    if ttl <= 0.0 then m else map n | n in m && m[n].reservedAt >= now - ttl :: m[n]
  }

  function Held<S, T>(pending: map<S, Reserved<T>>, sender: S): Reserved<T> {
    if sender in pending then pending[sender] else map[]
  }

  function Committed<S>(nonces: map<S, int>, sender: S): int {
    if sender in nonces then nonces[sender] else -1
  }

  /** The least nonce above the committed one that is not reserved. */
  ghost predicate LeastFree<T>(committed: int, reserved: Reserved<T>, nonce: int) {
    committed < nonce && nonce !in reserved && forall n :: committed < n < nonce ==> n in reserved
  }

  lemma {:induction false} LeastFreeUnique<T>(committed: int, reserved: Reserved<T>, a: int, b: int)
    requires LeastFree(committed, reserved, a) && LeastFree(committed, reserved, b)
    ensures a == b
  {
  }

  class NonceStorage<!S(==,!new), !T(==)> {
    /** Nonces committed by the chain, as the driver stores them. */
    var committed: map<S, int>
    var pending: map<S, Reserved<T>>
    const ttl: real
    const limit: nat

    /** A limit below one counts as one. */
    constructor (committed: map<S, int>, ttl: real, maxPending: int)
      ensures this.committed == committed && this.ttl == ttl && pending == map[]
      ensures limit >= 1 && (maxPending >= 1 ==> limit == maxPending)
    {
      this.committed, this.ttl, pending := committed, ttl, map[];
      limit := if maxPending < 1 then 1 else maxPending;
    }

    method PruneSender(sender: S, now: real)
      modifies this`pending
      ensures Held(pending, sender) == Unexpired(Held(old(pending), sender), ttl, now)
      ensures forall s :: s != sender ==> Held(pending, s) == Held(old(pending), s)
      ensures forall s :: s in pending ==> s in old(pending)
    {
      if sender in pending {
        var kept := Unexpired(pending[sender], ttl, now);
        pending := if kept == map[] then pending - {sender} else pending[sender := kept];
      }
    }

    /** The last nonce of the unbroken run of reservations above the committed nonce,
        if there is one. */
    method GetPendingNonce(sender: S, now: real) returns (latest: Option<int>)
      modifies this`pending
      ensures Held(pending, sender) == Unexpired(Held(old(pending), sender), ttl, now)
      ensures forall s :: s != sender ==> Held(pending, s) == Held(old(pending), s)
      ensures LeastFree(Committed(committed, sender), Held(pending, sender),
                        1 + if latest.Some? then latest.value else Committed(committed, sender))
      ensures latest.Some? ==> latest.value > Committed(committed, sender)
    {
      PruneSender(sender, now);
      var reserved := Held(pending, sender);
      if reserved == map[] {
        return None;
      }
      var current := Committed(committed, sender);
      var n := current;
      while n + 1 in reserved
        invariant current <= n && forall k :: current < k <= n ==> k in reserved
        decreases |set k | k in reserved && k > n|
      {
        ghost var above := set k | k in reserved && k > n;
        assert (set k | k in reserved && k > n + 1) == above - {n + 1};
        n := n + 1;
      }
      return if n == current then None else Some(n);
    }

    method GetNextNonce(sender: S, now: real) returns (next: int)
      modifies this`pending
      ensures Held(pending, sender) == Unexpired(Held(old(pending), sender), ttl, now)
      ensures forall s :: s != sender ==> Held(pending, s) == Held(old(pending), s)
      ensures LeastFree(Committed(committed, sender), Held(pending, sender), next)
    {
      var latest := GetPendingNonce(sender, now);
      if latest.None? {
        if sender !in committed {
          return 0;
        }
        return committed[sender] + 1;
      }
      return latest.value + 1;
    }

    /** Admission of a transaction.  The clock is read up to three times. */
    method CheckNonce(sender: S, nonce: int, txHash: T, t1: real, t2: real, t3: real) returns (ok: bool)
      modifies this`pending
      ensures (ok, Held(pending, sender)) ==
        Checked(Committed(committed, sender), Held(old(pending), sender), ttl, limit, nonce, txHash, t1, t2, t3)
      ensures forall s :: s != sender ==> Held(pending, s) == Held(old(pending), s)
    {
      PruneSender(sender, t1);
      var reserved := Held(pending, sender);
      if nonce in reserved && reserved[nonce].txHash == txHash {
        pending := pending[sender := reserved[nonce := Reservation(txHash, t2)]];
        return true;
      }
      var expected := GetNextNonce(sender, t2);
      ghost var live := Unexpired(Unexpired(Held(old(pending), sender), ttl, t1), ttl, t2);
      if LeastFree(Committed(committed, sender), live, nonce) {
        LeastFreeUnique(Committed(committed, sender), live, nonce, expected);
      }
      if nonce != expected || |Held(pending, sender)| >= limit {
        return false;
      }
      pending := pending[sender := Held(pending, sender)[nonce := Reservation(txHash, t3)]];
      return true;
    }

    /** After a commit: expired reservations and nonces the chain has used go. */
    method ReconcilePending(now: real)
      modifies this`pending
      ensures forall s :: Held(pending, s) == Reconciled(committed, old(pending), ttl, now, s)
    {
      var left := pending.Keys;
      ghost var before := pending;
      while left != {}
        invariant left <= before.Keys
        invariant forall s :: s in left ==> Held(pending, s) == Held(before, s)
        invariant forall s :: s !in left ==> Held(pending, s) == Reconciled(committed, before, ttl, now, s)
        decreases |left|
      {
        var sender :| sender in left;
        PruneSender(sender, now);
        if sender in pending && sender in committed {
          var kept := map n | n in pending[sender] && n > committed[sender] :: pending[sender][n];
          pending := if kept == map[] then pending - {sender} else pending[sender := kept];
        }
        left := left - {sender};
      }
    }

    method FlushPending()
      modifies this`pending
      ensures pending == map[]
    {
      pending := map[];
    }
  }

  // ------------------------------------------------------------------ admission, on values

  ghost function Checked<T>(
      committed: int, held: Reserved<T>, ttl: real, limit: nat,
      nonce: int, txHash: T, t1: real, t2: real, t3: real): (bool, Reserved<T>) {
    var seen := Unexpired(held, ttl, t1);
    if nonce in seen && seen[nonce].txHash == txHash then
      (true, seen[nonce := Reservation(txHash, t2)])
    else
      var live := Unexpired(seen, ttl, t2);
      if LeastFree(committed, live, nonce) && |live| < limit then (true, live[nonce := Reservation(txHash, t3)])
      else (false, live)
  }

  ghost function Reconciled<S, T>(
      committed: map<S, int>, pending: map<S, Reserved<T>>, ttl: real, now: real, sender: S): Reserved<T> {
    var live := Unexpired(Held(pending, sender), ttl, now);
    if sender in committed then map n | n in live && n > committed[sender] :: live[n] else live
  }

  // ---------------------------------------------------------------------------- whole runs

  datatype Table<S, T> = Table(committed: map<S, int>, pending: map<S, Reserved<T>>)

  datatype Event<S, T> =
    | Check(sender: S, nonce: int, txHash: T, t1: real, t2: real, t3: real)
    | Expire(sender: S, now: real)
    | CommitNonces(committed: map<S, int>)
    | Reconcile(now: real)
    | Flush

  /** One event relates the table before and after as the methods above do. */
  ghost predicate Steps<S(!new), T>(ttl: real, limit: nat, a: Table<S, T>, e: Event<S, T>, b: Table<S, T>) {
    match e
    case Check(sender, nonce, txHash, t1, t2, t3) =>
      && b.committed == a.committed
      && (var committed, held := Committed(a.committed, sender), Held(a.pending, sender);
          Held(b.pending, sender) == Checked(committed, held, ttl, limit, nonce, txHash, t1, t2, t3).1)
      && forall s :: s != sender ==> Held(b.pending, s) == Held(a.pending, s)
    case Expire(sender, now) =>
      && b.committed == a.committed
      && Held(b.pending, sender) == Unexpired(Held(a.pending, sender), ttl, now)
      && forall s :: s != sender ==> Held(b.pending, s) == Held(a.pending, s)
    case CommitNonces(committed) => b == a.(committed := committed)
    case Reconcile(now) =>
      b.committed == a.committed && forall s :: Held(b.pending, s) == Reconciled(a.committed, a.pending, ttl, now, s)
    case Flush => b == a.(pending := map[])
  }

  ghost predicate WithinLimit<S(!new), T>(limit: nat, t: Table<S, T>) {
    forall s :: |Held(t.pending, s)| <= limit
  }

  lemma {:induction false} FewerKeys<T>(a: Reserved<T>, b: Reserved<T>)
    requires a.Keys <= b.Keys
    ensures |a| <= |b|
  {
    SubsetSize(a.Keys, b.Keys);
    assert |a| == |a.Keys| && |b| == |b.Keys|;
  }

  lemma {:induction false} CheckedWithinLimit<T>(
      committed: int, held: Reserved<T>, ttl: real, limit: nat, nonce: int, txHash: T, t1: real, t2: real, t3: real)
    requires |held| <= limit
    ensures |Checked(committed, held, ttl, limit, nonce, txHash, t1, t2, t3).1| <= limit
  {
    var seen := Unexpired(held, ttl, t1);
    var live := Unexpired(seen, ttl, t2);
    FewerKeys(seen, held);
    FewerKeys(live, held);
    if nonce in seen && seen[nonce].txHash == txHash {
      FewerKeys(seen[nonce := Reservation(txHash, t2)], seen);
    } else if LeastFree(committed, live, nonce) {
      assert live[nonce := Reservation(txHash, t3)].Keys == live.Keys + {nonce};
    }
  }

  lemma {:induction false} StepWithinLimit<S(!new), T>(
      ttl: real, limit: nat, a: Table<S, T>, e: Event<S, T>, b: Table<S, T>)
    requires Steps(ttl, limit, a, e, b) && WithinLimit(limit, a)
    ensures WithinLimit(limit, b)
  {
    forall s ensures |Held(b.pending, s)| <= limit {
      match e
      case Check(sender, nonce, txHash, t1, t2, t3) =>
        var committed, held := Committed(a.committed, sender), Held(a.pending, sender);
        CheckedWithinLimit(committed, held, ttl, limit, nonce, txHash, t1, t2, t3);
      case Expire(sender, now) => FewerKeys(Unexpired(Held(a.pending, sender), ttl, now), Held(a.pending, sender));
      case CommitNonces(_) => assert Held(b.pending, s) == Held(a.pending, s);
      case Reconcile(now) => FewerKeys(Reconciled(a.committed, a.pending, ttl, now, s), Held(a.pending, s));
      case Flush =>
    }
  }

  ghost predicate IsRun<S(!new), T>(ttl: real, limit: nat, tables: seq<Table<S, T>>, events: seq<Event<S, T>>) {
    |tables| == |events| + 1 && forall i :: 0 <= i < |events| ==> Steps(ttl, limit, tables[i], events[i], tables[i + 1])
  }

  /** However admissions, rechecks, expiries, commits and reconciles interleave, no
      sender ever holds more reservations than the limit. */
  lemma {:induction false} LimitHolds<S(!new), T>(
      ttl: real, limit: nat, tables: seq<Table<S, T>>, events: seq<Event<S, T>>, i: nat)
    requires IsRun(ttl, limit, tables, events) && tables[0].pending == map[] && i <= |events|
    ensures WithinLimit(limit, tables[i])
  {
    if i > 0 {
      LimitHolds(ttl, limit, tables, events, i - 1);
      StepWithinLimit(ttl, limit, tables[i - 1], events[i - 1], tables[i]);
    }
  }

  ghost predicate Expired<T>(r: Reservation<T>, ttl: real, now: real) {
    ttl > 0.0 && r.reservedAt < now - ttl
  }

  /** The check is the same transaction once more; it then reads the clock for expiry only once. */
  ghost predicate Rechecks<T>(held: Reserved<T>, ttl: real, nonce: int, txHash: T, t1: real) {
    nonce in held && !Expired(held[nonce], ttl, t1) && held[nonce].txHash == txHash
  }

  /** The event ends the reservation: a flush, an expiry noticed for this sender, or a
      reconcile after its nonce was committed.  Nothing else does. */
  ghost predicate Ends<S(!new), T>(ttl: real, t: Table<S, T>, e: Event<S, T>, sender: S, nonce: int) {
    var held := Held(t.pending, sender);
    && nonce in held
    && match e
       case Check(who, n, txHash, t1, t2, _) =>
         && who == sender
         && (Expired(held[nonce], ttl, t1) || (!Rechecks(held, ttl, n, txHash, t1) && Expired(held[nonce], ttl, t2)))
       case Expire(who, now) => who == sender && Expired(held[nonce], ttl, now)
       case CommitNonces(_) => false
       case Reconcile(now) =>
         Expired(held[nonce], ttl, now) || (sender in t.committed && nonce <= t.committed[sender])
       case Flush => true
  }

  ghost predicate Holds<S(!new), T>(t: Table<S, T>, sender: S, nonce: int, txHash: T) {
    nonce in Held(t.pending, sender) && Held(t.pending, sender)[nonce].txHash == txHash
  }

  /** One event: a reservation stays with its transaction unless the event ends it; one that
      is ended is gone, or the nonce has been given out anew by this very check. */
  lemma {:induction false} EndsExactly<S(!new), T>(
      ttl: real, limit: nat, a: Table<S, T>, e: Event<S, T>, b: Table<S, T>, sender: S, nonce: int)
    requires Steps(ttl, limit, a, e, b) && nonce in Held(a.pending, sender)
    ensures !Ends(ttl, a, e, sender, nonce) ==> Holds(b, sender, nonce, Held(a.pending, sender)[nonce].txHash)
    ensures Ends(ttl, a, e, sender, nonce) ==>
      || nonce !in Held(b.pending, sender)
      || (e.Check? && e.nonce == nonce && Held(b.pending, sender)[nonce] == Reservation(e.txHash, e.t3))
  {
    if e.CommitNonces? {
      assert Held(b.pending, sender) == Held(a.pending, sender);
    }
  }

  /** Over every run: a reservation that is gone, or belongs to another transaction, has been
      ended by an expiry, a commitment of its nonce or a flush in between; no admission ever
      displaces it. */
  lemma {:induction false} NeverDisplaced<S(!new), T>(
      ttl: real, limit: nat, tables: seq<Table<S, T>>, events: seq<Event<S, T>>,
      i: nat, j: nat, sender: S, nonce: int, txHash: T)
    requires IsRun(ttl, limit, tables, events) && i <= j <= |events|
    requires Holds(tables[i], sender, nonce, txHash) && !Holds(tables[j], sender, nonce, txHash)
    ensures exists k ::
      i <= k < j && Holds(tables[k], sender, nonce, txHash) && Ends(ttl, tables[k], events[k], sender, nonce)
    decreases j
  {
    var k := j - 1;
    if Holds(tables[k], sender, nonce, txHash) {
      EndsExactly(ttl, limit, tables[k], events[k], tables[j], sender, nonce);
    } else {
      NeverDisplaced(ttl, limit, tables, events, i, k, sender, nonce, txHash);
    }
  }

  /** A transaction not seen before is admitted exactly at the least free nonce, while
      the sender is under the limit; it joins the live reservations and changes none. */
  lemma {:induction false} AdmissionExact<T>(
      committed: int, held: Reserved<T>, ttl: real, limit: nat, nonce: int, txHash: T, t1: real, t2: real, t3: real)
    requires t1 <= t2
    requires var seen := Unexpired(held, ttl, t1); nonce in seen ==> seen[nonce].txHash != txHash
    ensures
      var live := Unexpired(held, ttl, t2);
      var (ok, after) := Checked(committed, held, ttl, limit, nonce, txHash, t1, t2, t3);
      && (ok <==> LeastFree(committed, live, nonce) && |live| < limit)
      && (ok ==> after == live[nonce := Reservation(txHash, t3)] && nonce !in live)
      && (!ok ==> after == live)
  {
    assert Unexpired(Unexpired(held, ttl, t1), ttl, t2) == Unexpired(held, ttl, t2);
  }

  /** The mempool and the block handlers count alike: with nothing reserved, the nonce free for
      a sender is the one the next block expects of it. */
  lemma {:induction false} MempoolMatchesBlocks<S(!new), T>(nonces: map<S, int>, sender: S, next: int)
    ensures LeastFree<T>(Committed(nonces, sender), map[], next) <==>
      next == Proposals.ExpectedNonce(nonces, map[], sender)
  {
    var committed := Committed(nonces, sender);
    assert LeastFree<T>(committed, map[], committed + 1);
    if LeastFree<T>(committed, map[], next) {
      LeastFreeUnique<T>(committed, map[], next, committed + 1);
    }
  }
}
