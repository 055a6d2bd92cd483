/** What a state sync does to the database and to the root cache over it.  The cache is
    rebuilt after an accepted chunk, not after a rejected one. */
module StateSyncCache {
  import opened Basics
  import opened Treap
  import opened TreapNodes
  import opened RootCache
  import opened Lifecycle
  import opened SnapshotTransfer

  /** The import, the state each archive holds, and the order the driver lists a database in. */
  datatype Sync<!B, !A, !K, !S, !H> = Sync(
    im: Importer<B, A>, env: Env<K, S, H>, content: seq<B> -> map<K, S>, items: map<K, S> -> seq<Item<K, S>>)

  datatype Host<B, A, K, S, H> = Host(receiver: Receiver<B, A>, disk: map<K, S>, cache: Cache<K, H>)

  /** An import that replaces the state has computed its root before, so all of it encodes. */
  ghost predicate Regular<B(!new), A, K(!new), S(!new), H>(x: Sync<B, A, K, S, H>) {
    && TotalOrder(x.env.algebra.scheme)
    && (forall disk :: Enumerates(x.items(disk), disk))
    && (forall archive :: x.im.import_(archive).StateReplaced? ==> Encodable(x.env, x.content(archive)))
  }

  /** The database after a delivery: the last imported state, if the delivery led to one. */
  function DiskAfter<B, A, K, S, H>(
      x: Sync<B, A, K, S, H>, disk: map<K, S>, before: seq<seq<B>>, after: seq<seq<B>>): map<K, S> {
    if |after| > |before| then x.content(after[|after| - 1]) else disk
  }

  function Delivered<B(==), A(==), K(==), S, H>(
      x: Sync<B, A, K, S, H>, n: Host<B, A, K, S, H>, d: Delivery<B>): (Host<B, A, K, S, H>, Answer) {
    var (receiver, answer) := Applied(x.im, n.receiver, d);
    var disk := DiskAfter(x, n.disk, n.receiver.imported, receiver.imported);
    (Host(receiver, disk, if answer == Accept then LoadAll(x.env, EmptyCache(), x.items(disk)).0 else n.cache), answer)
  }

  function DeliveredAll<B(==), A(==), K(==), S, H>(
      x: Sync<B, A, K, S, H>, n: Host<B, A, K, S, H>, ds: seq<Delivery<B>>): Host<B, A, K, S, H> {
    if ds == [] then n else Delivered(x, DeliveredAll(x, n, ds[..|ds| - 1]), ds[|ds| - 1]).0
  }

  ghost predicate Current<B, A, K(!new), S, H>(x: Sync<B, A, K, S, H>, n: Host<B, A, K, S, H>) {
    Encodable(x.env, n.disk) && n.cache.leaves == LeavesOf(x.env, n.disk)
  }

  lemma {:induction false} DeliveredEncodable<B(!new), A, K(!new), S(!new), H>(
      x: Sync<B, A, K, S, H>, n: Host<B, A, K, S, H>, d: Delivery<B>)
    requires Regular(x) && Encodable(x.env, n.disk)
    ensures Encodable(x.env, Delivered(x, n, d).0.disk)
  {
  }

  /** Whatever state the cache was in, an accepted chunk makes it current. */
  lemma {:induction false} AcceptRepairs<B(!new), A, K(!new), S(!new), H>(
      x: Sync<B, A, K, S, H>, n: Host<B, A, K, S, H>, d: Delivery<B>)
    requires Regular(x) && Encodable(x.env, n.disk) && Delivered(x, n, d).1 == Accept
    ensures Current(x, Delivered(x, n, d).0)
  {
    var disk := Delivered(x, n, d).0.disk;
    DeliveredEncodable(x, n, d);
    RestartLeaves(x.env, disk, x.items(disk));
  }

  lemma {:induction false} ReceiverRuns<B, A, K, S, H>(
      x: Sync<B, A, K, S, H>, n: Host<B, A, K, S, H>, ds: seq<Delivery<B>>)
    ensures DeliveredAll(x, n, ds).receiver == ApplyAll(x.im, n.receiver, ds)
  {
    if ds != [] {
      ReceiverRuns(x, n, ds[..|ds| - 1]);
    }
  }

  // -------------------------------------------------------------- when the cache is left behind

  /** Delivery `k` completes the transfer with an import that replaces the state but does not
      end with the trusted app hash. */
  ghost predicate ReplacedAndRejected<B, A>(
      im: Importer<B, A>, s: Session<B, A>, start: Receiver<B, A>, ds: seq<Delivery<B>>, k: nat)
    requires k < |ds|
  {
    var outcome := im.import_(Whole(s, ds, k));
    && ApplyAll(im, start, ds[..k]).session.Some?
    && Completes(im, s, ds[..k], ds[k])
    && outcome.StateReplaced? && outcome.appHash != Some(s.appHash)
  }

  /** The bytes joined once delivery `k` has come. */
  function Whole<B, A>(s: Session<B, A>, ds: seq<Delivery<B>>, k: nat): seq<B>
    requires k < |ds|
  {
    InTurn(s.chunks, ds[..k]) + ds[k].chunk
  }

  /** ... and the new state has other leaves than the old one. */
  ghost predicate LeavesBehind<B, A, K(!new), S, H>(
      x: Sync<B, A, K, S, H>, n: Host<B, A, K, S, H>, s: Session<B, A>, ds: seq<Delivery<B>>, k: nat)
    requires k < |ds|
  {
    && ReplacedAndRejected(x.im, s, n.receiver, ds, k)
    && LeavesOf(x.env, x.content(Whole(s, ds, k))) != LeavesOf(x.env, n.disk)
  }

  ghost predicate LeftBehind<B, A, K(!new), S, H>(
      x: Sync<B, A, K, S, H>, n: Host<B, A, K, S, H>, s: Session<B, A>, ds: seq<Delivery<B>>) {
    exists k: nat :: k < |ds| && LeavesBehind(x, n, s, ds, k)
  }

  lemma {:induction false} LeftBehindLonger<B, A, K(!new), S, H>(
      x: Sync<B, A, K, S, H>, n: Host<B, A, K, S, H>, s: Session<B, A>, ds: seq<Delivery<B>>)
    requires ds != []
    ensures LeftBehind(x, n, s, ds) <==>
      LeftBehind(x, n, s, ds[..|ds| - 1]) || LeavesBehind(x, n, s, ds, |ds| - 1)
  {
    var shorter := ds[..|ds| - 1];
    forall k: nat | k < |shorter| ensures LeavesBehind(x, n, s, shorter, k) <==> LeavesBehind(x, n, s, ds, k) {
      assert shorter[..k] == ds[..k];
    }
  }

  /** Where a transfer stands: still open, with the old state; or over. */
  ghost predicate Stands<B, A, K(!new), S, H>(
      x: Sync<B, A, K, S, H>, n: Host<B, A, K, S, H>, s: Session<B, A>, ds: seq<Delivery<B>>) {
    var now := DeliveredAll(x, n, ds);
    && Encodable(x.env, now.disk)
    && (now.receiver.session.Some? ==> now.disk == n.disk && Current(x, now) && !LeftBehind(x, n, s, ds))
    && (Current(x, now) <==> !LeftBehind(x, n, s, ds))
  }

  lemma {:induction false} StandsOn<B(!new), A, K(!new), S(!new), H>(
      x: Sync<B, A, K, S, H>, n: Host<B, A, K, S, H>, s: Session<B, A>, ds: seq<Delivery<B>>)
    requires Regular(x) && Current(x, n) && Starting(s) && n.receiver.session == Some(s)
    requires ds != [] && Stands(x, n, s, ds[..|ds| - 1])
    ensures Stands(x, n, s, ds)
  {
    var k := |ds| - 1;
    var before, d := DeliveredAll(x, n, ds[..k]), ds[k];
    var (after, answer) := Delivered(x, before, d);
    ReceiverRuns(x, n, ds[..k]);
    LeftBehindLonger(x, n, s, ds);
    DeliveredEncodable(x, before, d);
    if before.receiver.session.Some? {
      ImportOnlyComplete(x.im, s, n.receiver, ds[..k]);
      RejectedAfterImport(x.im, s, n.receiver, ds[..k], d);
      if answer == Accept {
        AcceptRepairs(x, before, d);
      }
    }
  }

  /** Over any deliveries of a session, in any order and with any content: the cache's leaves
      are those of the state on disk if and only if no delivery completed an import that
      replaced the leaves and was then rejected. */
  lemma {:induction false} CacheCurrentExactly<B(!new), A, K(!new), S(!new), H>(
      x: Sync<B, A, K, S, H>, n: Host<B, A, K, S, H>, s: Session<B, A>, ds: seq<Delivery<B>>)
    requires Regular(x) && Current(x, n) && Starting(s) && n.receiver.session == Some(s)
    ensures Current(x, DeliveredAll(x, n, ds)) <==> !LeftBehind(x, n, s, ds)
    ensures Stands(x, n, s, ds)
  {
    if ds != [] {
      CacheCurrentExactly(x, n, s, ds[..|ds| - 1]);
      StandsOn(x, n, s, ds);
    }
  }

  /** One chunk with the offered digest whose state has another app hash and other leaves: the
      state on disk is the archive's, and the cache still has the leaves of the old one. */
  lemma {:induction false} StaleAfterRejection<B(!new), A, K(!new), S(!new), H>(
      x: Sync<B, A, K, S, H>, n: Host<B, A, K, S, H>, chunk: seq<B>, trusted: A, other: A)
    requires n.receiver == Receiver(Some(Session(0, 1, |chunk|, trusted, x.im.digest(chunk), [])), [], [])
    requires x.im.import_(chunk) == StateReplaced(Some(other)) && other != trusted && Current(x, n)
    requires LeavesOf(x.env, x.content(chunk)) != LeavesOf(x.env, n.disk)
    ensures
      var (after, answer) := Delivered(x, n, Delivery(0, chunk));
      answer == RejectSnapshot && after.disk == x.content(chunk) && after.cache == n.cache && !Current(x, after)
  {
    ForeignStateImported(x.im, chunk, trusted, other);
  }

  // ---------------------------------------------------------------------------- the handler

  class SyncingNode<!B(==,!new), !A(==), !C(==), !K(==), !S, !H(==)> {
    const sync: Sync<B, A, K, S, H>
    const service: StateSyncService<B, A, C>
    const cache: StateRootCache<K, S, H>
    var disk: map<K, S>

    ghost predicate Valid()
      reads this, cache, cache.root, Footprint(cache.root)
    {
      && service.importer == sync.im && cache.env == sync.env && cache.Valid()
      && {this, service} !! Footprint(cache.root)
    }

    ghost function Model(): Host<B, A, K, S, H>
      reads this, service, cache, cache.root
    {
      Host(service.State(), disk, cache.Model())
    }

    constructor (sync: Sync<B, A, K, S, H>, service: StateSyncService<B, A, C>,
                 cache: StateRootCache<K, S, H>, disk: map<K, S>)
      requires service.importer == sync.im && cache.env == sync.env && cache.Valid()
      requires service !in Footprint(cache.root)
      ensures Valid() && this.sync == sync && Model() == Host(service.State(), disk, cache.Model())
    {
      this.sync, this.service, this.cache, this.disk := sync, service, cache, disk;
    }

    /** The import works on the database itself; only an accepted chunk refreshes the cache. */
    method ApplySnapshotChunk(index: int, chunk: seq<B>) returns (answer: Answer)
      requires Valid()
      modifies this, service, cache, Footprint(cache.root)
      ensures Valid()
      ensures (Model(), answer) == Delivered(sync, old(Model()), Delivery(index, chunk))
    {
      var before := service.imported;
      answer := service.ApplyChunk(index, chunk);
      disk := DiskAfter(sync, disk, before, service.imported);
      if answer == Accept {
        var _ := cache.Rebuild(sync.items(disk));
      }
    }
  }
}
