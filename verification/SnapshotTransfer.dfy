/** State sync: an archive is served in chunks, and rebuilt from whatever deliveries arrive. */
module SnapshotTransfer {
  import opened Basics

  // ------------------------------------------------------------------------- serving chunks

  function Min(a: nat, b: nat): nat {
    if a < b then a else b
  }

  /** The rounded-up quotient, and at least one chunk even for an empty archive. */
  function ChunkCount(size: nat, chunkSize: nat): (n: nat)
    requires chunkSize > 0
    ensures n >= 1
  {
    var n := (size + chunkSize - 1) / chunkSize;
    if n > 1 then n else 1
  }

  lemma {:induction false} CountCovers(size: nat, chunkSize: nat)
    requires chunkSize > 0
    ensures ChunkCount(size, chunkSize) * chunkSize >= size
    ensures ChunkCount(size, chunkSize) > 1 ==> (ChunkCount(size, chunkSize) - 1) * chunkSize < size
  {
    var q := (size + chunkSize - 1) / chunkSize;
    assert q * chunkSize + (size + chunkSize - 1) % chunkSize == size + chunkSize - 1;
    assert (q - 1) * chunkSize == q * chunkSize - chunkSize;
  }

  /** Reading one chunk's worth of bytes at the chunk's offset. */
  function Chunk<B>(archive: seq<B>, chunkSize: nat, index: nat): (chunk: seq<B>)
    ensures |chunk| <= chunkSize
  {
    var start := index * chunkSize;
    archive[Min(start, |archive|)..Min(start + chunkSize, |archive|)]
  }

  function FirstChunks<B>(archive: seq<B>, chunkSize: nat, n: nat): seq<B> {
    archive[..Min(n * chunkSize, |archive|)]
  }

  lemma {:induction false} NextChunk<B>(archive: seq<B>, chunkSize: nat, n: nat)
    ensures FirstChunks(archive, chunkSize, n) + Chunk(archive, chunkSize, n) == FirstChunks(archive, chunkSize, n + 1)
  {
    assert (n + 1) * chunkSize == n * chunkSize + chunkSize;
  }

  lemma {:induction false} AllChunks<B>(archive: seq<B>, chunkSize: nat)
    requires chunkSize > 0
    ensures FirstChunks(archive, chunkSize, ChunkCount(|archive|, chunkSize)) == archive
  {
    CountCovers(|archive|, chunkSize);
  }

  /** A stored snapshot; `chunks` was computed when it was written. */
  datatype Snapshot<B> = Snapshot(format: int, height: int, chunkSize: nat, chunks: nat, archive: seq<B>)

  function FirstAt<B>(snapshots: seq<Snapshot<B>>, height: int, format: int): Option<Snapshot<B>> {
    if snapshots == [] then None
    else if snapshots[0].height == height && snapshots[0].format == format then Some(snapshots[0])
    else FirstAt(snapshots[1..], height, format)
  }

  lemma {:induction false} FirstAtExactly<B>(snapshots: seq<Snapshot<B>>, height: int, format: int, i: nat)
    requires i < |snapshots| && snapshots[i].height == height && snapshots[i].format == format
    requires forall j :: 0 <= j < i ==> !(snapshots[j].height == height && snapshots[j].format == format)
    ensures FirstAt(snapshots, height, format) == Some(snapshots[i])
  {
    if i > 0 {
      FirstAtExactly(snapshots[1..], height, format, i - 1);
    }
  }

  /** A chunk request; the answer is empty when there is no such snapshot or chunk. */
  method LoadSnapshotChunk<B>(snapshots: seq<Snapshot<B>>, height: int, format: int, index: int) returns (chunk: seq<B>)
    ensures
      var found := FirstAt(snapshots, height, format);
      chunk ==
        if found.Some? && 0 <= index < found.value.chunks
        then Chunk(found.value.archive, found.value.chunkSize, index)
        else []
  {
    var i := 0;
    while i < |snapshots| && !(snapshots[i].height == height && snapshots[i].format == format)
      invariant 0 <= i <= |snapshots|
      invariant FirstAt(snapshots, height, format) == FirstAt(snapshots[i..], height, format)
    {
      i := i + 1;
    }
    if i == |snapshots| || index < 0 || index >= snapshots[i].chunks {
      return [];
    }
    return Chunk(snapshots[i].archive, snapshots[i].chunkSize, index);
  }

  // ------------------------------------------------------------------------- receiving them

  datatype Session<B, A> = Session(next: int, chunks: int, chunkSize: int, appHash: A, hash: seq<B>, archive: seq<B>)

  /** What importing an archive does: its checks refuse it and the state is as it was, or the
      state is replaced, by one with this app hash (`None` when a later step raises). */
  datatype ImportOutcome<A> = Refused | StateReplaced(appHash: Option<A>)

  datatype Importer<!B, !A> = Importer(digest: seq<B> -> seq<B>, import_: seq<B> -> ImportOutcome<A>)

  /** The receiving side: the session in progress, every archive handed to the import, and
      those that have replaced the state. */
  datatype Receiver<B, A> = Receiver(session: Option<Session<B, A>>, handed: seq<seq<B>>, imported: seq<seq<B>>)

  datatype Answer = Accept | Retry | RetrySnapshot | RejectSnapshot

  datatype Delivery<B> = Delivery(index: int, chunk: seq<B>)

  /** The last chunk has arrived: check the digest, import, check the app hash; the session
      is over whatever comes out. */
  function Finished<B(==), A(==)>(im: Importer<B, A>, r: Receiver<B, A>, s: Session<B, A>): (Receiver<B, A>, Answer) {
    if im.digest(s.archive) != s.hash then (r.(session := None), RejectSnapshot)
    else
      (HandedOver(im, r, s.archive),
       if im.import_(s.archive) == StateReplaced(Some(s.appHash)) then Accept else RejectSnapshot)
  }

  function HandedOver<B, A>(im: Importer<B, A>, r: Receiver<B, A>, archive: seq<B>): Receiver<B, A> {
    Receiver(None, r.handed + [archive],
             if im.import_(archive).StateReplaced? then r.imported + [archive] else r.imported)
  }

  function Applied<B(==), A(==)>(im: Importer<B, A>, r: Receiver<B, A>, d: Delivery<B>): (Receiver<B, A>, Answer) {
    if r.session.None? then (r, RetrySnapshot) else
      var s := r.session.value;
      if d.index != s.next then (r, Retry)
      else if d.index < 0 || d.index >= s.chunks then (r, RejectSnapshot)
      else if |d.chunk| > s.chunkSize then (r.(session := None), RejectSnapshot)
      else
        var grown := s.(archive := s.archive + d.chunk, next := s.next + 1);
        if grown.next < s.chunks then (r.(session := Some(grown)), Accept) else Finished(im, r, grown)
  }

  function ApplyAll<B(==), A(==)>(im: Importer<B, A>, r: Receiver<B, A>, ds: seq<Delivery<B>>): Receiver<B, A> {
    if ds == [] then r else Applied(im, ApplyAll(im, r, ds[..|ds| - 1]), ds[|ds| - 1]).0
  }

  /** A session that has just been offered. */
  ghost predicate Starting<B, A>(s: Session<B, A>) {
    s.next == 0 && s.chunks > 0 && s.archive == []
  }

  /** How many chunks have come in their turn. */
  function Progress<B>(chunks: int, ds: seq<Delivery<B>>): (n: nat)
    ensures chunks > 0 ==> n <= chunks
  {
    if ds == [] then 0 else
      var n := Progress(chunks, ds[..|ds| - 1]);
      if n < chunks && ds[|ds| - 1].index == n then n + 1 else n
  }

  /** The chunks that came in their turn, joined. */
  function InTurn<B>(chunks: int, ds: seq<Delivery<B>>): seq<B> {
    if ds == [] then [] else
      var n := Progress(chunks, ds[..|ds| - 1]);
      var joined := InTurn(chunks, ds[..|ds| - 1]);
      if n < chunks && ds[|ds| - 1].index == n then joined + ds[|ds| - 1].chunk else joined
  }

  /** Any deliveries at all: an archive is handed to the import only when every expected chunk
      has come in its turn; it is those chunks joined, has the offered digest, and comes last. */
  lemma {:induction false} ImportOnlyComplete<B, A>(
      im: Importer<B, A>, s: Session<B, A>, start: Receiver<B, A>, ds: seq<Delivery<B>>)
    requires Starting(s) && start.session == Some(s)
    ensures
      var r := ApplyAll(im, start, ds);
      var n, joined := Progress(s.chunks, ds), InTurn(s.chunks, ds);
      || r == start.(session := None)
      || (n < s.chunks && r == start.(session := Some(s.(next := n, archive := joined))))
      || (n == s.chunks && im.digest(joined) == s.hash && r == HandedOver(im, start, joined))
  {
    if ds != [] {
      ImportOnlyComplete(im, s, start, ds[..|ds| - 1]);
    }
  }

  /** Every delivery that comes in its turn carries the true chunk; what is out of order or
      repeated may carry anything. */
  ghost predicate TrueInTurn<B>(archive: seq<B>, chunkSize: nat, chunks: int, ds: seq<Delivery<B>>) {
    forall k :: 0 <= k < |ds| ==> DueIsTrue(archive, chunkSize, chunks, ds, k)
  }

  ghost predicate DueIsTrue<B>(archive: seq<B>, chunkSize: nat, chunks: int, ds: seq<Delivery<B>>, k: int)
    requires 0 <= k < |ds|
  {
    var n := Progress(chunks, ds[..k]);
    n < chunks && ds[k].index == n ==> ds[k].chunk == Chunk(archive, chunkSize, n)
  }

  lemma {:induction false} TrueBefore<B>(archive: seq<B>, chunkSize: nat, chunks: int, ds: seq<Delivery<B>>, n: nat)
    requires TrueInTurn(archive, chunkSize, chunks, ds) && n <= |ds|
    ensures TrueInTurn(archive, chunkSize, chunks, ds[..n])
  {
    forall k | 0 <= k < n ensures DueIsTrue(archive, chunkSize, chunks, ds[..n], k) {
      assert ds[..n][..k] == ds[..k];
      assert DueIsTrue(archive, chunkSize, chunks, ds, k);
    }
  }

  lemma {:induction false} InTurnIsPrefix<B>(archive: seq<B>, chunkSize: nat, chunks: int, ds: seq<Delivery<B>>)
    requires TrueInTurn(archive, chunkSize, chunks, ds)
    ensures InTurn(chunks, ds) == FirstChunks(archive, chunkSize, Progress(chunks, ds))
  {
    if ds != [] {
      var k := |ds| - 1;
      TrueBefore(archive, chunkSize, chunks, ds, k);
      InTurnIsPrefix(archive, chunkSize, chunks, ds[..k]);
      assert DueIsTrue(archive, chunkSize, chunks, ds, k);
      NextChunk(archive, chunkSize, Progress(chunks, ds[..k]));
    }
  }

  /** With true chunks the transfer never aborts: it stands at the chunks received so far, or
      has handed over exactly the archive. */
  lemma {:induction false} TransferProgress<B, A>(
      im: Importer<B, A>, s: Session<B, A>, start: Receiver<B, A>, archive: seq<B>, chunkSize: nat,
      ds: seq<Delivery<B>>)
    requires Starting(s) && start.session == Some(s)
    requires 0 < chunkSize <= s.chunkSize && s.chunks == ChunkCount(|archive|, chunkSize)
    requires s.hash == im.digest(archive) && TrueInTurn(archive, chunkSize, s.chunks, ds)
    ensures
      var n, joined := Progress(s.chunks, ds), InTurn(s.chunks, ds);
      ApplyAll(im, start, ds) ==
        if n == s.chunks then HandedOver(im, start, archive)
        else start.(session := Some(s.(next := n, archive := joined)))
  {
    if ds != [] {
      var k := |ds| - 1;
      TrueBefore(archive, chunkSize, s.chunks, ds, k);
      TransferProgress(im, s, start, archive, chunkSize, ds[..k]);
      assert DueIsTrue(archive, chunkSize, s.chunks, ds, k);
      InTurnIsPrefix(archive, chunkSize, s.chunks, ds);
      AllChunks(archive, chunkSize);
    }
  }

  /** The chunks appear among the deliveries in order, at the positions `at`. */
  ghost predicate InOrder<B>(ds: seq<Delivery<B>>, at: seq<nat>) {
    && (forall j :: 0 <= j < |at| ==> at[j] < |ds| && ds[at[j]].index == j)
    && (forall i, j :: 0 <= i < j < |at| ==> at[i] < at[j])
  }

  lemma {:induction false} ProgressGrows<B>(chunks: int, ds: seq<Delivery<B>>, n: nat)
    requires n <= |ds|
    ensures Progress(chunks, ds[..n]) <= Progress(chunks, ds)
  {
    if n == |ds| {
      assert ds[..n] == ds;
    } else {
      ProgressGrows(chunks, ds[..|ds| - 1], n);
      assert ds[..|ds| - 1][..n] == ds[..n];
    }
  }

  lemma {:induction false} InOrderArrives<B>(chunks: int, ds: seq<Delivery<B>>, at: seq<nat>)
    requires InOrder(ds, at) && |at| <= chunks
    ensures Progress(chunks, ds) >= |at|
  {
    if at != [] {
      var m := |at| - 1;
      var p := at[m];
      InOrderArrives(chunks, ds[..p], at[..m]);
      assert ds[..p + 1][..p] == ds[..p] && ds[..p + 1][p] == ds[p];
      ProgressGrows(chunks, ds, p + 1);
    }
  }

  /** However they are mixed with repeated, early or late deliveries: once the chunks have
      come in order, exactly the archive has been handed to the import, once. */
  lemma {:induction false} SnapshotTransferred<B, A>(
      im: Importer<B, A>, s: Session<B, A>, start: Receiver<B, A>, archive: seq<B>, chunkSize: nat,
      ds: seq<Delivery<B>>, at: seq<nat>)
    requires Starting(s) && start.session == Some(s)
    requires 0 < chunkSize <= s.chunkSize && s.chunks == ChunkCount(|archive|, chunkSize)
    requires s.hash == im.digest(archive) && TrueInTurn(archive, chunkSize, s.chunks, ds)
    requires InOrder(ds, at) && |at| == s.chunks
    ensures ApplyAll(im, start, ds) == HandedOver(im, start, archive)
  {
    InOrderArrives(s.chunks, ds, at);
    TransferProgress(im, s, start, archive, chunkSize, ds);
  }

  /** The chunk is the next one expected, and not too large. */
  ghost predicate Welcome<B, A>(s: Session<B, A>, d: Delivery<B>) {
    d.index == s.next && 0 <= d.index < s.chunks && |d.chunk| <= s.chunkSize
  }

  /** More chunks are to come, or what has come has the offered digest and an import that ends
      with the trusted app hash. */
  ghost predicate Passes<B, A>(im: Importer<B, A>, s: Session<B, A>, d: Delivery<B>) {
    var whole := s.archive + d.chunk;
    || d.index + 1 < s.chunks
    || (im.digest(whole) == s.hash && im.import_(whole) == StateReplaced(Some(s.appHash)))
  }

  /** What each answer to a delivery says: there is no session; the chunk is not the next one,
      and nothing changes; it was taken, and if it was the last one the archive has the offered
      digest and its import ended with the trusted app hash. */
  lemma {:induction false} AnswersExactly<B, A>(im: Importer<B, A>, r: Receiver<B, A>, d: Delivery<B>)
    ensures
      var (after, answer) := Applied(im, r, d);
      && (answer == RetrySnapshot <==> r.session.None?)
      && (answer == Retry <==> r.session.Some? && d.index != r.session.value.next)
      && (answer == Retry || answer == RetrySnapshot ==> after == r)
      && (answer == Accept <==> r.session.Some? && Welcome(r.session.value, d) && Passes(im, r.session.value, d))
  {
  }

  /** What is kept, and what was last handed over since `start`, fits the chunks it came in. */
  ghost predicate Bounded<B, A>(s: Session<B, A>, start: Receiver<B, A>, r: Receiver<B, A>) {
    && (r.session.Some? ==>
          && r.session.value.chunkSize == s.chunkSize && r.session.value.chunks == s.chunks
          && 0 <= r.session.value.next < s.chunks && |r.session.value.archive| <= r.session.value.next * s.chunkSize)
    && |r.handed| >= |start.handed|
    && (|r.handed| > |start.handed| ==> |r.handed[|r.handed| - 1]| <= s.chunks * s.chunkSize)
  }

  lemma {:induction false} OneChunkMore(n: nat, size: nat, kept: nat, chunk: nat)
    requires kept <= n * size && chunk <= size
    ensures kept + chunk <= (n + 1) * size
  {
    assert (n + 1) * size == n * size + size;
  }

  lemma {:induction false} StaysBounded<B, A>(
      im: Importer<B, A>, s: Session<B, A>, start: Receiver<B, A>, r: Receiver<B, A>, d: Delivery<B>)
    requires s.chunkSize >= 0 && Bounded(s, start, r)
    ensures Bounded(s, start, Applied(im, r, d).0)
  {
    if r.session.Some? && Welcome(r.session.value, d) {
      OneChunkMore(d.index, s.chunkSize, |r.session.value.archive|, |d.chunk|);
    }
  }

  /** However much is delivered, what is kept never outgrows the chunks announced. */
  lemma {:induction false} ArchiveBounded<B, A>(
      im: Importer<B, A>, s: Session<B, A>, start: Receiver<B, A>, ds: seq<Delivery<B>>)
    requires Starting(s) && start.session == Some(s) && s.chunkSize >= 0
    ensures Bounded(s, start, ApplyAll(im, start, ds))
  {
    if ds != [] {
      ArchiveBounded(im, s, start, ds[..|ds| - 1]);
      StaysBounded(im, s, start, ApplyAll(im, start, ds[..|ds| - 1]), ds[|ds| - 1]);
    }
  }

  /** The delivery is the last chunk, in its turn, of bytes with the offered digest. */
  ghost predicate Completes<B, A>(im: Importer<B, A>, s: Session<B, A>, ds: seq<Delivery<B>>, last: Delivery<B>) {
    && last.index == Progress(s.chunks, ds) == s.chunks - 1 && |last.chunk| <= s.chunkSize
    && im.digest(InTurn(s.chunks, ds) + last.chunk) == s.hash
  }

  /** Over any deliveries: a transfer is rejected although it has replaced the state if and
      only if its bytes have the offered digest, pass the import's own checks, and the import
      does not end with the trusted app hash; that hash is compared after the import. */
  lemma {:induction false} RejectedAfterImport<B, A>(
      im: Importer<B, A>, s: Session<B, A>, start: Receiver<B, A>, ds: seq<Delivery<B>>, last: Delivery<B>)
    requires Starting(s) && start.session == Some(s) && ApplyAll(im, start, ds).session.Some?
    ensures
      var (after, answer) := Applied(im, ApplyAll(im, start, ds), last);
      var imported := im.import_(InTurn(s.chunks, ds) + last.chunk);
      answer == RejectSnapshot && after.imported != start.imported <==>
        Completes(im, s, ds, last) && imported.StateReplaced? && imported.appHash != Some(s.appHash)
  {
    ImportOnlyComplete(im, s, start, ds);
  }

  /** One chunk with the offered digest, whose state has another app hash than the trusted
      one: the answer is a rejection, and the state has been replaced. */
  lemma {:induction false} ForeignStateImported<B, A>(im: Importer<B, A>, chunk: seq<B>, trusted: A, other: A)
    requires im.import_(chunk) == StateReplaced(Some(other)) && other != trusted
    ensures
      var s := Session(0, 1, |chunk|, trusted, im.digest(chunk), []);
      Applied(im, Receiver(Some(s), [], []), Delivery(0, chunk)) == (Receiver(None, [chunk], [chunk]), RejectSnapshot)
  {
    assert [] + chunk == chunk && [] + [chunk] == [chunk];
  }

  // ----------------------------------------------------------------------------- the offer

  const FORMAT_VERSION := 2

  /** The offer's metadata once parsed; `None` when it cannot be, or names another
      execution policy. */
  datatype Metadata<B, A, C> = Metadata(
    version: int, chain: C, height: int, chunkSize: int, archiveHash: seq<B>, appHash: A)

  datatype Offer<B, A, C> = Offer(
    format: int, height: int, chunks: int, hash: seq<B>, metadata: Option<Metadata<B, A, C>>)

  datatype OfferAnswer = OfferAccepted | OfferRejected | FormatRejected

  /** What a node offers for an archive it stores. */
  function OfferOf<B, A, C>(
      im: Importer<B, A>, chain: C, height: int, appHash: A, chunkSize: nat, archive: seq<B>): Offer<B, A, C>
    requires chunkSize > 0
  {
    Offer(FORMAT_VERSION, height, ChunkCount(|archive|, chunkSize), im.digest(archive),
          Some(Metadata(FORMAT_VERSION, chain, height, chunkSize, im.digest(archive), appHash)))
  }

  /** The state sync service of a node. */
  class StateSyncService<!B(==), !A(==), !C(==)> {
    const importer: Importer<B, A>
    const chain: C
    const chunkSize: int
    var session: Option<Session<B, A>>
    ghost var handed: seq<seq<B>>
    var imported: seq<seq<B>>

    constructor (importer: Importer<B, A>, chain: C, chunkSize: int)
      ensures this.importer == importer && this.chain == chain && this.chunkSize == chunkSize
      ensures State() == Receiver(None, [], [])
    {
      this.importer, this.chain, this.chunkSize := importer, chain, chunkSize;
      session, handed, imported := None, [], [];
    }

    ghost function State(): Receiver<B, A>
      reads this
    {
      Receiver(session, handed, imported)
    }

    /** An offer that a node of this chain makes of an archive it stores. */
    ghost predicate Honest(offer: Offer<B, A, C>, height: int, size: int, archive: seq<B>, trusted: A) {
      size > 0 && |importer.digest(archive)| == 32 && offer == OfferOf(importer, chain, height, trusted, size, archive)
    }

    /** An accepted offer opens a fresh session; every other answer changes nothing.  An
        honest offer is accepted exactly by nodes that are behind it, trust its app hash and
        take chunks of its size. */
    method OfferSnapshot(offer: Offer<B, A, C>, appHash: A, currentHeight: int) returns (answer: OfferAnswer)
      modifies this
      ensures handed == old(handed) && imported == old(imported)
      ensures answer != OfferAccepted ==> session == old(session)
      ensures answer == OfferAccepted ==>
        && session.Some? && Starting(session.value) && session.value.chunks == offer.chunks
        && session.value.hash == offer.hash && session.value.appHash == appHash
        && offer.metadata.Some? && session.value.chunkSize == offer.metadata.value.chunkSize
        && 0 < session.value.chunkSize <= chunkSize
      ensures forall height, size, archive, trusted :: Honest(offer, height, size, archive, trusted) ==>
                (answer == OfferAccepted <==> currentHeight < height && size <= chunkSize && trusted == appHash)
      ensures answer == FormatRejected <==> offer.format != 2
      ensures answer == OfferAccepted <==>
        && offer.format == 2 && offer.height > currentHeight && offer.chunks > 0 && |offer.hash| == 32
        && offer.metadata.Some?
        && var m := offer.metadata.value;
        && m.version == 2 && m.chain == chain && m.height == offer.height && 0 < m.chunkSize <= chunkSize
        && m.archiveHash == offer.hash && m.appHash == appHash
    {
      if offer.format != FORMAT_VERSION {
        return FormatRejected;
      }
      if offer.height <= currentHeight || offer.chunks <= 0 || |offer.hash| != 32 || offer.metadata.None? {
        return OfferRejected;
      }
      var m := offer.metadata.value;
      if m.version != FORMAT_VERSION || m.chain != chain || m.height != offer.height {
        return OfferRejected;
      }
      if m.chunkSize <= 0 || m.chunkSize > chunkSize || m.archiveHash != offer.hash || m.appHash != appHash {
        return OfferRejected;
      }
      session := Some(Session(0, offer.chunks, m.chunkSize, appHash, offer.hash, []));
      return OfferAccepted;
    }

    method ApplyChunk(index: int, chunk: seq<B>) returns (answer: Answer)
      modifies this
      ensures (State(), answer) == Applied(importer, old(State()), Delivery(index, chunk))
    {
      if session.None? {
        return RetrySnapshot;
      }
      var s := session.value;
      if index != s.next {
        return Retry;
      }
      if index < 0 || index >= s.chunks {
        return RejectSnapshot;
      }
      if |chunk| > s.chunkSize {
        session := None;
        return RejectSnapshot;
      }
      s := s.(archive := s.archive + chunk, next := s.next + 1);
      if s.next < s.chunks {
        session := Some(s);
        return Accept;
      }
      session := None;
      if importer.digest(s.archive) != s.hash {
        return RejectSnapshot;
      }
      handed := handed + [s.archive];
      var outcome := importer.import_(s.archive);
      if outcome.StateReplaced? {
        imported := imported + [s.archive];
      }
      return if outcome == StateReplaced(Some(s.appHash)) then Accept else RejectSnapshot;
    }
  }
}
