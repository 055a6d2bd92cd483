/** The bounded log directory: segments are appended to, rotated and pruned. */
module LogRetention {
  import opened Basics

  /** A log file: when it was last written, its name's rank, its size in bytes. */
  datatype Segment = Segment(mtime: int, name: int, size: nat)

  /** The directory: the active segment, if there is one, and the rotated ones. */
  datatype Log = Log(active: Option<Segment>, archives: seq<Segment>)

  datatype Limits = Limits(maxFile: nat, maxTotal: nat, retention: int) {
    /** What the constructor insists on. */
    predicate Valid() {
      0 < maxFile <= maxTotal && retention > 0
    }

    function Budget(): int {
      maxTotal - maxFile
    }
  }

  function Size(s: seq<Segment>): nat {
    if s == [] then 0 else s[0].size + Size(s[1..])
  }

  function ActiveSize(l: Log): nat {
    if l.active.Some? then l.active.value.size else 0
  }

  function Total(l: Log): nat {
    ActiveSize(l) + Size(l.archives)
  }

  // ------------------------------------------------------------------------------ messages

  /** The bytes of a text, given the width of each character. */
  function Encoded(widths: seq<nat>): nat {
    if widths == [] then 0 else widths[0] + Encoded(widths[1..])
  }

  /** Cutting the encoded text at `room` bytes and dropping a character cut in two. */
  function Cut(widths: seq<nat>, room: nat): (n: nat)
    ensures n <= room && n <= Encoded(widths)
    ensures Encoded(widths) <= room ==> n == Encoded(widths)
    ensures Encoded(widths) > room && (forall i :: 0 <= i < |widths| ==> widths[i] <= 4) ==> n + 4 > room
  {
    if widths == [] || widths[0] > room then 0
    else
      assert forall i :: 0 <= i < |widths[1..]| ==> widths[1..][i] == widths[i + 1];
      widths[0] + Cut(widths[1..], room - widths[0])
  }

  /** How many bytes a message takes: an oversized one is cut and ends in a newline. */
  function Stored(limits: Limits, widths: seq<nat>): (n: nat)
    requires limits.Valid()
    ensures n <= limits.maxFile
  {
    if Encoded(widths) > limits.maxFile then Cut(widths, limits.maxFile - 1) + 1 else Encoded(widths)
  }

  // ------------------------------------------------------------------------------- cleaning

  predicate Older(a: Segment, b: Segment) {
    a.mtime < b.mtime || (a.mtime == b.mtime && (a.name < b.name || (a.name == b.name && a.size <= b.size)))
  }

  predicate Ordered(s: seq<Segment>) {
    s == [] || ((forall x :: x in s[1..] ==> Older(s[0], x)) && Ordered(s[1..]))
  }

  lemma {:induction false} Head(a: Segment, s: seq<Segment>)
    ensures Size([a] + s) == a.size + Size(s)
    ensures multiset([a] + s) == multiset{a} + multiset(s)
    ensures forall x :: x in [a] + s <==> x == a || x in s
    ensures Ordered([a] + s) <==> (forall x :: x in s ==> Older(a, x)) && Ordered(s)
  {
    assert ([a] + s)[1..] == s;
  }

  function Place(a: Segment, s: seq<Segment>): seq<Segment> {
    if s == [] || Older(a, s[0]) then [a] + s else [s[0]] + Place(a, s[1..])
  }

  lemma {:induction false} Placed(a: Segment, s: seq<Segment>)
    requires Ordered(s)
    ensures Ordered(Place(a, s)) && multiset(Place(a, s)) == multiset{a} + multiset(s)
    ensures Size(Place(a, s)) == a.size + Size(s)
    ensures forall x :: x in Place(a, s) <==> x == a || x in s
  {
    if s == [] || Older(a, s[0]) {
      Head(a, s);
      assert s != [] ==> s == [s[0]] + s[1..];
    } else {
      Placed(a, s[1..]);
      Head(s[0], Place(a, s[1..]));
      Head(s[0], s[1..]);
      assert s == [s[0]] + s[1..];
    }
  }

  function Sorted(s: seq<Segment>): seq<Segment> {
    if s == [] then [] else Place(s[0], Sorted(s[1..]))
  }

  lemma {:induction false} SortedSorts(s: seq<Segment>)
    ensures Ordered(Sorted(s)) && multiset(Sorted(s)) == multiset(s) && Size(Sorted(s)) == Size(s)
  {
    if s != [] {
      SortedSorts(s[1..]);
      Placed(s[0], Sorted(s[1..]));
      Head(s[0], s[1..]);
      assert s == [s[0]] + s[1..];
    }
  }

  function Unexpired(s: seq<Segment>, cutoff: int): seq<Segment> {
    if s == [] then []
    else if s[0].mtime < cutoff then Unexpired(s[1..], cutoff)
    else [s[0]] + Unexpired(s[1..], cutoff)
  }

  lemma {:induction false} UnexpiredOnly(s: seq<Segment>, cutoff: int)
    ensures Size(Unexpired(s, cutoff)) <= Size(s)
    ensures forall x :: x in Unexpired(s, cutoff) <==> x in s && x.mtime >= cutoff
  {
    if s != [] {
      UnexpiredOnly(s[1..], cutoff);
      Head(s[0], s[1..]);
      Head(s[0], Unexpired(s[1..], cutoff));
      assert s == [s[0]] + s[1..];
    }
  }

  /** The newest segments that fit the budget. */
  function Newest(s: seq<Segment>, budget: int): (r: seq<Segment>)
    requires budget >= 0
    ensures Size(r) <= budget
  {
    if Size(s) <= budget then s else Newest(s[1..], budget)
  }

  /** They are a suffix, and one segment more would not fit. */
  lemma {:induction false} NewestSuffix(s: seq<Segment>, budget: int) returns (k: nat)
    requires budget >= 0
    ensures k <= |s| && Newest(s, budget) == s[k..] && (k > 0 ==> Size(s[k - 1..]) > budget)
  {
    k := 0;
    if Size(s) > budget {
      k := NewestSuffix(s[1..], budget);
      assert s[1..][k..] == s[k + 1..];
      assert k > 0 ==> s[1..][k - 1..] == s[k..];
      assert s[0..] == s;
      k := k + 1;
    }
  }

  lemma {:induction false} NewestExceeds(s: seq<Segment>, budget: int)
    requires budget >= 0
    ensures
      Newest(s, budget) == s || exists k :: 0 < k <= |s| && Newest(s, budget) == s[k..] && Size(s[k - 1..]) > budget
  {
    var k := NewestSuffix(s, budget);
    assert s[0..] == s;
  }

  function CleanedActive(l: Log, cutoff: int): Option<Segment> {
    if l.active.Some? && l.active.value.mtime < cutoff then None else l.active
  }

  /** A clean-up that completes: nothing expired is left, and of the rotated segments only
      the newest that fit the budget. */
  function Cleaned(limits: Limits, l: Log, now: int): Log
    requires limits.Valid()
  {
    var cutoff := now - limits.retention;
    Log(CleanedActive(l, cutoff), Newest(Sorted(Unexpired(l.archives, cutoff)), limits.Budget()))
  }

  /** Of two segments, the one that is kept is never the older. */
  lemma {:induction false} OrderedSplit(s: seq<Segment>, k: nat, x: Segment, y: Segment)
    requires Ordered(s) && k <= |s| && x in s[..k] && y in s[k..]
    ensures Older(x, y)
  {
    if x == s[0] && k > 0 {
      assert y in s[1..] by {
        assert s[k..] == s[1..][k - 1..];
      }
    } else {
      assert s[..k] == [s[0]] + s[1..][..k - 1];
      assert s[k..] == s[1..][k - 1..];
      OrderedSplit(s[1..], k - 1, x, y);
    }
  }

  lemma {:induction false} NewestAreNewer(s: seq<Segment>, budget: int)
    requires Ordered(s) && budget >= 0
    ensures forall y :: y in Newest(s, budget) ==> y in s
    ensures forall x, y :: x in s && x !in Newest(s, budget) && y in Newest(s, budget) ==> Older(x, y)
  {
    var k := NewestSuffix(s, budget);
    assert s == s[..k] + s[k..];
    forall x, y | x in s && x !in s[k..] && y in s[k..] ensures Older(x, y) {
      OrderedSplit(s, k, x, y);
    }
  }

  /** A completed clean-up brings the archives within the budget; what it drops is expired or
      not newer than anything it keeps, and nothing unexpired goes when all of it fits. */
  lemma {:induction false} CleanedWithinBudget(limits: Limits, l: Log, now: int)
    requires limits.Valid()
    ensures
      var kept := Cleaned(limits, l, now).archives;
      && Size(kept) <= limits.Budget()
      && (forall y :: y in kept ==> y in l.archives && y.mtime >= now - limits.retention)
      && (forall x, y :: x in l.archives && x !in kept && y in kept ==> x.mtime < now - limits.retention || Older(x, y))
      && (Size(l.archives) <= limits.Budget() ==>
            forall x :: x in l.archives && x.mtime >= now - limits.retention ==> x in kept)
  {
    var cutoff := now - limits.retention;
    var live := Unexpired(l.archives, cutoff);
    UnexpiredOnly(l.archives, cutoff);
    SortedSorts(live);
    SameMembers(Sorted(live), live);
    NewestAreNewer(Sorted(live), limits.Budget());
  }

  /** Nothing is dropped without need: the segments kept and the newest one dropped together
      exceed the budget.  An active segment goes exactly when it has expired. */
  lemma {:induction false} CleanedDropsFewest(limits: Limits, l: Log, now: int)
    requires limits.Valid()
    ensures
      var cleaned, live := Cleaned(limits, l, now), Sorted(Unexpired(l.archives, now - limits.retention));
      || cleaned.archives == live
      || exists k :: 0 < k <= |live| && cleaned.archives == live[k..] && Size(live[k - 1..]) > limits.Budget()
    ensures
      var expired := l.active.Some? && l.active.value.mtime < now - limits.retention;
      Cleaned(limits, l, now).active == if expired then None else l.active
  {
    NewestExceeds(Sorted(Unexpired(l.archives, now - limits.retention)), limits.Budget());
  }

  lemma {:induction false} SizeAppend(a: seq<Segment>, b: seq<Segment>)
    ensures Size(a + b) == Size(a) + Size(b)
  {
    if a == [] {
      assert a + b == b;
    } else {
      SizeAppend(a[1..], b);
      assert a + b == [a[0]] + (a[1..] + b);
      Head(a[0], a[1..] + b);
    }
  }

  /** A clean-up that raised on the way: some segments are gone. */
  ghost predicate SomeGone(l: Log, l': Log) {
    && Size(l'.archives) <= Size(l.archives)
    && (forall x :: x in l'.archives ==> x in l.archives)
    && (l'.active == l.active || l'.active.None?)
  }

  // ------------------------------------------------------------------------------ one step

  datatype Action = Write(length: nat, elapsed: bool) | Maintain

  /** What happened in one locked operation: whether the active segment was moved away,
      whether a clean-up began and whether it completed, and whether the operation did. */
  datatype Step = Step(action: Action, now: int, moved: bool, began: bool, cleaned: bool, completed: bool, after: Log)

  function Rotated(l: Log, name: int): Log {
    if l.active.None? then l else Log(None, l.archives + [l.active.value.(name := name)])
  }

  /** Appending `n` bytes; the file appears with the first of them. */
  function Appended(l: Log, now: int, n: nat): Log {
    l.(active := Some(Segment(now, if l.active.Some? then l.active.value.name else 0, ActiveSize(l) + n)))
  }

  /** The write itself completes, or stops after some of its bytes. */
  ghost predicate Appends(l: Log, s: Step, length: nat) {
    if s.completed then s.after == Appended(l, s.now, length)
    else s.after == l || exists n: nat :: n <= length && s.after == Appended(l, s.now, n)
  }

  ghost predicate CleansUp(limits: Limits, l: Log, s: Step, l': Log)
    requires limits.Valid()
  {
    s.began && if s.cleaned then l' == Cleaned(limits, l, s.now) else SomeGone(l, l')
  }

  predicate Overflows(limits: Limits, l: Log, s: Step) {
    s.action.Write? && (ActiveSize(l) + s.action.length > limits.maxFile || s.action.elapsed)
  }

  ghost predicate Permitted(limits: Limits, l: Log, s: Step)
    requires limits.Valid()
  {
    match s.action
    case Maintain => !s.moved && s.completed == s.cleaned && CleansUp(limits, l, s, s.after)
    case Write(length, _) =>
      if !Overflows(limits, l, s) then !s.moved && !s.began && Appends(l, s, length)
      else if !s.began then !s.completed && s.after == l
      else
        s.moved == l.active.Some? && exists name, l' :: RotatesInto(limits, l, s, length, name, l')
  }

  /** The active segment is moved away under `name` and a clean-up leads to `l'`, where the
      write goes on unless the clean-up raised. */
  ghost predicate RotatesInto(limits: Limits, l: Log, s: Step, length: nat, name: int, l': Log)
    requires limits.Valid()
  {
    && CleansUp(limits, Rotated(l, name), s, l')
    && if s.cleaned then Appends(l', s, length) else !s.completed && s.after == l'
  }

  // ---------------------------------------------------------------------------- whole runs

  ghost predicate PermittedRun(limits: Limits, l: Log, steps: seq<Step>)
    requires limits.Valid()
  {
    forall i :: 0 <= i < |steps| ==> PermittedAt(limits, l, steps, i)
  }

  ghost predicate PermittedAt(limits: Limits, l: Log, steps: seq<Step>, i: int)
    requires limits.Valid() && 0 <= i < |steps|
  {
    Permitted(limits, After(l, steps[..i]), steps[i])
    && (steps[i].action.Write? ==> steps[i].action.length <= limits.maxFile)
  }

  function After(l: Log, steps: seq<Step>): Log {
    if steps == [] then l else steps[|steps| - 1].after
  }

  function DebtAfter(limits: Limits, s: Step, debt: nat): nat {
    if !s.began then debt else if s.cleaned then 0 else if s.moved then debt + limits.maxFile else debt
  }

  /** One full segment for every rotation whose clean-up did not complete, since the last
      clean-up that did. */
  function Debt(limits: Limits, steps: seq<Step>): nat {
    if steps == [] then 0 else DebtAfter(limits, steps[|steps| - 1], Debt(limits, steps[..|steps| - 1]))
  }

  ghost predicate Within(limits: Limits, l: Log, debt: nat) {
    ActiveSize(l) <= limits.maxFile && Size(l.archives) <= limits.Budget() + debt
  }

  lemma {:induction false} RotatedSize(l: Log, name: int)
    ensures Size(Rotated(l, name).archives) == Size(l.archives) + ActiveSize(l)
    ensures ActiveSize(Rotated(l, name)) == 0
  {
    if l.active.Some? {
      var moved := l.active.value.(name := name);
      SizeAppend(l.archives, [moved]);
      assert [moved][1..] == [];
    }
  }

  lemma {:induction false} CleanedSize(limits: Limits, l: Log, now: int)
    requires limits.Valid()
    ensures Size(Cleaned(limits, l, now).archives) <= limits.Budget()
    ensures ActiveSize(Cleaned(limits, l, now)) <= ActiveSize(l)
  {
  }

  lemma {:induction false} StepWithin(limits: Limits, l: Log, s: Step, debt: nat)
    requires limits.Valid() && Permitted(limits, l, s) && Within(limits, l, debt)
    requires s.action.Write? ==> s.action.length <= limits.maxFile
    ensures Within(limits, s.after, DebtAfter(limits, s, debt))
  {
    if s.action.Maintain? {
      CleanedSize(limits, l, s.now);
    } else if s.began {
      var name, l' :| RotatesInto(limits, l, s, s.action.length, name, l');
      RotatedSize(l, name);
      CleanedSize(limits, Rotated(l, name), s.now);
    }
  }

  /** Over every run: no segment outgrows its limit, and what is owned in all is within the
      total, plus one segment for every rotation whose clean-up has not yet been made up. */
  lemma {:induction false} LogBound(limits: Limits, l: Log, steps: seq<Step>)
    requires limits.Valid() && Within(limits, l, 0) && PermittedRun(limits, l, steps)
    ensures ActiveSize(After(l, steps)) <= limits.maxFile
    ensures Within(limits, After(l, steps), Debt(limits, steps))
    ensures Total(After(l, steps)) <= limits.maxTotal + Debt(limits, steps)
  {
    if steps != [] {
      var n := |steps| - 1;
      forall i | 0 <= i < n ensures PermittedAt(limits, l, steps[..n], i) {
        assert steps[..n][..i] == steps[..i];
        assert PermittedAt(limits, l, steps, i);
      }
      LogBound(limits, l, steps[..n]);
      assert PermittedAt(limits, l, steps, n);
      StepWithin(limits, After(l, steps[..n]), steps[n], Debt(limits, steps[..n]));
    }
  }

  /** A completed write: within the limit and the rotation interval it is appended and nothing
      else changes; otherwise it starts a new segment, over archives that fit the budget. */
  lemma {:induction false} CompletedWrite(limits: Limits, l: Log, s: Step)
    requires limits.Valid() && Permitted(limits, l, s) && s.action.Write? && s.completed
    ensures ActiveSize(l) + s.action.length <= limits.maxFile && !s.action.elapsed ==>
      ActiveSize(s.after) == ActiveSize(l) + s.action.length && s.after.archives == l.archives
    ensures ActiveSize(l) + s.action.length > limits.maxFile || s.action.elapsed ==>
      ActiveSize(s.after) == s.action.length && Size(s.after.archives) <= limits.Budget()
    ensures s.after.active.Some? && s.after.active.value.mtime == s.now
  {
    if Overflows(limits, l, s) {
      var name, l' :| RotatesInto(limits, l, s, s.action.length, name, l');
      RotatedSize(l, name);
      CleanedSize(limits, Rotated(l, name), s.now);
      assert CleanedActive(Rotated(l, name), s.now - limits.retention).None?;
    }
  }

  /** If every clean-up that began has completed, the total is never exceeded. */
  lemma {:induction false} NoDebt(limits: Limits, steps: seq<Step>)
    requires forall i :: 0 <= i < |steps| ==> steps[i].began ==> steps[i].cleaned
    ensures Debt(limits, steps) == 0
  {
    if steps != [] {
      NoDebt(limits, steps[..|steps| - 1]);
    }
  }

  lemma {:induction false} LogBoundWhenClean(limits: Limits, l: Log, steps: seq<Step>)
    requires limits.Valid() && Within(limits, l, 0) && PermittedRun(limits, l, steps)
    requires forall i :: 0 <= i < |steps| ==> steps[i].began ==> steps[i].cleaned
    ensures Total(After(l, steps)) <= limits.maxTotal
  {
    NoDebt(limits, steps);
    LogBound(limits, l, steps);
  }

  // ------------------------------------------------------------- when a clean-up is missing

  /** A write that completes without rotating. */
  ghost predicate PlainWrite(limits: Limits, l: Log, s: Step)
    requires limits.Valid()
  {
    s.action.Write? && s.completed && !Overflows(limits, l, s) && Permitted(limits, l, s)
  }

  /** The completed writes that follow stay within the total exactly when the archives are
      within their budget. */
  lemma {:induction false} BoundNeedsBudget(limits: Limits, l: Log)
    requires limits.Valid() && ActiveSize(l) <= limits.maxFile
    ensures (forall s :: PlainWrite(limits, l, s) ==> Total(s.after) <= limits.maxTotal)
      <==> Size(l.archives) <= limits.Budget()
  {
    if Size(l.archives) > limits.Budget() {
      var room := limits.maxFile - ActiveSize(l);
      var s := Step(Write(room, false), 0, false, false, false, true, Appended(l, 0, room));
      assert PlainWrite(limits, l, s);
    }
  }

  /** A rotation whose clean-up raises at once, then a write that needs no rotation: both
      limits are full, and the second write completes beyond the total. */
  lemma {:induction false} MissedCleanupOverflows(limits: Limits) returns (l: Log, steps: seq<Step>)
    requires limits.Valid()
    ensures Within(limits, l, 0) && PermittedRun(limits, l, steps)
    ensures |steps| == 2 && steps[1].completed && Total(After(l, steps)) > limits.maxTotal
  {
    var full, rest := Segment(0, 0, limits.maxFile), Segment(0, 0, limits.Budget());
    l := Log(Some(full), [rest]);
    assert [rest][1..] == [];
    var rotated := Rotated(l, 1);
    var failed := Step(Write(1, false), 0, true, true, false, false, rotated);
    var written := Step(Write(1, false), 0, false, false, false, true, Appended(rotated, 0, 1));
    steps := [failed, written];
    assert RotatesInto(limits, l, failed, 1, 1, rotated);
    assert steps[..0] == [] && steps[..1] == [failed];
    assert PermittedAt(limits, l, steps, 0);
    assert PermittedAt(limits, l, steps, 1);
    RotatedSize(l, 1);
  }

  // ------------------------------------------------------------------------------- the sink

  /** `s'` is what is left after removing some of `s`. */
  ghost predicate Remains(s: seq<Segment>, s': seq<Segment>) {
    Size(s') <= Size(s) && forall x :: x in s' ==> x in s
  }

  /** Removes what has expired; stops when a removal raises. */
  method DropExpired(
      all: seq<Segment>, cutoff: int, unlinks: Option<nat>)
      returns (done: bool, kept: seq<Segment>, left: Option<nat>)
    ensures done ==> kept == Unexpired(all, cutoff)
    ensures Remains(all, kept) && (unlinks.None? ==> done && left.None?)
  {
    var rest := all;
    kept, left := [], unlinks;
    while rest != []
      invariant Unexpired(all, cutoff) == kept + Unexpired(rest, cutoff)
      invariant Size(kept) + Size(rest) <= Size(all)
      invariant forall x :: x in kept || x in rest ==> x in all
      invariant unlinks.None? ==> left.None?
      decreases |rest|
    {
      if rest[0].mtime < cutoff {
        if left == Some(0) {
          SizeAppend(kept, rest);
          return false, kept + rest, left;
        }
        left := if left.None? then None else Some(left.value - 1);
      } else {
        OneKept(kept, rest, cutoff);
        kept := kept + [rest[0]];
      }
      rest := rest[1..];
    }
    return true, kept, left;
  }

  lemma {:induction false} OneKept(kept: seq<Segment>, rest: seq<Segment>, cutoff: int)
    requires rest != [] && rest[0].mtime >= cutoff
    ensures kept + Unexpired(rest, cutoff) == kept + [rest[0]] + Unexpired(rest[1..], cutoff)
    ensures Size(kept + [rest[0]]) == Size(kept) + rest[0].size
  {
    SizeAppend(kept, [rest[0]]);
    assert [rest[0]][1..] == [];
  }

  /** Removes the oldest first until the others fit; stops when a removal raises. */
  method DropOldest(all: seq<Segment>, budget: int, unlinks: Option<nat>) returns (done: bool, kept: seq<Segment>)
    requires budget >= 0
    ensures done ==> kept == Newest(Sorted(all), budget)
    ensures Remains(all, kept) && (unlinks.None? ==> done)
  {
    SortedSorts(all);
    kept := Sorted(all);
    SameMembers(kept, all);
    var size, left := Size(kept), unlinks;
    while size > budget
      invariant size == Size(kept) <= Size(all)
      invariant Newest(Sorted(all), budget) == Newest(kept, budget)
      invariant forall x :: x in kept ==> x in all
      invariant unlinks.None? ==> left.None?
      decreases |kept|
    {
      if left == Some(0) {
        return false, kept;
      }
      left := if left.None? then None else Some(left.value - 1);
      size, kept := size - kept[0].size, kept[1..];
    }
    return true, kept;
  }

  /** What the surroundings do to one operation: the clock, whether the rotation interval has
      passed, which file-system calls raise, and how much of a failing write gets out. */
  datatype Fate = Fate(
    now: int, elapsed: bool, symlink: bool, renameRaises: bool,
    unlinks: Option<nat>, name: int, written: Option<nat>)

  class BoundedLogSink {
    const limits: Limits
    var log: Log

    constructor (limits: Limits, log: Log)
      ensures this.limits == limits && this.log == log
    {
      this.limits, this.log := limits, log;
    }

    /** `unlinks` is how many removals succeed before one raises. */
    method Cleanup(now: int, unlinks: Option<nat>) returns (done: bool)
      requires limits.Valid()
      modifies this
      ensures done ==> log == Cleaned(limits, old(log), now)
      ensures !done ==> SomeGone(old(log), log)
      ensures unlinks.None? ==> done
    {
      var cutoff, removed := now - limits.retention, 0;
      if log.active.Some? && log.active.value.mtime < cutoff {
        if unlinks == Some(removed) {
          return false;
        }
        log, removed := log.(active := None), removed + 1;
      }
      var archives, left;
      var allowed := if unlinks.None? then None else Some(unlinks.value - removed);
      done, archives, left := DropExpired(log.archives, cutoff, allowed);
      if done {
        done, archives := DropOldest(archives, limits.Budget(), left);
      }
      log := log.(archives := archives);
    }

    /** One write under the lock. */
    method WriteData(length: nat, fate: Fate) returns (ghost step: Step)
      requires limits.Valid()
      modifies this
      ensures step.action == Write(length, fate.elapsed) && step.now == fate.now && step.after == log
      ensures Permitted(limits, old(log), step)
      ensures !fate.symlink && !fate.renameRaises && fate.unlinks.None? && fate.written.None? ==> step.completed
    {
      ghost var before := log;
      step := Step(Write(length, fate.elapsed), fate.now, false, false, false, false, log);
      var overflows := ActiveSize(log) + length > limits.maxFile || fate.elapsed;
      if fate.symlink || (overflows && log.active.Some? && fate.renameRaises) {
        return;
      }
      if overflows {
        log := Rotated(log, fate.name);
        var done := Cleanup(fate.now, fate.unlinks);
        step := step.(moved := before.active.Some?, began := true, cleaned := done, after := log);
        if !done {
          assert RotatesInto(limits, before, step, length, fate.name, log);
          return;
        }
      }
      ghost var ready := log;
      if fate.written.None? {
        log := Appended(log, fate.now, length);
        step := step.(completed := true, after := log);
      } else if fate.written.value <= length {
        log := Appended(log, fate.now, fate.written.value);
        step := step.(after := log);
      }
      assert Appends(ready, step, length);
      assert overflows ==> RotatesInto(limits, before, step, length, fate.name, ready);
    }

    /** A message, cut to what one segment holds. */
    method WriteMessage(widths: seq<nat>, fate: Fate) returns (ghost step: Step)
      requires limits.Valid()
      modifies this
      ensures step.action == Write(Stored(limits, widths), fate.elapsed) && step.after == log
      ensures Permitted(limits, old(log), step) && step.action.length <= limits.maxFile
    {
      step := WriteData(Stored(limits, widths), fate);
    }

    /** The maintenance thread's round. */
    method MaintainOnce(now: int, unlinks: Option<nat>) returns (ghost step: Step)
      requires limits.Valid()
      modifies this
      ensures step.action == Maintain && step.after == log && Permitted(limits, old(log), step)
    {
      var done := Cleanup(now, unlinks);
      step := Step(Maintain, now, false, true, done, done, log);
    }
  }

  lemma {:induction false} SameMembers(a: seq<Segment>, b: seq<Segment>)
    requires multiset(a) == multiset(b)
    ensures forall x :: x in a <==> x in b
  {
    forall x ensures x in a <==> x in b {
      assert x in a <==> x in multiset(a);
      assert x in b <==> x in multiset(b);
    }
  }

  /** Opening a sink raises exactly when a limit is not positive, the total does not cover one
      segment, or the first rotation or clean-up raises. */
  method OpenSink(limits: Limits, log: Log, fate: Fate) returns (sink: BoundedLogSink?)
    ensures
      var limited :=
        limits.maxFile > 0 && limits.maxTotal > 0 && limits.retention > 0 && limits.maxTotal >= limits.maxFile;
      var moves := log.active.None? || !fate.renameRaises;
      && (sink != null ==> limited && moves)
      && (limited && moves && fate.unlinks.None? ==> sink != null)
    ensures sink != null ==> fresh(sink) && sink.limits == limits && Within(limits, sink.log, 0)
    ensures sink != null ==> sink.log == Cleaned(limits, Rotated(log, fate.name), fate.now)
  {
    if !limits.Valid() || (log.active.Some? && fate.renameRaises) {
      return null;
    }
    var started := new BoundedLogSink(limits, Rotated(log, fate.name));
    var done := started.Cleanup(fate.now, fate.unlinks);
    if !done {
      return null;
    }
    RotatedSize(log, fate.name);
    CleanedSize(limits, Rotated(log, fate.name), fate.now);
    return started;
  }
}
