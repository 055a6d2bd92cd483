/** Publishing restored application directories, with roll-back on failure. */
module Publication {
  import opened Basics

  /** The two application directories under a node's home. */
  datatype Root = Data | Xian

  const ROOTS: seq<Root> := [Data, Xian]

  /** How one step on the file system goes: it works, it raises and changes nothing, or the
      process is interrupted just after it took effect. */
  datatype Mishap = Fine | Raises | Interrupted

  /** Removing a directory may stop halfway and leave something, or nothing, behind. */
  datatype Removal<T> = Removed | Stuck(debris: Option<T>)

  /** What happens to every step that may be taken, and which directories a rename may
      replace (the empty ones). */
  datatype Weather<!T> = Weather(
    setAside: Root -> Mishap, install: Root -> Mishap,
    remove: Root -> Removal<T>, putBack: Root -> Mishap,
    givesWay: T -> bool)

  datatype Outcome = Published | RolledBack | RollbackFailed

  /** One publication: the directories it finds, the staged ones to put there, and how its
      steps go. */
  datatype Job<!T> = Job(weather: Weather<T>, originals: map<Root, T>, replacements: map<Root, T>)

  datatype Disk<T> = Disk(home: map<Root, T>, backup: map<Root, T>)

  /** The position at which a root is published. */
  function Turn(r: Root): nat {
    if r == Data then 0 else 1
  }

  lemma {:induction false} TurnOf(i: nat)
    requires i < |ROOTS|
    ensures Turn(ROOTS[i]) == i && forall r :: Turn(r) == i ==> r == ROOTS[i]
  {
  }

  // ------------------------------------------------------------- where a publication stops

  /** Where the work on one directory stands. */
  datatype Phase = Untouched | SetAside | Replaced

  /** The first step that does not go well, and what has become of its directory. */
  datatype Stop = Stop(root: Root, reached: Phase)

  function StopAt<T>(job: Job<T>, r: Root): Option<Stop> {
    var present, w := r in job.originals, job.weather;
    if present && w.setAside(r) == Raises then Some(Stop(r, Untouched))
    else if present && w.setAside(r) == Interrupted then Some(Stop(r, SetAside))
    else if w.install(r) == Raises then Some(Stop(r, if present then SetAside else Untouched))
    else if w.install(r) == Interrupted then Some(Stop(r, Replaced))
    else None
  }

  function FirstStop<T>(job: Job<T>): Option<Stop> {
    if StopAt(job, Data).Some? then StopAt(job, Data) else StopAt(job, Xian)
  }

  /** The roots before the stop have been replaced and noted as published. */
  predicate Noted(stop: Stop, r: Root) {
    Turn(r) < Turn(stop.root)
  }

  function PhaseOf(stop: Stop, r: Root): Phase {
    if Noted(stop, r) then Replaced else if r == stop.root then stop.reached else Untouched
  }

  ghost predicate InPhase<T>(job: Job<T>, disk: Disk<T>, r: Root, phase: Phase) {
    var original, home, backup := Lookup(job.originals, r), Lookup(disk.home, r), Lookup(disk.backup, r);
    match phase
    case Untouched => home == original && backup == None
    case SetAside => original.Some? && home == None && backup == original
    case Replaced => home == Lookup(job.replacements, r) && backup == original
  }

  ghost predicate AtStop<T>(job: Job<T>, disk: Disk<T>, stop: Stop) {
    forall r :: InPhase(job, disk, r, PhaseOf(stop, r))
  }

  // ----------------------------------------------------------------- what a roll-back does

  /** Undoing the work on `r` meets no obstacle: what was published can be removed, and an
      original that was set aside can be put back, over a directory that is not removed first
      only if that one gives way. */
  predicate Undoable<T>(job: Job<T>, stop: Stop, r: Root) {
    var w, phase := job.weather, PhaseOf(stop, r);
    && (Noted(stop, r) ==> w.remove(r) == Removed)
    && (phase != Untouched && r in job.originals ==>
          && w.putBack(r) == Fine
          && (phase == Replaced && !Noted(stop, r) && r in job.replacements ==> w.givesWay(job.replacements[r])))
  }

  /** The roll-back after `stop` completes. */
  predicate Undone<T>(job: Job<T>, stop: Stop) {
    Undoable(job, stop, Data) && Undoable(job, stop, Xian)
  }

  /** The one way a completed roll-back leaves something new behind: interrupted right after
      a directory was put where there was none, before it is noted as published. */
  predicate Unnoticed<T>(job: Job<T>, stop: Stop) {
    stop.reached == Replaced && stop.root !in job.originals
  }

  /** What a completed roll-back leaves. */
  function Left<T>(job: Job<T>, stop: Stop): map<Root, T>
    requires stop.root in job.replacements
  {
    if Unnoticed(job, stop) then job.originals[stop.root := job.replacements[stop.root]] else job.originals
  }

  ghost predicate Settled<T>(disk: Disk<T>, left: map<Root, T>, r: Root) {
    Lookup(disk.home, r) == Lookup(left, r) && Lookup(disk.backup, r) == None
  }

  ghost predicate SafeAt<T>(originals: map<Root, T>, disk: Disk<T>, r: Root) {
    r in originals ==> Lookup(disk.home, r) == Some(originals[r]) || Lookup(disk.backup, r) == Some(originals[r])
  }

  /** Every original directory is in its place or in the backup. */
  ghost predicate Safe<T(!new)>(originals: map<Root, T>, disk: Disk<T>) {
    forall r :: SafeAt(originals, disk, r)
  }

  lemma {:induction false} AllSettled<T>(disk: Disk<T>, left: map<Root, T>)
    requires forall r :: Settled(disk, left, r)
    ensures disk == Disk(left, map[])
  {
    forall r ensures Lookup(disk.home, r) == Lookup(left, r) && Lookup(disk.backup, r) == None {
      assert Settled(disk, left, r);
    }
    LookupEqual(disk.home, left);
    LookupEqual(disk.backup, map[]);
  }

  /** A completed roll-back gives back exactly the originals, unless it was unnoticed. */
  lemma {:induction false} LeftExactly<T>(job: Job<T>, stop: Stop)
    requires stop.root in job.replacements
    ensures Left(job, stop) == job.originals <==> !Unnoticed(job, stop)
  {
    if Unnoticed(job, stop) {
      assert stop.root in Left(job, stop);
    }
  }

  /** When a rename fails, or an original is interrupted on its way to the backup, and the
      roll-back meets no further mishap, the originals are all back. */
  lemma {:induction false} FailedRenameUndone<T>(job: Job<T>, stop: Stop)
    requires FirstStop(job) == Some(stop) && stop.root in job.replacements
    requires job.weather.install(stop.root) != Interrupted
    requires forall r :: job.weather.remove(r) == Removed && job.weather.putBack(r) == Fine
    ensures Undone(job, stop) && Left(job, stop) == job.originals
  {
    assert StopAt(job, stop.root) == Some(stop);
    assert stop.reached != Replaced;
  }

  ghost predicate Smooth<T>(job: Job<T>, r: Root) {
    job.weather.install(r) == Fine && (r in job.originals ==> job.weather.setAside(r) == Fine)
  }

  /** Everything is published exactly when every directory goes into its place, and every one
      that was there goes aside first, without a mishap. */
  lemma {:induction false} PublishedExactly<T>(job: Job<T>)
    ensures FirstStop(job).None? <==> forall r :: Smooth(job, r)
  {
    assert Smooth(job, Data) <==> StopAt(job, Data).None?;
    assert Smooth(job, Xian) <==> StopAt(job, Xian).None?;
    if Smooth(job, Data) && Smooth(job, Xian) {
      forall r ensures Smooth(job, r) {
        assert r == Data || r == Xian;
      }
    }
  }

  /** How far the directory of the first mishap got: replaced if the interrupt came after the
      new one was in place, set aside if the mishap came between, untouched otherwise. */
  lemma {:induction false} StoppedExactly<T>(job: Job<T>, stop: Stop)
    requires FirstStop(job) == Some(stop)
    ensures
      var w, r := job.weather, stop.root;
      var aside := r in job.originals && w.setAside(r) != Raises;
      var stuck := r in job.originals && w.setAside(r) != Fine;
      && (stop.reached == Replaced <==> !stuck && w.install(r) == Interrupted)
      && (stop.reached == SetAside <==> aside && (stuck || w.install(r) == Raises))
      && (stuck || w.install(r) != Fine)
    ensures stop.root == Xian ==> StopAt(job, Data).None?
  {
  }

  /** The roll-back completes exactly when every directory published before the stop can be
      removed and its original put back, and so can the original of the last one if it was set
      aside, over a directory that was not noted only if that one gives way. */
  lemma {:induction false} RollbackCompletesExactly<T>(job: Job<T>, stop: Stop)
    requires forall r: Root :: r in job.replacements
    ensures Undone(job, stop) <==>
      && (stop.root == Xian ==> job.weather.remove(Data) == Removed)
      && (stop.root == Xian && Data in job.originals ==> job.weather.putBack(Data) == Fine)
      && (stop.reached != Untouched && stop.root in job.originals ==> job.weather.putBack(stop.root) == Fine)
      && (stop.reached == Replaced && stop.root in job.originals ==> job.weather.givesWay(job.replacements[stop.root]))
  {
    assert stop.root == Data || stop.root == Xian;
  }

  // ------------------------------------------------------------------ one directory at a time

  /** Nothing but `r` differs. */
  ghost predicate OnlyAt<T>(r: Root, m: map<Root, T>, m': map<Root, T>) {
    forall q :: q != r ==> Lookup(m, q) == Lookup(m', q)
  }

  /** The first `i` roots have been published without a mishap, the others not touched. */
  ghost predicate Midway<T>(job: Job<T>, disk: Disk<T>, staged: map<Root, T>, i: int) {
    && (forall r :: InPhase(job, disk, r, if Turn(r) < i then Replaced else Untouched))
    && (forall r :: Turn(r) < i ==> StopAt(job, r).None?)
    && (forall r :: i <= Turn(r) ==> Lookup(staged, r) == Lookup(job.replacements, r))
  }

  lemma {:induction false} MidwayAt<T>(job: Job<T>, disk: Disk<T>, staged: map<Root, T>, i: nat)
    requires Midway(job, disk, staged, i) && i < |ROOTS|
    ensures InPhase(job, disk, ROOTS[i], Untouched) && Lookup(staged, ROOTS[i]) == Lookup(job.replacements, ROOTS[i])
  {
    TurnOf(i);
    assert InPhase(job, disk, ROOTS[i], if Turn(ROOTS[i]) < i then Replaced else Untouched);
  }

  lemma {:induction false} OneFurther<T>(
      job: Job<T>, disk: Disk<T>, staged: map<Root, T>, i: nat, disk': Disk<T>, staged': map<Root, T>, reached: Phase)
    requires Midway(job, disk, staged, i) && i < |ROOTS|
    requires OnlyAt(ROOTS[i], disk.home, disk'.home) && OnlyAt(ROOTS[i], disk.backup, disk'.backup)
    requires OnlyAt(ROOTS[i], staged, staged') && InPhase(job, disk', ROOTS[i], reached)
    ensures StopAt(job, ROOTS[i]).None? && reached == Replaced ==> Midway(job, disk', staged', i + 1)
    ensures StopAt(job, ROOTS[i]) == Some(Stop(ROOTS[i], reached)) ==>
      AtStop(job, disk', Stop(ROOTS[i], reached)) && FirstStop(job) == Some(Stop(ROOTS[i], reached))
  {
    TurnOf(i);
    forall q | q != ROOTS[i] ensures InPhase(job, disk', q, if Turn(q) < i then Replaced else Untouched) {
      assert InPhase(job, disk, q, if Turn(q) < i then Replaced else Untouched);
    }
    assert Turn(Data) < i || ROOTS[i] == Data;
  }

  lemma {:induction false} Completed<T>(job: Job<T>, disk: Disk<T>, staged: map<Root, T>)
    requires Midway(job, disk, staged, |ROOTS|)
    ensures disk == Disk(job.replacements, job.originals) && FirstStop(job).None?
  {
    forall r
      ensures Lookup(disk.home, r) == Lookup(job.replacements, r) && Lookup(disk.backup, r) == Lookup(job.originals, r)
    {
      assert InPhase(job, disk, r, if Turn(r) < |ROOTS| then Replaced else Untouched);
    }
    LookupEqual(disk.home, job.replacements);
    LookupEqual(disk.backup, job.originals);
    assert Turn(Data) < |ROOTS| && Turn(Xian) < |ROOTS|;
  }

  class Directories<T(==,!new)> {
    const weather: Weather<T>
    var home: map<Root, T>
    var staged: map<Root, T>
    var backup: map<Root, T>

    constructor (weather: Weather<T>, home: map<Root, T>)
      ensures this.weather == weather && this.home == home && staged == map[] && backup == map[]
    {
      this.weather, this.home, staged, backup := weather, home, map[], map[];
    }

    ghost function Now(): Disk<T>
      reads this
    {
      Disk(home, backup)
    }

    method UndoOne(r: Root, noted: bool, ghost job: Job<T>, ghost stop: Stop) returns (ok: bool)
      requires job.weather == weather && noted == Noted(stop, r) && stop.root in job.replacements
      requires InPhase(job, Now(), r, PhaseOf(stop, r))
      modifies this`home, this`backup
      ensures ok <==> Undoable(job, stop, r)
      ensures if ok then Settled(Now(), Left(job, stop), r) else SafeAt(job.originals, Now(), r)
      ensures OnlyAt(r, old(home), home) && OnlyAt(r, old(backup), backup)
    {
      if noted {
        var removal := weather.remove(r);
        home := home - {r};
        if removal.Stuck? {
          if removal.debris.Some? {
            home := home[r := removal.debris.value];
          }
          return false;
        }
      }
      if r in backup {
        if weather.putBack(r) == Raises || (r in home && !weather.givesWay(home[r])) {
          return false;
        }
        home, backup := home[r := backup[r]], backup - {r};
        return weather.putBack(r) != Interrupted;
      }
      return true;
    }

    /** Undoes a publication that stopped.  It completes exactly when nothing on its way
        raises; otherwise every original is still in place or in the backup. */
    method Rollback(published: set<Root>, ghost job: Job<T>, ghost stop: Stop) returns (ok: bool)
      requires job.weather == weather && stop.root in job.replacements && AtStop(job, Now(), stop)
      requires forall r :: r in published <==> Noted(stop, r)
      modifies this`home, this`backup
      ensures ok <==> Undone(job, stop)
      ensures if ok then Now() == Disk(Left(job, stop), map[]) else Safe(job.originals, Now())
    {
      var i := |ROOTS|;
      while i > 0
        invariant 0 <= i <= |ROOTS|
        invariant forall r :: i <= Turn(r) ==> Settled(Now(), Left(job, stop), r) && Undoable(job, stop, r)
        invariant forall r :: Turn(r) < i ==> InPhase(job, Now(), r, PhaseOf(stop, r))
      {
        i := i - 1;
        var r := ROOTS[i];
        TurnOf(i);
        ok := UndoOne(r, r in published, job, stop);
        if !ok {
          forall q ensures SafeAt(job.originals, Now(), q) {
            assert Turn(q) < i || i < Turn(q) || q == r;
          }
          return;
        }
      }
      assert Turn(Data) >= 0 && Turn(Xian) >= 0;
      AllSettled(Now(), Left(job, stop));
      return true;
    }

    /** Replaces one directory; tells how far it got. */
    method PublishOne(r: Root, ghost job: Job<T>) returns (failed: bool, ghost reached: Phase)
      requires job.weather == weather && InPhase(job, Now(), r, Untouched)
      requires r in staged && Lookup(staged, r) == Lookup(job.replacements, r)
      modifies this
      ensures StopAt(job, r) == if failed then Some(Stop(r, reached)) else None
      ensures InPhase(job, Now(), r, reached) && (!failed ==> reached == Replaced)
      ensures OnlyAt(r, old(home), home) && OnlyAt(r, old(backup), backup) && OnlyAt(r, old(staged), staged)
    {
      reached := Untouched;
      if r in home {
        if weather.setAside(r) != Raises {
          backup, home, reached := backup[r := home[r]], home - {r}, SetAside;
        }
        if weather.setAside(r) != Fine {
          return true, reached;
        }
      }
      if weather.install(r) != Raises {
        home, staged, reached := home[r := staged[r]], staged - {r}, Replaced;
      }
      return weather.install(r) != Fine, reached;
    }

    /** Moves every original to the backup and every staged directory into its place, or
        undoes what was done so far.  The outcome is determined by where the first mishap is
        and whether undoing meets another. */
    method Publish() returns (outcome: Outcome)
      requires backup == map[] && forall r: Root :: r in staged
      modifies this
      ensures
        var job := Job(weather, old(home), old(staged));
        var stop := FirstStop(job);
        && (outcome == Published <==> stop.None?)
        && (outcome == RolledBack <==> stop.Some? && Undone(job, stop.value))
        && (outcome == Published ==> Now() == Disk(job.replacements, job.originals))
        && (outcome == RolledBack ==> Now() == Disk(Left(job, stop.value), map[]))
        && (outcome == RollbackFailed ==> Safe(job.originals, Now()))
    {
      ghost var job := Job(weather, home, staged);
      var published: set<Root> := {};
      var i := 0;
      while i < |ROOTS|
        invariant 0 <= i <= |ROOTS|
        invariant Midway(job, Now(), staged, i)
        invariant forall r :: r in published <==> Turn(r) < i
      {
        var r := ROOTS[i];
        ghost var disk, before := Now(), staged;
        TurnOf(i);
        MidwayAt(job, disk, staged, i);
        assert r in job.replacements;
        var failed, reached := PublishOne(r, job);
        OneFurther(job, disk, before, i, Now(), staged, reached);
        if failed {
          var ok := Rollback(published, job, Stop(r, reached));
          return if ok then RolledBack else RollbackFailed;
        }
        published, i := published + {r}, i + 1;
      }
      Completed(job, Now(), staged);
      return Published;
    }
  }

  /** A node without application directories, interrupted right after the new data directory
      is in place: the roll-back completes and leaves it there. */
  method InterruptedInstall<T(==,!new)>(d: Directories<T>) returns (outcome: Outcome)
    requires d.home == map[] && d.backup == map[] && (forall r: Root :: r in d.staged)
    requires d.weather.install(Data) == Interrupted
    modifies d
    ensures outcome == RolledBack && d.backup == map[]
    ensures d.home == map[Data := old(d.staged)[Data]] != old(d.home)
  {
    ghost var job := Job(d.weather, d.home, d.staged);
    assert FirstStop(job) == Some(Stop(Data, Replaced));
    assert Undone(job, Stop(Data, Replaced));
    outcome := d.Publish();
    assert Data in d.home;
  }
}
