/** Restoring an application archive: which of its members are taken, how they are laid
    out, and how the node's own identity files stay. */
module SnapshotRestore {
  import opened Basics
  import opened Publication

  datatype Kind<C> = File(content: C) | Dir | Other

  /** Where an archive member's name points: nowhere allowed, outside the application
      directories, or into one. */
  datatype Place<P> = Invalid | Elsewhere | Inside(path: P)

  datatype Member<P, C> = Member(place: Place<P>, kind: Kind<C>)

  /** Paths below the application directories: the directory they belong to, whether they
      are that directory itself, the directory they are in, the key that paths share when they differ only in case or
      Unicode form, and whether one is the other or one of its parents. */
  datatype Naming<!P> = Naming(root: P -> Root, top: P -> bool, parent: P -> P, key: P -> P, leads: (P, P) -> bool)

  ghost predicate Lawful<P(!new)>(n: Naming<P>) {
    forall a, b :: LawAt(n, a, b)
  }

  ghost predicate LawAt<P(!new)>(n: Naming<P>, a: P, b: P) {
    && n.leads(a, a)
    && (n.leads(a, b) ==> n.leads(n.key(a), n.key(b)) && (a != b ==> n.key(a) != n.key(b)))
    && (!n.top(b) ==> (n.leads(a, n.parent(b)) <==> n.leads(a, b) && a != b))
  }

  /** The paths of the local identity files, and what they look like as keys. */
  function Keys<P(==)>(n: Naming<P>, protected: set<P>): set<P> {
    set p | p in protected :: n.key(p)
  }

  // ----------------------------------------------------------------- which members are taken

  datatype Verdict = Raise | Skip | Take

  /** Identity files are passed over; a member that would be below one, or in the way of
      one, is refused. */
  function Judge<P(==), C>(n: Naming<P>, keys: set<P>, m: Member<P, C>): Verdict {
    if m.place.Invalid? || m.kind.Other? then Raise
    else if m.place.Elsewhere? then Skip
    else if n.top(m.place.path) && !m.kind.Dir? then Raise
    else
      var key := n.key(m.place.path);
      if key in keys then (if m.kind.Dir? then Raise else Skip)
      else if exists local :: local in keys && (n.leads(local, key) || (n.leads(key, local) && !m.kind.Dir?)) then Raise
      else Take
  }

  /** A member is refused exactly when its name is not allowed, it is neither file nor
      directory, it is a file in the place of an application directory, a directory in the
      place of an identity file, below one, or a file on the way to one. */
  lemma {:induction false} RefusedExactly<P(!new), C>(n: Naming<P>, protected: set<P>, m: Member<P, C>)
    ensures Judge(n, Keys(n, protected), m) == Raise <==>
      || m.place.Invalid? || m.kind.Other?
      || (m.place.Inside? && !m.kind.Dir? && n.top(m.place.path))
      || (m.place.Inside? && m.kind.Dir? && exists p :: p in protected && n.key(p) == n.key(m.place.path))
      || (m.place.Inside? && (forall p :: p in protected ==> n.key(p) != n.key(m.place.path))
          && exists p :: p in protected && (n.leads(n.key(p), n.key(m.place.path))
               || (n.leads(n.key(m.place.path), n.key(p)) && !m.kind.Dir?)))
  {
    forall k ensures k in Keys(n, protected) <==> exists p :: p in protected && n.key(p) == k {
    }
    if m.place.Inside? {
      var key := n.key(m.place.path);
      if local :| local in Keys(n, protected) && (n.leads(local, key) || (n.leads(key, local) && !m.kind.Dir?)) {
        var p :| p in protected && n.key(p) == local;
      }
      if p :| p in protected && (n.leads(n.key(p), key) || (n.leads(key, n.key(p)) && !m.kind.Dir?)) {
        assert n.key(p) in Keys(n, protected);
      }
    }
  }

  /** And it is passed over exactly when it lies elsewhere or is a file in the place of an
      identity file, in whatever spelling. */
  lemma {:induction false} PassedOverExactly<P(!new), C>(n: Naming<P>, protected: set<P>, m: Member<P, C>)
    requires Judge(n, Keys(n, protected), m) != Raise
    ensures Judge(n, Keys(n, protected), m) == Skip <==>
      m.place.Elsewhere? || (m.place.Inside? && exists p :: p in protected && n.key(p) == n.key(m.place.path))
  {
  }

  predicate Taken<P(==), C>(n: Naming<P>, keys: set<P>, m: Member<P, C>) {
    m.place.Inside? && Judge(n, keys, m) == Take
  }

  /** Two members for one key, not both of them directories. */
  predicate Clash<P(==), C>(n: Naming<P>, a: Member<P, C>, b: Member<P, C>)
    requires a.place.Inside? && b.place.Inside?
  {
    n.key(a.place.path) == n.key(b.place.path) && !(a.kind.Dir? && b.kind.Dir?)
  }

  ghost predicate AllSound<P, C>(n: Naming<P>, keys: set<P>, ms: seq<Member<P, C>>) {
    && (forall i :: 0 <= i < |ms| ==> Judge(n, keys, ms[i]) != Raise)
    && (forall i, j :: 0 <= i < j < |ms| && Taken(n, keys, ms[i]) && Taken(n, keys, ms[j]) ==> !Clash(n, ms[i], ms[j]))
  }

  ghost predicate HasFile<P, C>(n: Naming<P>, keys: set<P>, ms: seq<Member<P, C>>) {
    exists i :: 0 <= i < |ms| && Taken(n, keys, ms[i]) && ms[i].kind.File?
  }

  ghost predicate KeyMet<P(!new), C(!new)>(n: Naming<P>, selected: seq<Member<P, C>>, k: P) {
    exists m :: m in selected && m.place.Inside? && n.key(m.place.path) == k
  }

  /** The members that are taken, each key as it occurs first. */
  ghost function Picked<P(!new), C(!new)>(n: Naming<P>, keys: set<P>, ms: seq<Member<P, C>>): seq<Member<P, C>> {
    if ms == [] then [] else
      var before, last := Picked(n, keys, ms[..|ms| - 1]), ms[|ms| - 1];
      if Taken(n, keys, last) && !KeyMet(n, before, n.key(last.place.path)) then before + [last] else before
  }

  lemma {:induction false} PickedMore<P(!new), C(!new)>(
      n: Naming<P>, keys: set<P>, ms: seq<Member<P, C>>, i: nat,
      selected: seq<Member<P, C>>, seen: map<P, Member<P, C>>)
    requires i < |ms| && selected == Picked(n, keys, ms[..i]) && Seen(n, selected, seen)
    ensures Picked(n, keys, ms[..i + 1]) ==
      if Taken(n, keys, ms[i]) && n.key(ms[i].place.path) !in seen then selected + [ms[i]] else selected
  {
    assert ms[..i + 1][..i] == ms[..i];
    if Taken(n, keys, ms[i]) && n.key(ms[i].place.path) in seen {
      assert seen[n.key(ms[i].place.path)] in selected;
    }
  }

  /** `selected` are the taken members, each key once. */
  ghost predicate Selection<P(!new), C(!new)>(
      n: Naming<P>, keys: set<P>, ms: seq<Member<P, C>>, selected: seq<Member<P, C>>) {
    && (forall i :: 0 <= i < |selected| ==> selected[i] in ms && Taken(n, keys, selected[i]))
    && (forall i, j :: 0 <= i < j < |selected| ==> n.key(selected[i].place.path) != n.key(selected[j].place.path))
    && (forall m :: m in ms && Taken(n, keys, m) && m.kind.File? ==> m in selected)
  }

  /** For every key met so far, the member that stood for it first. */
  ghost predicate Seen<P(!new), C(!new)>(n: Naming<P>, selected: seq<Member<P, C>>, seen: map<P, Member<P, C>>) {
    && (forall k :: k in seen ==> seen[k] in selected && seen[k].place.Inside? && n.key(seen[k].place.path) == k)
    && (forall m :: m in selected && m.place.Inside? ==> n.key(m.place.path) in seen && seen[n.key(m.place.path)] == m)
  }

  /** The member is a directory, and so is the one that stands for its key. */
  ghost predicate SameDir<P(!new), C(!new)>(n: Naming<P>, seen: map<P, Member<P, C>>, m: Member<P, C>)
    requires m.place.Inside?
  {
    n.key(m.place.path) in seen && m.kind.Dir? && seen[n.key(m.place.path)].kind.Dir?
  }

  ghost predicate Covered<P(!new), C(!new)>(
      n: Naming<P>, keys: set<P>, ms: seq<Member<P, C>>, seen: map<P, Member<P, C>>) {
    forall m :: m in ms && Taken(n, keys, m) ==>
      n.key(m.place.path) in seen && (m == seen[n.key(m.place.path)] || SameDir(n, seen, m))
  }

  /** The loop has come to member `i`. */
  ghost predicate Ready<P(!new), C(!new)>(
      n: Naming<P>, keys: set<P>, ms: seq<Member<P, C>>, i: nat,
      selected: seq<Member<P, C>>, seen: map<P, Member<P, C>>, files: bool)
    requires i <= |ms|
  {
    && AllSound(n, keys, ms[..i])
    && Selection(n, keys, ms[..i], selected) && Seen(n, selected, seen) && Covered(n, keys, ms[..i], seen)
    && selected == Picked(n, keys, ms[..i])
    && (files <==> HasFile(n, keys, ms[..i]))
  }

  lemma {:induction false} ReadyTake<P(!new), C(!new)>(
      n: Naming<P>, keys: set<P>, ms: seq<Member<P, C>>, i: nat,
      selected: seq<Member<P, C>>, seen: map<P, Member<P, C>>, files: bool)
    requires i < |ms| && Ready(n, keys, ms, i, selected, seen, files)
    requires Taken(n, keys, ms[i]) && n.key(ms[i].place.path) !in seen
    ensures
      var more := seen[n.key(ms[i].place.path) := ms[i]];
      Ready(n, keys, ms, i + 1, selected + [ms[i]], more, files || ms[i].kind.File?)
  {
    FileMore(n, keys, ms, i);
    PickedMore(n, keys, ms, i, selected, seen);
    TakeOver(n, keys, ms, i, selected, seen);
    SoundMore(n, keys, ms, i, seen);
  }

  lemma {:induction false} ReadyPass<P(!new), C(!new)>(
      n: Naming<P>, keys: set<P>, ms: seq<Member<P, C>>, i: nat,
      selected: seq<Member<P, C>>, seen: map<P, Member<P, C>>, files: bool)
    requires i < |ms| && Ready(n, keys, ms, i, selected, seen, files) && Judge(n, keys, ms[i]) != Raise
    requires Taken(n, keys, ms[i]) ==> SameDir(n, seen, ms[i])
    ensures Ready(n, keys, ms, i + 1, selected, seen, files)
  {
    FileMore(n, keys, ms, i);
    PickedMore(n, keys, ms, i, selected, seen);
    PassOver(n, keys, ms, i, selected, seen);
    SoundMore(n, keys, ms, i, seen);
  }

  /** What the loop makes of the members from `i` on. */
  function Scan<P(==), C(==)>(
      n: Naming<P>, keys: set<P>, ms: seq<Member<P, C>>, i: nat,
      selected: seq<Member<P, C>>, seen: map<P, Member<P, C>>, files: bool): Option<seq<Member<P, C>>>
    requires i <= |ms|
    decreases |ms| - i
  {
    if i == |ms| then (if files then Some(selected) else None)
    else if Judge(n, keys, ms[i]) == Raise then None
    else if !Taken(n, keys, ms[i]) then Scan(n, keys, ms, i + 1, selected, seen, files)
    else
      var m, key := ms[i], n.key(ms[i].place.path);
      if key !in seen then Scan(n, keys, ms, i + 1, selected + [m], seen[key := m], files || m.kind.File?)
      else if m.kind.Dir? && seen[key].kind.Dir? then Scan(n, keys, ms, i + 1, selected, seen, files)
      else None
  }

  lemma {:induction false} RaiseFound<P(!new), C(!new)>(n: Naming<P>, keys: set<P>, ms: seq<Member<P, C>>, i: nat)
    requires i < |ms| && Judge(n, keys, ms[i]) == Raise
    ensures !AllSound(n, keys, ms)
  {
  }

  lemma {:induction false} ScanExact<P(!new), C(!new)>(
      n: Naming<P>, keys: set<P>, ms: seq<Member<P, C>>, i: nat,
      selected: seq<Member<P, C>>, seen: map<P, Member<P, C>>, files: bool)
    requires i <= |ms| && Ready(n, keys, ms, i, selected, seen, files)
    ensures
      var r := Scan(n, keys, ms, i, selected, seen, files);
      && (r.Some? <==> AllSound(n, keys, ms) && HasFile(n, keys, ms))
      && (r.Some? ==> r.value == Picked(n, keys, ms) && Selection(n, keys, ms, r.value))
    decreases |ms| - i
  {
    if i == |ms| {
      assert ms[..i] == ms;
    } else if Judge(n, keys, ms[i]) == Raise {
      RaiseFound(n, keys, ms, i);
    } else if !Taken(n, keys, ms[i]) {
      ReadyPass(n, keys, ms, i, selected, seen, files);
      ScanExact(n, keys, ms, i + 1, selected, seen, files);
    } else {
      var m, key := ms[i], n.key(ms[i].place.path);
      if key !in seen {
        ReadyTake(n, keys, ms, i, selected, seen, files);
        ScanExact(n, keys, ms, i + 1, selected + [m], seen[key := m], files || m.kind.File?);
      } else if m.kind.Dir? && seen[key].kind.Dir? {
        ReadyPass(n, keys, ms, i, selected, seen, files);
        ScanExact(n, keys, ms, i + 1, selected, seen, files);
      } else {
        ClashFound(n, keys, ms, i, selected, seen);
      }
    }
  }

  /** Raises (`None`) exactly when some member is refused, two clash, or no file is taken. */
  method ApplicationMembers<P(==,!new), C(==,!new)>(
      n: Naming<P>, protected: set<P>, ms: seq<Member<P, C>>) returns (r: Option<seq<Member<P, C>>>)
    ensures
      var keys := Keys(n, protected);
      r.Some? <==> AllSound(n, keys, ms) && HasFile(n, keys, ms)
    ensures r.Some? ==> r.value == Picked(n, Keys(n, protected), ms) && Selection(n, Keys(n, protected), ms, r.value)
  {
    ScanExact(n, Keys(n, protected), ms, 0, [], map[], false);
    r := ScanMembers(n, Keys(n, protected), ms);
  }

  method ScanMembers<P(==,!new), C(==,!new)>(
      n: Naming<P>, keys: set<P>, ms: seq<Member<P, C>>) returns (r: Option<seq<Member<P, C>>>)
    ensures r == Scan(n, keys, ms, 0, [], map[], false)
  {
    var selected: seq<Member<P, C>>, seen: map<P, Member<P, C>>, files := [], map[], false;
    var i := 0;
    while i < |ms|
      invariant 0 <= i <= |ms|
      invariant Scan(n, keys, ms, i, selected, seen, files) == Scan(n, keys, ms, 0, [], map[], false)
    {
      var m := ms[i];
      var verdict := Judge(n, keys, m);
      if verdict == Raise {
        return None;
      }
      if verdict == Take {
        var key := n.key(m.place.path);
        if key !in seen {
          seen, selected, files := seen[key := m], selected + [m], files || m.kind.File?;
        } else if !(m.kind.Dir? && seen[key].kind.Dir?) {
          return None;
        }
      }
      i := i + 1;
    }
    return if files then Some(selected) else None;
  }

  lemma {:induction false} ClashFound<P(!new), C(!new)>(
      n: Naming<P>, keys: set<P>, ms: seq<Member<P, C>>, i: nat, selected: seq<Member<P, C>>,
      seen: map<P, Member<P, C>>)
    requires i < |ms| && Selection(n, keys, ms[..i], selected) && Seen(n, selected, seen)
    requires Taken(n, keys, ms[i]) && n.key(ms[i].place.path) in seen
    requires !(ms[i].kind.Dir? && seen[n.key(ms[i].place.path)].kind.Dir?)
    ensures !AllSound(n, keys, ms)
  {
    var first := seen[n.key(ms[i].place.path)];
    assert first in ms[..i];
    var j :| 0 <= j < i && ms[j] == first;
    assert Taken(n, keys, ms[j]) && Clash(n, ms[j], ms[i]);
  }

  lemma {:induction false} FileMore<P(!new), C(!new)>(n: Naming<P>, keys: set<P>, ms: seq<Member<P, C>>, i: nat)
    requires i < |ms|
    ensures HasFile(n, keys, ms[..i + 1]) <==> HasFile(n, keys, ms[..i]) || (Taken(n, keys, ms[i]) && ms[i].kind.File?)
  {
    var shorter, longer := ms[..i], ms[..i + 1];
    if j :| 0 <= j < i && Taken(n, keys, shorter[j]) && shorter[j].kind.File? {
      assert longer[j] == shorter[j];
    }
    if j :| 0 <= j < |longer| && Taken(n, keys, longer[j]) && longer[j].kind.File? {
      assert j < i ==> shorter[j] == longer[j];
    }
    assert longer[i] == ms[i];
  }

  lemma {:induction false} SoundMore<P(!new), C(!new)>(
      n: Naming<P>, keys: set<P>, ms: seq<Member<P, C>>, i: nat, seen: map<P, Member<P, C>>)
    requires i < |ms| && AllSound(n, keys, ms[..i]) && Judge(n, keys, ms[i]) != Raise && Covered(n, keys, ms[..i], seen)
    requires Taken(n, keys, ms[i]) && n.key(ms[i].place.path) in seen ==> SameDir(n, seen, ms[i])
    ensures AllSound(n, keys, ms[..i + 1])
  {
    forall a, b | 0 <= a < b < i + 1 && Taken(n, keys, ms[a]) && Taken(n, keys, ms[b]) ensures !Clash(n, ms[a], ms[b]) {
      if b < i {
        assert Taken(n, keys, ms[..i][a]) && Taken(n, keys, ms[..i][b]);
      } else {
        assert ms[a] in ms[..i];
      }
    }
  }

  /** The next member is passed over, or is a directory met before. */
  lemma {:induction false} PassOver<P(!new), C(!new)>(
      n: Naming<P>, keys: set<P>, ms: seq<Member<P, C>>, i: nat, selected: seq<Member<P, C>>,
      seen: map<P, Member<P, C>>)
    requires i < |ms| && Selection(n, keys, ms[..i], selected) && Covered(n, keys, ms[..i], seen)
    requires Taken(n, keys, ms[i]) ==> SameDir(n, seen, ms[i])
    ensures Selection(n, keys, ms[..i + 1], selected) && Covered(n, keys, ms[..i + 1], seen)
  {
    assert ms[..i + 1] == ms[..i] + [ms[i]];
  }

  lemma {:induction false} TakeOver<P(!new), C(!new)>(
      n: Naming<P>, keys: set<P>, ms: seq<Member<P, C>>, i: nat, selected: seq<Member<P, C>>,
      seen: map<P, Member<P, C>>)
    requires i < |ms| && Selection(n, keys, ms[..i], selected)
    requires Seen(n, selected, seen) && Covered(n, keys, ms[..i], seen)
    requires Taken(n, keys, ms[i]) && n.key(ms[i].place.path) !in seen
    ensures
      var longer, more := selected + [ms[i]], seen[n.key(ms[i].place.path) := ms[i]];
      Selection(n, keys, ms[..i + 1], longer) && Seen(n, longer, more) && Covered(n, keys, ms[..i + 1], more)
  {
    assert ms[..i + 1] == ms[..i] + [ms[i]];
  }

  // ------------------------------------------------------------------------- laying them out

  type Files<P(==), C> = map<P, C>

  /** The directory a member needs to exist. */
  function Base<P, C>(n: Naming<P>, m: Member<P, C>): P
    requires m.place.Inside?
  {
    if m.kind.File? then n.parent(m.place.path) else m.place.path
  }

  ghost predicate AllTaken<P, C>(n: Naming<P>, keys: set<P>, selected: seq<Member<P, C>>) {
    && (forall i :: 0 <= i < |selected| ==> Taken(n, keys, selected[i]))
    && (forall i, j :: 0 <= i < j < |selected| ==> n.key(selected[i].place.path) != n.key(selected[j].place.path))
  }

  ghost predicate InTheWay<P, C>(n: Naming<P>, a: Member<P, C>, b: Member<P, C>) {
    a.place.Inside? && b.place.Inside? && a.kind.File? && n.leads(a.place.path, b.place.path)
  }

  /** No file has to be a directory for another member. */
  ghost predicate Layable<P, C>(n: Naming<P>, selected: seq<Member<P, C>>) {
    forall i, j :: 0 <= i < |selected| && 0 <= j < |selected| && i != j ==> !InTheWay(n, selected[i], selected[j])
  }

  /** What is on disk holds exactly the members' files, and the directories they need. */
  ghost predicate Laid<P(!new), C(!new)>(n: Naming<P>, selected: seq<Member<P, C>>, files: Files<P, C>, dirs: set<P>) {
    LaidFiles(selected, files) && LaidDirs(n, selected, dirs)
  }

  ghost predicate LaidFiles<P(!new), C(!new)>(selected: seq<Member<P, C>>, files: Files<P, C>) {
    && (forall i :: 0 <= i < |selected| && selected[i].kind.File? ==>
          && selected[i].place.Inside? && selected[i].place.path in files
          && files[selected[i].place.path] == selected[i].kind.content)
    && (forall p :: p in files ==> FileOf(selected, p, files[p]))
  }

  ghost predicate LaidDirs<P(!new), C(!new)>(n: Naming<P>, selected: seq<Member<P, C>>, dirs: set<P>) {
    && (forall i :: 0 <= i < |selected| ==> selected[i].place.Inside? && Base(n, selected[i]) in dirs)
    && (forall d :: d in dirs ==> BaseOf(n, selected, d))
  }

  ghost predicate FileOf<P(!new), C(!new)>(selected: seq<Member<P, C>>, p: P, c: C) {
    exists i :: 0 <= i < |selected| && selected[i] == Member(Inside(p), File(c))
  }

  ghost predicate BaseOf<P(!new), C(!new)>(n: Naming<P>, selected: seq<Member<P, C>>, d: P) {
    exists i :: 0 <= i < |selected| && selected[i].place.Inside? && Base(n, selected[i]) == d
  }

  /** Whether creating the directory `d`, or a file at `p`, meets something else there. */
  predicate DirBlocked<P(==), C>(n: Naming<P>, files: Files<P, C>, d: P) {
    exists f :: f in files && n.leads(f, d)
  }

  predicate FileBlocked<P(==), C>(n: Naming<P>, files: Files<P, C>, dirs: set<P>, p: P) {
    p in files || exists d :: d in dirs && n.leads(p, d)
  }

  predicate Blocked<P(==), C>(n: Naming<P>, files: Files<P, C>, dirs: set<P>, m: Member<P, C>)
    requires m.place.Inside?
  {
    DirBlocked(n, files, Base(n, m)) || (m.kind.File? && FileBlocked(n, files, dirs + {Base(n, m)}, m.place.path))
  }

  /** One of the two would have to be a file and a directory. */
  ghost predicate Obstructs<P, C>(n: Naming<P>, a: Member<P, C>, b: Member<P, C>) {
    InTheWay(n, a, b) || InTheWay(n, b, a)
  }

  ghost predicate Obstructed<P, C>(n: Naming<P>, selected: seq<Member<P, C>>, i: nat)
    requires i < |selected|
  {
    exists j :: 0 <= j < i && Obstructs(n, selected[j], selected[i])
  }

  lemma {:induction false} BlockedByFile<P(!new), C(!new)>(
      n: Naming<P>, keys: set<P>, selected: seq<Member<P, C>>, i: nat, files: Files<P, C>, dirs: set<P>, f: P)
    requires Lawful(n) && AllTaken(n, keys, selected) && i < |selected| && Laid(n, selected[..i], files, dirs)
    requires f in files && n.leads(f, selected[i].place.path)
    ensures Obstructed(n, selected, i)
  {
    assert FileOf(selected[..i], f, files[f]);
    var j :| 0 <= j < i && selected[..i][j] == Member(Inside(f), File(files[f]));
    assert Taken(n, keys, selected[i]) && InTheWay(n, selected[j], selected[i]);
  }

  lemma {:induction false} BlockedByDir<P(!new), C(!new)>(
      n: Naming<P>, keys: set<P>, selected: seq<Member<P, C>>, i: nat, files: Files<P, C>, dirs: set<P>, d: P)
    requires Lawful(n) && AllTaken(n, keys, selected) && i < |selected| && Laid(n, selected[..i], files, dirs)
    requires d in dirs && selected[i].kind.File? && n.leads(selected[i].place.path, d)
    ensures Obstructed(n, selected, i)
  {
    assert BaseOf(n, selected[..i], d);
    var j :| 0 <= j < i && selected[..i][j].place.Inside? && Base(n, selected[..i][j]) == d;
    assert Taken(n, keys, selected[i]) && Taken(n, keys, selected[j]);
    assert LawAt(n, selected[i].place.path, selected[j].place.path);
    assert InTheWay(n, selected[i], selected[j]);
  }

  lemma {:induction false} BlockedMeansObstructed<P(!new), C(!new)>(
      n: Naming<P>, keys: set<P>, selected: seq<Member<P, C>>, i: nat, files: Files<P, C>, dirs: set<P>)
    requires Lawful(n) && AllTaken(n, keys, selected) && i < |selected| && Laid(n, selected[..i], files, dirs)
    requires selected[i].place.Inside? && Blocked(n, files, dirs, selected[i])
    ensures Obstructed(n, selected, i)
  {
    var m := selected[i];
    assert Taken(n, keys, m);
    var p, base := m.place.path, Base(n, m);
    if DirBlocked(n, files, base) {
      var f :| f in files && n.leads(f, base);
      assert LawAt(n, f, p);
      BlockedByFile(n, keys, selected, i, files, dirs, f);
    } else if p in files {
      assert LawAt(n, p, p);
      BlockedByFile(n, keys, selected, i, files, dirs, p);
    } else {
      var d :| d in dirs + {base} && n.leads(p, d);
      assert LawAt(n, p, p);
      BlockedByDir(n, keys, selected, i, files, dirs, d);
    }
  }

  lemma {:induction false} ObstructedMeansBlocked<P(!new), C(!new)>(
      n: Naming<P>, keys: set<P>, selected: seq<Member<P, C>>, i: nat, j: nat, files: Files<P, C>, dirs: set<P>)
    requires Lawful(n) && AllTaken(n, keys, selected) && j < i < |selected| && Laid(n, selected[..i], files, dirs)
    requires Obstructs(n, selected[j], selected[i])
    ensures selected[i].place.Inside? && Blocked(n, files, dirs, selected[i])
  {
    var m, other := selected[i], selected[j];
    assert Taken(n, keys, m) && Taken(n, keys, other) && selected[..i][j] == other;
    var p, q := m.place.path, other.place.path;
    assert n.key(q) != n.key(p);
    assert LawAt(n, p, q) && LawAt(n, q, p);
    if InTheWay(n, other, m) {
      assert q in files && n.leads(q, Base(n, m));
    } else {
      assert Base(n, other) in dirs && n.leads(p, Base(n, other));
    }
  }

  lemma {:induction false} LayableMore<P, C>(n: Naming<P>, selected: seq<Member<P, C>>, i: nat)
    requires i < |selected| && Layable(n, selected[..i])
    ensures Obstructed(n, selected, i) ==> !Layable(n, selected)
    ensures !Obstructed(n, selected, i) ==> Layable(n, selected[..i + 1])
  {
    var longer := selected[..i + 1];
    if !Obstructed(n, selected, i) {
      forall a, b | 0 <= a < |longer| && 0 <= b < |longer| && a != b ensures !InTheWay(n, longer[a], longer[b]) {
        if a < i && b < i {
          assert !InTheWay(n, selected[..i][a], selected[..i][b]);
        } else {
          assert !Obstructs(n, selected[if a < i then a else b], selected[i]);
        }
      }
    }
  }

  lemma {:induction false} FilesMore<P(!new), C(!new)>(
      n: Naming<P>, keys: set<P>, selected: seq<Member<P, C>>, i: nat, files: Files<P, C>, files': Files<P, C>)
    requires AllTaken(n, keys, selected) && i < |selected|
    requires LaidFiles(selected[..i], files) && selected[i].place.Inside?
    requires
      var m := selected[i];
      files' == if m.kind.File? then files[m.place.path := m.kind.content] else files
    ensures LaidFiles(selected[..i + 1], files')
  {
    var m, shorter, longer := selected[i], selected[..i], selected[..i + 1];
    forall j | 0 <= j < i
      ensures longer[j] == shorter[j] && Taken(n, keys, longer[j]) && longer[j].place.path != m.place.path
    {
      assert n.key(selected[j].place.path) != n.key(m.place.path);
    }
    forall p | p in files' ensures FileOf(longer, p, files'[p]) {
      if m.kind.File? && p == m.place.path {
        assert longer[i] == Member(Inside(p), File(files'[p]));
      } else {
        assert FileOf(shorter, p, files[p]);
        var j :| 0 <= j < |shorter| && shorter[j] == Member(Inside(p), File(files[p]));
        assert longer[j] == shorter[j];
      }
    }
  }

  lemma {:induction false} DirsMore<P(!new), C(!new)>(n: Naming<P>, selected: seq<Member<P, C>>, i: nat, dirs: set<P>)
    requires i < |selected| && LaidDirs(n, selected[..i], dirs) && selected[i].place.Inside?
    ensures LaidDirs(n, selected[..i + 1], dirs + {Base(n, selected[i])})
  {
    var shorter, longer := selected[..i], selected[..i + 1];
    assert longer[i] == selected[i];
    forall d | d in dirs + {Base(n, selected[i])} ensures BaseOf(n, longer, d) {
      if d in dirs {
        assert BaseOf(n, shorter, d);
        var j :| 0 <= j < |shorter| && shorter[j].place.Inside? && Base(n, shorter[j]) == d;
        assert longer[j] == shorter[j];
      }
    }
  }

  /** Raises exactly when one of the files is in the way of another member. */
  method ExtractApplicationData<P(==,!new), C(==,!new)>(
      n: Naming<P>, ghost keys: set<P>, selected: seq<Member<P, C>>) returns (r: Option<Files<P, C>>)
    requires Lawful(n) && AllTaken(n, keys, selected)
    ensures r.Some? <==> Layable(n, selected)
    ensures r.Some? ==> exists dirs :: Laid(n, selected, r.value, dirs)
  {
    var files: Files<P, C>, dirs: set<P> := map[], {};
    var i := 0;
    while i < |selected|
      invariant 0 <= i <= |selected|
      invariant Laid(n, selected[..i], files, dirs) && Layable(n, selected[..i])
    {
      var m := selected[i];
      assert Taken(n, keys, m);
      LayableMore(n, selected, i);
      if Blocked(n, files, dirs, m) {
        BlockedMeansObstructed(n, keys, selected, i, files, dirs);
        return None;
      }
      if j :| 0 <= j < i && Obstructs(n, selected[j], m) {
        ObstructedMeansBlocked(n, keys, selected, i, j, files, dirs);
      }
      ghost var files' := files;
      DirsMore(n, selected, i, dirs);
      dirs := dirs + {Base(n, m)};
      if m.kind.File? {
        files := files[m.place.path := m.kind.content];
      }
      FilesMore(n, keys, selected, i, files', files);
      i := i + 1;
    }
    assert selected[..i] == selected;
    return Some(files);
  }

  // -------------------------------------------------------------------------- identity files

  /** The file at `p` below the node's home. */
  function FileAt<P, C>(n: Naming<P>, home: map<Root, Files<P, C>>, p: P): Option<C> {
    if n.root(p) in home then Lookup(home[n.root(p)], p) else None
  }

  /** The local file where there is a protected one, and what was extracted elsewhere. */
  ghost function Preserved<P, C>(
      n: Naming<P>, home: map<Root, Files<P, C>>, protected: set<P>, extracted: Files<P, C>, p: P): Option<C> {
    if p in protected && FileAt(n, home, p).Some? then FileAt(n, home, p) else Lookup(extracted, p)
  }

  /** Copies the local identity files over whatever was extracted. */
  method PreserveIdentity<P(==,!new), C(!new)>(
      n: Naming<P>, home: map<Root, Files<P, C>>, protected: set<P>, extracted: Files<P, C>)
      returns (files: Files<P, C>)
    ensures forall p :: Lookup(files, p) == Preserved(n, home, protected, extracted, p)
  {
    files := extracted;
    var left := protected;
    while left != {}
      invariant left <= protected
      invariant forall p :: Lookup(files, p) == Preserved(n, home, protected - left, extracted, p)
    {
      var q :| q in left;
      var content := FileAt(n, home, q);
      ghost var files' := files;
      if content.Some? {
        files := files[q := content.value];
      }
      left := left - {q};
      forall p ensures Lookup(files, p) == Preserved(n, home, protected - left, extracted, p) {
        assert p != q ==> Lookup(files, p) == Lookup(files', p);
      }
    }
  }

  /** Nothing taken from an archive stands where an identity file goes, below it, or as a
      file on the way to it: copying them in always finds its place. */
  lemma {:induction false} IdentityFits<P(!new), C>(n: Naming<P>, protected: set<P>, m: Member<P, C>, p: P)
    requires Lawful(n) && p in protected && Taken(n, Keys(n, protected), m)
    ensures m.place.path != p && !n.leads(p, m.place.path) && (m.kind.File? ==> !n.leads(m.place.path, p))
  {
    assert n.key(p) in Keys(n, protected);
    assert LawAt(n, p, m.place.path) && LawAt(n, m.place.path, p);
  }

  /** The files are those of the archive, without any in the place of an identity file. */
  ghost predicate ArchiveFiles<P(!new), C(!new)>(
      n: Naming<P>, keys: set<P>, ms: seq<Member<P, C>>, files: Files<P, C>) {
    forall p :: ArchiveFileAt(n, keys, ms, p, Lookup(files, p))
  }

  ghost predicate ArchiveFileAt<P(!new), C(!new)>(
      n: Naming<P>, keys: set<P>, ms: seq<Member<P, C>>, p: P, now: Option<C>) {
    if n.key(p) in keys then now == None
    else forall c :: now == Some(c) <==> Member(Inside(p), File(c)) in ms
  }

  lemma {:induction false} ArchiveFilesUnique<P(!new), C(!new)>(
      n: Naming<P>, keys: set<P>, ms: seq<Member<P, C>>, a: Files<P, C>, b: Files<P, C>)
    requires ArchiveFiles(n, keys, ms, a) && ArchiveFiles(n, keys, ms, b)
    ensures a == b
  {
    forall p ensures Lookup(a, p) == Lookup(b, p) {
      assert ArchiveFileAt(n, keys, ms, p, Lookup(a, p)) && ArchiveFileAt(n, keys, ms, p, Lookup(b, p));
    }
    LookupEqual(a, b);
  }

  /** What a restored home holds at `p`: identity files are the local ones or missing, never
      the archive's, in whatever spelling; everything else is the archive's. */
  ghost predicate RestoredAt<P(!new), C(!new)>(
      n: Naming<P>, protected: set<P>, ms: seq<Member<P, C>>, local: Option<C>, p: P, now: Option<C>) {
    if p in protected then now == local else ArchiveFileAt(n, Keys(n, protected), ms, p, now)
  }

  lemma {:induction false} ExtractedFiles<P(!new), C(!new)>(
      n: Naming<P>, keys: set<P>, ms: seq<Member<P, C>>, selected: seq<Member<P, C>>, files: Files<P, C>, dirs: set<P>)
    requires AllSound(n, keys, ms) && Selection(n, keys, ms, selected) && Laid(n, selected, files, dirs)
    ensures ArchiveFiles(n, keys, ms, files)
  {
    forall p ensures ArchiveFileAt(n, keys, ms, p, Lookup(files, p)) {
      if p in files {
        assert FileOf(selected, p, files[p]);
        var i :| 0 <= i < |selected| && selected[i] == Member(Inside(p), File(files[p]));
        assert Taken(n, keys, selected[i]) && selected[i] in ms;
      }
      if n.key(p) !in keys {
        forall c | Member(Inside(p), File(c)) in ms ensures Lookup(files, p) == Some(c) {
          var m := Member(Inside(p), File(c));
          assert Judge(n, keys, m) != Raise && Taken(n, keys, m);
          assert m in selected;
        }
      }
    }
  }

  /** Every path of the files to publish is as it should be. */
  ghost predicate Restoring<P(!new), C(!new)>(
      n: Naming<P>, protected: set<P>, ms: seq<Member<P, C>>, home: map<Root, Files<P, C>>, files: Files<P, C>) {
    forall p :: RestoredAt(n, protected, ms, FileAt(n, home, p), p, Lookup(files, p))
  }

  lemma {:induction false} RestoringUnique<P(!new), C(!new)>(
      n: Naming<P>, protected: set<P>, ms: seq<Member<P, C>>, home: map<Root, Files<P, C>>,
      a: Files<P, C>, b: Files<P, C>)
    requires Restoring(n, protected, ms, home, a) && Restoring(n, protected, ms, home, b)
    ensures a == b
  {
    forall p ensures Lookup(a, p) == Lookup(b, p) {
      var local := FileAt(n, home, p);
      assert RestoredAt(n, protected, ms, local, p, Lookup(a, p));
      assert RestoredAt(n, protected, ms, local, p, Lookup(b, p));
    }
    LookupEqual(a, b);
  }

  // ---------------------------------------------------------------------------- the restore

  datatype Restoration = Refused | Failed | Restored | RecoveryNeeded

  function Slice<P, C>(n: Naming<P>, files: Files<P, C>, r: Root): Files<P, C> {
    map p | p in files && n.root(p) == r :: files[p]
  }

  function Staged<P, C>(n: Naming<P>, files: Files<P, C>): map<Root, Files<P, C>> {
    map[Data := Slice(n, files, Data), Xian := Slice(n, files, Xian)]
  }

  lemma {:induction false} StagedHolds<P(!new), C>(n: Naming<P>, files: Files<P, C>)
    ensures forall p :: FileAt(n, Staged(n, files), p) == Lookup(files, p)
    ensures forall r: Root :: r in Staged(n, files)
  {
    forall p ensures FileAt(n, Staged(n, files), p) == Lookup(files, p) {
      assert n.root(p) == Data || n.root(p) == Xian;
    }
    forall r: Root ensures r in Staged(n, files) {
      assert r == Data || r == Xian;
    }
  }

  /** What the execution policy demands of the home before a restore, and of the files
      extracted. */
  datatype Policy<!P(==), !C> = Policy(keptAtHome: map<Root, Files<P, C>> -> bool, keptIn: Files<P, C> -> bool)

  /** Nothing speaks against the archive: no member is refused, a file is taken, every file
      can be laid out, and what is laid out keeps the execution policy. */
  ghost predicate Restorable<P(!new), C(!new)>(
      n: Naming<P>, protected: set<P>, ms: seq<Member<P, C>>, home: map<Root, Files<P, C>>, policy: Policy<P, C>) {
    var keys := Keys(n, protected);
    && policy.keptAtHome(home)
    && AllSound(n, keys, ms) && HasFile(n, keys, ms) && Layable(n, Picked(n, keys, ms))
    && forall files :: ArchiveFiles(n, keys, ms, files) ==> policy.keptIn(files)
  }

  /** Everything before publication: the staged files, or nothing exactly when the archive
      cannot be restored. */
  method Prepare<P(==,!new), C(==,!new)>(
      n: Naming<P>, protected: set<P>, ms: seq<Member<P, C>>, home: map<Root, Files<P, C>>, policy: Policy<P, C>)
      returns (r: Option<Files<P, C>>)
    requires Lawful(n)
    ensures r.Some? <==> Restorable(n, protected, ms, home, policy)
    ensures r.Some? ==> Restoring(n, protected, ms, home, r.value)
  {
    if !policy.keptAtHome(home) {
      return None;
    }
    var selected := ApplicationMembers(n, protected, ms);
    if selected.None? {
      return None;
    }
    ghost var keys := Keys(n, protected);
    var extracted := ExtractApplicationData(n, keys, selected.value);
    if extracted.None? {
      return None;
    }
    ghost var dirs :| Laid(n, selected.value, extracted.value, dirs);
    ExtractedFiles(n, keys, ms, selected.value, extracted.value, dirs);
    if !policy.keptIn(extracted.value) {
      return None;
    }
    forall files | ArchiveFiles(n, keys, ms, files) ensures policy.keptIn(files) {
      ArchiveFilesUnique(n, keys, ms, files, extracted.value);
    }
    var files := PreserveIdentity(n, home, protected, extracted.value);
    forall p ensures RestoredAt(n, protected, ms, FileAt(n, home, p), p, Lookup(files, p)) {
      assert ArchiveFileAt(n, keys, ms, p, Lookup(extracted.value, p));
      assert p in protected ==> n.key(p) in keys;
    }
    return Some(files);
  }

  /** How a publication ends: all new, or rolled back, or with every original in place or in
      the backup. */
  ghost predicate Concludes<T(!new)>(job: Job<T>, result: Restoration, now: Disk<T>)
    requires forall r: Root :: r in job.replacements
  {
    var stop := FirstStop(job);
    if stop.None? then result == Restored && now == Disk(job.replacements, map[])
    else if Undone(job, stop.value) then result == Failed && now == Disk(Left(job, stop.value), map[])
    else result == RecoveryNeeded && Safe(job.originals, now)
  }

  ghost predicate ConcludesWith<P(!new), C(!new)>(
      n: Naming<P>, w: Weather<Files<P, C>>, home: map<Root, Files<P, C>>, files: Files<P, C>,
      result: Restoration, now: Disk<Files<P, C>>) {
    StagedHolds(n, files);
    Concludes(Job(w, home, Staged(n, files)), result, now)
  }

  /** A backup left by an earlier restore blocks this one.  An archive that cannot be restored
      changes nothing.  Otherwise the one set of files to publish decides with the weather how
      it ends; if all goes well, every path is as it should be. */
  method RestoreApplicationArchive<P(==,!new), C(==,!new)>(
      d: Directories<Files<P, C>>, n: Naming<P>, protected: set<P>, ms: seq<Member<P, C>>, policy: Policy<P, C>)
      returns (result: Restoration)
    requires Lawful(n)
    modifies d
    ensures result == Refused <==> old(d.backup) != map[]
    ensures result == Refused ==> d.Now() == old(d.Now())
    ensures result != Refused && !Restorable(n, protected, ms, old(d.home), policy) ==>
      result == Failed && d.Now() == old(d.Now())
    ensures result != Refused && Restorable(n, protected, ms, old(d.home), policy) ==>
      exists files ::
        && Restoring(n, protected, ms, old(d.home), files)
        && ConcludesWith(n, d.weather, old(d.home), files, result, d.Now())
    ensures result == Restored ==>
      forall p :: RestoredAt(n, protected, ms, FileAt(n, old(d.home), p), p, FileAt(n, d.home, p))
  {
    if d.backup != map[] {
      return Refused;
    }
    var files := Prepare(n, protected, ms, d.home, policy);
    if files.None? {
      return Failed;
    }
    ghost var home := d.home;
    d.staged := Staged(n, files.value);
    StagedHolds(n, files.value);
    var outcome := d.Publish();
    match outcome
    case Published =>
      d.backup := map[];
      result := Restored;
    case RolledBack =>
      result := Failed;
    case RollbackFailed =>
      result := RecoveryNeeded;
    assert ConcludesWith(n, d.weather, home, files.value, result, d.Now());
  }

  // ------------------------------------------------------------------------- POSIX-like paths

  /** A path below one of the application directories, part by part. */
  datatype Path<N> = Path(root: Root, rest: seq<N>)

  function FoldAll<N>(fold: N -> N, parts: seq<N>): (r: seq<N>)
    ensures |r| == |parts| && forall i :: 0 <= i < |r| ==> r[i] == fold(parts[i])
  {
    seq(|parts|, i requires 0 <= i < |parts| => fold(parts[i]))
  }

  /** Keys fold every part of the path. */
  function PathNaming<N(==)>(fold: N -> N): Naming<Path<N>> {
    Naming((p: Path<N>) => p.root,
           (p: Path<N>) => p.rest == [],
           (p: Path<N>) => if p.rest == [] then p else p.(rest := p.rest[..|p.rest| - 1]),
           (p: Path<N>) => p.(rest := FoldAll(fold, p.rest)),
           (p: Path<N>, q: Path<N>) => p.root == q.root && p.rest <= q.rest)
  }

  lemma {:induction false} FoldLeads<N>(fold: N -> N, a: seq<N>, b: seq<N>)
    requires a <= b
    ensures FoldAll(fold, a) <= FoldAll(fold, b) && (a != b ==> FoldAll(fold, a) != FoldAll(fold, b))
  {
    assert a == b[..|a|];
    forall i | 0 <= i < |a| ensures FoldAll(fold, a)[i] == FoldAll(fold, b)[i] {
      assert a[i] == b[i];
    }
  }

  /** Two paths have one key exactly when they have the same parts up to folding. */
  lemma {:induction false} KeysShared<N(!new)>(fold: N -> N, p: Path<N>, q: Path<N>)
    ensures PathNaming(fold).key(p) == PathNaming(fold).key(q) <==>
      p.root == q.root && |p.rest| == |q.rest| && forall i :: 0 <= i < |p.rest| ==> fold(p.rest[i]) == fold(q.rest[i])
  {
    var a, b := FoldAll(fold, p.rest), FoldAll(fold, q.rest);
    if a == b {
      forall i | 0 <= i < |p.rest| ensures fold(p.rest[i]) == fold(q.rest[i]) {
        assert a[i] == b[i];
      }
    }
  }

  lemma {:induction false} PathsLawful<N(!new)>(fold: N -> N)
    ensures Lawful(PathNaming(fold))
  {
    forall a: Path<N>, b: Path<N> ensures LawAt(PathNaming(fold), a, b) {
      if a.root == b.root && a.rest <= b.rest {
        FoldLeads(fold, a.rest, b.rest);
      }
      if b.rest != [] {
        var parent := b.rest[..|b.rest| - 1];
        assert a.rest <= parent <==> a.rest <= b.rest && a.rest != b.rest;
      }
    }
  }
}
