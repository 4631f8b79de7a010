/**
  One group directory shared by any number of posters, cancellers and readers
  (internal/group/group.go with internal/group/lock.go). A state machine over the steps of
  Post, DeleteArticle, BuildInfo and LoadInfo: files are removed outside the lock, everything else
  happens under it; a scan takes one file at a time; `.info` is truncated before it is written.
 */
module SpoolProtocol {
  import opened Spool

  type Tid = nat

  /** The file `.info`: not there, truncated and not yet written, or whole. */
  datatype InfoFile = Missing | Torn | Saved(info: Info)

  /** The flock on `.lock`. */
  datatype Lock = Free | Shared(holders: set<Tid>) | Exclusive(holder: Tid)

  /** What an exclusive lock is wanted for. `Posted` is the final save of a post. */
  datatype Job = Posting | Posted | Removing(n: nat) | Loading

  /**
    Where a thread is. `seen` and `next` are the articles that `found` and `new` summarise; no
    step decides on them.
   */
  datatype Pc =
    | Idle
    | WantLock(job: Job)
    | Entered(job: Job)
    | Scanning(job: Job, todo: set<nat>, found: Info, seen: set<nat>)
    | Saving(job: Job, new_: Info, next: set<nat>)
    | Writing(job: Job, new_: Info, next: set<nat>)
    | Allocating(candidate: nat, base: Info)
    | Leaving
    | WantShared
    | ReadHeld
    | GotInfo(read: InfoFile)

  /** `summed` is the set of articles the last whole `.info` was computed from. */
  datatype State = State(lock: Lock, files: set<nat>, blocked: set<nat>, info: InfoFile,
                         pcs: map<Tid, Pc>, summed: set<nat>)

  datatype Action = StartPost | StartLoad | StartBuild | Remove(n: nat)
                  | LockEx | Enter | Visit(n: nat) | EndScan | Truncate | Write | Probe | Unlock
                  | LockSh | Read | UnlockSh

  function PcOf(s: State, t: Tid): Pc {
    if t in s.pcs then s.pcs[t] else Idle
  }

  function Go(s: State, t: Tid, pc: Pc): State {
    s.(pcs := s.pcs[t := pc])
  }

  predicate Enabled(s: State, t: Tid, a: Action) {
    var pc := PcOf(s, t);
    match a
    case StartPost | StartLoad | StartBuild | Remove(_) => pc.Idle?
    case LockEx => pc.WantLock? && s.lock.Free?
    case Enter => pc.Entered?
    case Visit(n) => pc.Scanning? && n in pc.todo
    case EndScan => pc.Scanning? && pc.todo == {}
    case Truncate => pc.Saving?
    case Write => pc.Writing?
    case Probe => pc.Allocating?
    case Unlock => pc.Leaving?
    case LockSh => pc.WantShared? && !s.lock.Exclusive?
    case Read => pc.ReadHeld?
    case UnlockSh => pc.GotInfo?
  }

  /** One step of thread t; a step that cannot be taken yet leaves everything as it is. */
  function Do(s: State, t: Tid, a: Action): State {
    var pc := PcOf(s, t);
    if !Enabled(s, t, a) then s else
    match a
    case StartPost => Go(s, t, WantLock(Posting))
    case StartLoad => Go(s, t, if s.info.Missing? then WantLock(Loading) else WantShared)
    case StartBuild => Go(s, t, WantLock(Loading))
    case Remove(n) =>
      if n in s.files then Go(s.(files := s.files - {n}), t, WantLock(Removing(n))) else s
    case LockEx => Go(s.(lock := Exclusive(t)), t, Entered(pc.job))
    case Enter =>
      if pc.job.Posting? && !s.info.Missing? then
        var i := if s.info.Saved? then s.info.info else NO_ARTICLES;
        Go(s, t, Allocating(i.end + 1, i))
      else Go(s, t, Scanning(pc.job, s.files, NO_ARTICLES, {}))
    case Visit(n) =>
      if n in s.files then
        Go(s, t, Scanning(pc.job, pc.todo - {n}, Counted(pc.found, n), pc.seen + {n}))
      else Go(s, t, Scanning(pc.job, pc.todo - {n}, pc.found, pc.seen))
    case EndScan => Go(s, t, Saving(pc.job, pc.found, pc.seen))
    case Truncate => Go(s.(info := Torn), t, Writing(pc.job, pc.new_, pc.next))
    case Write =>
      Go(s.(info := Saved(pc.new_), summed := pc.next), t,
         if pc.job.Posting? then Allocating(pc.new_.end + 1, pc.new_) else Leaving)
    case Probe =>
      var c := pc.candidate;
      if c in s.files || c in s.blocked then Go(s, t, Allocating(c + 1, pc.base))
      else Go(s.(files := s.files + {c}), t, Saving(Posted, Bumped(pc.base, c), s.summed + {c}))
    case Unlock => Go(s.(lock := Free), t, Idle)
    case LockSh =>
      Go(s.(lock := Shared((if s.lock.Shared? then s.lock.holders else {}) + {t})), t, ReadHeld)
    case Read => Go(s, t, GotInfo(s.info))
    case UnlockSh =>
      var rest := (if s.lock.Shared? then s.lock.holders else {}) - {t};
      Go(s.(lock := if rest == {} then Free else Shared(rest)), t, Idle)
  }

  // ----- the invariant -----

  predicate Critical(pc: Pc) {
    pc.Entered? || pc.Scanning? || pc.Saving? || pc.Writing? || pc.Allocating? || pc.Leaving?
  }

  predicate Reading(pc: Pc) {
    pc.ReadHeld? || pc.GotInfo?
  }

  /** The lock is held by exactly the threads that think they hold it. */
  ghost predicate LockInv(s: State) {
    && (forall t :: Critical(PcOf(s, t)) <==> s.lock == Exclusive(t))
    && (forall t :: Reading(PcOf(s, t)) <==> s.lock.Shared? && t in s.lock.holders)
  }

  /** Some canceller has removed article x and waits for the lock to rebuild. */
  ghost predicate Pending(s: State, x: nat) {
    exists t :: PcOf(s, t) == WantLock(Removing(x))
  }

  /** The thread holding the lock has removed x and has not saved its rebuild yet. */
  predicate Owes(pc: Pc, x: nat) {
    (pc.Entered? || pc.Scanning? || pc.Saving? || pc.Writing?) && pc.job == Removing(x)
  }

  /** A poster that has created its file and not touched `.info` yet. */
  predicate JustStored(pc: Pc) {
    pc.Saving? && pc.job.Posted?
  }

  /** What `.info` says of a set of articles: near its summary always, and the summary if number 1 can be taken. */
  ghost predicate Sums(blocked: set<nat>, i: Info, set_: set<nat>) {
    IsNearSummary(i, set_) && (1 !in blocked ==> IsSummary(i, set_))
  }

  /** `i` sums up `set_`, which holds every stored article, and what it holds beyond them is owed. */
  ghost predicate Covers(s: State, i: Info, set_: set<nat>) {
    && Sums(s.blocked, i, set_)
    && s.files <= set_
    && forall x :: x in set_ && x !in s.files ==> Pending(s, x)
  }

  ghost predicate ThreadInv(s: State, t: Tid) {
    match PcOf(s, t)
    case Scanning(_, todo, found, seen) =>
      && IsSummary(found, seen) && todo !! seen
      && s.files <= seen + todo
      && (forall x :: x in seen && x !in s.files ==> Pending(s, x))
      && !s.info.Torn?
    case Entered(_) => !s.info.Torn?
    case Saving(_, new_, next) => Covers(s, new_, next) && !s.info.Torn?
    case Writing(_, new_, next) => Covers(s, new_, next) && s.info.Torn?
    case Allocating(c, base) =>
      && s.info == Saved(base) && Covers(s, base, s.summed)
      && c > base.end && (s.summed == {} && 1 !in s.blocked ==> c == 1)
    case Leaving => !s.info.Torn?
    case WantShared => !s.info.Missing?
    case ReadHeld => s.info.Saved?
    case GotInfo(read) => s.info.Saved? && read == s.info
    case _ => true
  }

  ghost predicate InfoInv(s: State) {
    && (s.info.Torn? ==> s.lock.Exclusive?)
    && (s.info.Saved? ==>
          && Sums(s.blocked, s.info.info, s.summed)
          && (s.files <= s.summed || (s.lock.Exclusive? && JustStored(PcOf(s, s.lock.holder))))
          && forall x :: x in s.summed && x !in s.files ==>
               Pending(s, x) || (s.lock.Exclusive? && Owes(PcOf(s, s.lock.holder), x)))
  }

  ghost predicate Inv(s: State) {
    LockInv(s) && InfoInv(s) && forall t :: ThreadInv(s, t)
  }

  /** Nobody is busy, and `.info` is either not there or right. */
  ghost predicate Init(s: State) {
    && s.lock.Free? && s.pcs == map[]
    && !s.info.Torn? && s.summed == s.files
    && (s.info.Saved? ==> IsSummary(s.info.info, s.files))
  }

  // ----- every step keeps it -----

  /** Owners of removed articles other than thread t are not disturbed when t moves. */
  lemma PendingKept(s: State, s2: State, t: Tid, x: nat)
    requires Pending(s, x) && PcOf(s, t) != WantLock(Removing(x))
    requires forall u :: u != t ==> PcOf(s2, u) == PcOf(s, u)
    ensures Pending(s2, x)
  {
    var u :| PcOf(s, u) == WantLock(Removing(x));
    assert PcOf(s2, u) == WantLock(Removing(x));
  }

  predicate LocksOrUnlocks(a: Action) {
    a.LockEx? || a.Unlock? || a.LockSh? || a.UnlockSh?
  }

  lemma LockUntouched(s: State, t: Tid, a: Action)
    requires Inv(s) && Enabled(s, t, a) && !LocksOrUnlocks(a)
    ensures LockInv(Do(s, t, a))
  {
    var s2 := Do(s, t, a);
    assert s2.lock == s.lock;
    assert forall u :: u != t ==> PcOf(s2, u) == PcOf(s, u);
    assert Critical(PcOf(s2, t)) == Critical(PcOf(s, t)) && Reading(PcOf(s2, t)) == Reading(PcOf(s, t));
  }

  lemma ExclusiveMoves(s: State, t: Tid, a: Action)
    requires Inv(s) && Enabled(s, t, a) && (a.LockEx? || a.Unlock?)
    ensures LockInv(Do(s, t, a))
  {
    assert forall u :: u != t ==> PcOf(Do(s, t, a), u) == PcOf(s, u);
  }

  lemma SharedMoves(s: State, t: Tid, a: Action)
    requires Inv(s) && Enabled(s, t, a) && (a.LockSh? || a.UnlockSh?)
    ensures LockInv(Do(s, t, a))
  {
    var s2, held := Do(s, t, a), if s.lock.Shared? then s.lock.holders else {};
    assert forall u :: u != t ==> PcOf(s2, u) == PcOf(s, u);
    assert forall u :: Reading(PcOf(s, u)) <==> u in held;
    if a.UnlockSh? {
      assert Reading(PcOf(s, t));
      assert forall u :: Reading(PcOf(s2, u)) <==> u in held - {t};
    } else {
      assert forall u :: Reading(PcOf(s2, u)) <==> u in held + {t};
    }
  }

  lemma StepLock(s: State, t: Tid, a: Action)
    requires Inv(s) && Enabled(s, t, a)
    ensures LockInv(Do(s, t, a))
  {
    if a.LockEx? || a.Unlock? {
      ExclusiveMoves(s, t, a);
    } else if a.LockSh? || a.UnlockSh? {
      SharedMoves(s, t, a);
    } else {
      LockUntouched(s, t, a);
    }
  }

  ghost predicate SameDisk(s: State, s2: State) {
    s2.files == s.files && s2.blocked == s.blocked && s2.info == s.info && s2.summed == s.summed
  }

  /** A step that touches no file and does not leave a pending removal keeps every other thread's part. */
  lemma QuietStep(s: State, s2: State, t: Tid)
    requires Inv(s) && SameDisk(s, s2)
    requires forall u :: u != t ==> PcOf(s2, u) == PcOf(s, u)
    requires !PcOf(s, t).WantLock?
    ensures forall u :: u != t ==> ThreadInv(s2, u)
    ensures forall x :: Pending(s, x) ==> Pending(s2, x)
  {
    forall x | Pending(s, x) ensures Pending(s2, x) {
      PendingKept(s, s2, t, x);
    }
    forall u | u != t ensures ThreadInv(s2, u) {
      assert ThreadInv(s, u);
    }
  }

  lemma StepStart(s: State, t: Tid, a: Action)
    requires Inv(s) && Enabled(s, t, a)
    requires a.StartPost? || a.StartLoad? || a.StartBuild? || a.LockSh? || a.Read? || a.UnlockSh? || a.Unlock?
    ensures Inv(Do(s, t, a))
  {
    var s2 := Do(s, t, a);
    StepLock(s, t, a);
    QuietStep(s, s2, t);
    assert ThreadInv(s, t);
    if a.LockSh? {
      assert s.lock.Free? || s.lock.Shared?;
    }
  }

  lemma StepRemove(s: State, t: Tid, n: nat)
    requires Inv(s) && Enabled(s, t, Remove(n)) && n in s.files
    ensures Inv(Do(s, t, Remove(n)))
  {
    var s2 := Do(s, t, Remove(n));
    StepLock(s, t, Remove(n));
    assert PcOf(s2, t) == WantLock(Removing(n));
    forall x | Pending(s, x) ensures Pending(s2, x) {
      PendingKept(s, s2, t, x);
    }
    forall u ensures ThreadInv(s2, u) {
      assert ThreadInv(s, u);
      assert u != t ==> PcOf(s2, u) == PcOf(s, u);
    }
  }

  lemma StepLockEx(s: State, t: Tid)
    requires Inv(s) && Enabled(s, t, LockEx)
    ensures Inv(Do(s, t, LockEx))
  {
    var s2, job := Do(s, t, LockEx), PcOf(s, t).job;
    StepLock(s, t, LockEx);
    forall x | Pending(s, x) ensures Pending(s2, x) || Owes(PcOf(s2, t), x) {
      if job != Removing(x) {
        PendingKept(s, s2, t, x);
      }
    }
    forall u ensures ThreadInv(s2, u) {
      assert ThreadInv(s, u);
      assert u != t ==> PcOf(s2, u) == PcOf(s, u) && !Critical(PcOf(s, u));
    }
  }

  lemma StepEnter(s: State, t: Tid)
    requires Inv(s) && Enabled(s, t, Enter)
    ensures Inv(Do(s, t, Enter))
  {
    var s2, job := Do(s, t, Enter), PcOf(s, t).job;
    StepLock(s, t, Enter);
    QuietStep(s, s2, t);
    assert ThreadInv(s, t);
    assert s.lock == Exclusive(t);
  }

  lemma StepVisit(s: State, t: Tid, n: nat)
    requires Inv(s) && Enabled(s, t, Visit(n))
    ensures Inv(Do(s, t, Visit(n)))
  {
    var s2, pc := Do(s, t, Visit(n)), PcOf(s, t);
    StepLock(s, t, Visit(n));
    QuietStep(s, s2, t);
    assert ThreadInv(s, t) && s.lock == Exclusive(t);
    if n in s.files {
      CountedIsSummary(pc.found, pc.seen, n);
    }
    assert ThreadInv(s2, t);
  }

  lemma StepEndScan(s: State, t: Tid)
    requires Inv(s) && Enabled(s, t, EndScan)
    ensures Inv(Do(s, t, EndScan))
  {
    var s2, pc := Do(s, t, EndScan), PcOf(s, t);
    StepLock(s, t, EndScan);
    QuietStep(s, s2, t);
    assert ThreadInv(s, t) && s.lock == Exclusive(t);
    assert Covers(s2, pc.found, pc.seen);
  }

  lemma StepTruncate(s: State, t: Tid)
    requires Inv(s) && Enabled(s, t, Truncate)
    ensures Inv(Do(s, t, Truncate))
  {
    var s2 := Do(s, t, Truncate);
    StepLock(s, t, Truncate);
    assert ThreadInv(s, t);
    assert s.lock == Exclusive(t);
    forall x | Pending(s, x) ensures Pending(s2, x) {
      PendingKept(s, s2, t, x);
    }
    forall u ensures ThreadInv(s2, u) {
      assert ThreadInv(s, u);
      assert u != t ==> PcOf(s2, u) == PcOf(s, u) && !Critical(PcOf(s, u)) && !Reading(PcOf(s, u));
    }
  }

  lemma StepWrite(s: State, t: Tid)
    requires Inv(s) && Enabled(s, t, Write)
    ensures Inv(Do(s, t, Write))
  {
    var s2, pc := Do(s, t, Write), PcOf(s, t);
    StepLock(s, t, Write);
    assert ThreadInv(s, t);
    assert s.lock == Exclusive(t);
    forall x | Pending(s, x) ensures Pending(s2, x) {
      PendingKept(s, s2, t, x);
    }
    forall u ensures ThreadInv(s2, u) {
      assert ThreadInv(s, u);
      assert u != t ==> PcOf(s2, u) == PcOf(s, u) && !Critical(PcOf(s, u)) && !Reading(PcOf(s, u));
    }
  }

  lemma StepProbe(s: State, t: Tid)
    requires Inv(s) && Enabled(s, t, Probe)
    ensures Inv(Do(s, t, Probe))
  {
    var s2, pc := Do(s, t, Probe), PcOf(s, t);
    StepLock(s, t, Probe);
    assert ThreadInv(s, t);
    assert s.lock == Exclusive(t);
    forall x | Pending(s, x) ensures Pending(s2, x) {
      PendingKept(s, s2, t, x);
    }
    var c := pc.candidate;
    assert c !in s.summed;
    if c !in s.files && c !in s.blocked {
      BumpedSums(s.blocked, pc.base, s.summed, c);
    }
    forall u ensures ThreadInv(s2, u) {
      assert ThreadInv(s, u);
      assert u != t ==> PcOf(s2, u) == PcOf(s, u) && !Critical(PcOf(s, u)) && !Reading(PcOf(s, u));
    }
  }

  /** Storing above End: the incremental summary of Post still sums up what is stored. */
  lemma BumpedSums(blocked: set<nat>, i: Info, s: set<nat>, c: nat)
    requires Sums(blocked, i, s) && c > i.end && (s == {} && 1 !in blocked ==> c == 1)
    ensures Sums(blocked, Bumped(i, c), s + {c})
  {
    BumpedIsNear(i, s, c);
    if s != {} && 1 !in blocked {
      assert i.start in s;
    }
  }

  lemma StepKeepsInv(s: State, t: Tid, a: Action)
    requires Inv(s)
    ensures Inv(Do(s, t, a)) && Do(s, t, a).blocked == s.blocked
  {
    if Enabled(s, t, a) {
      match a
      case Remove(n) => if n in s.files { StepRemove(s, t, n); }
      case LockEx => StepLockEx(s, t);
      case Enter => StepEnter(s, t);
      case Visit(n) => StepVisit(s, t, n);
      case EndScan => StepEndScan(s, t);
      case Truncate => StepTruncate(s, t);
      case Write => StepWrite(s, t);
      case Probe => StepProbe(s, t);
      case _ => StepStart(s, t, a);
    }
  }

  // ----- over every interleaving -----

  /** An execution: any threads, taking any steps in any order. */
  function Execute(s: State, steps: seq<(Tid, Action)>): State {
    if steps == [] then s
    else
      var last := steps[|steps| - 1];
      Do(Execute(s, steps[..|steps| - 1]), last.0, last.1)
  }

  lemma InitInv(s: State)
    requires Init(s)
    ensures Inv(s)
  {
    assert forall t :: PcOf(s, t) == Idle;
  }

  lemma {:induction false} ExecuteInv(s: State, steps: seq<(Tid, Action)>)
    requires Init(s)
    ensures Inv(Execute(s, steps)) && Execute(s, steps).blocked == s.blocked
  {
    if steps == [] {
      InitInv(s);
    } else {
      var last := steps[|steps| - 1];
      ExecuteInv(s, steps[..|steps| - 1]);
      StepKeepsInv(Execute(s, steps[..|steps| - 1]), last.0, last.1);
    }
  }

  /** No canceller is between its removal and the end of its rebuild. */
  ghost predicate NoRebuildPending(s: State) {
    forall x :: !Pending(s, x)
  }

  /**
    For every interleaving of any number of posters, cancellers, rebuilders and readers: whenever the
    lock is free and no canceller has a rebuild pending, `.info` has the right total and end, and is the
    summary of the stored articles unless a directory takes number 1.
   */
  lemma AgreesWhenQuiet(s: State, steps: seq<(Tid, Action)>)
    requires Init(s)
    ensures var r := Execute(s, steps);
            r.lock.Free? && NoRebuildPending(r) && !r.info.Missing? ==>
              && r.info.Saved? && IsNearSummary(r.info.info, r.files)
              && (1 !in s.blocked ==> IsSummary(r.info.info, r.files))
  {
    ExecuteInv(s, steps);
    var r := Execute(s, steps);
    if r.lock.Free? && NoRebuildPending(r) && r.info.Saved? {
      assert r.summed == r.files;
    }
  }

  /**
    A reader never sees a half-written `.info`: what it has read sums up a set that holds every stored
    article and otherwise only articles whose canceller still waits to rebuild.
   */
  lemma ReadersSeeWholeInfo(s: State, steps: seq<(Tid, Action)>, t: Tid)
    requires Init(s) && PcOf(Execute(s, steps), t).GotInfo?
    ensures var r := Execute(s, steps);
            var read := PcOf(r, t).read;
            && read.Saved? && read == r.info
            && read.info.start <= read.info.end
            && exists set_ :: Covers(r, read.info, set_)
  {
    ExecuteInv(s, steps);
    var r := Execute(s, steps);
    assert ThreadInv(r, t);
    assert Covers(r, r.info.info, r.summed);
    if r.summed != {} {
      assert r.info.info.end in r.summed;
    }
  }

  /** At most one thread is inside the exclusive section, and then none is reading. */
  lemma MutualExclusion(s: State, steps: seq<(Tid, Action)>, t: Tid, u: Tid)
    requires Init(s) && Critical(PcOf(Execute(s, steps), t)) && t != u
    ensures !Critical(PcOf(Execute(s, steps), u)) && !Reading(PcOf(Execute(s, steps), u))
  {
    ExecuteInv(s, steps);
  }

  /** Posting in parallel loses nothing: every step keeps the stored articles, except a removal of that one. */
  lemma OnlyRemovalRemoves(s: State, t: Tid, a: Action)
    ensures forall x :: x in s.files && x !in Do(s, t, a).files ==> a == Remove(x) && PcOf(s, t).Idle?
    ensures forall x :: x !in s.files && x in Do(s, t, a).files ==>
              PcOf(s, t).Allocating? && PcOf(s, t).candidate == x
  {
  }

  // ----- what has begun is carried out -----

  /** The thread is posting and has not stored its article yet. */
  predicate StillPosting(pc: Pc) {
    || ((pc.WantLock? || pc.Entered? || pc.Scanning? || pc.Saving? || pc.Writing?) && pc.job.Posting?)
    || pc.Allocating?
  }

  /** The thread is to rebuild `.info` and has not saved it yet. */
  predicate StillBuilding(pc: Pc) {
    && (pc.WantLock? || pc.Entered? || pc.Scanning? || pc.Saving? || pc.Writing?)
    && (pc.job.Loading? || pc.job.Removing?)
  }

  /** The thread is to read `.info` and has not read it yet. */
  predicate StillReading(pc: Pc) {
    pc.WantShared? || pc.ReadHeld?
  }

  /** The step creates the poster's file under a number that nothing had, and the poster goes on to save. */
  ghost predicate StoresIts(s: State, t: Tid, a: Action) {
    var pc, s2 := PcOf(s, t), Do(s, t, a);
    && pc.Allocating? && pc.candidate !in s.files && pc.candidate !in s.blocked
    && s2.files == s.files + {pc.candidate}
    && PcOf(s2, t) == Saving(Posted, Bumped(pc.base, pc.candidate), s.summed + {pc.candidate})
  }

  /** The step saves the summary of what the thread has scanned. */
  ghost predicate SavesFound(s: State, t: Tid, a: Action) {
    PcOf(s, t).Writing? && Do(s, t, a).info == Saved(PcOf(s, t).new_) && Do(s, t, a).summed == PcOf(s, t).next
  }

  /** How each operation begins. */
  lemma Begins(s: State, t: Tid, n: nat)
    requires PcOf(s, t).Idle?
    ensures StillPosting(PcOf(Do(s, t, StartPost), t)) && StillBuilding(PcOf(Do(s, t, StartBuild), t))
    ensures if s.info.Missing? then StillBuilding(PcOf(Do(s, t, StartLoad), t))
            else StillReading(PcOf(Do(s, t, StartLoad), t))
    ensures var r := Do(s, t, Remove(n));
            if n in s.files then StillBuilding(PcOf(r, t)) && r.files == s.files - {n} else r == s
  {
  }

  lemma GoesOn(s: State, t: Tid, u: Tid, a: Action)
    ensures StillPosting(PcOf(s, t)) && !StillPosting(PcOf(Do(s, u, a), t)) ==> t == u && StoresIts(s, t, a)
    ensures StillBuilding(PcOf(s, t)) && !StillBuilding(PcOf(Do(s, u, a), t)) ==> t == u && SavesFound(s, t, a)
    ensures StillReading(PcOf(s, t)) && !StillReading(PcOf(Do(s, u, a), t)) ==>
              t == u && PcOf(Do(s, t, a), t) == GotInfo(s.info)
  {
    assert t != u ==> PcOf(Do(s, u, a), t) == PcOf(s, t);
  }

  /** The step at which a thread stops being where p says. */
  lemma {:induction false} StopsAt(s: State, steps: seq<(Tid, Action)>, k: nat, t: Tid, p: Pc -> bool) returns (l: nat)
    requires k <= |steps| && p(PcOf(Execute(s, steps[..k]), t)) && !p(PcOf(Execute(s, steps), t))
    ensures k <= l < |steps| && p(PcOf(Execute(s, steps[..l]), t))
    ensures !p(PcOf(Do(Execute(s, steps[..l]), steps[l].0, steps[l].1), t))
    decreases |steps|
  {
    var n := |steps| - 1;
    assert k < |steps| by {
      assert steps[..|steps|] == steps;
    }
    if p(PcOf(Execute(s, steps[..n]), t)) {
      l := n;
    } else {
      assert steps[..n][..k] == steps[..k];
      l := StopsAt(s, steps[..n], k, t, p);
      assert steps[..n][..l] == steps[..l];
    }
  }

  /**
    Whatever the other threads do, with `.info` there or not: between the start of a post and its end there
    is a step at which it stores its article, under a number that was free.
   */
  lemma PostsStore(s: State, steps: seq<(Tid, Action)>, k: nat, t: Tid) returns (l: nat)
    requires k <= |steps| && StillPosting(PcOf(Execute(s, steps[..k]), t))
    requires !StillPosting(PcOf(Execute(s, steps), t))
    ensures k <= l < |steps| && steps[l].0 == t && StoresIts(Execute(s, steps[..l]), t, steps[l].1)
  {
    l := StopsAt(s, steps, k, t, StillPosting);
    GoesOn(Execute(s, steps[..l]), t, steps[l].0, steps[l].1);
  }

  /** Nor does a removal, a rebuild or a load without `.info` end before it has saved what it scanned. */
  lemma RebuildsSave(s: State, steps: seq<(Tid, Action)>, k: nat, t: Tid) returns (l: nat)
    requires k <= |steps| && StillBuilding(PcOf(Execute(s, steps[..k]), t))
    requires !StillBuilding(PcOf(Execute(s, steps), t))
    ensures k <= l < |steps| && steps[l].0 == t && SavesFound(Execute(s, steps[..l]), t, steps[l].1)
  {
    l := StopsAt(s, steps, k, t, StillBuilding);
    GoesOn(Execute(s, steps[..l]), t, steps[l].0, steps[l].1);
  }

  /** Nor a load before it has read `.info` as it was at that step. */
  lemma LoadsRead(s: State, steps: seq<(Tid, Action)>, k: nat, t: Tid) returns (l: nat)
    requires k <= |steps| && StillReading(PcOf(Execute(s, steps[..k]), t))
    requires !StillReading(PcOf(Execute(s, steps), t))
    ensures k <= l < |steps| && steps[l].0 == t
    ensures var r := Execute(s, steps[..l]); PcOf(Do(r, t, steps[l].1), t) == GotInfo(r.info)
  {
    l := StopsAt(s, steps, k, t, StillReading);
    GoesOn(Execute(s, steps[..l]), t, steps[l].0, steps[l].1);
  }

  // ----- the condition on the directory tree is exact -----

  /** The guarantee of AgreesWhenQuiet for one directory tree. */
  ghost predicate AlwaysAgrees(blocked: set<nat>) {
    forall s, steps :: Init(s) && s.blocked == blocked ==>
      var r := Execute(s, steps);
      r.lock.Free? && NoRebuildPending(r) && !r.info.Missing? ==>
        r.info.Saved? && IsSummary(r.info.info, r.files)
  }

  function EmptyGroup(blocked: set<nat>): State {
    State(Free, {}, blocked, Saved(NO_ARTICLES), map[], {})
  }

  function AtNumber(blocked: set<nat>, n: nat): State {
    State(Exclusive(0), {}, blocked, Saved(NO_ARTICLES), map[0 := Allocating(n, NO_ARTICLES)], {})
  }

  lemma ExecuteOneMore(s: State, steps: seq<(Tid, Action)>, t: Tid, a: Action)
    ensures Execute(s, steps + [(t, a)]) == Do(Execute(s, steps), t, a)
  {
    var all := steps + [(t, a)];
    assert all[..|all| - 1] == steps;
  }

  /** One poster, alone, tries the numbers that directories take. */
  lemma {:induction false} TryNumbers(blocked: set<nat>, n: nat) returns (steps: seq<(Tid, Action)>)
    requires n >= 1 && forall k :: 1 <= k < n ==> k in blocked
    ensures Execute(EmptyGroup(blocked), steps) == AtNumber(blocked, n)
    decreases n
  {
    var s := EmptyGroup(blocked);
    if n == 1 {
      var s1 := Do(s, 0, StartPost);
      var s2 := Do(s1, 0, LockEx);
      assert Do(s2, 0, Enter) == AtNumber(blocked, 1);
      ExecuteOneMore(s, [], 0, StartPost);
      ExecuteOneMore(s, [] + [(0, StartPost)], 0, LockEx);
      ExecuteOneMore(s, [] + [(0, StartPost)] + [(0, LockEx)], 0, Enter);
      steps := [] + [(0, StartPost)] + [(0, LockEx)] + [(0, Enter)];
    } else {
      var before := TryNumbers(blocked, n - 1);
      assert Do(AtNumber(blocked, n - 1), 0, Probe) == AtNumber(blocked, n);
      ExecuteOneMore(s, before, 0, Probe);
      steps := before + [(0, Probe)];
    }
  }

  /** The last steps of that post, from the free number n on. */
  lemma StoreAndSave(blocked: set<nat>, n: nat)
    requires n >= 1 && n !in blocked
    ensures Do(Do(Do(Do(AtNumber(blocked, n), 0, Probe), 0, Truncate), 0, Write), 0, Unlock) ==
            State(Free, {n}, blocked, Saved(Info(1, n, 1)), map[0 := Idle], {n})
  {
    var s0 := AtNumber(blocked, n);
    var s1 := Do(s0, 0, Probe);
    assert Enabled(s0, 0, Probe) && Bumped(NO_ARTICLES, n) == Info(1, n, 1) && {} + {n} == {n};
    assert s1.pcs == map[0 := Saving(Posted, Info(1, n, 1), {n})];
    var s2 := Do(s1, 0, Truncate);
    assert s2.pcs == map[0 := Writing(Posted, Info(1, n, 1), {n})];
    var s3 := Do(s2, 0, Write);
    assert s3.pcs == map[0 := Leaving];
    assert Do(s3, 0, Unlock).pcs == map[0 := Idle];
  }

  /** A single post into an empty group goes wrong when number 1 is taken by a directory. */
  lemma FirstPostDisagrees(blocked: set<nat>) returns (steps: seq<(Tid, Action)>, n: nat)
    requires 1 in blocked
    ensures n != 1
    ensures Execute(EmptyGroup(blocked), steps) ==
            State(Free, {n}, blocked, Saved(Info(1, n, 1)), map[0 := Idle], {n})
  {
    n := LeastFree(1, blocked);
    var s := EmptyGroup(blocked);
    var a := TryNumbers(blocked, n);
    StoreAndSave(blocked, n);
    ExecuteOneMore(s, a, 0, Probe);
    ExecuteOneMore(s, a + [(0, Probe)], 0, Truncate);
    ExecuteOneMore(s, a + [(0, Probe)] + [(0, Truncate)], 0, Write);
    ExecuteOneMore(s, a + [(0, Probe)] + [(0, Truncate)] + [(0, Write)], 0, Unlock);
    steps := a + [(0, Probe)] + [(0, Truncate)] + [(0, Write)] + [(0, Unlock)];
  }

  /** The guarantee holds for every execution if and only if no directory stands where article 1 goes. */
  lemma AgreementExactly(blocked: set<nat>)
    ensures AlwaysAgrees(blocked) <==> 1 !in blocked
  {
    if 1 !in blocked {
      forall s, steps | Init(s) && s.blocked == blocked
        ensures var r := Execute(s, steps);
                r.lock.Free? && NoRebuildPending(r) && !r.info.Missing? ==>
                  r.info.Saved? && IsSummary(r.info.info, r.files)
      {
        AgreesWhenQuiet(s, steps);
      }
    } else {
      var steps, n := FirstPostDisagrees(blocked);
      var s := EmptyGroup(blocked);
      var r := Execute(s, steps);
      assert Init(s);
      assert forall t :: PcOf(r, t) == Idle;
      assert 1 !in r.files;
      assert !IsSummary(r.info.info, r.files);
    }
  }
}
