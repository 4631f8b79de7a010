/**
  Cancel over NNTP among concurrent posts and cancels (internal/nntp/server.go, handleCancel): the search
  for the Message-ID and the removal of the number it gave are two steps, and numbers are used again.
 */
module CancelRace {
  import opened Spool
  import opened SpoolProtocol

  /** The group's directory, the Message-ID of each article, and what each canceller has found. */
  datatype World = World(s: State, ids: map<nat, string>, found: map<Tid, Found>)

  datatype Found = Found(n: nat, id: string)

  /**
    A step of the protocol, with the Message-ID of the article it stores, if it stores one; a search that
    finds the Message-ID under a number; the removal of the number found.
   */
  datatype Step = Move(t: Tid, a: Action, newId: string) | Find(t: Tid, n: nat, id: string) | RemoveFound(t: Tid)

  predicate Named(w: World, n: nat, id: string) {
    n in w.ids && w.ids[n] == id
  }

  /** The Message-IDs when the files have become those of s2. */
  function IdsAfter(w: World, s2: State, newId: string): map<nat, string> {
    map n | n in s2.files :: if n in w.s.files && n in w.ids then w.ids[n] else newId
  }

  function Moved(w: World, t: Tid, a: Action, newId: string): World {
    var s2 := Do(w.s, t, a);
    w.(s := s2, ids := IdsAfter(w, s2, newId))
  }

  function Take(w: World, st: Step): World {
    match st
    case Move(t, a, newId) => Moved(w, t, a, newId)
    case Find(t, n, id) =>
      if PcOf(w.s, t).Idle? && Named(w, n, id) then w.(found := w.found[t := Found(n, id)]) else w
    case RemoveFound(t) =>
      if t in w.found && PcOf(w.s, t).Idle? then
        Moved(w, t, Remove(w.found[t].n), "").(found := w.found - {t})
      else w
  }

  function Exec(w: World, steps: seq<Step>): World {
    if steps == [] then w else Take(Exec(w, steps[..|steps| - 1]), steps[|steps| - 1])
  }

  /** The state before step i. */
  function At(w: World, steps: seq<Step>, i: nat): World
    requires i <= |steps|
  {
    Exec(w, steps[..i])
  }

  ghost predicate Quiet(w: World) {
    Init(w.s) && w.ids.Keys == w.s.files && w.found == map[]
  }

  // ----- what one step does -----

  lemma TakeKeeps(w: World, st: Step)
    requires w.ids.Keys == w.s.files
    ensures Take(w, st).ids.Keys == Take(w, st).s.files
    ensures forall n :: n in w.s.files && n in Take(w, st).s.files ==> Take(w, st).ids[n] == w.ids[n]
  {
  }

  /** A number is freed only by a removal of it. */
  lemma FreedByRemoval(w: World, st: Step, n: nat)
    requires n in w.s.files && n !in Take(w, st).s.files
    ensures match st
            case Move(_, a, _) => a == Remove(n)
            case Find(_, _, _) => false
            case RemoveFound(t) => t in w.found && w.found[t].n == n
  {
    match st
    case Move(t, a, _) => OnlyRemovalRemoves(w.s, t, a);
    case Find(_, _, _) =>
    case RemoveFound(t) => OnlyRemovalRemoves(w.s, t, Remove(w.found[t].n));
  }

  lemma {:induction false} IdsOfFiles(w: World, steps: seq<Step>)
    requires w.ids.Keys == w.s.files
    ensures Exec(w, steps).ids.Keys == Exec(w, steps).s.files
  {
    if steps != [] {
      IdsOfFiles(w, steps[..|steps| - 1]);
      TakeKeeps(Exec(w, steps[..|steps| - 1]), steps[|steps| - 1]);
    }
  }

  lemma AtPrefix(w: World, steps: seq<Step>, m: nat, i: nat)
    requires i <= m <= |steps|
    ensures At(w, steps[..m], i) == At(w, steps, i)
  {
    assert steps[..m][..i] == steps[..i];
  }

  lemma AtNext(w: World, steps: seq<Step>, i: nat)
    requires i < |steps|
    ensures At(w, steps, i + 1) == Take(At(w, steps, i), steps[i])
  {
    assert steps[..i + 1][..i] == steps[..i];
  }

  // ----- the article that was found -----

  ghost predicate Holds(w: World, steps: seq<Step>, i: nat, n: nat) {
    i <= |steps| && n in At(w, steps, i).s.files
  }

  /** From step i on there is an article n all the time. */
  ghost predicate Stays(w: World, steps: seq<Step>, i: nat, n: nat) {
    forall j :: i <= j <= |steps| ==> Holds(w, steps, j, n)
  }

  ghost predicate Frees(w: World, steps: seq<Step>, k: nat, n: nat) {
    k < |steps| && Holds(w, steps, k, n) && !Holds(w, steps, k + 1, n)
  }

  ghost predicate Stores(w: World, steps: seq<Step>, k: nat, n: nat) {
    k < |steps| && !Holds(w, steps, k, n) && Holds(w, steps, k + 1, n)
  }

  /** From step i on the number is freed and later given to another article. */
  ghost predicate Reused(w: World, steps: seq<Step>, i: nat, n: nat) {
    exists k, l :: i <= k < l && Frees(w, steps, k, n) && Stores(w, steps, l, n)
  }

  lemma {:induction false} FreedBetween(w: World, steps: seq<Step>, i: nat, m: nat, n: nat) returns (k: nat)
    requires i <= m <= |steps| && Holds(w, steps, i, n) && !Holds(w, steps, m, n)
    ensures i <= k < m && Frees(w, steps, k, n)
  {
    if Holds(w, steps, m - 1, n) {
      k := m - 1;
    } else {
      k := FreedBetween(w, steps, i, m - 1, n);
    }
  }

  lemma {:induction false} StoredBetween(w: World, steps: seq<Step>, i: nat, m: nat, n: nat) returns (l: nat)
    requires i <= m <= |steps| && !Holds(w, steps, i, n) && Holds(w, steps, m, n)
    ensures i <= l < m && Stores(w, steps, l, n)
  {
    if !Holds(w, steps, m - 1, n) {
      l := m - 1;
    } else {
      l := StoredBetween(w, steps, i, m - 1, n);
    }
  }

  /** A number in use at step i and at the end has been in use all along, or was freed and given away again. */
  lemma StaysOrReused(w: World, steps: seq<Step>, i: nat, n: nat)
    requires i <= |steps| && Holds(w, steps, i, n) && Holds(w, steps, |steps|, n)
    ensures Stays(w, steps, i, n) <==> !Reused(w, steps, i, n)
  {
    if !Stays(w, steps, i, n) {
      var j :| i <= j <= |steps| && !Holds(w, steps, j, n);
      var k := FreedBetween(w, steps, i, j, n);
      var l := StoredBetween(w, steps, j, |steps|, n);
    }
    if Reused(w, steps, i, n) {
      var k, l :| i <= k < l && Frees(w, steps, k, n) && Stores(w, steps, l, n);
      assert !Holds(w, steps, k + 1, n);
    }
  }

  lemma IdOneStep(w: World, steps: seq<Step>, m: nat, n: nat, id: string)
    requires w.ids.Keys == w.s.files && m < |steps| && Named(At(w, steps, m), n, id) && Holds(w, steps, m + 1, n)
    ensures Named(At(w, steps, m + 1), n, id)
  {
    IdsOfFiles(w, steps[..m]);
    AtNext(w, steps, m);
    TakeKeeps(At(w, steps, m), steps[m]);
  }

  lemma {:induction false} IdUpTo(w: World, steps: seq<Step>, i: nat, m: nat, n: nat, id: string)
    requires w.ids.Keys == w.s.files && i <= m <= |steps| && Named(At(w, steps, i), n, id)
    requires forall j :: i <= j <= m ==> Holds(w, steps, j, n)
    ensures Named(At(w, steps, m), n, id)
  {
    if i < m {
      IdUpTo(w, steps, i, m - 1, n, id);
      IdOneStep(w, steps, m - 1, n, id);
    }
  }

  /** And while it is in use its article keeps its Message-ID. */
  lemma IdStays(w: World, steps: seq<Step>, i: nat, n: nat, id: string)
    requires w.ids.Keys == w.s.files && i <= |steps| && Stays(w, steps, i, n) && Named(At(w, steps, i), n, id)
    ensures Named(Exec(w, steps), n, id)
  {
    IdUpTo(w, steps, i, |steps|, n, id);
    assert steps[..|steps|] == steps;
  }

  /** Step i is the search of thread t that found the Message-ID under n. */
  ghost predicate FoundAt(w: World, steps: seq<Step>, i: nat, t: Tid, f: Found) {
    i < |steps| && steps[i] == Find(t, f.n, f.id) && Named(At(w, steps, i), f.n, f.id)
  }

  lemma {:induction false} FoundBySearch(w: World, steps: seq<Step>, t: Tid) returns (i: nat)
    requires w.found == map[] && t in Exec(w, steps).found
    ensures FoundAt(w, steps, i, t, Exec(w, steps).found[t])
  {
    var n := |steps| - 1;
    var before := Exec(w, steps[..n]);
    if t in before.found && before.found[t] == Exec(w, steps).found[t] {
      i := FoundBySearch(w, steps[..n], t);
      AtPrefix(w, steps, n, i);
    } else {
      i := n;
    }
  }

  // ----- what the protocol rules out -----

  /** Post stores above every article there is, under a number that is free to take. */
  lemma StoredAbove(s: State, t: Tid, a: Action, n: nat)
    requires Inv(s) && n !in s.files && n in Do(s, t, a).files
    ensures n > 0 && n !in s.blocked && forall x :: x in s.files ==> x < n
  {
    OnlyRemovalRemoves(s, t, a);
    assert ThreadInv(s, t);
    assert s.files <= s.summed;
  }

  lemma TakeKeepsInv(w: World, st: Step)
    requires Inv(w.s)
    ensures Inv(Take(w, st).s) && Take(w, st).s.blocked == w.s.blocked
  {
    match st
    case Move(t, a, _) => StepKeepsInv(w.s, t, a);
    case Find(_, _, _) =>
    case RemoveFound(t) =>
      if t in w.found {
        StepKeepsInv(w.s, t, Remove(w.found[t].n));
      }
  }

  lemma {:induction false} ExecKeepsInv(w: World, steps: seq<Step>)
    requires Inv(w.s)
    ensures Inv(Exec(w, steps).s) && Exec(w, steps).s.blocked == w.s.blocked
  {
    if steps != [] {
      ExecKeepsInv(w, steps[..|steps| - 1]);
      TakeKeepsInv(Exec(w, steps[..|steps| - 1]), steps[|steps| - 1]);
    }
  }

  lemma TakeStoresAbove(w: World, st: Step, n: nat)
    requires Inv(w.s) && n !in w.s.files && n in Take(w, st).s.files
    ensures n > 0 && n !in w.s.blocked && forall x :: x in w.s.files ==> x < n
  {
    match st
    case Move(t, a, _) => StoredAbove(w.s, t, a, n);
    case Find(_, _, _) =>
    case RemoveFound(t) => StoredAbove(w.s, t, Remove(w.found[t].n), n);
  }

  lemma StoresAbove(w: World, steps: seq<Step>, l: nat, n: nat)
    requires Inv(w.s) && Stores(w, steps, l, n)
    ensures n > 0 && n !in w.s.blocked && forall x: nat :: Holds(w, steps, l, x) ==> x < n
  {
    ExecKeepsInv(w, steps[..l]);
    AtNext(w, steps, l);
    TakeStoresAbove(At(w, steps, l), steps[l], n);
  }

  /** From step i on some article above n stands all the time. */
  ghost predicate StandsAbove(w: World, steps: seq<Step>, i: nat, n: nat) {
    exists m: nat :: n < m && Stays(w, steps, i, m)
  }

  /** A number is given away again only when no article stands above it, and never 0 or a directory's. */
  lemma NotReused(w: World, steps: seq<Step>, i: nat, n: nat)
    requires Inv(w.s) && (StandsAbove(w, steps, i, n) || n == 0 || n in w.s.blocked)
    ensures !Reused(w, steps, i, n)
  {
    if Reused(w, steps, i, n) {
      var k, l :| i <= k < l && Frees(w, steps, k, n) && Stores(w, steps, l, n);
      if StandsAbove(w, steps, i, n) {
        var m: nat :| n < m && Stays(w, steps, i, m);
        assert Holds(w, steps, l, m);
      }
      StoresAbove(w, steps, l, n);
    }
  }

  // ----- what a cancel removes -----

  lemma UnreusedIsNamed(w: World, steps: seq<Step>, i: nat, n: nat, id: string)
    requires Quiet(w) && i <= |steps| && Named(At(w, steps, i), n, id)
    requires n in Exec(w, steps).s.files && !Reused(w, steps, i, n)
    ensures Stays(w, steps, i, n) && Named(Exec(w, steps), n, id)
  {
    assert steps[..|steps|] == steps;
    IdsOfFiles(w, steps[..i]);
    assert Holds(w, steps, i, n);
    StaysOrReused(w, steps, i, n);
    IdStays(w, steps, i, n, id);
  }

  /**
    In every interleaving of posts, cancels, rebuilds and readers: what a cancel is about to remove was
    found by a search of that thread, and while some article above it stands from the search on, the
    cancel removes that very article, under the Message-ID asked for, or nothing.
   */
  lemma CancelRemovesFound(w: World, steps: seq<Step>, t: Tid)
    requires Quiet(w) && t in Exec(w, steps).found
    ensures var r := Exec(w, steps);
            var f := r.found[t];
            exists i: nat :: FoundAt(w, steps, i, t, f) &&
              (StandsAbove(w, steps, i, f.n) ==>
                 forall x :: x in r.s.files && x !in Take(r, RemoveFound(t)).s.files ==>
                   x == f.n && Stays(w, steps, i, x) && Named(r, x, f.id))
  {
    var r := Exec(w, steps);
    var f := r.found[t];
    var i := FoundBySearch(w, steps, t);
    InitInv(w.s);
    forall x | StandsAbove(w, steps, i, f.n) && x in r.s.files && x !in Take(r, RemoveFound(t)).s.files
      ensures x == f.n && Stays(w, steps, i, x) && Named(r, x, f.id)
    {
      FreedByRemoval(r, RemoveFound(t), x);
      NotReused(w, steps, i, x);
      UnreusedIsNamed(w, steps, i, x, f.id);
    }
  }

  // ----- the condition is exact -----

  /** The articles above n that there are at the start stay. */
  ghost predicate KeepsAbove(w: World, steps: seq<Step>, n: nat) {
    forall m: nat :: n < m && m in w.s.files ==> Stays(w, steps, 0, m)
  }

  /** No cancel that has found n ever stands before another article under that number, as long as those above n stay. */
  ghost predicate NeverAnother(w: World, n: nat) {
    forall steps, t: Tid :: KeepsAbove(w, steps, n) ==> MeansFound(Exec(w, steps), t, n)
  }

  predicate MeansFound(r: World, t: Tid, n: nat) {
    t in r.found && r.found[t].n == n && n in r.s.files ==> Named(r, n, r.found[t].id)
  }

  /** Article n is the greatest, and a number that Post may allocate. */
  ghost predicate Greatest(s: State, n: nat) {
    n > 0 && n !in s.blocked && forall x :: x in s.files ==> x <= n
  }

  lemma MeansFoundBelow(w: World, steps: seq<Step>, t: Tid, n: nat)
    requires Quiet(w) && KeepsAbove(w, steps, n) && !Greatest(w.s, n)
    ensures MeansFound(Exec(w, steps), t, n)
  {
    var r := Exec(w, steps);
    if t in r.found && r.found[t].n == n && n in r.s.files {
      var i := FoundBySearch(w, steps, t);
      InitInv(w.s);
      if n > 0 && n !in w.s.blocked {
        var m: nat :| m in w.s.files && m > n;
        assert Stays(w, steps, 0, m);
        assert Stays(w, steps, i, m);
      }
      NotReused(w, steps, i, n);
      UnreusedIsNamed(w, steps, i, n, r.found[t].id);
    }
  }

  /** A cancel is safe in every interleaving if and only if the article it names is not the greatest. */
  lemma SafeUnlessGreatest(w: World, n: nat)
    requires Quiet(w) && n in w.s.files
    ensures NeverAnother(w, n) <==> !Greatest(w.s, n)
  {
    if Greatest(w.s, n) {
      var steps := AnotherIsRemoved(w, n, w.ids[n] + "x");
      assert !MeansFound(Exec(w, steps), 0, n);
    } else {
      forall steps, t: Tid | KeepsAbove(w, steps, n) ensures MeansFound(Exec(w, steps), t, n) {
        MeansFoundBelow(w, steps, t, n);
      }
    }
  }

  // ----- the greatest article is cancelled twice -----

  lemma OneMore(w: World, steps: seq<Step>, st: Step)
    ensures Exec(w, steps + [st]) == Take(Exec(w, steps), st)
  {
    assert (steps + [st])[..|steps|] == steps;
  }

  /** One more step of thread t, which leaves the files as they are. */
  lemma MoveOn(w: World, steps: seq<Step>, v: World, t: Tid, a: Action, s2: State) returns (more: seq<Step>)
    requires Exec(w, steps) == v && v.ids.Keys == v.s.files && Do(v.s, t, a) == s2 && s2.files == v.s.files
    ensures Exec(w, more) == v.(s := s2)
  {
    more := steps + [Move(t, a, "")];
    OneMore(w, steps, Move(t, a, ""));
    assert IdsAfter(v, s2, "") == v.ids;
  }

  /** The directory while thread t is inside the exclusive section, and when it has left. */
  function Held(s: State, t: Tid, pc: Pc): State {
    s.(lock := Exclusive(t), pcs := s.pcs[t := pc])
  }

  function Released(s: State, t: Tid): State {
    s.(lock := Free, pcs := s.pcs[t := Idle])
  }

  lemma GoHeld(s: State, t: Tid, pc: Pc, next: Pc)
    ensures PcOf(Held(s, t, pc), t) == pc && Go(Held(s, t, pc), t, next) == Held(s, t, next)
  {
  }

  /** Truncating, writing and leaving. */
  lemma Saves(w: World, steps: seq<Step>, v: World, s: State, t: Tid, job: Job, i: Info, set_: set<nat>)
    returns (more: seq<Step>)
    requires Exec(w, steps) == v && v.ids.Keys == v.s.files && !job.Posting?
    requires v.s == Held(s, t, Saving(job, i, set_))
    ensures Exec(w, more) == v.(s := Released(s.(info := Saved(i), summed := set_), t))
  {
    var torn, saved := s.(info := Torn), s.(info := Saved(i), summed := set_);
    GoHeld(torn, t, Saving(job, i, set_), Writing(job, i, set_));
    more := MoveOn(w, steps, v, t, Truncate, Held(torn, t, Writing(job, i, set_)));
    GoHeld(saved, t, Writing(job, i, set_), Leaving);
    more := MoveOn(w, more, v.(s := Held(torn, t, Writing(job, i, set_))), t, Write, Held(saved, t, Leaving));
    GoHeld(saved, t, Leaving, Idle);
    more := MoveOn(w, more, v.(s := Held(saved, t, Leaving)), t, Unlock, Released(saved, t));
  }

  lemma VisitsOne(s: State, t: Tid, job: Job, todo: set<nat>, found: Info, seen: set<nat>, n: nat)
    requires n in todo && n in s.files
    ensures Do(Held(s, t, Scanning(job, todo, found, seen)), t, Visit(n)) ==
            Held(s, t, Scanning(job, todo - {n}, Counted(found, n), seen + {n}))
  {
    GoHeld(s, t, Scanning(job, todo, found, seen), Scanning(job, todo - {n}, Counted(found, n), seen + {n}));
  }

  lemma {:induction false} VisitsAll(w: World, steps: seq<Step>, v: World, s: State, t: Tid, job: Job,
                                     todo: set<nat>, found: Info, seen: set<nat>)
    returns (more: seq<Step>)
    requires Exec(w, steps) == v && v.ids.Keys == v.s.files && v.s == Held(s, t, Scanning(job, todo, found, seen))
    requires IsSummary(found, seen) && todo !! seen && todo + seen == s.files
    ensures Exec(w, more) == v.(s := Held(s, t, Scanning(job, {}, Summary(s.files), s.files)))
    decreases todo
  {
    if todo == {} {
      assert seen == s.files;
      SummaryIs(found, seen);
      more := steps;
    } else {
      var n :| n in todo;
      CountedIsSummary(found, seen, n);
      var rest, found2, seen2 := todo - {n}, Counted(found, n), seen + {n};
      var s2 := Held(s, t, Scanning(job, rest, found2, seen2));
      VisitsOne(s, t, job, todo, found, seen, n);
      more := MoveOn(w, steps, v, t, Visit(n), s2);
      more := VisitsAll(w, more, v.(s := s2), s, t, job, rest, found2, seen2);
    }
  }

  /** A whole scan inside the exclusive section; a poster scans only if there is no `.info`. */
  lemma Scans(w: World, steps: seq<Step>, v: World, s: State, t: Tid, job: Job) returns (more: seq<Step>)
    requires Exec(w, steps) == v && v.ids.Keys == v.s.files && v.s == Held(s, t, Entered(job))
    requires job.Posting? ==> s.info.Missing?
    ensures Exec(w, more) == v.(s := Held(s, t, Saving(job, Summary(s.files), s.files)))
  {
    var start := Scanning(job, s.files, NO_ARTICLES, {});
    GoHeld(s, t, Entered(job), start);
    more := MoveOn(w, steps, v, t, Enter, Held(s, t, start));
    more := VisitsAll(w, more, v.(s := Held(s, t, start)), s, t, job, s.files, NO_ARTICLES, {});
    var done, i := Scanning(job, {}, Summary(s.files), s.files), Summary(s.files);
    GoHeld(s, t, done, Saving(job, i, s.files));
    more := MoveOn(w, more, v.(s := Held(s, t, done)), t, EndScan, Held(s, t, Saving(job, i, s.files)));
  }

  /** A canceller that has removed its article rebuilds, undisturbed. */
  lemma Rebuilds(w: World, steps: seq<Step>, v: World, t: Tid, job: Job) returns (more: seq<Step>)
    requires Exec(w, steps) == v && v.ids.Keys == v.s.files
    requires v.s.lock.Free? && job.Removing? && PcOf(v.s, t) == WantLock(job)
    ensures Exec(w, more) == v.(s := Released(v.s.(info := Saved(Summary(v.s.files)), summed := v.s.files), t))
  {
    var s, i := v.s, Summary(v.s.files);
    more := MoveOn(w, steps, v, t, LockEx, Held(s, t, Entered(job)));
    more := Scans(w, more, v.(s := Held(s, t, Entered(job))), s, t, job);
    more := Saves(w, more, v.(s := Held(s, t, Saving(job, i, s.files))), s, t, job, i, s.files);
  }

  /** A poster tries the numbers that are taken. */
  lemma {:induction false} Tries(w: World, steps: seq<Step>, v: World, s: State, t: Tid, c: nat, i: Info, free: nat)
    returns (more: seq<Step>)
    requires Exec(w, steps) == v && v.ids.Keys == v.s.files && v.s == Held(s, t, Allocating(c, i))
    requires c <= free && forall k :: c <= k < free ==> k in s.files || k in s.blocked
    ensures Exec(w, more) == v.(s := Held(s, t, Allocating(free, i)))
    decreases free - c
  {
    if c == free {
      more := steps;
    } else {
      GoHeld(s, t, Allocating(c, i), Allocating(c + 1, i));
      more := MoveOn(w, steps, v, t, Probe, Held(s, t, Allocating(c + 1, i)));
      more := Tries(w, more, v.(s := Held(s, t, Allocating(c + 1, i))), s, t, c + 1, i, free);
    }
  }

  lemma ProbeStores(s: State, t: Tid, c: nat, i: Info)
    requires c !in s.files && c !in s.blocked
    ensures Do(Held(s, t, Allocating(c, i)), t, Probe) ==
            Held(s.(files := s.files + {c}), t, Saving(Posted, Bumped(i, c), s.summed + {c}))
  {
    GoHeld(s.(files := s.files + {c}), t, Allocating(c, i), Saving(Posted, Bumped(i, c), s.summed + {c}));
  }

  lemma IdsGrow(v: World, s2: State, c: nat, id: string)
    requires v.ids.Keys == v.s.files && c !in v.s.files && s2.files == v.s.files + {c}
    ensures IdsAfter(v, s2, id) == v.ids[c := id]
  {
  }

  /** The step that stores an article. */
  lemma StoresOne(w: World, steps: seq<Step>, v: World, s: State, t: Tid, c: nat, i: Info, id: string)
    returns (more: seq<Step>)
    requires Exec(w, steps) == v && v.ids.Keys == v.s.files && v.s == Held(s, t, Allocating(c, i))
    requires c !in s.files && c !in s.blocked
    ensures Exec(w, more) == v.(s := Held(s.(files := s.files + {c}), t, Saving(Posted, Bumped(i, c), s.summed + {c})),
                                ids := v.ids[c := id])
  {
    more := steps + [Move(t, Probe, id)];
    OneMore(w, steps, Move(t, Probe, id));
    ProbeStores(s, t, c, i);
    IdsGrow(v, Do(v.s, t, Probe), c, id);
  }

  /** A group in which nobody is busy and whose `.info` is there. */
  predicate Resting(v: World, t: Tid) {
    v.ids.Keys == v.s.files && v.s.lock.Free? && v.s.info.Saved? && PcOf(v.s, t).Idle?
  }

  lemma AsksForLock(w: World, steps: seq<Step>, v: World, t: Tid) returns (more: seq<Step>)
    requires Exec(w, steps) == v && v.ids.Keys == v.s.files && v.s.lock.Free? && PcOf(v.s, t).Idle?
    ensures Exec(w, more) == v.(s := Held(v.s, t, Entered(Posting)))
  {
    var s := v.s;
    var wants := s.(pcs := s.pcs[t := WantLock(Posting)]);
    more := MoveOn(w, steps, v, t, StartPost, wants);
    assert Do(wants, t, LockEx) == Held(s, t, Entered(Posting));
    more := MoveOn(w, more, v.(s := wants), t, LockEx, Held(s, t, Entered(Posting)));
  }

  lemma TakenBelow(from: nat, files: set<nat>, blocked: set<nat>)
    ensures var c := LeastFree(from, files + blocked);
            && c !in files && c !in blocked
            && forall k :: from <= k < c ==> k in files || k in blocked
  {
    var c := LeastFree(from, files + blocked);
    assert c !in files + blocked;
    forall k | from <= k < c ensures k in files || k in blocked {
      assert k in files + blocked;
    }
  }

  lemma EntersPosting(s: State, t: Tid, i: Info)
    requires s.info == Saved(i)
    ensures Do(Held(s, t, Entered(Posting)), t, Enter) == Held(s, t, Allocating(i.end + 1, i))
  {
    GoHeld(s, t, Entered(Posting), Allocating(i.end + 1, i));
  }

  /** The directory once a post has stored an article under number c. */
  function Grown(s: State, t: Tid, c: nat, i: Info): State {
    Released(s.(files := s.files + {c}, info := Saved(Bumped(i, c)), summed := s.summed + {c}), t)
  }

  /** From the search for a free number to the end of a post. */
  lemma Finishes(w: World, steps: seq<Step>, v: World, s: State, t: Tid, i: Info, c: nat, id: string)
    returns (more: seq<Step>)
    requires Exec(w, steps) == v && v.ids.Keys == v.s.files && v.s == Held(s, t, Allocating(i.end + 1, i))
    requires c == LeastFree(i.end + 1, s.files + s.blocked)
    ensures Exec(w, more) == v.(s := Grown(s, t, c, i), ids := v.ids[c := id])
  {
    TakenBelow(i.end + 1, s.files, s.blocked);
    more := Tries(w, steps, v, s, t, i.end + 1, i, c);
    more := StoresOne(w, more, v.(s := Held(s, t, Allocating(c, i))), s, t, c, i, id);
    var s2, next := s.(files := s.files + {c}), s.summed + {c};
    var v2 := v.(s := Held(s2, t, Saving(Posted, Bumped(i, c), next)), ids := v.ids[c := id]);
    more := Saves(w, more, v2, s2, t, Posted, Bumped(i, c), next);
  }

  /** A post from beginning to end, undisturbed: under the first free number above End. */
  lemma PostsOne(w: World, steps: seq<Step>, v: World, t: Tid, id: string) returns (more: seq<Step>, r: World, c: nat)
    requires Exec(w, steps) == v && Resting(v, t)
    ensures c == LeastFree(v.s.info.info.end + 1, v.s.files + v.s.blocked)
    ensures Exec(w, more) == r && Resting(r, t) && r.found == v.found && r.ids == v.ids[c := id]
    ensures r.s == Grown(v.s, t, c, v.s.info.info)
    ensures r.s.blocked == v.s.blocked && r.s.info.info.end == c && forall u :: u != t ==> PcOf(r.s, u) == PcOf(v.s, u)
  {
    var s, i := v.s, v.s.info.info;
    c := LeastFree(i.end + 1, s.files + s.blocked);
    more := AsksForLock(w, steps, v, t);
    EntersPosting(s, t, i);
    var first := Held(s, t, Allocating(i.end + 1, i));
    more := MoveOn(w, more, v.(s := Held(s, t, Entered(Posting))), t, Enter, first);
    more := Finishes(w, more, v.(s := first), s, t, i, c, id);
    r := v.(s := Grown(s, t, c, i), ids := v.ids[c := id]);
  }

  /** Saving what a poster has scanned leads on to the search for a free number. */
  lemma SavesScan(w: World, steps: seq<Step>, v: World, s: State, t: Tid, i: Info) returns (more: seq<Step>)
    requires Exec(w, steps) == v && v.ids.Keys == v.s.files && v.s == Held(s, t, Saving(Posting, i, s.files))
    ensures Exec(w, more) ==
              v.(s := Held(s.(info := Saved(i), summed := s.files), t, Allocating(i.end + 1, i)))
  {
    var torn, saved := s.(info := Torn), s.(info := Saved(i), summed := s.files);
    GoHeld(torn, t, Saving(Posting, i, s.files), Writing(Posting, i, s.files));
    more := MoveOn(w, steps, v, t, Truncate, Held(torn, t, Writing(Posting, i, s.files)));
    GoHeld(saved, t, Writing(Posting, i, s.files), Allocating(i.end + 1, i));
    more := MoveOn(w, more, v.(s := Held(torn, t, Writing(Posting, i, s.files))), t, Write,
                   Held(saved, t, Allocating(i.end + 1, i)));
  }

  /** A poster that finds no `.info` scans. */
  lemma PostScans(w: World, steps: seq<Step>, v: World, s: State, t: Tid, i: Info) returns (more: seq<Step>)
    requires Exec(w, steps) == v && v.ids.Keys == v.s.files && s == v.s && IsSummary(i, s.files)
    requires s.lock.Free? && s.info.Missing? && PcOf(s, t).Idle?
    ensures Exec(w, more) == v.(s := Held(s, t, Saving(Posting, i, s.files)))
  {
    SummaryIs(i, s.files);
    more := AsksForLock(w, steps, v, t);
    more := Scans(w, more, v.(s := Held(s, t, Entered(Posting))), s, t, Posting);
  }

  /** The directory with a summary saved. */
  function WithInfo(s: State, i: Info): State {
    s.(info := Saved(i), summed := s.files)
  }

  /** What a poster does once it has scanned. */
  lemma FromScanOn(w: World, steps: seq<Step>, v: World, s: State, t: Tid, i: Info, c: nat, id: string)
    returns (more: seq<Step>)
    requires Exec(w, steps) == v && v.ids.Keys == v.s.files && v.s == Held(s, t, Saving(Posting, i, s.files))
    requires c == LeastFree(i.end + 1, s.files + s.blocked)
    ensures Exec(w, more) == v.(s := Grown(WithInfo(s, i), t, c, i), ids := v.ids[c := id])
  {
    var s1 := WithInfo(s, i);
    var next := v.(s := Held(s1, t, Allocating(i.end + 1, i)));
    more := SavesScan(w, steps, v, s, t, i);
    more := Finishes(w, more, next, s1, t, i, c, id);
  }

  /**
    A post that begins without `.info`, undisturbed, scans first and then stores its article too, under the
    first free number above the greatest, and leaves the summary of the scan with that article counted in.
   */
  lemma PostsWithoutInfo(w: World, steps: seq<Step>, v: World, t: Tid, i: Info, c: nat, id: string)
    returns (more: seq<Step>)
    requires Exec(w, steps) == v && v.ids.Keys == v.s.files
    requires v.s.lock.Free? && v.s.info.Missing? && PcOf(v.s, t).Idle?
    requires IsSummary(i, v.s.files) && c == LeastFree(i.end + 1, v.s.files + v.s.blocked)
    ensures Exec(w, more) == v.(s := Grown(WithInfo(v.s, i), t, c, i), ids := v.ids[c := id])
  {
    more := PostScans(w, steps, v, v.s, t, i);
    more := FromScanOn(w, more, v.(s := Held(v.s, t, Saving(Posting, i, v.s.files))), v.s, t, i, c, id);
  }

  lemma FreeIsReached(from: nat, files: set<nat>, blocked: set<nat>, n: nat)
    requires from <= n && n !in files && n !in blocked
    ensures LeastFree(from, files + blocked) <= n
  {
    assert n !in files + blocked;
  }

  /** Posts go on until they reach a number above End that is free. */
  lemma {:induction false} PostsUpTo(w: World, steps: seq<Step>, v: World, t: Tid, n: nat, id: string)
    returns (more: seq<Step>, r: World)
    requires Exec(w, steps) == v && Resting(v, t)
    requires v.s.info.info.end < n && n !in v.s.files && n !in v.s.blocked
    ensures Exec(w, more) == r && Named(r, n, id) && n in r.s.files && r.found == v.found
    ensures forall u :: u != t ==> PcOf(r.s, u) == PcOf(v.s, u)
    decreases n - v.s.info.info.end
  {
    FreeIsReached(v.s.info.info.end + 1, v.s.files, v.s.blocked, n);
    var next, c;
    more, next, c := PostsOne(w, steps, v, t, id);
    r := next;
    if c < n {
      assert n !in next.ids.Keys;
      more, r := PostsUpTo(w, more, next, t, n, id);
    }
  }

  /** Threads 0 and 1 both find the article, and thread 1 removes it. */
  lemma FoundTwice(w: World, n: nat) returns (steps: seq<Step>, v: World)
    requires Quiet(w) && n in w.s.files
    ensures Exec(w, steps) == v && v.found == map[0 := Found(n, w.ids[n])]
    ensures v.s == w.s.(files := w.s.files - {n}, pcs := map[1 := WantLock(Removing(n))])
    ensures v.ids.Keys == v.s.files
  {
    var id := w.ids[n];
    var w1 := w.(found := map[0 := Found(n, id)]);
    var w2 := w.(found := map[0 := Found(n, id), 1 := Found(n, id)]);
    steps := [Find(0, n, id)] + [Find(1, n, id)] + [RemoveFound(1)];
    assert Exec(w, []) == w && [] + [Find(0, n, id)] == [Find(0, n, id)];
    OneMore(w, [], Find(0, n, id));
    assert Take(w, Find(0, n, id)) == w1;
    OneMore(w, [Find(0, n, id)], Find(1, n, id));
    assert Take(w1, Find(1, n, id)) == w2;
    OneMore(w, [Find(0, n, id)] + [Find(1, n, id)], RemoveFound(1));
    v := Take(w2, RemoveFound(1));
    assert w2.found - {1} == map[0 := Found(n, id)];
    TakeKeeps(w2, RemoveFound(1));
  }

  lemma EndBelow(files: set<nat>, n: nat)
    requires n > 0 && n !in files && forall x :: x in files ==> x <= n
    ensures Summary(files).end < n
  {
    if files != {} {
      assert Summary(files).end in files;
    }
  }

  /** Threads 0 and 1 both find the greatest article, and thread 1 carries out its cancel. */
  lemma FoundAndGone(w: World, n: nat) returns (steps: seq<Step>, v: World)
    requires Quiet(w) && n in w.s.files && Greatest(w.s, n)
    ensures Exec(w, steps) == v && v.found == map[0 := Found(n, w.ids[n])]
    ensures Resting(v, 2) && PcOf(v.s, 0) == Idle
    ensures n !in v.s.files && n !in v.s.blocked && v.s.info.info.end < n
  {
    steps, v := FoundTwice(w, n);
    steps := Rebuilds(w, steps, v, 1, Removing(n));
    EndBelow(v.s.files, n);
    v := v.(s := Released(v.s.(info := Saved(Summary(v.s.files)), summed := v.s.files), 1));
  }

  lemma RemovesWhatIsThere(r: World, t: Tid)
    requires t in r.found && r.found[t].n in r.s.files && PcOf(r.s, t) == Idle
    ensures r.found[t].n !in Take(r, RemoveFound(t)).s.files
  {
  }

  /**
    The greatest article, found by two cancels: one removes it, posts come to its number again, and the
    other cancel is left to remove what is there now, under any Message-ID.
   */
  lemma AnotherIsRemoved(w: World, n: nat, b: string) returns (steps: seq<Step>)
    requires Quiet(w) && n in w.s.files && Greatest(w.s, n)
    ensures var r := Exec(w, steps);
            && KeepsAbove(w, steps, n)
            && 0 in r.found && r.found[0] == Found(n, w.ids[n])
            && Named(r, n, b) && n in r.s.files && n !in Take(r, RemoveFound(0)).s.files
  {
    var v, r;
    steps, v := FoundAndGone(w, n);
    steps, r := PostsUpTo(w, steps, v, 2, n, b);
    RemovesWhatIsThere(r, 0);
  }
}
