/**
  A newsgroup as the server sees it on disk (internal/group/group.go): article files by number, the
  numbers whose path is taken by something that is not a file, and the cached summary `.info`.
 */
module Spool {
  import opened Text

  datatype Info = Info(start: nat, end: nat, total: nat)

  const NO_ARTICLES := Info(0, 0, 0)

  datatype Stored = Stored(text: string, mtime: int)

  /**
    `blocked` holds the numbers whose article path is a directory. With the flat layout the
    directory of group "alt.1" sits where article 1 of group "alt" would.
   */
  datatype GroupView = GroupView(info: Option<Info>, files: map<nat, Stored>, blocked: set<nat>)

  // ----- the summary of a set of articles -----

  /** start, end and total are the least number, the greatest number and the count; zeros when empty. */
  ghost predicate IsSummary(i: Info, s: set<nat>) {
    && i.total == |s|
    && (s == {} ==> i == NO_ARTICLES)
    && (s != {} ==> i.start in s && i.end in s && forall x :: x in s ==> i.start <= x <= i.end)
  }

  lemma SummaryUnique(a: Info, b: Info, s: set<nat>)
    requires IsSummary(a, s) && IsSummary(b, s)
    ensures a == b
  {
    if s != {} {
      assert a.start <= b.start <= a.start && a.end <= b.end <= a.end;
    }
  }

  /** What BuildInfo does with each article it counts. */
  function Counted(i: Info, n: nat): Info {
    Info(if i.total == 0 || n < i.start then n else i.start,
         if i.total == 0 || n > i.end then n else i.end,
         i.total + 1)
  }

  lemma CountedIsSummary(i: Info, s: set<nat>, n: nat)
    requires IsSummary(i, s) && n !in s
    ensures IsSummary(Counted(i, n), s + {n})
  {
  }

  ghost function Summary(s: set<nat>): (i: Info)
    ensures IsSummary(i, s)
  {
    if s == {} then NO_ARTICLES
    else
      var n :| n in s;
      var rest := Summary(s - {n});
      CountedIsSummary(rest, s - {n}, n);
      assert s - {n} + {n} == s;
      Counted(rest, n)
  }

  lemma SummaryIs(i: Info, s: set<nat>)
    requires IsSummary(i, s)
    ensures Summary(s) == i
  {
    SummaryUnique(i, Summary(s), s);
  }

  /**
    A summary whose total and end are right, and whose start is no more than the least number: the
    least number itself, or the 1 that Post writes without looking.
   */
  ghost predicate IsNearSummary(i: Info, s: set<nat>) {
    && i.total == |s|
    && (s == {} ==> i == NO_ARTICLES)
    && (s != {} ==> i.end in s && (i.start in s || i.start == 1) && forall x :: x in s ==> i.start <= x <= i.end)
  }

  // ----- operations -----

  predicate Taken(v: GroupView, n: nat) {
    n in v.files || n in v.blocked
  }

  function TakenSet(v: GroupView): set<nat> {
    v.files.Keys + v.blocked
  }

  /** The first number from `from` on that is not taken; the numbers still taken above bound the search. */
  ghost function LeastFree(from: nat, taken: set<nat>): (n: nat)
    ensures n >= from && n !in taken
    ensures forall k :: from <= k < n ==> k in taken
    decreases |set x | x in taken && x >= from|
  {
    if from !in taken then from
    else
      TakenAboveShrinks(from, taken);
      LeastFree(from + 1, taken)
  }

  /** Stepping over a taken number leaves fewer taken numbers ahead. */
  lemma TakenAboveShrinks(from: nat, taken: set<nat>)
    requires from in taken
    ensures |set x | x in taken && x >= from + 1| < |set x | x in taken && x >= from|
  {
    var above, here := (set x | x in taken && x >= from + 1), (set x | x in taken && x >= from);
    assert here == above + {from};
  }

  /** LoadInfo: the cached summary, or a scan when there is none. */
  ghost function LoadView(v: GroupView): GroupView {
    if v.info.Some? then v else BuildView(v)
  }

  /** BuildInfo: a scan of the files, saved. */
  ghost function BuildView(v: GroupView): GroupView {
    v.(info := Some(Summary(v.files.Keys)))
  }

  /** The summary Post saves after it has stored number n. */
  function Bumped(i: Info, n: nat): Info {
    Info(if i.total == 0 && i.start == 0 then 1 else i.start, n, i.total + 1)
  }

  /** The number Post allocates. */
  ghost function NextNumber(v: GroupView): nat {
    LeastFree(LoadView(v).info.value.end + 1, TakenSet(v))
  }

  /** Post: allocate above End, store, and update the summary without a scan. */
  ghost function PostView(v: GroupView, article: nat -> Stored): GroupView {
    var n := NextNumber(v);
    v.(info := Some(Bumped(LoadView(v).info.value, n)), files := v.files[n := article(n)])
  }

  /** Post interrupted before SaveInfo: the file is there, the summary is not updated. */
  ghost function CrashedPostView(v: GroupView, article: nat -> Stored): GroupView {
    v.(info := LoadView(v).info, files := v.files[NextNumber(v) := article(NextNumber(v))])
  }

  /** DeleteArticle: an article that is not a file cannot be removed and nothing changes. */
  ghost function DeleteView(v: GroupView, n: nat): GroupView {
    if n in v.files then BuildView(v.(files := v.files - {n})) else v
  }

  // ----- number allocation, whatever .info says -----

  /**
    Post never overwrites: for any summary and any files, it stores under the least free number
    above End and leaves every other article as it was.
   */
  lemma PostAllocatesSafely(v: GroupView, article: nat -> Stored)
    ensures var n, after := NextNumber(v), PostView(v, article);
            && !Taken(v, n) && n > LoadView(v).info.value.end
            && (forall k :: LoadView(v).info.value.end < k < n ==> Taken(v, k))
            && after.files.Keys == v.files.Keys + {n}
            && (forall k :: k in v.files ==> after.files[k] == v.files[k])
            && after.files[n] == article(n)
            && after.info.value.end == n
  {
    forall k | LoadView(v).info.value.end < k < NextNumber(v) ensures Taken(v, k) {
      assert k in TakenSet(v);
    }
  }

  // ----- agreement of .info with the files -----

  ghost predicate Consistent(v: GroupView) {
    v.info.Some? ==> IsSummary(v.info.value, v.files.Keys)
  }

  lemma FirstPost(v: GroupView, article: nat -> Stored)
    requires Consistent(v) && v.files == map[]
    ensures Consistent(PostView(v, article)) <==> 1 !in v.blocked
  {
    var i, n := LoadView(v).info.value, NextNumber(v);
    assert v.files.Keys == {} && i == NO_ARTICLES;
    var after := PostView(v, article);
    assert after.files.Keys == {n} && after.info == Some(Info(1, n, 1));
    if 1 !in v.blocked {
      assert n == 1;
    } else {
      assert n != 1 && 1 !in after.files.Keys;
    }
  }

  lemma LaterPost(v: GroupView, article: nat -> Stored)
    requires Consistent(v) && v.files != map[]
    ensures Consistent(PostView(v, article))
  {
    var i, n := LoadView(v).info.value, NextNumber(v);
    assert IsSummary(i, v.files.Keys) && i.start in v.files.Keys;
    var keys := v.files.Keys + {n};
    assert PostView(v, article).files.Keys == keys;
    assert |keys| == |v.files.Keys| + 1;
  }

  /**
    The incremental update of Post agrees with a fresh scan exactly when the group already holds
    an article or number 1 is free to take: Start is set to 1 without looking at the number allocated.
   */
  lemma PostKeepsConsistent(v: GroupView, article: nat -> Stored)
    requires Consistent(v)
    ensures Consistent(PostView(v, article)) <==> v.files != map[] || 1 !in v.blocked
  {
    if v.files == map[] {
      FirstPost(v, article);
    } else {
      LaterPost(v, article);
    }
  }

  datatype Op = OpPost(article: nat -> Stored) | OpDelete(n: nat) | OpBuild | OpLoad

  ghost function Apply(v: GroupView, op: Op): GroupView {
    match op
    case OpPost(article) => PostView(v, article)
    case OpDelete(n) => DeleteView(v, n)
    case OpBuild => BuildView(v)
    case OpLoad => LoadView(v)
  }

  ghost function Run(v: GroupView, ops: seq<Op>): GroupView {
    if ops == [] then v else Apply(Run(v, ops[..|ops| - 1]), ops[|ops| - 1])
  }

  /** A new group: no article yet, and a summary that says so or none at all. */
  ghost predicate Fresh(v: GroupView) {
    v.files == map[] && Consistent(v)
  }

  lemma {:induction false} RunKeepsConsistent(v: GroupView, ops: seq<Op>)
    requires Fresh(v) && 1 !in v.blocked
    ensures var r := Run(v, ops);
            Consistent(r) && r.blocked == v.blocked && 0 !in r.files && (ops != [] ==> r.info.Some? || r == v)
  {
    if ops != [] {
      var before, op := Run(v, ops[..|ops| - 1]), ops[|ops| - 1];
      RunKeepsConsistent(v, ops[..|ops| - 1]);
      if op.OpPost? {
        PostKeepsConsistent(before, op.article);
      }
    }
  }

  lemma FirstPostBreaks(v: GroupView) returns (ops: seq<Op>)
    requires Fresh(v) && 1 in v.blocked
    ensures !Consistent(Run(v, ops))
  {
    var article: nat -> Stored := _ => Stored("", 0);
    ops := [OpPost(article)];
    PostKeepsConsistent(v, article);
    assert Run(v, ops) == Apply(Run(v, ops[..0]), ops[0]);
    assert Run(v, []) == v;
  }

  /**
    Over every sequential run from a new group, the summary equals a fresh scan -- if and only if
    no directory stands where article 1 goes.
   */
  lemma RunsConsistent(v: GroupView)
    requires Fresh(v)
    ensures (forall ops :: Consistent(Run(v, ops))) <==> 1 !in v.blocked
  {
    if 1 !in v.blocked {
      forall ops ensures Consistent(Run(v, ops)) {
        RunKeepsConsistent(v, ops);
      }
    } else {
      var ops := FirstPostBreaks(v);
    }
  }

  // ----- what holds along every run, whatever directories there are -----

  /** Adding a number above End as Post does keeps a summary near. */
  lemma BumpedIsNear(i: Info, s: set<nat>, n: nat)
    requires IsNearSummary(i, s) && n > i.end
    ensures IsNearSummary(Bumped(i, n), s + {n})
  {
    assert n !in s;
  }

  ghost predicate Near(v: GroupView) {
    v.info.Some? ==> IsNearSummary(v.info.value, v.files.Keys)
  }

  lemma ApplyKeepsNear(v: GroupView, op: Op)
    requires Near(v)
    ensures Near(Apply(v, op)) && (0 !in v.files ==> 0 !in Apply(v, op).files)
  {
    if op.OpPost? {
      var i, n := LoadView(v).info.value, NextNumber(v);
      PostAllocatesSafely(v, op.article);
      BumpedIsNear(i, v.files.Keys, n);
      assert PostView(v, op.article).files.Keys == v.files.Keys + {n};
    }
  }

  lemma {:induction false} RunKeepsNear(v: GroupView, ops: seq<Op>)
    requires Fresh(v)
    ensures Near(Run(v, ops)) && 0 !in Run(v, ops).files
  {
    if ops != [] {
      RunKeepsNear(v, ops[..|ops| - 1]);
      ApplyKeepsNear(Run(v, ops[..|ops| - 1]), ops[|ops| - 1]);
    }
  }

  /**
    Along every run from a new group Start is 0 exactly when the group is empty and never above End,
    and End and Total are always those of a rescan; only Start can be wrong, and then it is 1.
   */
  lemma StartZeroIffEmpty(v: GroupView, ops: seq<Op>)
    requires Fresh(v) && Run(v, ops).info.Some?
    ensures var r := Run(v, ops);
            var i, scan := r.info.value, Summary(r.files.Keys);
            && (i.start == 0 <==> r.files == map[]) && i.start <= i.end
            && i.end == scan.end && i.total == scan.total
            && (i.start == scan.start || i.start == 1 < scan.start)
  {
    RunKeepsNear(v, ops);
    var r := Run(v, ops);
    var i, scan := r.info.value, Summary(r.files.Keys);
    if r.files == map[] {
      assert r.files.Keys == {};
    } else {
      var n :| n in r.files;
      assert n in r.files.Keys && scan.start in r.files.Keys && i.end in r.files.Keys;
    }
  }

  ghost predicate Ordered(v: GroupView) {
    v.info.Some? ==> v.info.value.start <= v.info.value.end
  }

  /** Start never rises above End, in agreement with the files or not, with a crash in between or not. */
  lemma OrderIsKept(v: GroupView, op: Op, article: nat -> Stored)
    requires Ordered(v)
    ensures Ordered(Apply(v, op)) && Ordered(CrashedPostView(v, article))
  {
    SummaryOrdered(v.files.Keys);
    if op.OpDelete? {
      SummaryOrdered((v.files - {op.n}).Keys);
    }
  }

  lemma SummaryOrdered(s: set<nat>)
    ensures Summary(s).start <= Summary(s).end
  {
    var i := Summary(s);
    if s != {} {
      assert i.end in s;
    }
  }

  /** After a crash the next removal or rebuild restores agreement, whatever was on disk. */
  lemma RebuildRestores(v: GroupView, n: nat)
    ensures Consistent(BuildView(v))
    ensures n in v.files ==> Consistent(DeleteView(v, n)) && DeleteView(v, n).files == v.files - {n}
  {
  }

  /** The operation scans a group that has a summary: a rebuild, or a removal of an article that is there. */
  predicate Scans(v: GroupView, op: Op) {
    op.OpBuild? || (op.OpDelete? && op.n in v.files)
  }

  ghost predicate ScansAt(v: GroupView, ops: seq<Op>, i: nat) {
    i < |ops| && Scans(Run(v, ops[..i]), ops[i])
  }

  /** Some operation of the run scans. */
  ghost predicate ScansInRun(v: GroupView, ops: seq<Op>) {
    exists i :: ScansAt(v, ops, i)
  }

  lemma ScansAtPrefix(v: GroupView, ops: seq<Op>, n: nat, i: nat)
    requires i < n <= |ops|
    ensures ScansAt(v, ops[..n], i) <==> ScansAt(v, ops, i)
  {
    assert ops[..n][..i] == ops[..i];
  }

  lemma ScansInPrefix(v: GroupView, ops: seq<Op>, n: nat)
    requires n <= |ops| && ScansInRun(v, ops[..n])
    ensures ScansInRun(v, ops)
  {
    var i: nat :| ScansAt(v, ops[..n], i);
    ScansAtPrefix(v, ops, n, i);
  }

  lemma ScansEarlier(v: GroupView, ops: seq<Op>, n: nat, i: nat)
    requires i < n <= |ops| && ScansAt(v, ops, i)
    ensures ScansInRun(v, ops[..n])
  {
    ScansAtPrefix(v, ops, n, i);
  }

  lemma ScanIndex(v: GroupView, ops: seq<Op>) returns (i: nat)
    requires ScansInRun(v, ops)
    ensures ScansAt(v, ops, i) && i < |ops|
  {
    i :| ScansAt(v, ops, i);
  }

  lemma NoScanInLonger(v: GroupView, ops: seq<Op>, n: nat)
    requires |ops| == n + 1 && !ScansInRun(v, ops[..n]) && !ScansAt(v, ops, n)
    ensures !ScansInRun(v, ops)
  {
    if ScansInRun(v, ops) {
      var i := ScanIndex(v, ops);
      assert i != n;
      ScansEarlier(v, ops, n, i);
    }
  }

  /** Some earlier operation scans, or the last one does. */
  lemma ScansInLonger(v: GroupView, ops: seq<Op>, n: nat)
    requires |ops| == n + 1
    ensures ScansInRun(v, ops) <==> ScansInRun(v, ops[..n]) || ScansAt(v, ops, n)
  {
    if ScansInRun(v, ops[..n]) {
      ScansInPrefix(v, ops, n);
    } else if !ScansAt(v, ops, n) {
      NoScanInLonger(v, ops, n);
    }
  }

  /** The summary leaves one article out. */
  ghost predicate OneShort(v: GroupView) {
    v.info.Some? && |v.files.Keys| == v.info.value.total + 1
  }

  lemma CrashIsOneShort(v: GroupView, article: nat -> Stored)
    requires Near(v)
    ensures OneShort(CrashedPostView(v, article)) && CrashedPostView(v, article).blocked == v.blocked
  {
    PostAllocatesSafely(v, article);
    assert CrashedPostView(v, article).files.Keys == v.files.Keys + {NextNumber(v)};
  }

  /** What does not scan keeps the summary one short; what scans gives a right one. */
  lemma StepFromOneShort(v: GroupView, op: Op)
    requires OneShort(v)
    ensures Apply(v, op).blocked == v.blocked
    ensures if Scans(v, op) then Apply(v, op).info.Some? && Consistent(Apply(v, op)) else OneShort(Apply(v, op))
  {
    if op.OpPost? {
      PostAllocatesSafely(v, op.article);
      assert NextNumber(v) !in v.files.Keys;
    }
  }

  /** And a right one stays right, but for the Start of a first post beside a directory. */
  lemma StepFromNear(v: GroupView, op: Op)
    requires v.info.Some? && Near(v)
    ensures Apply(v, op).info.Some? && Near(Apply(v, op)) && Apply(v, op).blocked == v.blocked
    ensures Consistent(v) && 1 !in v.blocked ==> Consistent(Apply(v, op))
  {
    ApplyKeepsNear(v, op);
    if op.OpPost? && Consistent(v) {
      PostKeepsConsistent(v, op.article);
    }
  }

  /**
    A crash before the summary is saved leaves it one article short. End and Total are right again if and
    only if a later operation scans, a rebuild or a removal of an article that is there; whatever else
    runs keeps it exactly one short. Where number 1 is free the same goes for the whole summary.
   */
  lemma {:induction false} CrashHealsByScan(v: GroupView, article: nat -> Stored, ops: seq<Op>)
    requires Near(v)
    ensures var crashed := CrashedPostView(v, article);
            var r := Run(crashed, ops);
            && r.info.Some? && r.blocked == v.blocked
            && (Near(r) <==> ScansInRun(crashed, ops))
            && (!ScansInRun(crashed, ops) ==> OneShort(r) && !Consistent(r))
            && (1 !in v.blocked ==> (Consistent(r) <==> ScansInRun(crashed, ops)))
  {
    var crashed := CrashedPostView(v, article);
    if ops == [] {
      CrashIsOneShort(v, article);
    } else {
      var n := |ops| - 1;
      var before := Run(crashed, ops[..n]);
      CrashHealsByScan(v, article, ops[..n]);
      ScansInLonger(crashed, ops, n);
      if ScansInRun(crashed, ops[..n]) {
        StepFromNear(before, ops[n]);
      } else {
        StepFromOneShort(before, ops[n]);
      }
    }
  }
}
