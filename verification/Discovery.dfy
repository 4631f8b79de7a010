/**
  Group names and paths: the walk that finds groups in the spool (internal/group/group.go, AllGroups),
  the name-to-directory map (internal/group/lock.go, Dirname) and article paths
  (internal/article/article.go, GetArticlePath).
 */
module Discovery {
  import opened Text
  import opened GroupList

  /**
    The directories in a directory, in the order they are read: name, whether it holds a .config
    file, what is below it, and the entries after it.
   */
  datatype Dirs = NoMore | Entry(name: string, isGroup: bool, below: Dirs, rest: Dirs)

  type Path = seq<string>

  predicate Hidden(name: string) {
    name != "" && name[0] == '.'
  }

  predicate Holds(dirs: Dirs, name: string) {
    dirs.Entry? && (dirs.name == name || Holds(dirs.rest, name))
  }

  /** What a file system can hold: names are there, hold no slash, and are unique in their directory. */
  predicate WellFormed(dirs: Dirs) {
    dirs.Entry? ==>
      && dirs.name != "" && '/' !in dirs.name && !Holds(dirs.rest, dirs.name)
      && WellFormed(dirs.below) && WellFormed(dirs.rest)
  }

  /** The path q leads through visible directories to a group. */
  predicate IsGroupAt(dirs: Dirs, q: Path) {
    && q != [] && dirs.Entry?
    && if dirs.name == q[0] then
         !Hidden(dirs.name) && if |q| == 1 then dirs.isGroup else IsGroupAt(dirs.below, q[1..])
       else IsGroupAt(dirs.rest, q)
  }

  /** No group lies on the way. */
  ghost predicate Topmost(dirs: Dirs, q: Path) {
    forall k :: 0 < k < |q| ==> !IsGroupAt(dirs, q[..k])
  }

  /** A group the walk should list: with NoRecurseMsgDir, one that lies below no other. */
  ghost predicate Wanted(dirs: Dirs, noRecurse: bool, q: Path) {
    IsGroupAt(dirs, q) && (noRecurse ==> Topmost(dirs, q))
  }

  // ----- the walk -----

  function Prefixed(name: string, qs: seq<Path>): (r: seq<Path>)
    ensures |r| == |qs|
  {
    seq(|qs|, i requires 0 <= i < |qs| => [name] + qs[i])
  }

  /** What one entry contributes: itself if it is a group, and what is found below it. */
  function Through(dirs: Dirs, noRecurse: bool): seq<Path>
    requires dirs.Entry?
    decreases dirs, 0
  {
    if Hidden(dirs.name) then []
    else (if dirs.isGroup then [[dirs.name]] else [])
         + (if noRecurse && dirs.isGroup then [] else Prefixed(dirs.name, Found(dirs.below, noRecurse)))
  }

  /** The groups under a directory, in the order the walk meets them. */
  function Found(dirs: Dirs, noRecurse: bool): seq<Path>
    decreases dirs, 1
  {
    if dirs.NoMore? then [] else Through(dirs, noRecurse) + Found(dirs.rest, noRecurse)
  }

  /** A group name is its path with dots. */
  function NamesOf(path: Path, qs: seq<Path>): (r: seq<string>)
    ensures |r| == |qs|
  {
    seq(|qs|, i requires 0 <= i < |qs| => Join(path + qs[i], '.'))
  }

  lemma {:induction false} JoinAppend(path: Path, name: string, sep: char)
    ensures Join(path + [name], sep) == if path == [] then name else Join(path, sep) + [sep] + name
  {
    if path == [] {
      assert path + [name] == [name];
    } else {
      assert (path + [name])[1..] == path[1..] + [name];
      JoinAppend(path[1..], name, sep);
    }
  }

  lemma NamesOfConcat(path: Path, a: seq<Path>, b: seq<Path>)
    ensures NamesOf(path, a + b) == NamesOf(path, a) + NamesOf(path, b)
  {
  }

  lemma NamesOfPrefixed(path: Path, name: string, qs: seq<Path>)
    ensures NamesOf(path, Prefixed(name, qs)) == NamesOf(path + [name], qs)
  {
    forall i | 0 <= i < |qs| ensures path + ([name] + qs[i]) == path + [name] + qs[i] {
    }
  }

  /** newSubdir */
  function PathUnder(subdir: string, name: string): string {
    if subdir != "" then subdir + "/" + name else name
  }

  /** groupName */
  function NameUnder(subdir: string, name: string): string {
    if subdir != "" then Replace(subdir, '/', '.') + "." + name else name
  }

  lemma {:induction false} JoinNotEmpty(path: Path, sep: char)
    requires path != [] && forall p :: p in path ==> p != ""
    ensures Join(path, sep) != ""
  {
    assert path[0] in path;
  }

  /** The strings the walk builds are the joined path. */
  lemma PathStep(path: Path, subdir: string, name: string)
    requires subdir == Join(path, '/') && forall p :: p in path ==> p != "" && '/' !in p
    requires name != ""
    ensures PathUnder(subdir, name) == Join(path + [name], '/')
    ensures NameUnder(subdir, name) == Join(path + [name], '.')
  {
    JoinAppend(path, name, '/');
    JoinAppend(path, name, '.');
    if path != [] {
      JoinNotEmpty(path, '/');
      ReplaceInJoin(path, '/', '.');
    }
  }

  /** The names one entry adds: its own, then those below it. */
  lemma ThroughNames(dirs: Dirs, noRecurse: bool, path: Path)
    requires dirs.Entry?
    ensures NamesOf(path, Through(dirs, noRecurse)) ==
            if Hidden(dirs.name) then []
            else (if dirs.isGroup then [Join(path + [dirs.name], '.')] else [])
                 + (if noRecurse && dirs.isGroup then [] else NamesOf(path + [dirs.name], Found(dirs.below, noRecurse)))
  {
    var own: seq<Path> := if dirs.isGroup then [[dirs.name]] else [];
    var below: seq<Path> := if noRecurse && dirs.isGroup then [] else Prefixed(dirs.name, Found(dirs.below, noRecurse));
    NamesOfConcat(path, own, below);
    NamesOfPrefixed(path, dirs.name, Found(dirs.below, noRecurse));
  }

  lemma AppendAssoc(a: seq<string>, b: seq<string>, c: seq<string>)
    ensures a + b + c == a + (b + c)
  {
  }

  /** allGroupsRecurse: one directory of the walk, appending to the list of names. */
  method AllGroupsRecurse(dirs: Dirs, subdir: string, noRecurse: bool, names0: seq<string>, ghost path: Path)
    returns (names: seq<string>)
    requires WellFormed(dirs)
    requires subdir == Join(path, '/') && forall p :: p in path ==> p != "" && '/' !in p
    ensures names == names0 + NamesOf(path, Found(dirs, noRecurse))
    decreases dirs
  {
    names := names0;
    var e := dirs;
    while e.Entry?
      invariant WellFormed(e) && (e == dirs || e < dirs)
      invariant names + NamesOf(path, Found(e, noRecurse)) == names0 + NamesOf(path, Found(dirs, noRecurse))
      decreases e
    {
      ghost var before, rest := names, NamesOf(path, Found(e.rest, noRecurse));
      NamesOfConcat(path, Through(e, noRecurse), Found(e.rest, noRecurse));
      names := VisitEntry(e, subdir, noRecurse, names, path);
      AppendAssoc(before, NamesOf(path, Through(e, noRecurse)), rest);
      e := e.rest;
    }
  }

  /** The loop body of allGroupsRecurse. */
  method VisitEntry(e: Dirs, subdir: string, noRecurse: bool, names0: seq<string>, ghost path: Path)
    returns (names: seq<string>)
    requires e.Entry? && WellFormed(e)
    requires subdir == Join(path, '/') && forall p :: p in path ==> p != "" && '/' !in p
    ensures names == names0 + NamesOf(path, Through(e, noRecurse))
    decreases e, 0
  {
    names := names0;
    ThroughNames(e, noRecurse, path);
    if e.name[0] == '.' {
      return;
    }
    PathStep(path, subdir, e.name);
    if e.isGroup {
      names := names + [NameUnder(subdir, e.name)];
    }
    ghost var own := if e.isGroup then [Join(path + [e.name], '.')] else [];
    assert names == names0 + own;
    if (noRecurse && !e.isGroup) || !noRecurse {
      var newSubdir := PathUnder(subdir, e.name);
      ghost var below := NamesOf(path + [e.name], Found(e.below, noRecurse));
      names := AllGroupsRecurse(e.below, newSubdir, noRecurse, names, path + [e.name]);
      AppendAssoc(names0, own, below);
      assert NamesOf(path, Through(e, noRecurse)) == own + below;
    } else {
      assert NamesOf(path, Through(e, noRecurse)) == own + [];
    }
  }

  /** The order of byte strings. */
  predicate Less(a: string, b: string) {
    |b| > 0 && (|a| == 0 || a[0] < b[0] || (a[0] == b[0] && Less(a[1..], b[1..])))
  }

  lemma {:induction false} NotLessTransitive(a: string, b: string, c: string)
    requires !Less(a, b) && !Less(b, c)
    ensures !Less(a, c)
    decreases |a|
  {
    if |a| > 0 && |b| > 0 && |c| > 0 && a[0] == b[0] == c[0] {
      NotLessTransitive(a[1..], b[1..], c[1..]);
    }
  }

  lemma {:induction false} LessIsNotGreater(a: string, b: string)
    requires Less(a, b)
    ensures !Less(b, a)
    decreases |a|
  {
    if |a| > 0 && a[0] == b[0] {
      LessIsNotGreater(a[1..], b[1..]);
    }
  }

  ghost predicate Descending(names: seq<string>) {
    forall i, j :: 0 <= i < j < |names| ==> !Less(names[i], names[j])
  }

  /** The final sort: the same names, the greatest first. */
  method SortNames(names0: seq<string>) returns (names: seq<string>)
    ensures Descending(names) && multiset(names) == multiset(names0)
  {
    names := [];
    for i := 0 to |names0|
      invariant Descending(names) && multiset(names) == multiset(names0[..i])
    {
      assert names0[..i + 1] == names0[..i] + [names0[i]];
      names := InsertName(names, names0[i]);
    }
    assert names0[..|names0|] == names0;
  }

  method InsertName(names: seq<string>, x: string) returns (r: seq<string>)
    requires Descending(names)
    ensures Descending(r) && multiset(r) == multiset(names) + multiset{x}
  {
    var k := 0;
    while k < |names| && !Less(names[k], x)
      invariant k <= |names|
      invariant forall j :: 0 <= j < k ==> !Less(names[j], x)
    {
      k := k + 1;
    }
    r := names[..k] + [x] + names[k..];
    assert names == names[..k] + names[k..];
    InsertedInOrder(names, x, k);
  }

  lemma InsertedInOrder(names: seq<string>, x: string, k: nat)
    requires Descending(names) && k <= |names| && forall j :: 0 <= j < k ==> !Less(names[j], x)
    requires k < |names| ==> Less(names[k], x)
    ensures Descending(names[..k] + [x] + names[k..])
  {
    forall j | k <= j < |names| ensures !Less(x, names[j]) {
      LessIsNotGreater(names[k], x);
      if j > k {
        NotLessTransitive(x, names[k], names[j]);
      }
    }
  }

  /** AllGroups: the names of the groups the walk finds, the greatest first. */
  method AllGroups(spool: Dirs, noRecurse: bool) returns (names: seq<string>)
    requires WellFormed(spool)
    ensures Descending(names) && multiset(names) == multiset(NamesOf([], Found(spool, noRecurse)))
  {
    var found := AllGroupsRecurse(spool, "", noRecurse, [], []);
    names := SortNames(found);
  }

  // ----- what the walk finds -----

  lemma PrefixedMember(name: string, qs: seq<Path>, q: Path)
    ensures q in Prefixed(name, qs) <==> q != [] && q[0] == name && q[1..] in qs
  {
    if q in Prefixed(name, qs) {
      var i :| 0 <= i < |qs| && q == [name] + qs[i];
      assert q[1..] == qs[i];
    }
    if q != [] && q[0] == name && q[1..] in qs {
      var i :| 0 <= i < |qs| && qs[i] == q[1..];
      assert Prefixed(name, qs)[i] == [name] + q[1..] == q;
    }
  }

  /** Being a group, and lying below no other, is decided below the first directory of the path. */
  lemma WantedBelow(dirs: Dirs, noRecurse: bool, q: Path)
    requires dirs.Entry? && |q| > 1 && q[0] == dirs.name && !Hidden(dirs.name)
    ensures Wanted(dirs, noRecurse, q) <==> !(noRecurse && dirs.isGroup) && Wanted(dirs.below, noRecurse, q[1..])
  {
    forall k | 0 < k < |q|
      ensures IsGroupAt(dirs, q[..k]) <==> if k == 1 then dirs.isGroup else IsGroupAt(dirs.below, q[1..][..k - 1])
    {
      assert q[..k][1..] == q[1..][..k - 1];
    }
    if Topmost(dirs, q) {
      assert !IsGroupAt(dirs, q[..1]);
      forall k | 0 < k < |q[1..]| ensures !IsGroupAt(dirs.below, q[1..][..k]) {
        assert !IsGroupAt(dirs, q[..k + 1]);
      }
    }
    if !dirs.isGroup && Topmost(dirs.below, q[1..]) {
      forall k | 0 < k < |q| ensures !IsGroupAt(dirs, q[..k]) {
        if k > 1 {
          assert !IsGroupAt(dirs.below, q[1..][..k - 1]);
        }
      }
    }
  }

  /** A path that starts elsewhere is decided by the other entries. */
  lemma WantedAfter(dirs: Dirs, noRecurse: bool, q: Path)
    requires dirs.Entry? && (q == [] || q[0] != dirs.name)
    ensures Wanted(dirs, noRecurse, q) <==> Wanted(dirs.rest, noRecurse, q)
  {
    forall k | 0 < k < |q| ensures IsGroupAt(dirs, q[..k]) <==> IsGroupAt(dirs.rest, q[..k]) {
    }
  }

  lemma {:induction false} GroupsAreHeld(dirs: Dirs, q: Path)
    requires IsGroupAt(dirs, q)
    ensures Holds(dirs, q[0])
  {
    if dirs.name != q[0] {
      GroupsAreHeld(dirs.rest, q);
    }
  }

  lemma ThroughMember(dirs: Dirs, noRecurse: bool, q: Path)
    requires dirs.Entry?
    requires q != [] ==> (q[1..] in Found(dirs.below, noRecurse) <==> Wanted(dirs.below, noRecurse, q[1..]))
    ensures q in Through(dirs, noRecurse) <==> q != [] && q[0] == dirs.name && Wanted(dirs, noRecurse, q)
  {
    PrefixedMember(dirs.name, Found(dirs.below, noRecurse), q);
    if q != [] && q[0] == dirs.name && !Hidden(dirs.name) {
      if |q| > 1 {
        WantedBelow(dirs, noRecurse, q);
      } else {
        assert q == [dirs.name] && q[1..] == [];
      }
    }
  }

  /** The walk finds exactly the visible groups -- with NoRecurseMsgDir, exactly the topmost ones. */
  lemma {:induction false} FoundMember(dirs: Dirs, noRecurse: bool, q: Path)
    requires WellFormed(dirs)
    ensures q in Found(dirs, noRecurse) <==> Wanted(dirs, noRecurse, q)
    decreases dirs
  {
    if dirs.Entry? {
      FoundMember(dirs.rest, noRecurse, q);
      if q != [] {
        FoundMember(dirs.below, noRecurse, q[1..]);
      }
      ThroughMember(dirs, noRecurse, q);
      if q == [] || q[0] != dirs.name {
        WantedAfter(dirs, noRecurse, q);
      } else if Wanted(dirs.rest, noRecurse, q) {
        GroupsAreHeld(dirs.rest, q);
      }
    }
  }

  ghost predicate NoRepeats<T>(s: seq<T>) {
    forall i, j :: 0 <= i < j < |s| ==> s[i] != s[j]
  }

  lemma {:induction false} FoundOnce(dirs: Dirs, noRecurse: bool)
    requires WellFormed(dirs)
    ensures NoRepeats(Found(dirs, noRecurse))
    decreases dirs
  {
    if dirs.Entry? {
      FoundOnce(dirs.rest, noRecurse);
      FoundOnce(dirs.below, noRecurse);
      ThroughOnce(dirs, noRecurse);
      var a, b := Through(dirs, noRecurse), Found(dirs.rest, noRecurse);
      forall i, j | 0 <= i < |a| && 0 <= j < |b| ensures a[i] != b[j] {
        EntriesApart(dirs, noRecurse, a[i], b[j]);
      }
    }
  }

  /** Paths through different entries differ in their first name. */
  lemma EntriesApart(dirs: Dirs, noRecurse: bool, p: Path, q: Path)
    requires WellFormed(dirs) && dirs.Entry?
    requires p in Through(dirs, noRecurse) && q in Found(dirs.rest, noRecurse)
    ensures p != q
  {
    if p != [] {
      FoundMember(dirs.below, noRecurse, p[1..]);
    }
    ThroughMember(dirs, noRecurse, p);
    FoundMember(dirs.rest, noRecurse, q);
    GroupsAreHeld(dirs.rest, q);
  }

  lemma ThroughOnce(dirs: Dirs, noRecurse: bool)
    requires WellFormed(dirs) && dirs.Entry?
    requires NoRepeats(Found(dirs.below, noRecurse))
    ensures NoRepeats(Through(dirs, noRecurse))
  {
    var below := Found(dirs.below, noRecurse);
    var deeper := Prefixed(dirs.name, below);
    forall j | 0 <= j < |below| ensures deeper[j] != [dirs.name] && deeper[j][1..] == below[j] {
      FoundMember(dirs.below, noRecurse, below[j]);
    }
  }

  // ----- names and directories -----

  /** Dirname, below the spool directory. */
  function Dirname(group: string): string {
    Replace(group, '.', '/')
  }

  predicate DotFree(path: Path) {
    forall p :: p in path ==> '.' !in p
  }

  /** The listed name leads back to the directory exactly when no directory on the way has a dot in its name. */
  lemma {:induction false} DirnameInverts(path: Path)
    requires forall p :: p in path ==> '/' !in p
    ensures Dirname(Join(path, '.')) == Join(path, '/') <==> DotFree(path)
  {
    if DotFree(path) {
      ReplaceInJoin(path, '.', '/');
    } else {
      DottedName(path);
    }
  }

  lemma {:induction false} DottedName(path: Path)
    requires forall p :: p in path ==> '/' !in p
    requires !DotFree(path)
    ensures Dirname(Join(path, '.')) != Join(path, '/')
  {
    var first := path[0];
    assert first in path;
    var a, b := Join(path, '.'), Join(path, '/');
    if '.' in first {
      var i :| 0 <= i < |first| && first[i] == '.';
      assert a[i] == '.' && b[i] == '.';
      assert Dirname(a)[i] == '/';
    } else {
      assert |path| > 1;
      var p :| p in path && '.' in p;
      assert p in path[1..];
      DottedName(path[1..]);
      var ra, rb := Join(path[1..], '.'), Join(path[1..], '/');
      assert a[|first| + 1..] == ra && b[|first| + 1..] == rb;
      assert Dirname(a)[|first| + 1..] == Dirname(ra);
    }
  }

  /**
    Group discovery inverts the path map: over any finite spool tree whose groups have no dot in the
    names on their way, the walk lists each group (or each topmost one) exactly once, and the
    directory of each listed name is the directory it was found in.
   */
  lemma DiscoveryInvertsDirname(spool: Dirs, noRecurse: bool)
    requires WellFormed(spool)
    requires forall q :: IsGroupAt(spool, q) ==> DotFree(q)
    ensures var found := Found(spool, noRecurse);
            var names := NamesOf([], found);
            && NoRepeats(names)
            && (forall k :: 0 <= k < |names| ==> Dirname(names[k]) == Join(found[k], '/'))
            && (forall q :: q in found <==> Wanted(spool, noRecurse, q))
  {
    var found := Found(spool, noRecurse);
    var names := NamesOf([], found);
    forall q ensures q in found <==> Wanted(spool, noRecurse, q) {
      FoundMember(spool, noRecurse, q);
    }
    FoundOnce(spool, noRecurse);
    forall k | 0 <= k < |names|
      ensures Dirname(names[k]) == Join(found[k], '/') && Split(names[k], '.') == found[k]
    {
      assert [] + found[k] == found[k];
      assert found[k] in found;
      NoSlashInGroup(spool, found[k]);
      DirnameInverts(found[k]);
      SplitJoin(found[k], '.');
    }
  }

  lemma {:induction false} AtMostOnce(s: seq<string>, x: string)
    requires NoRepeats(s)
    ensures multiset(s)[x] <= 1
  {
    if s != [] {
      var init, last := s[..|s| - 1], s[|s| - 1];
      AtMostOnce(init, x);
      assert s == init + [last];
      forall i | 0 <= i < |init| ensures init[i] != last {
        assert s[i] != s[|s| - 1];
      }
    }
  }

  lemma SameNamesNoRepeats(a: seq<string>, b: seq<string>)
    requires NoRepeats(a) && multiset(a) == multiset(b)
    ensures NoRepeats(b)
  {
    forall i, j | 0 <= i < j < |b| ensures b[i] != b[j] {
      AtMostOnce(a, b[i]);
      assert b == b[..j] + b[j..] && b[..j][i] == b[i] && b[j..][0] == b[j];
      assert b[i] in multiset(b[..j]) && b[j] in multiset(b[j..]);
    }
  }

  /** So the list of AllGroups, sorted, names each wanted group once, and each name leads back to its directory. */
  lemma AllGroupsListsThem(spool: Dirs, noRecurse: bool, names: seq<string>)
    requires WellFormed(spool)
    requires forall q :: IsGroupAt(spool, q) ==> DotFree(q)
    requires multiset(names) == multiset(NamesOf([], Found(spool, noRecurse)))
    ensures NoRepeats(names)
    ensures forall q :: Wanted(spool, noRecurse, q) ==> Join(q, '.') in names
    ensures forall name :: name in names ==>
              exists q :: Wanted(spool, noRecurse, q) && name == Join(q, '.') && Dirname(name) == Join(q, '/')
  {
    var found := Found(spool, noRecurse);
    var listed := NamesOf([], found);
    DiscoveryInvertsDirname(spool, noRecurse);
    SameNamesNoRepeats(listed, names);
    forall q | Wanted(spool, noRecurse, q) ensures Join(q, '.') in names {
      var k :| 0 <= k < |found| && found[k] == q;
      assert listed[k] == Join([] + q, '.') && [] + q == q;
      assert listed[k] in multiset(listed);
    }
    forall name | name in names
      ensures exists q :: Wanted(spool, noRecurse, q) && name == Join(q, '.') && Dirname(name) == Join(q, '/')
    {
      assert name in multiset(names);
      var k :| 0 <= k < |listed| && listed[k] == name;
      assert found[k] in found && [] + found[k] == found[k];
    }
  }

  lemma {:induction false} NoSlashInGroup(dirs: Dirs, q: Path)
    requires WellFormed(dirs) && IsGroupAt(dirs, q)
    ensures forall p :: p in q ==> '/' !in p
    decreases dirs
  {
    if dirs.name != q[0] {
      NoSlashInGroup(dirs.rest, q);
    } else if |q| > 1 {
      NoSlashInGroup(dirs.below, q[1..]);
    }
  }

  // ----- article paths -----

  function ArticleTail(modDirs: bool, n: nat): Path {
    if modDirs then [Format(n / 1000 * 1000), Format(n)] else [Format(n)]
  }

  /** GetArticlePath, below the spool directory. */
  function ArticlePath(modDirs: bool, group: string, n: nat): string {
    if modDirs then Dirname(group) + "/" + Format(n / 1000 * 1000) + "/" + Format(n)
    else Dirname(group) + "/" + Format(n)
  }

  /** In the layout with sub-directories an article lies in that of the multiple of a thousand it comes after. */
  lemma PathInThousand(group: string, n: nat, m: nat)
    requires m % 1000 == 0 && m <= n < m + 1000
    ensures ArticlePath(true, group, n) == Dirname(group) + "/" + Format(m) + "/" + Format(n)
  {
    assert n / 1000 == m / 1000;
  }

  lemma DigitsHaveNoSlash(n: nat)
    ensures '/' !in Format(n)
  {
    forall i | 0 <= i < |Format(n)| ensures Format(n)[i] != '/' {
      assert IsDigit(Format(n)[i]);
    }
  }

  lemma GroupParts(group: string)
    requires ValidGroupName(group)
    ensures Dirname(group) == Join(Split(group, '.'), '/')
    ensures Split(group, '.') != [] && forall p :: p in Split(group, '.') ==> '/' !in p
  {
    var parts := Split(group, '.');
    SplitPartsHaveNoSeparator(group, '.');
    JoinSplit(group, '.');
    ReplaceInJoin(parts, '.', '/');
    assert '/' !in group;
    forall p | p in parts ensures '/' !in p {
    }
  }

  lemma ArticlePathIsJoin(modDirs: bool, group: string, n: nat)
    requires ValidGroupName(group)
    ensures ArticlePath(modDirs, group, n) == Join(Split(group, '.') + ArticleTail(modDirs, n), '/')
    ensures forall p :: p in Split(group, '.') + ArticleTail(modDirs, n) ==> '/' !in p
  {
    var parts, last, mid := Split(group, '.'), Format(n), Format(n / 1000 * 1000);
    GroupParts(group);
    DigitsHaveNoSlash(n);
    DigitsHaveNoSlash(n / 1000 * 1000);
    if modDirs {
      JoinAppend(parts, mid, '/');
      JoinAppend(parts + [mid], last, '/');
      assert parts + [mid] + [last] == parts + [mid, last];
    } else {
      JoinAppend(parts, last, '/');
    }
  }

  /** Two articles of valid groups never share a path, in either layout. */
  lemma ArticlePathInjective(modDirs: bool, g1: string, n1: nat, g2: string, n2: nat)
    requires ValidGroupName(g1) && ValidGroupName(g2)
    requires ArticlePath(modDirs, g1, n1) == ArticlePath(modDirs, g2, n2)
    ensures g1 == g2 && n1 == n2
  {
    var p1, p2 := Split(g1, '.') + ArticleTail(modDirs, n1), Split(g2, '.') + ArticleTail(modDirs, n2);
    ArticlePathIsJoin(modDirs, g1, n1);
    ArticlePathIsJoin(modDirs, g2, n2);
    SplitJoin(p1, '/');
    SplitJoin(p2, '/');
    assert p1 == p2;
    assert p1[|p1| - 1] == Format(n1) && p2[|p2| - 1] == Format(n2);
    FormatInjective(n1, n2);
    var t := |ArticleTail(modDirs, n1)|;
    assert p1[..|p1| - t] == Split(g1, '.') && p2[..|p2| - t] == Split(g2, '.');
    JoinSplit(g1, '.');
    JoinSplit(g2, '.');
  }
}
