/**
  The group directory on disk in both layouts, and the operations that change it
  (internal/group/group.go; paths from internal/article/article.go). Flat: article n is the entry n.
  With MsgModDirs: article n is the entry n of the sub-directory named by n rounded down to thousands.
 */
module SpoolTree {
  import opened Text
  import opened Spool

  datatype Node = File(stored: Stored) | Dir(sub: map<string, Node>)

  type Entries = map<string, Node>

  // ----- names and paths -----

  predicate DigitFirst(name: string) {
    name != "" && IsDigit(name[0])
  }

  /** The article number an entry name stands for, if any. */
  function NumberOf(name: string): Option<nat> {
    ParseUint(name)
  }

  function ModName(n: nat): string {
    Format(n / 1000 * 1000)
  }

  /** The sub-directory of article n is named by the multiple of a thousand it comes after. */
  lemma ModNameRounds(n: nat, m: nat)
    requires m % 1000 == 0 && m <= n < m + 1000
    ensures ModName(n) == Format(m)
  {
    assert n / 1000 == m / 1000;
  }

  lemma NumberOfFormat(n: nat)
    ensures n <= MAX_UINT64 ==> NumberOf(Format(n)) == Some(n)
    ensures DigitFirst(Format(n))
  {
    ValueOfFormat(n);
  }

  /** What stands at the path of article n. */
  function At(modDirs: bool, base: Entries, n: nat): Option<Node> {
    if !modDirs then
      if Format(n) in base then Some(base[Format(n)]) else None
    else if ModName(n) in base && base[ModName(n)].Dir? && Format(n) in base[ModName(n)].sub then
      Some(base[ModName(n)].sub[Format(n)])
    else None
  }

  /** Every number some entry name stands for. */
  function Numbers(modDirs: bool, base: Entries): set<nat> {
    if !modDirs then set name | name in base && NumberOf(name).Some? :: NumberOf(name).value
    else set name, sub | name in base && base[name].Dir? && sub in base[name].sub && NumberOf(sub).Some?
      :: NumberOf(sub).value
  }

  lemma StoredNumbers(modDirs: bool, base: Entries, n: nat)
    requires At(modDirs, base, n).Some? && n <= MAX_UINT64
    ensures n in Numbers(modDirs, base)
  {
    NumberOfFormat(n);
    if modDirs {
      var name, sub := ModName(n), Format(n);
      assert name in base && base[name].Dir? && sub in base[name].sub && NumberOf(sub).Some?;
    }
  }

  /** The group as the rest of the server sees it. */
  function ViewOf(modDirs: bool, base: Entries, info: Option<Info>): GroupView {
    GroupView(info,
              map n | n in Numbers(modDirs, base) && n <= MAX_UINT64 && At(modDirs, base, n).Some?
                  && At(modDirs, base, n).value.File?
                :: At(modDirs, base, n).value.stored,
              set n | n in Numbers(modDirs, base) && n <= MAX_UINT64 && At(modDirs, base, n).Some?
                  && At(modDirs, base, n).value.Dir?)
  }

  /** A view says about number n what stands at the path of article n. */
  predicate DepictsAt(modDirs: bool, base: Entries, v: GroupView, n: nat) {
    var at := At(modDirs, base, n);
    && (n in v.files <==> n <= MAX_UINT64 && at.Some? && at.value.File?)
    && (n in v.files && at.Some? && at.value.File? ==> v.files[n] == at.value.stored)
    && (n in v.blocked <==> n <= MAX_UINT64 && at.Some? && at.value.Dir?)
  }

  lemma ViewDepicts(modDirs: bool, base: Entries, info: Option<Info>, n: nat)
    ensures DepictsAt(modDirs, base, ViewOf(modDirs, base, info), n)
  {
    if n <= MAX_UINT64 && At(modDirs, base, n).Some? {
      StoredNumbers(modDirs, base, n);
    }
  }

  /** Only one view depicts a tree. */
  lemma DepictedView(modDirs: bool, base: Entries, v: GroupView)
    requires forall n :: DepictsAt(modDirs, base, v, n)
    ensures ViewOf(modDirs, base, v.info) == v
  {
    var w := ViewOf(modDirs, base, v.info);
    forall n: nat ensures n in w.files <==> n in v.files
      ensures n in w.files ==> w.files[n] == v.files[n]
      ensures n in w.blocked <==> n in v.blocked
    {
      ViewDepicts(modDirs, base, v.info, n);
      assert DepictsAt(modDirs, base, v, n);
    }
    assert w.files == v.files;
    assert w.blocked == v.blocked;
  }

  // ----- a tree the server itself produces -----

  /** Number-named files carry the number as FormatUint writes it. */
  predicate CanonicalNames(entries: Entries) {
    forall name :: name in entries && entries[name].File? && NumberOf(name).Some? ==>
      name == Format(NumberOf(name).value)
  }

  predicate Canonical(modDirs: bool, base: Entries) {
    if !modDirs then CanonicalNames(base)
    else
      && (forall name :: name in base && NumberOf(name).Some? ==> base[name].Dir?)
      && (forall name :: name in base && DigitFirst(name) && base[name].Dir? ==>
            && CanonicalNames(base[name].sub)
            && forall n :: n in FileNumbers(base[name].sub) ==> ModName(n) == name)
  }

  /** The numbers of the plain files in a directory. */
  function FileNumbers(entries: Entries): set<nat> {
    set name | name in entries && entries[name].File? && NumberOf(name).Some? :: NumberOf(name).value
  }

  lemma FileNumbersIs(entries: Entries)
    requires CanonicalNames(entries)
    ensures forall n: nat ::
              n in FileNumbers(entries) <==> n <= MAX_UINT64 && Format(n) in entries && entries[Format(n)].File?
  {
    forall n: nat
      ensures n in FileNumbers(entries) <==> n <= MAX_UINT64 && Format(n) in entries && entries[Format(n)].File?
    {
      NumberOfFormat(n);
    }
  }

  // ----- counting -----

  /** The numbers of the plain files among some names of a directory. */
  function FileNumbersAmong(entries: Entries, names: set<string>): set<nat> {
    set name | name in names && name in entries && entries[name].File? && NumberOf(name).Some? :: NumberOf(name).value
  }

  /** The scan of one directory: every number-named plain file is counted once. */
  method CountFiles(entries: Entries, acc0: Info, ghost seen: set<nat>) returns (acc: Info)
    requires CanonicalNames(entries)
    requires IsSummary(acc0, seen) && seen !! FileNumbers(entries)
    ensures IsSummary(acc, seen + FileNumbers(entries))
  {
    acc := acc0;
    var todo := entries.Keys;
    ghost var counted: set<nat> := {};
    while todo != {}
      invariant todo <= entries.Keys
      invariant counted == FileNumbersAmong(entries, entries.Keys - todo)
      invariant IsSummary(acc, seen + counted)
      decreases todo
    {
      var name :| name in todo;
      ghost var before := entries.Keys - todo;
      todo := todo - {name};
      assert entries.Keys - todo == before + {name};
      var artnum := NumberOf(name);
      if entries[name].Dir? || artnum.None? {
        AmongSame(entries, before, name);
        continue;
      }
      AmongGrows(entries, before, name);
      CountOne(acc, seen, counted, artnum.value);
      acc := Counted(acc, artnum.value);
      counted := counted + {artnum.value};
    }
    AmongAll(entries);
  }

  lemma CountOne(i: Info, seen: set<nat>, counted: set<nat>, n: nat)
    requires IsSummary(i, seen + counted) && n !in seen && n !in counted
    ensures IsSummary(Counted(i, n), seen + (counted + {n}))
  {
    CountedIsSummary(i, seen + counted, n);
    assert seen + counted + {n} == seen + (counted + {n});
  }

  lemma AmongSame(entries: Entries, before: set<string>, name: string)
    requires name !in entries || entries[name].Dir? || NumberOf(name).None?
    ensures FileNumbersAmong(entries, before + {name}) == FileNumbersAmong(entries, before)
  {
  }

  lemma AmongAll(entries: Entries)
    ensures FileNumbersAmong(entries, entries.Keys - {}) == FileNumbers(entries)
  {
  }

  lemma AmongGrows(entries: Entries, before: set<string>, name: string)
    requires CanonicalNames(entries)
    requires name in entries && name !in before && entries[name].File? && NumberOf(name).Some?
    ensures FileNumbersAmong(entries, before + {name}) == FileNumbersAmong(entries, before) + {NumberOf(name).value}
    ensures NumberOf(name).value !in FileNumbersAmong(entries, before)
    ensures NumberOf(name).value in FileNumbers(entries)
  {
  }

  /** With MsgModDirs: the numbers found under some of the sub-directories. */
  function ModNumbersAmong(base: Entries, names: set<string>): set<nat> {
    set name, n | name in names && name in base && DigitFirst(name) && base[name].Dir?
        && n in FileNumbers(base[name].sub) :: n
  }

  lemma ModAmongGrows(base: Entries, before: set<string>, name: string)
    requires Canonical(true, base)
    requires name in base && name !in before && DigitFirst(name) && base[name].Dir?
    ensures ModNumbersAmong(base, before + {name}) == ModNumbersAmong(base, before) + FileNumbers(base[name].sub)
    ensures ModNumbersAmong(base, before) !! FileNumbers(base[name].sub)
  {
  }

  lemma ModAmongSame(base: Entries, before: set<string>, name: string)
    requires name !in base || !DigitFirst(name) || !base[name].Dir?
    ensures ModNumbersAmong(base, before + {name}) == ModNumbersAmong(base, before)
  {
  }

  /** What the scan finds are exactly the stored articles. */
  lemma ScanFindsFiles(modDirs: bool, base: Entries, info: Option<Info>)
    requires Canonical(modDirs, base)
    ensures ViewOf(modDirs, base, info).files.Keys ==
            if modDirs then ModNumbersAmong(base, base.Keys) else FileNumbers(base)
  {
    var keys := ViewOf(modDirs, base, info).files.Keys;
    if !modDirs {
      FileNumbersIs(base);
      forall n: nat ensures n in keys <==> n in FileNumbers(base) {
        ViewDepicts(modDirs, base, info, n);
      }
    } else {
      forall n: nat ensures n in keys <==> n in ModNumbersAmong(base, base.Keys) {
        ViewDepicts(modDirs, base, info, n);
        NumberOfFormat(n / 1000 * 1000);
        if n in ModNumbersAmong(base, base.Keys) {
          var name :| name in base && DigitFirst(name) && base[name].Dir? && n in FileNumbers(base[name].sub);
          FileNumbersIs(base[name].sub);
        }
        if n in keys {
          FileNumbersIs(base[ModName(n)].sub);
          assert n in FileNumbers(base[ModName(n)].sub);
        }
      }
    }
  }

  // ----- changing the tree -----

  lemma PathsDiffer(m: nat, n: nat)
    requires m != n
    ensures Format(m) != Format(n)
  {
    if Format(m) == Format(n) {
      FormatInjective(m, n);
    }
  }

  /** MkdirAll of the sub-directory an article goes to. */
  function WithModDir(base: Entries, n: nat): Entries {
    if ModName(n) in base then base else base[ModName(n) := Dir(map[])]
  }

  lemma MkdirKeeps(base: Entries, n: nat, info: Option<Info>)
    requires Canonical(true, base)
    ensures Canonical(true, WithModDir(base, n))
    ensures ViewOf(true, WithModDir(base, n), info) == ViewOf(true, base, info)
  {
    var base2 := WithModDir(base, n);
    if ModName(n) !in base {
      assert FileNumbers(map[]) == {};
      assert CanonicalNames(map[]);
    }
    var v := ViewOf(true, base, info);
    forall k ensures DepictsAt(true, base2, v, k) {
      ViewDepicts(true, base, info, k);
    }
    DepictedView(true, base2, v);
  }

  function WithNode(modDirs: bool, base: Entries, n: nat, node: Node): Entries
    requires modDirs ==> ModName(n) in base && base[ModName(n)].Dir?
  {
    if !modDirs then base[Format(n) := node]
    else base[ModName(n) := Dir(base[ModName(n)].sub[Format(n) := node])]
  }

  lemma AtWithNode(modDirs: bool, base: Entries, n: nat, node: Node, k: nat)
    requires modDirs ==> ModName(n) in base && base[ModName(n)].Dir?
    ensures At(modDirs, WithNode(modDirs, base, n, node), k) == if k == n then Some(node) else At(modDirs, base, k)
  {
    if k != n {
      PathsDiffer(k, n);
    }
  }

  lemma AddFileCanonical(modDirs: bool, base: Entries, n: nat, stored: Stored)
    requires Canonical(modDirs, base) && n <= MAX_UINT64
    requires modDirs ==> ModName(n) in base && base[ModName(n)].Dir?
    ensures Canonical(modDirs, WithNode(modDirs, base, n, File(stored)))
  {
    NumberOfFormat(n);
    if modDirs {
      NumberOfFormat(n / 1000 * 1000);
      var sub := base[ModName(n)].sub;
      var sub2 := sub[Format(n) := File(stored)];
      assert CanonicalNames(sub2);
      forall k | k in FileNumbers(sub2) ensures ModName(k) == ModName(n) {
        var name :| name in sub2 && sub2[name].File? && NumberOf(name).Some? && NumberOf(name).value == k;
        if name != Format(n) {
          assert k in FileNumbers(sub);
        }
      }
    }
  }

  /** Creating an article file: the view gains that article and nothing else. */
  lemma AddFile(modDirs: bool, base: Entries, n: nat, stored: Stored, info: Option<Info>)
    requires Canonical(modDirs, base) && n <= MAX_UINT64
    requires modDirs ==> ModName(n) in base && base[ModName(n)].Dir?
    requires !Taken(ViewOf(modDirs, base, info), n)
    ensures var base2 := WithNode(modDirs, base, n, File(stored));
            var v := ViewOf(modDirs, base, info);
            Canonical(modDirs, base2) && ViewOf(modDirs, base2, info) == v.(files := v.files[n := stored])
  {
    var base2 := WithNode(modDirs, base, n, File(stored));
    AddFileCanonical(modDirs, base, n, stored);
    var v := ViewOf(modDirs, base, info);
    var v2 := v.(files := v.files[n := stored]);
    forall k ensures DepictsAt(modDirs, base2, v2, k) {
      AtWithNode(modDirs, base, n, File(stored), k);
      ViewDepicts(modDirs, base, info, k);
    }
    DepictedView(modDirs, base2, v2);
  }

  function WithoutNode(modDirs: bool, base: Entries, n: nat): Entries
    requires At(modDirs, base, n).Some?
  {
    if !modDirs then base - {Format(n)}
    else base[ModName(n) := Dir(base[ModName(n)].sub - {Format(n)})]
  }

  lemma AtWithoutNode(modDirs: bool, base: Entries, n: nat, k: nat)
    requires At(modDirs, base, n).Some?
    ensures At(modDirs, WithoutNode(modDirs, base, n), k) == if k == n then None else At(modDirs, base, k)
  {
    if k != n {
      PathsDiffer(k, n);
    }
  }

  lemma RemoveFileCanonical(modDirs: bool, base: Entries, n: nat)
    requires Canonical(modDirs, base) && At(modDirs, base, n).Some?
    ensures Canonical(modDirs, WithoutNode(modDirs, base, n))
  {
    if modDirs {
      NumberOfFormat(n / 1000 * 1000);
      var sub := base[ModName(n)].sub;
      var sub2 := sub - {Format(n)};
      assert CanonicalNames(sub2);
      assert FileNumbers(sub2) <= FileNumbers(sub);
    }
  }

  /** Removing an article file: the view loses that article and nothing else. */
  lemma RemoveFile(modDirs: bool, base: Entries, n: nat, info: Option<Info>)
    requires Canonical(modDirs, base) && n <= MAX_UINT64
    requires n in ViewOf(modDirs, base, info).files
    requires At(modDirs, base, n).Some?
    ensures var base2 := WithoutNode(modDirs, base, n);
            var v := ViewOf(modDirs, base, info);
            Canonical(modDirs, base2) && ViewOf(modDirs, base2, info) == v.(files := v.files - {n})
  {
    var base2 := WithoutNode(modDirs, base, n);
    RemoveFileCanonical(modDirs, base, n);
    var v := ViewOf(modDirs, base, info);
    var v2 := v.(files := v.files - {n});
    forall k ensures DepictsAt(modDirs, base2, v2, k) {
      AtWithoutNode(modDirs, base, n, k);
      ViewDepicts(modDirs, base, info, k);
    }
    DepictedView(modDirs, base2, v2);
  }
}
