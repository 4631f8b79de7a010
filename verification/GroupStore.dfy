/**
  The operations on one group directory, run one at a time (internal/group/group.go): LoadInfo,
  BuildInfo, SaveInfo, Post and DeleteArticle, each tied to its effect on the group's view.
 */
module GroupStore {
  import opened Text
  import opened Lines
  import opened Headers
  import opened ArticleFile
  import opened Spool
  import opened SpoolTree

  /** The directory of a group. */
  class Directory {
    const name: string
    const modDirs: bool
    var base: Entries
    var info: Option<Info>

    ghost predicate Valid()
      reads this
    {
      Canonical(modDirs, base)
    }

    ghost function View(): GroupView
      reads this
    {
      ViewOf(modDirs, base, info)
    }

    /** A directory without articles; what else it holds does not look like one. */
    constructor (name: string, modDirs: bool, base: Entries)
      requires Canonical(modDirs, base) && ViewOf(modDirs, base, None).files == map[]
      ensures Valid() && Fresh(View())
      ensures this.name == name && this.modDirs == modDirs && this.base == base && info.None?
    {
      this.name := name;
      this.modDirs := modDirs;
      this.base := base;
      this.info := None;
    }
  }

  /** The article Post writes under each number it might allocate. */
  function Posted(server: string, group: string, date: string, remote: string, mtime: int,
                  headers: seq<string>, body: seq<string>, preserveDate: bool): nat -> Stored
  {
    (n: nat) =>
      Stored(FileText(Rewritten(headers, |body|, Stamp(server, group, n, date, remote), preserveDate), body), mtime)
  }

  lemma LoadedView(v: GroupView)
    ensures NextNumber(LoadView(v)) == NextNumber(v) && !Taken(v, NextNumber(v))
    ensures LoadView(v).files == v.files && LoadView(v).blocked == v.blocked
  {
  }

  lemma PostViewIs(v: GroupView, article: nat -> Stored, stored: Stored)
    requires stored == article(NextNumber(v))
    ensures PostView(v, article) ==
            LoadView(v).(info := Some(Bumped(LoadView(v).info.value, NextNumber(v))),
                         files := v.files[NextNumber(v) := stored])
  {
  }

  /** The in-memory summary of a group. */
  class Group {
    var start: nat
    var end: nat
    var total: nat

    constructor ()
      ensures start == end == total == 0
    {
      start, end, total := 0, 0, 0;
    }

    ghost predicate Holds(i: Option<Info>)
      reads this
    {
      i == Some(Info(start, end, total))
    }

    method LoadInfo(d: Directory)
      requires d.Valid()
      modifies this, d`info
      ensures d.View() == LoadView(old(d.View())) && Holds(d.info)
    {
      if d.info.None? {
        BuildInfo(d);
        return;
      }
      start, end, total := d.info.value.start, d.info.value.end, d.info.value.total;
    }

    method SaveInfo(d: Directory)
      modifies d`info
      ensures Holds(d.info)
    {
      d.info := Some(Info(start, end, total));
    }

    /** Scans the directory, in either layout, and saves what it finds. */
    method BuildInfo(d: Directory)
      requires d.Valid()
      modifies this, d`info
      ensures d.View() == BuildView(old(d.View())) && Holds(d.info)
    {
      var acc := NO_ARTICLES;
      ghost var files := d.View().files.Keys;
      ScanFindsFiles(d.modDirs, d.base, d.info);
      if !d.modDirs {
        acc := CountFiles(d.base, acc, {});
        assert {} + FileNumbers(d.base) == files;
      } else {
        acc := CountModDirs(d.base);
      }
      start, end, total := acc.start, acc.end, acc.total;
      SummaryIs(acc, files);
      SaveInfo(d);
    }

    /** DeleteArticle: removes the file, then rebuilds; fails when no article file is there. */
    method DeleteArticle(d: Directory, artnum: nat) returns (ok: bool)
      requires d.Valid() && artnum <= MAX_UINT64
      modifies this, d
      ensures d.Valid()
      ensures ok <==> artnum in old(d.View()).files
      ensures d.View() == DeleteView(old(d.View()), artnum)
    {
      var at := At(d.modDirs, d.base, artnum);
      ViewDepicts(d.modDirs, d.base, d.info, artnum);
      if at.None? || at.value.Dir? {
        return false;
      }
      RemoveFile(d.modDirs, d.base, artnum, d.info);
      d.base := WithoutNode(d.modDirs, d.base, artnum);
      BuildInfo(d);
      return true;
    }

    /** Post: allocates the next free number, rewrites the header, writes the file, updates the summary. */
    method Post(d: Directory, server: string, remote: string, date: string, mtime: int,
                headers: seq<string>, body: seq<string>, preserveDate: bool)
      returns (ok: bool)
      requires d.Valid()
      requires HeaderValue(headers, NEWSGROUPS_KEY).Some? ==> HeaderValue(headers, NEWSGROUPS_KEY).value == d.name
      requires NextNumber(d.View()) <= MAX_UINT64
      modifies this, d
      ensures d.Valid()
      ensures ok <==> HasField(headers, NEWSGROUPS_KEY)
      ensures ok ==>
                d.View() ==
                PostView(old(d.View()), Posted(server, d.name, date, remote, mtime, headers, body, preserveDate))
      ensures ok ==> Holds(d.info)
      ensures !ok ==> d.View() == old(d.View())
    {
      var postgroup := GetHeaderValue(headers, NEWSGROUPS_KEY);
      if postgroup.None? {
        return false;
      }
      ghost var before := d.View();
      LoadInfo(d);
      LoadedView(before);
      var msgnum := Allocate(d);
      var stored := Compose(Stamp(server, postgroup.value, msgnum, date, remote), mtime, headers, body, preserveDate);
      PostViewIs(before, Posted(server, d.name, date, remote, mtime, headers, body, preserveDate), stored);
      StoreArticle(d, msgnum, stored);
      return true;
    }

    /** The file is created and the summary updated and saved, without a scan. */
    method StoreArticle(d: Directory, msgnum: nat, stored: Stored)
      requires d.Valid() && Holds(d.info) && msgnum <= MAX_UINT64 && !Taken(d.View(), msgnum)
      requires d.modDirs ==> ModName(msgnum) in d.base && d.base[ModName(msgnum)].Dir?
      modifies this, d
      ensures d.Valid() && Holds(d.info)
      ensures d.View() == old(d.View()).(info := Some(Bumped(old(d.info).value, msgnum)),
                                         files := old(d.View()).files[msgnum := stored])
    {
      AddFile(d.modDirs, d.base, msgnum, stored, d.info);
      d.base := WithNode(d.modDirs, d.base, msgnum, File(stored));
      if total == 0 && start == 0 {
        start := 1;
      }
      end := msgnum;
      total := total + 1;
      SaveInfo(d);
    }

    /** The O_EXCL loop: numbers from End + 1 on until one is free, making the sub-directory when needed. */
    method Allocate(d: Directory) returns (msgnum: nat)
      requires d.Valid() && Holds(d.info) && NextNumber(d.View()) <= MAX_UINT64
      modifies d`base
      ensures d.Valid() && d.View() == old(d.View())
      ensures msgnum == NextNumber(d.View()) && !Taken(d.View(), msgnum)
      ensures d.modDirs ==> ModName(msgnum) in d.base && d.base[ModName(msgnum)].Dir?
    {
      msgnum := end + 1;
      ghost var v := d.View();
      while true
        invariant d.Valid() && d.View() == v
        invariant end < msgnum <= NextNumber(v)
        decreases NextNumber(v) - msgnum
      {
        if d.modDirs {
          MkdirKeeps(d.base, msgnum, d.info);
          NumberOfFormat(msgnum / 1000 * 1000);
          d.base := WithModDir(d.base, msgnum);
        }
        ViewDepicts(d.modDirs, d.base, d.info, msgnum);
        if At(d.modDirs, d.base, msgnum).None? {
          return;
        }
        msgnum := msgnum + 1;
      }
    }
  }

  /** One operation as the server calls it. */
  datatype Call = CallPost(server: string, remote: string, date: string, mtime: int,
                           headers: seq<string>, body: seq<string>, preserveDate: bool)
                | CallDelete(n: nat) | CallBuild | CallLoad

  /** Its effect on the group of that name; a post without Newsgroups has none. */
  function OpsOf(name: string, c: Call): seq<Op> {
    match c
    case CallPost(server, remote, date, mtime, headers, body, preserveDate) =>
      if HasField(headers, NEWSGROUPS_KEY) then
        [OpPost(Posted(server, name, date, remote, mtime, headers, body, preserveDate))]
      else []
    case CallDelete(n) => [OpDelete(n)]
    case CallBuild => [OpBuild]
    case CallLoad => [OpLoad]
  }

  function AllOps(name: string, calls: seq<Call>): seq<Op> {
    if calls == [] then [] else AllOps(name, calls[..|calls| - 1]) + OpsOf(name, calls[|calls| - 1])
  }

  /** The call is for this group, and its number fits 64 bits. */
  ghost predicate Callable(name: string, v: GroupView, c: Call) {
    match c
    case CallPost(_, _, _, _, headers, _, _) =>
      HeaderValue(headers, NEWSGROUPS_KEY).GetOr(name) == name && NextNumber(v) <= MAX_UINT64
    case CallDelete(n) => n <= MAX_UINT64
    case _ => true
  }

  ghost predicate AllCallable(name: string, v: GroupView, calls: seq<Call>) {
    forall i :: 0 <= i < |calls| ==> Callable(name, Run(v, AllOps(name, calls[..i])), calls[i])
  }

  lemma RunOne(v: GroupView, op: Op)
    ensures Run(v, [op]) == Apply(v, op)
  {
    assert [op][..0] == [];
    assert Run(v, []) == v;
  }

  method Perform(d: Directory, c: Call)
    requires d.Valid() && Callable(d.name, d.View(), c)
    modifies d
    ensures d.Valid() && d.View() == Run(old(d.View()), OpsOf(d.name, c))
  {
    ghost var v, ops := d.View(), OpsOf(d.name, c);
    if ops != [] {
      RunOne(v, ops[0]);
    }
    var g := new Group();
    match c {
      case CallPost(server, remote, date, mtime, headers, body, preserveDate) =>
        var _ := g.Post(d, server, remote, date, mtime, headers, body, preserveDate);
      case CallDelete(n) =>
        var _ := g.DeleteArticle(d, n);
      case CallBuild =>
        g.BuildInfo(d);
      case CallLoad =>
        g.LoadInfo(d);
    }
  }

  lemma RunMore(v: GroupView, ops: seq<Op>, more: seq<Op>)
    requires |more| <= 1
    ensures Run(v, ops + more) == Run(Run(v, ops), more)
  {
    if more == [] {
      assert ops + more == ops;
    } else {
      var all := ops + more;
      assert all[..|all| - 1] == ops && more == [more[0]];
      RunOne(Run(v, ops), more[0]);
    }
  }

  /**
    Any sequence of operations on a group's directory, in either layout, does to the group what the
    sequence does to its view; so a new directory's `.info` agrees with its files all along, if number 1
    is not taken by a directory.
   */
  method PerformAll(d: Directory, calls: seq<Call>)
    requires d.Valid() && AllCallable(d.name, d.View(), calls)
    modifies d
    ensures d.Valid() && d.View() == Run(old(d.View()), AllOps(d.name, calls))
    ensures old(Fresh(d.View()) && 1 !in d.View().blocked) ==> Consistent(d.View())
  {
    ghost var v := d.View();
    for i := 0 to |calls|
      invariant d.Valid() && d.View() == Run(v, AllOps(d.name, calls[..i]))
    {
      assert calls[..i + 1][..i] == calls[..i];
      Perform(d, calls[i]);
      RunMore(v, AllOps(d.name, calls[..i]), OpsOf(d.name, calls[i]));
    }
    assert calls[..|calls|] == calls;
    if Fresh(v) && 1 !in v.blocked {
      RunKeepsConsistent(v, AllOps(d.name, calls));
    }
  }

  /** The content of the new file. */
  method Compose(st: Stamp, mtime: int, headers: seq<string>, body: seq<string>, preserveDate: bool)
    returns (stored: Stored)
    ensures stored == Posted(st.server, st.group, st.date, st.remote, mtime, headers, body, preserveDate)(st.number)
  {
    var lines := RewriteHeaders(headers, |body|, st, preserveDate);
    var text := WriteArticle(lines, body);
    stored := Stored(text, mtime);
  }

  /** The two writing loops of Post. */
  method WriteArticle(headers: seq<string>, body: seq<string>) returns (text: string)
    ensures text == FileText(headers, body)
  {
    text := "";
    for i := 0 to |headers|
      invariant text == Unlines(headers[..i])
    {
      assert headers[..i + 1][..i] == headers[..i];
      text := text + (headers[i] + "\n");
    }
    assert headers[..|headers|] == headers;
    ghost var top := headers + [""];
    assert top[..|top| - 1] == headers;
    text := text + ("" + "\n");
    assert top + body[..0] == top;
    for i := 0 to |body|
      invariant text == Unlines(top + body[..i])
    {
      ghost var next := top + body[..i + 1];
      assert next[..|next| - 1] == top + body[..i];
      text := text + (body[i] + "\n");
    }
    assert body[..|body|] == body;
  }

  /** The outer loop of BuildInfo with MsgModDirs: digit-named sub-directories, one at a time. */
  method CountModDirs(base: Entries) returns (acc: Info)
    requires Canonical(true, base)
    ensures IsSummary(acc, ModNumbersAmong(base, base.Keys))
  {
    acc := NO_ARTICLES;
    var todo := base.Keys;
    ghost var seen: set<nat> := {};
    while todo != {}
      invariant todo <= base.Keys
      invariant seen == ModNumbersAmong(base, base.Keys - todo)
      invariant IsSummary(acc, seen)
      decreases todo
    {
      var name :| name in todo;
      ghost var before := base.Keys - todo;
      todo := todo - {name};
      assert base.Keys - todo == before + {name};
      if !DigitFirst(name) || !base[name].Dir? {
        ModAmongSame(base, before, name);
        continue;
      }
      ModAmongGrows(base, before, name);
      acc := CountFiles(base[name].sub, acc, seen);
      seen := seen + FileNumbers(base[name].sub);
    }
    assert base.Keys - {} == base.Keys;
  }
}
