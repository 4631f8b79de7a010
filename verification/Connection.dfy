/**
  The connection handler as it runs (internal/nntp/server.go, handleConn): its variables as fields, a
  method for each command, and the command loop. Every method does to the fields, answers and writes
  what the step function of NntpSession says.
 */
module Connection {
  import opened Text
  import opened Headers
  import opened ArticleFile
  import opened ArticleHeader
  import opened Spool
  import opened Search
  import Ranges
  import LineCount
  import Wildmat
  import opened GroupList
  import opened Auth
  import opened NntpSession
  import S = SessionInvariant

  // ----- the loops that make the data lines -----

  method FindByMessageID(spool: SpoolState, g: Snapshot, id: string) returns (r: Search.Result)
    ensures r == FindIn(spool, g, id)
  {
    var ids := IdsOf(ViewIn(spool, g.name));
    if g.start >= 1 && g.end <= MAX_UINT64 {
      var found := FindArticleByMessageID(ids, id, g.start, g.end);
      match found {
        case Some(n) => r := Hit(n);
        case None => r := Miss;
      }
    } else {
      r := Find(ids, id, g.start, g.end);
    }
  }

  /** The scan a group without a summary gets when it is loaded. */
  method ScanFiles(v: GroupView) returns (i: Info)
    ensures i == Summary(v.files.Keys)
  {
    i := NO_ARTICLES;
    var left := v.files.Keys;
    ghost var seen: set<nat> := {};
    while left != {}
      invariant left !! seen && left + seen == v.files.Keys
      invariant IsSummary(i, seen)
      decreases left
    {
      var n :| n in left;
      CountedIsSummary(i, seen, n);
      i := Counted(i, n);
      left := left - {n};
      seen := seen + {n};
    }
    SummaryIs(i, v.files.Keys);
  }

  method LoadInfoFull(spool: SpoolState, name: string) returns (g: Option<Snapshot>)
    ensures g == LoadGroup(spool, name)
  {
    if name !in spool.groups || |name| >= GROUP_MAX {
      return None;
    }
    var entry := spool.groups[name];
    var i;
    if entry.view.info.Some? {
      i := entry.view.info.value;
    } else {
      i := ScanFiles(entry.view);
    }
    return Some(Snapshot(true, name, i.start, i.end, i.total, entry.config.postLimit));
  }

  method SelectRange(g: Snapshot, range: string) returns (lo: nat, hi: nat)
    ensures (lo, hi) == RangeOf(g, range)
  {
    lo, hi := Ranges.ParseArticleRange(range, g.start, g.end, g.start, g.end);
  }

  method MatchesPattern(pattern: Option<string>, name: string) returns (ok: bool)
    ensures ok <==> (pattern.Some? ==> Wildmat.Matches(pattern.value, name))
  {
    if pattern.None? {
      return true;
    }
    ok := Wildmat.DoWildmat(pattern.value, name);
  }

  method ListGroups(spool: SpoolState, kind: ListKind, pattern: Option<string>, names: seq<string>)
    returns (lines: seq<seq<Arg>>)
    ensures lines == ListLines(spool, kind, pattern, names)
  {
    lines := [];
    for i := 0 to |names|
      invariant lines == ListLines(spool, kind, pattern, names[..i])
    {
      assert names[..i + 1][..i] == names[..i];
      var ok := MatchesPattern(pattern, names[i]);
      if !ok {
        continue;
      }
      var g := LoadInfoFull(spool, names[i]);
      if g.None? {
        continue;
      }
      lines := lines + [ListLine(kind, g.value, spool.groups[names[i]])];
    }
    assert names[..|names|] == names;
  }

  method ListNewGroups(spool: SpoolState, since: int, names: seq<string>) returns (lines: seq<seq<Arg>>)
    ensures lines == NewGroupLines(spool, since, names)
  {
    lines := [];
    for i := 0 to |names|
      invariant lines == NewGroupLines(spool, since, names[..i])
    {
      assert names[..i + 1][..i] == names[..i];
      var g := LoadInfoFull(spool, names[i]);
      if g.None? {
        continue;
      }
      if spool.groups[names[i]].ctime >= since {
        lines := lines + [[S(names[i])]];
      }
    }
    assert names[..|names|] == names;
  }

  method ReportNewId(v: GroupView, since: int, n: nat) returns (lines: seq<seq<Arg>>)
    ensures lines == NewId(v, since, n)
  {
    lines := [];
    if n in v.files && v.files[n].mtime > since {
      var id := GetMessageID(v.files[n].text);
      if id.Some? {
        lines := [[S(id.value)]];
      }
    }
  }

  method AppendNewId(v: GroupView, since: int, lo: nat, n: nat, before: seq<seq<Arg>>) returns (lines: seq<seq<Arg>>)
    requires lo <= n && before == NewIds(v, since, lo, n - 1)
    ensures lines == NewIds(v, since, lo, n)
  {
    var line := ReportNewId(v, since, n);
    lines := before + line;
  }

  method ListNewIds(v: GroupView, since: int, lo: nat, hi: nat) returns (lines: seq<seq<Arg>>)
    ensures lines == NewIds(v, since, lo, hi)
  {
    lines := [];
    var n := lo;
    while n <= hi
      invariant n == lo || lo < n <= hi + 1
      invariant lines == NewIds(v, since, lo, n - 1)
    {
      lines := AppendNewId(v, since, lo, n, lines);
      n := n + 1;
    }
  }

  method ListNewNews(spool: SpoolState, pattern: string, since: int, names: seq<string>) returns (lines: seq<seq<Arg>>)
    ensures lines == NewNewsLines(spool, pattern, since, names)
  {
    lines := [];
    for i := 0 to |names|
      invariant lines == NewNewsLines(spool, pattern, since, names[..i])
    {
      assert names[..i + 1][..i] == names[..i];
      var ok := Wildmat.DoWildmat(pattern, names[i]);
      if !ok {
        continue;
      }
      var g := LoadInfoFull(spool, names[i]);
      if g.None? {
        continue;
      }
      var ids := ListNewIds(ViewIn(spool, names[i]), since, g.value.start, g.value.end);
      lines := lines + ids;
    }
    assert names[..|names|] == names;
  }

  method AppendOverview(v: GroupView, group: string, lo: nat, n: nat, before: seq<seq<Arg>>)
    returns (lines: seq<seq<Arg>>)
    requires lo <= n && before == OverviewLines(v, group, lo, n - 1)
    ensures lines == OverviewLines(v, group, lo, n)
  {
    var a := Load(TextOf(v, n), group, n);
    lines := before;
    if a.valid {
      lines := lines + [OverviewLine(a)];
    }
  }

  method ListOverview(v: GroupView, group: string, lo: nat, hi: nat) returns (lines: seq<seq<Arg>>)
    ensures lines == OverviewLines(v, group, lo, hi)
  {
    lines := [];
    var n := lo;
    while n <= hi
      invariant n == lo || lo < n <= hi + 1
      invariant lines == OverviewLines(v, group, lo, n - 1)
    {
      lines := AppendOverview(v, group, lo, n, lines);
      n := n + 1;
    }
  }

  method MatchesAny(patterns: seq<string>, val: string) returns (ok: bool)
    ensures ok <==> AnyMatch(patterns, val)
  {
    for i := 0 to |patterns|
      invariant forall k :: 0 <= k < i ==> !Wildmat.Matches(patterns[k], val)
    {
      var hit := Wildmat.DoWildmat(patterns[i], val);
      if hit {
        return true;
      }
    }
    return false;
  }

  method ReadHeader(v: GroupView, n: nat, field: string) returns (val: string)
    ensures val == RawHeaderIn(v, n, field)
  {
    val := "";
    if n in v.files {
      val := GetRawHeader(v.files[n].text, field);
    }
  }

  method ReportHeader(v: GroupView, field: string, patterns: Option<seq<string>>, n: nat) returns (lines: seq<seq<Arg>>)
    ensures lines == HeaderReport(v, field, patterns, n)
  {
    var val := ReadHeader(v, n, field);
    if val == "" {
      return [];
    }
    if patterns.Some? {
      var ok := MatchesAny(patterns.value, val);
      if !ok {
        return [];
      }
    }
    return [[N(n), S(val)]];
  }

  method AppendHeader(v: GroupView, field: string, patterns: Option<seq<string>>, lo: nat, n: nat,
                      before: seq<seq<Arg>>)
    returns (lines: seq<seq<Arg>>)
    requires lo <= n && before == HeaderReports(v, field, patterns, lo, n - 1)
    ensures lines == HeaderReports(v, field, patterns, lo, n)
  {
    var line := ReportHeader(v, field, patterns, n);
    lines := before + line;
  }

  method ListHeaders(v: GroupView, field: string, patterns: Option<seq<string>>, lo: nat, hi: nat)
    returns (lines: seq<seq<Arg>>)
    ensures lines == HeaderReports(v, field, patterns, lo, hi)
  {
    lines := [];
    var n := lo;
    ghost var done: int := lo - 1;
    while n <= hi
      invariant lo <= n && (n <= hi + 1 || n == lo) && done == n - 1
      invariant lines == HeaderReports(v, field, patterns, lo, done)
      decreases hi - n
    {
      lines := AppendHeader(v, field, patterns, lo, n, lines);
      n, done := n + 1, n;
    }
  }

  method SendPart(part: Part, a: Article, text: string) returns (reply: Reply)
    ensures reply == PartReply(part, a, text)
  {
    var args := [N(a.number), S(a.Get(MessageIdField))];
    match part {
      case WholeArticle =>
        var out := SendArticle(text, true, true);
        reply := Reply(220, args, [[S(out)]]);
      case HeadPart =>
        var out := SendArticle(text, true, false);
        reply := Reply(221, args, [[S(out)]]);
      case BodyPart =>
        var out := SendArticle(text, false, true);
        reply := Reply(222, args, [[S("\r\n" + out)]]);
      case StatusOnly =>
        reply := Reply(223, args, []);
    }
  }

  // ----- the handler -----

  class Handler {
    var curGroup: Snapshot
    var curArticle: Article
    var session: Option<Session>
    var authUser: string
    var authSimple: bool
    var closed: bool

    function State(): Conn
      reads this
    {
      Conn(curGroup, curArticle, session, authUser, authSimple, closed)
    }

    constructor ()
      ensures State() == START
    {
      curGroup, curArticle := NO_GROUP, NotLoaded("", 0);
      session, authUser, authSimple, closed := None, "", false, false;
    }

    method AuthSimple(e: Env, req: Request) returns (reply: Reply)
      modifies this
      ensures NntpSession.Result(State(), reply, Nothing) == DoAuthSimple(e, old(State()), req)
    {
      authSimple := false;
      if req.arg1 == "" {
        return Reply(501, [], []);
      }
      if e.store.Some? && ValidateUser(e.o, e.store.value, req.word, req.arg1) {
        session := Some(SessionFor(e.store.value, req.word, ""));
        return Reply(250, [], []);
      }
      return Reply(452, [], []);
    }

    method AuthInfo(e: Env, req: Request) returns (reply: Reply)
      modifies this
      ensures NntpSession.Result(State(), reply, Nothing) == DoAuthInfo(e, old(State()), req)
    {
      if e.store.None? {
        return Reply(281, [], []);
      }
      var kind := e.o.upper(req.arg1);
      if kind == "SIMPLE" {
        authSimple := true;
        return Reply(350, [], []);
      }
      if kind == "USER" {
        if req.arg2 == "" {
          return Reply(501, [], []);
        }
        authUser := req.arg2;
        return Reply(381, [], []);
      }
      if kind == "PASS" {
        if req.arg2 == "" {
          return Reply(501, [], []);
        }
        if authUser == "" {
          return Reply(482, [], []);
        }
        if ValidateUser(e.o, e.store.value, authUser, req.arg2) {
          session := Some(SessionFor(e.store.value, authUser, e.store.value.users[authUser].realName));
          reply := Reply(281, [], []);
        } else {
          reply := Reply(482, [], []);
        }
        authUser := "";
        return;
      }
      return Reply(501, [], []);
    }

    method Group(e: Env, req: Request) returns (reply: Reply)
      modifies this
      ensures NntpSession.Result(State(), reply, Nothing) == DoGroup(e, old(State()), req)
    {
      if req.arg1 == "" {
        return Reply(501, [], []);
      }
      if !ValidGroupName(req.arg1) {
        return Reply(501, [], []);
      }
      var g := LoadInfoFull(e.spool, req.arg1);
      if g.None? {
        return Reply(411, [], []);
      }
      if !MayRead(e, session, req.arg1) {
        return Reply(480, [], []);
      }
      curGroup := g.value;
      curArticle := Load(TextOf(ViewIn(e.spool, curGroup.name), curGroup.start), curGroup.name, curGroup.start);
      return Reply(211, [N(curGroup.total), N(curGroup.start), N(curGroup.end), S(curGroup.name)], []);
    }

    method ListGroup(e: Env, req: Request) returns (reply: Reply)
      modifies this
      ensures NntpSession.Result(State(), reply, Nothing) == DoListGroup(e, old(State()), req)
    {
      if req.arg1 != "" {
        if !ValidGroupName(req.arg1) {
          return Reply(501, [], []);
        }
        var g := LoadInfoFull(e.spool, req.arg1);
        if g.None? {
          return Reply(411, [], []);
        }
        if !MayRead(e, session, req.arg1) {
          return Reply(480, [], []);
        }
        curGroup := g.value;
        curArticle := Load(TextOf(ViewIn(e.spool, curGroup.name), curGroup.start), curGroup.name, curGroup.start);
      }
      reply := ListNumbersOf(e, req.arg2);
    }

    method ListNumbersOf(e: Env, range: string) returns (reply: Reply)
      ensures NntpSession.Result(State(), reply, Nothing) == ListCurrent(e, State(), range)
    {
      if !curGroup.valid {
        return Reply(412, [], []);
      }
      if !MayRead(e, session, curGroup.name) {
        return Reply(480, [], []);
      }
      var lo, hi := curGroup.start, curGroup.end;
      if range != "" {
        lo, hi := SelectRange(curGroup, range);
      }
      var ns := Ranges.ListNumbers(ViewIn(e.spool, curGroup.name), lo, hi);
      return Reply(211, [N(curGroup.total), N(curGroup.start), N(curGroup.end), S(curGroup.name)], Numbered(ns));
    }

    method List(e: Env, req: Request) returns (reply: Reply)
      ensures NntpSession.Result(State(), reply, Nothing) == DoList(e, State(), req)
    {
      var names := VisibleNames(e, session);
      var arg := e.o.upper(req.arg1);
      var kind := ListKindOf(arg);
      if kind.Unknown? {
        return Reply(501, [], []);
      }
      if kind.Constant? {
        return Fixed(arg);
      }
      var pattern := None;
      if arg == "ACTIVE" && req.arg2 != "" {
        pattern := Some(req.arg2);
      }
      var lines := ListGroups(e.spool, kind, pattern, names);
      return Reply(215, [], lines);
    }

    method NewGroups(e: Env, req: Request) returns (reply: Reply)
      ensures NntpSession.Result(State(), reply, Nothing) == DoNewGroups(e, State(), req)
    {
      var since := e.o.parseDate(req.arg1, req.arg2);
      if since.None? {
        return Reply(501, [], []);
      }
      var lines := ListNewGroups(e.spool, since.value, VisibleNames(e, session));
      return Reply(231, [], lines);
    }

    method NewNews(e: Env, req: Request) returns (reply: Reply)
      ensures NntpSession.Result(State(), reply, Nothing) == DoNewNews(e, State(), req)
    {
      if req.arg1 == "" || req.arg2 == "" {
        return Reply(501, [], []);
      }
      var fields := Split(req.arg2, ' ');
      if |fields| < 2 {
        return Reply(501, [], []);
      }
      var since := e.o.parseDate(fields[0], fields[1]);
      if since.None? {
        return Reply(501, [], []);
      }
      var lines := ListNewNews(e.spool, req.arg1, since.value, VisibleNames(e, session));
      return Reply(230, [], lines);
    }

    method Over(e: Env, req: Request) returns (reply: Reply)
      ensures NntpSession.Result(State(), reply, Nothing) == DoOver(e, State(), req)
    {
      if !curGroup.valid {
        return Reply(412, [], []);
      }
      if !MayRead(e, session, curGroup.name) {
        return Reply(480, [], []);
      }
      var lo, hi := curGroup.start, curGroup.end;
      if req.arg1 != "" {
        lo, hi := SelectRange(curGroup, req.arg1);
      }
      var lines := ListOverview(ViewIn(e.spool, curGroup.name), curGroup.name, lo, hi);
      return Reply(224, [], lines);
    }

    method ShowHeaders(e: Env, code: nat, field: string, range: string, patterns: Option<seq<string>>)
      returns (reply: Reply)
      modifies this
      ensures NntpSession.Result(State(), reply, Nothing) == HeadersFor(e, old(State()), code, field, range, patterns)
    {
      var lo, hi := curGroup.start, curGroup.end;
      if IsMessageId(range) {
        var found := FindByMessageID(e.spool, curGroup, range);
        match found {
          case Miss => return Reply(430, [], []);
          case Loops =>
            closed := true;
            return Silent;
          case Hit(n) => lo, hi := n, n;
        }
      } else if range != "" {
        lo, hi := SelectRange(curGroup, range);
      }
      var lines := ListHeaders(ViewIn(e.spool, curGroup.name), field, patterns, lo, hi);
      return Reply(code, [], lines);
    }

    method Hdr(e: Env, req: Request) returns (reply: Reply)
      modifies this
      ensures NntpSession.Result(State(), reply, Nothing) == DoHdr(e, old(State()), req)
    {
      if !curGroup.valid {
        return Reply(412, [], []);
      }
      if !MayRead(e, session, curGroup.name) {
        return Reply(480, [], []);
      }
      if req.arg1 == "" {
        return Reply(501, [], []);
      }
      reply := ShowHeaders(e, 225, req.arg1, req.arg2, None);
    }

    method XPat(e: Env, req: Request) returns (reply: Reply)
      modifies this
      ensures NntpSession.Result(State(), reply, Nothing) == DoXPat(e, old(State()), req)
    {
      if !curGroup.valid {
        return Reply(412, [], []);
      }
      if !MayRead(e, session, curGroup.name) {
        return Reply(480, [], []);
      }
      if req.arg1 == "" || req.arg2 == "" {
        return Reply(501, [], []);
      }
      var fields := Split(req.arg2, ' ');
      if |fields| < 2 {
        return Reply(501, [], []);
      }
      reply := ShowHeaders(e, 221, req.arg1, fields[0], Some(fields[1..]));
    }

    /** The cursor goes to n, and comes back when that article does not load. */
    method Move(e: Env, n: nat, failure: nat) returns (reply: Reply)
      modifies this
      ensures NntpSession.Result(State(), reply, Nothing) == MoveTo(e, old(State()), n, failure)
    {
      var restoreArt := curArticle;
      curArticle := Load(TextOf(ViewIn(e.spool, curGroup.name), n), curGroup.name, n);
      if !curArticle.valid {
        curArticle := restoreArt;
        return Reply(failure, [N(n)], []);
      }
      return Reply(223, [N(n), S(curArticle.Get(MessageIdField))], []);
    }

    method Next(e: Env) returns (reply: Reply)
      modifies this
      ensures NntpSession.Result(State(), reply, Nothing) == DoNext(e, old(State()))
    {
      if !curGroup.valid {
        return Reply(412, [], []);
      }
      if !MayRead(e, session, curGroup.name) {
        return Reply(480, [], []);
      }
      if !curArticle.valid {
        return Reply(420, [], []);
      }
      var next := curArticle.number + 1;
      if next < curGroup.start || next > curGroup.end {
        return Reply(421, [], []);
      }
      reply := Move(e, next, 421);
    }

    method Last(e: Env) returns (reply: Reply)
      modifies this
      ensures NntpSession.Result(State(), reply, Nothing) == DoLast(e, old(State()))
    {
      if !curGroup.valid {
        return Reply(412, [], []);
      }
      if !MayRead(e, session, curGroup.name) {
        return Reply(480, [], []);
      }
      if !curArticle.valid {
        return Reply(420, [], []);
      }
      if curArticle.number <= curGroup.start {
        return Reply(422, [], []);
      }
      reply := Move(e, curArticle.number - 1, 422);
    }

    method Name(e: Env, arg: string) returns (r: Named)
      ensures r == NameArticle(e, State(), arg)
    {
      if arg == "" {
        return NumberedArticle(curArticle.number, true);
      }
      if arg[0] == '<' {
        var found := FindByMessageID(e.spool, curGroup, arg);
        match found {
          case Miss => return NoSuch;
          case Loops => return Never;
          case Hit(n) => return NumberedArticle(n, true);
        }
      }
      if IsDigit(arg[0]) {
        var n := ParseUint(arg);
        return if n.Some? then NumberedArticle(n.value, false) else BadArgument;
      }
      return BadArgument;
    }

    method Retrieve(e: Env, part: Part, arg: string) returns (reply: Reply)
      modifies this
      ensures NntpSession.Result(State(), reply, Nothing) == DoRetrieve(e, old(State()), part, arg)
    {
      if !curGroup.valid {
        return Reply(412, [], []);
      }
      if !MayRead(e, session, curGroup.name) {
        return Reply(480, [], []);
      }
      var prevNum := curArticle.number;
      var named := Name(e, arg);
      match named {
        case NoSuch => return Reply(430, [], []);
        case Never =>
          closed := true;
          return Silent;
        case BadArgument => return Reply(501, [], []);
        case NumberedArticle(n, restore) =>
          if n < curGroup.start || n > curGroup.end {
            return Reply(423, [N(curGroup.start), N(curGroup.end)], []);
          }
          var v := ViewIn(e.spool, curGroup.name);
          curArticle := Load(TextOf(v, n), curGroup.name, n);
          if !curArticle.valid {
            return Reply(430, [N(n)], []);
          }
          reply := SendPart(part, curArticle, TextOf(v, n).GetOr(""));
          if restore {
            curArticle := Load(TextOf(v, prevNum), curGroup.name, prevNum);
          }
      }
    }

    method Post(e: Env, req: Request) returns (reply: Reply, effect: Effect)
      modifies this
      ensures NntpSession.Result(State(), reply, effect) == DoPost(e, old(State()), req)
    {
      if !req.post.Complete? {
        return Reply(441, [], []), Nothing;
      }
      var headers, body := ParseArticle(req.post.msg);
      var control := GetHeaderValue(headers, CONTROL_KEY);
      if control.Some? {
        var val := control.value;
        if |val| >= |CANCEL_WORD| && Lower(val[..|CANCEL_WORD|]) == CANCEL_WORD {
          reply, effect := Cancel(e, headers, Trim(val[|CANCEL_WORD|..]));
          return;
        }
      }
      reply, effect := PostArticle(e, req.post.msg, headers, body);
    }

    method CheckFrom(o: Oracle, headers: seq<string>) returns (ok: bool)
      ensures ok == FromMatches(o, session, headers)
    {
      if session.Some? && session.value.username != "" {
        var from := GetHeaderValue(headers, FROM_KEY);
        if from.None? || from.value == "" {
          return false;
        }
        return o.fold(o.fromEmail(from.value)) == o.fold(session.value.username);
      }
      return true;
    }

    method PostArticle(e: Env, msg: string, headers: seq<string>, body: seq<string>)
      returns (reply: Reply, effect: Effect)
      ensures NntpSession.Result(State(), reply, effect) == DoPostArticle(e, State(), msg, headers, body)
    {
      effect := Nothing;
      var field := GetHeaderValue(headers, NEWSGROUPS_KEY);
      if field.None? || field.value == "" {
        return Reply(441, [], []), Nothing;
      }
      var postgroup := field.value;
      if !ValidGroupName(postgroup) {
        return Reply(441, [], []), Nothing;
      }
      var g := LoadInfoFull(e.spool, postgroup);
      if g.None? {
        return Reply(441, [], []), Nothing;
      }
      if !MayPost(e, session, postgroup) {
        return Reply(480, [], []), Nothing;
      }
      var own := CheckFrom(e.o, headers);
      if !own {
        return Reply(441, [], []), Nothing;
      }
      var limit := 0;
      if curGroup.valid {
        limit := curGroup.postLimit;
      }
      if limit > 0 {
        var linecount := LineCount.CountPostLines(msg);
        if linecount > limit {
          return Reply(411, [I(limit)], []), Nothing;
        }
      }
      var updated := UpdatePath(headers, e.serverName);
      var group := GetHeaderValue(updated, NEWSGROUPS_KEY);
      return Reply(240, [], []), StoreIn(group.GetOr(""), updated, body);
    }

    method CompareFrom(e: Env, headers: seq<string>, group: string, n: nat) returns (ok: bool)
      ensures ok == SameFrom(e, headers, group, n)
    {
      var field := GetHeaderValue(headers, FROM_KEY);
      var cancelFrom := field.GetOr("");
      var origFrom := ReadHeader(ViewIn(e.spool, group), n, "From");
      return cancelFrom != "" && origFrom != "" && e.o.fold(Trim(cancelFrom)) == e.o.fold(Trim(origFrom));
    }

    method Cancel(e: Env, headers: seq<string>, id: string) returns (reply: Reply, effect: Effect)
      modifies this
      ensures NntpSession.Result(State(), reply, effect) == DoCancel(e, old(State()), headers, id)
    {
      var field := GetHeaderValue(headers, NEWSGROUPS_KEY);
      if field.None? || field.value == "" {
        return Reply(441, [], []), Nothing;
      }
      var postgroup := field.value;
      if !ValidGroupName(postgroup) {
        return Reply(441, [], []), Nothing;
      }
      if !MayPost(e, session, postgroup) {
        return Reply(480, [], []), Nothing;
      }
      var g := LoadInfoFull(e.spool, postgroup);
      if g.None? {
        return Reply(441, [], []), Nothing;
      }
      var found := FindByMessageID(e.spool, g.value, id);
      match found {
        case Miss => return Reply(441, [], []), Nothing;
        case Loops =>
          closed := true;
          return Silent, Nothing;
        case Hit(n) =>
          var same := CompareFrom(e, headers, postgroup, n);
          if !same {
            return Reply(441, [], []), Nothing;
          }
          return Reply(240, [], []), RemoveFrom(postgroup, n);
      }
    }

    method Command(e: Env, verb: Verb, req: Request) returns (reply: Reply, effect: Effect)
      modifies this
      ensures NntpSession.Result(State(), reply, effect) == Dispatch(e, old(State()), verb, req)
    {
      effect := Nothing;
      match verb {
        case AuthInfoVerb => reply := AuthInfo(e, req);
        case ListVerb => reply := List(e, req);
        case ListGroupVerb => reply := ListGroup(e, req);
        case XPatVerb => reply := XPat(e, req);
        case OverVerb => reply := Over(e, req);
        case HdrVerb => reply := Hdr(e, req);
        case GroupVerb => reply := Group(e, req);
        case NewGroupsVerb => reply := NewGroups(e, req);
        case NewNewsVerb => reply := NewNews(e, req);
        case NextVerb => reply := Next(e);
        case LastVerb => reply := Last(e);
        case RetrieveVerb(part) => reply := Retrieve(e, part, req.arg1);
        case PostVerb => reply, effect := Post(e, req);
        case QuitVerb =>
          closed := true;
          reply := Reply(205, [], []);
        case OtherVerb => reply := Fixed(req.word);
      }
    }

    method Handle(e: Env, req: Request) returns (reply: Reply, effect: Effect)
      modifies this
      ensures NntpSession.Result(State(), reply, effect) == Step(e, old(State()), req)
    {
      if closed || req.word == "" {
        return Silent, Nothing;
      }
      if authSimple {
        reply := AuthSimple(e, req);
        return reply, Nothing;
      }
      reply, effect := Command(e, VerbOf(e.o.upper(req.word)), req);
    }

    /** The command loop, over the commands a client sends and the spool and store each of them meets. */
    method HandleConn(turns: seq<S.Turn>) returns (replies: seq<Reply>, effects: seq<Effect>)
      modifies this
      ensures State() == S.Run(old(State()), turns)
      ensures replies == S.Replies(old(State()), turns)
      ensures effects == S.Effects(old(State()), turns)
    {
      replies, effects := [], [];
      for i := 0 to |turns|
        invariant State() == S.Run(old(State()), turns[..i])
        invariant replies == S.Replies(old(State()), turns[..i])
        invariant effects == S.Effects(old(State()), turns[..i])
      {
        assert turns[..i + 1][..i] == turns[..i];
        var reply, effect := Handle(turns[i].env, turns[i].req);
        replies, effects := replies + [reply], effects + [effect];
      }
      assert turns[..|turns|] == turns;
    }
  }
}
