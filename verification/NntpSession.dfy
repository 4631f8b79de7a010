/**
  One NNTP connection as a state machine (internal/nntp/server.go, handleConn and handleCancel): each
  command is a step from the connection's state, over the spool and the auth store as they are at that
  moment, to a new state, a reply and an effect on the spool.
 */
module NntpSession {
  import opened Text
  import opened Lines
  import PostReader
  import opened Headers
  import opened ArticleFile
  import opened ArticleHeader
  import opened Spool
  import opened Search
  import Ranges
  import LineCount
  import Wildmat
  import opened GroupList
  import opened Auth

  // ----- the world of a step -----

  /** What the server computes with code that is not part of this model. */
  datatype Oracle = Oracle(upper: string -> string,               // strings.ToUpper
                           fold: string -> string,                // EqualFold compares folded texts
                           fromEmail: string -> string,           // parseFromEmail
                           comparePassword: (string, string) -> bool,
                           parseDate: (string, string) -> Option<int>)

  datatype GroupConfig = GroupConfig(desc: string, creator: string, postLimit: int)

  datatype GroupEntry = GroupEntry(view: GroupView, config: GroupConfig, ctime: int)

  /** `names` is what AllGroups lists. */
  datatype SpoolState = SpoolState(names: seq<string>, groups: map<string, GroupEntry>)

  datatype Env = Env(o: Oracle, serverName: string, store: Option<StoreState>, spool: SpoolState)

  // ----- the connection -----

  /** A loaded group; `valid` is false until one has been selected. */
  datatype Snapshot = Snapshot(valid: bool, name: string, start: nat, end: nat, total: nat, postLimit: int)

  const NO_GROUP := Snapshot(false, "", 0, 0, 0, 0)

  /** `closed` also stands for a handler that never comes back from a command. */
  datatype Conn = Conn(curGroup: Snapshot, curArticle: Article, session: Option<Session>,
                       authUser: string, authSimple: bool, closed: bool)

  const START := Conn(NO_GROUP, NotLoaded("", 0), None, "", false, false)

  /** A command line cut into its fields, and for POST what the body reader returned. */
  datatype Request = Request(word: string, arg1: string, arg2: string, post: PostReader.Outcome)

  datatype Arg = N(n: nat) | I(i: int) | S(s: string)

  /** A status line with its arguments and the data lines after it. `Fixed` replies hold no group data. */
  datatype Reply = Silent | Fixed(word: string) | Reply(code: nat, args: seq<Arg>, lines: seq<seq<Arg>>)

  datatype Effect = Nothing
                  | StoreIn(group: string, headers: seq<string>, body: seq<string>)
                  | RemoveFrom(group: string, n: nat)

  datatype Result = Result(conn: Conn, reply: Reply, effect: Effect)

  function Refuse(c: Conn, code: nat): Result {
    Result(c, Reply(code, [], []), Nothing)
  }

  // ----- the spool as commands see it -----

  /** The summary LoadInfo ends up with: the cached one, or a scan when there is none. */
  ghost function InfoOf(v: GroupView): Info {
    LoadView(v).info.value
  }

  /** LoadInfoFull: fails without a directory and .config, or with a name that is too long. */
  ghost function LoadGroup(spool: SpoolState, name: string): Option<Snapshot> {
    if name in spool.groups && |name| < GROUP_MAX then
      var e := spool.groups[name];
      var i := InfoOf(e.view);
      Some(Snapshot(true, name, i.start, i.end, i.total, e.config.postLimit))
    else None
  }

  function ViewIn(spool: SpoolState, group: string): GroupView {
    if group in spool.groups then spool.groups[group].view else GroupView(None, map[], {})
  }

  function TextOf(v: GroupView, n: nat): Option<string> {
    if n in v.files then Some(v.files[n].text) else None
  }

  function LoadArticle(spool: SpoolState, group: string, n: nat): Article {
    Loaded(TextOf(ViewIn(spool, group), n), group, n)
  }

  function RawHeaderIn(v: GroupView, n: nat, field: string): string {
    match TextOf(v, n) case Some(text) => RawHeader(text, field) case None => ""
  }

  function FindIn(spool: SpoolState, g: Snapshot, id: string): Search.Result {
    Find(IdsOf(ViewIn(spool, g.name)), id, g.start, g.end)
  }

  // ----- access -----

  predicate MayRead(e: Env, session: Option<Session>, group: string) {
    e.store.Some? ==> CanRead(e.store.value, session, group, true)
  }

  predicate MayPost(e: Env, session: Option<Session>, group: string) {
    e.store.Some? ==> CanPost(e.store.value, session, group, true)
  }

  function VisibleNames(e: Env, session: Option<Session>): seq<string> {
    match e.store case None => e.spool.names case Some(st) => Listable(st, session, e.spool.names)
  }

  predicate ValidateUser(o: Oracle, st: StoreState, username: string, password: string) {
    username in st.users && o.comparePassword(st.users[username].passwordHash, password)
  }

  function SessionFor(st: StoreState, username: string, realName: string): Session {
    Session(username, realName, MembershipOf(st.membership, username))
  }

  // ----- AUTHINFO -----

  function DoAuthSimple(e: Env, c: Conn, req: Request): Result {
    var c := c.(authSimple := false);
    if req.arg1 == "" then Refuse(c, 501)
    else if e.store.Some? && ValidateUser(e.o, e.store.value, req.word, req.arg1) then
      Refuse(c.(session := Some(SessionFor(e.store.value, req.word, ""))), 250)
    else Refuse(c, 452)
  }

  function DoAuthInfo(e: Env, c: Conn, req: Request): Result {
    if e.store.None? then Refuse(c, 281)
    else
      var kind := e.o.upper(req.arg1);
      if kind == "SIMPLE" then Refuse(c.(authSimple := true), 350)
      else if kind == "USER" then
        if req.arg2 == "" then Refuse(c, 501) else Refuse(c.(authUser := req.arg2), 381)
      else if kind == "PASS" then
        if req.arg2 == "" then Refuse(c, 501)
        else if c.authUser == "" then Refuse(c, 482)
        else if ValidateUser(e.o, e.store.value, c.authUser, req.arg2) then
          var realName := e.store.value.users[c.authUser].realName;
          Refuse(c.(session := Some(SessionFor(e.store.value, c.authUser, realName)), authUser := ""), 281)
        else Refuse(c.(authUser := ""), 482)
      else Refuse(c, 501)
  }

  // ----- GROUP and LISTGROUP -----

  function Select(e: Env, c: Conn, g: Snapshot): Conn {
    c.(curGroup := g, curArticle := LoadArticle(e.spool, g.name, g.start))
  }

  ghost function DoGroup(e: Env, c: Conn, req: Request): Result {
    if req.arg1 == "" || !ValidGroupName(req.arg1) then Refuse(c, 501)
    else
      match LoadGroup(e.spool, req.arg1)
      case None => Refuse(c, 411)
      case Some(g) =>
        if !MayRead(e, c.session, req.arg1) then Refuse(c, 480)
        else Result(Select(e, c, g), Reply(211, [N(g.total), N(g.start), N(g.end), S(g.name)], []), Nothing)
  }

  function Numbered(ns: seq<nat>): (r: seq<seq<Arg>>)
    ensures |r| == |ns|
  {
    seq(|ns|, i requires 0 <= i < |ns| => [N(ns[i])])
  }

  /** The article numbers a range argument selects in a group. */
  function RangeOf(g: Snapshot, range: string): (nat, nat) {
    Ranges.Clamped(Ranges.Requested(range, g.end, g.start, g.end), g.start, g.end)
  }

  /** LISTGROUP once its group, if it named one, is selected. */
  function ListCurrent(e: Env, c: Conn, range: string): Result {
    var g := c.curGroup;
    if !g.valid then Refuse(c, 412)
    else if !MayRead(e, c.session, g.name) then Refuse(c, 480)
    else
      var (lo, hi) := if range != "" then RangeOf(g, range) else (g.start, g.end);
      Result(c, Reply(211, [N(g.total), N(g.start), N(g.end), S(g.name)],
                      Numbered(Ranges.Listing(ViewIn(e.spool, g.name), lo, hi))), Nothing)
  }

  ghost function DoListGroup(e: Env, c: Conn, req: Request): Result {
    if req.arg1 == "" then ListCurrent(e, c, req.arg2)
    else if !ValidGroupName(req.arg1) then Refuse(c, 501)
    else
      match LoadGroup(e.spool, req.arg1)
      case None => Refuse(c, 411)
      case Some(g) =>
        if !MayRead(e, c.session, req.arg1) then Refuse(c, 480) else ListCurrent(e, Select(e, c, g), req.arg2)
  }

  // ----- LIST, NEWGROUPS, NEWNEWS -----

  datatype ListKind = Active | Times | Newsgroups | Counts | Constant | Unknown

  function ListKindOf(arg: string): ListKind {
    if arg == "" || arg == "ACTIVE" then Active
    else if arg == "ACTIVE.TIMES" then Times
    else if arg == "NEWSGROUPS" then Newsgroups
    else if arg == "COUNTS" then Counts
    else if arg in {"EXTENSIONS", "DISTRIBUTIONS", "DISTRIB.PATS", "OVERVIEW.FMT", "SUBSCRIPTIONS", "HEADERS"}
    then Constant
    else Unknown
  }

  function ListLine(kind: ListKind, g: Snapshot, e: GroupEntry): seq<Arg> {
    match kind
    case Active => [S(g.name), N(g.total), N(g.start)]
    case Times => [S(g.name), I(e.ctime), S(e.config.creator)]
    case Newsgroups => [S(g.name), S(e.config.desc)]
    case Counts => [S(g.name), N(g.end), N(g.start), N(g.total)]
    case _ => []
  }

  /** One line for each listed name that loads; with a wildmat, only names that match it. */
  ghost function ListLines(spool: SpoolState, kind: ListKind, pattern: Option<string>,
                           names: seq<string>): seq<seq<Arg>> {
    if names == [] then []
    else
      var n := |names| - 1;
      var g := LoadGroup(spool, names[n]);
      ListLines(spool, kind, pattern, names[..n])
      + (if g.Some? && (pattern.Some? ==> Wildmat.Matches(pattern.value, names[n]))
         then [ListLine(kind, g.value, spool.groups[names[n]])] else [])
  }

  ghost function DoList(e: Env, c: Conn, req: Request): Result {
    var arg := e.o.upper(req.arg1);
    var kind := ListKindOf(arg);
    if kind.Unknown? then Refuse(c, 501)
    else if kind.Constant? then Result(c, Fixed(arg), Nothing)
    else
      var pattern := if arg == "ACTIVE" && req.arg2 != "" then Some(req.arg2) else None;
      Result(c, Reply(215, [], ListLines(e.spool, kind, pattern, VisibleNames(e, c.session))), Nothing)
  }

  ghost function NewGroupLines(spool: SpoolState, since: int, names: seq<string>): seq<seq<Arg>> {
    if names == [] then []
    else
      var n := |names| - 1;
      NewGroupLines(spool, since, names[..n])
      + (if LoadGroup(spool, names[n]).Some? && spool.groups[names[n]].ctime >= since then [[S(names[n])]] else [])
  }

  ghost function DoNewGroups(e: Env, c: Conn, req: Request): Result {
    match e.o.parseDate(req.arg1, req.arg2)
    case None => Refuse(c, 501)
    case Some(since) => Result(c, Reply(231, [], NewGroupLines(e.spool, since, VisibleNames(e, c.session))), Nothing)
  }

  function NewId(v: GroupView, since: int, n: nat): seq<seq<Arg>> {
    if n in v.files && v.files[n].mtime > since && MessageIdOf(v.files[n].text).Some?
    then [[S(MessageIdOf(v.files[n].text).value)]] else []
  }

  /** The Message-IDs of a group's articles newer than a time. */
  function NewIds(v: GroupView, since: int, lo: nat, hi: int): seq<seq<Arg>>
    decreases hi - lo + 1
  {
    if hi < lo then [] else NewIds(v, since, lo, hi - 1) + NewId(v, since, hi)
  }

  ghost function NewNewsLines(spool: SpoolState, pattern: string, since: int, names: seq<string>): seq<seq<Arg>> {
    if names == [] then []
    else
      var n := |names| - 1;
      var g := LoadGroup(spool, names[n]);
      NewNewsLines(spool, pattern, since, names[..n])
      + (if g.Some? && Wildmat.Matches(pattern, names[n])
         then NewIds(ViewIn(spool, names[n]), since, g.value.start, g.value.end) else [])
  }

  ghost function DoNewNews(e: Env, c: Conn, req: Request): Result {
    var fields := Split(req.arg2, ' ');
    if req.arg1 == "" || req.arg2 == "" || |fields| < 2 then Refuse(c, 501)
    else
      match e.o.parseDate(fields[0], fields[1])
      case None => Refuse(c, 501)
      case Some(since) =>
        Result(c, Reply(230, [], NewNewsLines(e.spool, req.arg1, since, VisibleNames(e, c.session))), Nothing)
  }

  // ----- OVER, HDR, XPAT -----

  function OverviewLine(a: Article): seq<Arg> {
    [N(a.number), S(a.Get(SubjectField)), S(a.Get(FromField)), S(a.Get(DateField)), S(a.Get(MessageIdField)),
     S(a.Get(ReferencesField)), S(a.Get(LinesField)), S(a.Get(XrefField))]
  }

  function OverviewLines(v: GroupView, group: string, lo: nat, hi: int): seq<seq<Arg>>
    decreases hi - lo + 1
  {
    if hi < lo then []
    else
      var a := Loaded(TextOf(v, hi), group, hi);
      OverviewLines(v, group, lo, hi - 1) + (if a.valid then [OverviewLine(a)] else [])
  }

  ghost predicate AnyMatch(patterns: seq<string>, val: string) {
    exists i :: 0 <= i < |patterns| && Wildmat.Matches(patterns[i], val)
  }

  /** The line for one article's header, if it has one; for XPAT only if some pattern matches. */
  ghost function HeaderReport(v: GroupView, field: string, patterns: Option<seq<string>>, n: nat): seq<seq<Arg>> {
    var val := RawHeaderIn(v, n, field);
    if |val| > 0 && (patterns.Some? ==> AnyMatch(patterns.value, val)) then [[N(n), S(val)]] else []
  }

  ghost function HeaderReports(v: GroupView, field: string, patterns: Option<seq<string>>, lo: nat,
                               hi: int): seq<seq<Arg>>
    decreases hi - lo + 1
  {
    if hi < lo then [] else HeaderReports(v, field, patterns, lo, hi - 1) + HeaderReport(v, field, patterns, hi)
  }

  function DoOver(e: Env, c: Conn, req: Request): Result {
    var g := c.curGroup;
    if !g.valid then Refuse(c, 412)
    else if !MayRead(e, c.session, g.name) then Refuse(c, 480)
    else
      var (lo, hi) := if req.arg1 != "" then RangeOf(g, req.arg1) else (g.start, g.end);
      Result(c, Reply(224, [], OverviewLines(ViewIn(e.spool, g.name), g.name, lo, hi)), Nothing)
  }

  predicate IsMessageId(arg: string) {
    arg != "" && arg[0] == '<'
  }

  /** The header lines for a range argument or a Message-ID. */
  ghost function HeadersFor(e: Env, c: Conn, code: nat, field: string, range: string,
                            patterns: Option<seq<string>>): Result {
    var g := c.curGroup;
    if IsMessageId(range) then
      match FindIn(e.spool, g, range)
      case Miss => Refuse(c, 430)
      case Loops => Result(c.(closed := true), Silent, Nothing)
      case Hit(n) => Result(c, Reply(code, [], HeaderReports(ViewIn(e.spool, g.name), field, patterns, n, n)), Nothing)
    else
      var (lo, hi) := if range != "" then RangeOf(g, range) else (g.start, g.end);
      Result(c, Reply(code, [], HeaderReports(ViewIn(e.spool, g.name), field, patterns, lo, hi)), Nothing)
  }

  ghost function DoHdr(e: Env, c: Conn, req: Request): Result {
    var g := c.curGroup;
    if !g.valid then Refuse(c, 412)
    else if !MayRead(e, c.session, g.name) then Refuse(c, 480)
    else if req.arg1 == "" then Refuse(c, 501)
    else HeadersFor(e, c, 225, req.arg1, req.arg2, None)
  }

  ghost function DoXPat(e: Env, c: Conn, req: Request): Result {
    var g := c.curGroup;
    if !g.valid then Refuse(c, 412)
    else if !MayRead(e, c.session, g.name) then Refuse(c, 480)
    else
      var fields := Split(req.arg2, ' ');
      if req.arg1 == "" || req.arg2 == "" || |fields| < 2 then Refuse(c, 501)
      else HeadersFor(e, c, 221, req.arg1, fields[0], Some(fields[1..]))
  }

  // ----- NEXT and LAST -----

  function DoNext(e: Env, c: Conn): Result {
    var g := c.curGroup;
    if !g.valid then Refuse(c, 412)
    else if !MayRead(e, c.session, g.name) then Refuse(c, 480)
    else if !c.curArticle.valid then Refuse(c, 420)
    else
      var next := c.curArticle.number + 1;
      if next < g.start || next > g.end then Refuse(c, 421) else MoveTo(e, c, next, 421)
  }

  function DoLast(e: Env, c: Conn): Result {
    var g := c.curGroup;
    if !g.valid then Refuse(c, 412)
    else if !MayRead(e, c.session, g.name) then Refuse(c, 480)
    else if !c.curArticle.valid then Refuse(c, 420)
    else if c.curArticle.number <= g.start then Refuse(c, 422)
    else MoveTo(e, c, c.curArticle.number - 1, 422)
  }

  /** The cursor moves only to an article that loads. */
  function MoveTo(e: Env, c: Conn, n: nat, failure: nat): Result {
    var a := LoadArticle(e.spool, c.curGroup.name, n);
    if !a.valid then Result(c, Reply(failure, [N(n)], []), Nothing)
    else Result(c.(curArticle := a), Reply(223, [N(n), S(a.Get(MessageIdField))], []), Nothing)
  }

  // ----- HEAD, BODY, ARTICLE, STAT -----

  datatype Part = HeadPart | BodyPart | WholeArticle | StatusOnly

  /** The article a retrieval names: a number, and whether the cursor goes back afterwards. */
  datatype Named = NumberedArticle(n: nat, restore: bool) | NoSuch | Never | BadArgument

  function NameArticle(e: Env, c: Conn, arg: string): Named {
    if arg == "" then NumberedArticle(c.curArticle.number, true)
    else if IsMessageId(arg) then
      match FindIn(e.spool, c.curGroup, arg)
      case Miss => NoSuch
      case Loops => Never
      case Hit(n) => NumberedArticle(n, true)
    else if IsDigit(arg[0]) then
      match ParseUint(arg) case Some(n) => NumberedArticle(n, false) case None => BadArgument
    else BadArgument
  }

  function PartReply(part: Part, a: Article, text: string): Reply {
    var args := [N(a.number), S(a.Get(MessageIdField))];
    match part
    case WholeArticle => Reply(220, args, [[S(Sent(text, true, true))]])
    case HeadPart => Reply(221, args, [[S(Sent(text, true, false))]])
    case BodyPart => Reply(222, args, [[S("\r\n" + Sent(text, false, true))]])
    case StatusOnly => Reply(223, args, [])
  }

  function DoRetrieve(e: Env, c: Conn, part: Part, arg: string): Result {
    var g := c.curGroup;
    if !g.valid then Refuse(c, 412)
    else if !MayRead(e, c.session, g.name) then Refuse(c, 480)
    else
      match NameArticle(e, c, arg)
      case NoSuch => Refuse(c, 430)
      case Never => Result(c.(closed := true), Silent, Nothing)
      case BadArgument => Refuse(c, 501)
      case NumberedArticle(n, restore) =>
        if n < g.start || n > g.end then Result(c, Reply(423, [N(g.start), N(g.end)], []), Nothing)
        else
          var a := LoadArticle(e.spool, g.name, n);
          if !a.valid then Result(c.(curArticle := a), Reply(430, [N(n)], []), Nothing)
          else
            var text := TextOf(ViewIn(e.spool, g.name), n);
            Result(c.(curArticle := if restore then LoadArticle(e.spool, g.name, c.curArticle.number) else a),
                   PartReply(part, a, text.GetOr("")), Nothing)
  }

  // ----- POST -----

  const CANCEL_WORD := "cancel "

  /** The Message-ID a Control header asks to cancel. */
  function CancelId(headers: seq<string>): Option<string> {
    match HeaderValue(headers, CONTROL_KEY)
    case None => None
    case Some(val) =>
      if |val| >= |CANCEL_WORD| && Lower(val[..|CANCEL_WORD|]) == CANCEL_WORD then Some(Trim(val[|CANCEL_WORD|..]))
      else None
  }

  ghost function DoPost(e: Env, c: Conn, req: Request): Result {
    if !req.post.Complete? then Refuse(c, 441)
    else
      var lines := AllLines(StripCR(req.post.msg));
      var headers, body := HeadOf(lines), BodyOf(lines);
      match CancelId(headers)
      case Some(id) => DoCancel(e, c, headers, id)
      case None => DoPostArticle(e, c, req.post.msg, headers, body)
  }

  /** The From check of an authenticated poster. */
  predicate FromMatches(o: Oracle, session: Option<Session>, headers: seq<string>) {
    session.Some? && session.value.username != "" ==>
      var from := HeaderValue(headers, FROM_KEY);
      from.Some? && from.value != "" && o.fold(o.fromEmail(from.value)) == o.fold(session.value.username)
  }

  ghost function DoPostArticle(e: Env, c: Conn, msg: string, headers: seq<string>, body: seq<string>): Result {
    var postgroup := HeaderValue(headers, NEWSGROUPS_KEY).GetOr("");
    if postgroup == "" || !ValidGroupName(postgroup) || LoadGroup(e.spool, postgroup).None? then Refuse(c, 441)
    else if !MayPost(e, c.session, postgroup) then Refuse(c, 480)
    else if !FromMatches(e.o, c.session, headers) then Refuse(c, 441)
    else
      var limit := if c.curGroup.valid then c.curGroup.postLimit else 0;
      if limit > 0 && LineCount.PostLines(msg) > limit then Result(c, Reply(411, [I(limit)], []), Nothing)
      else
        var updated := PathUpdated(headers, e.serverName);
        Result(c, Reply(240, [], []), StoreIn(HeaderValue(updated, NEWSGROUPS_KEY).GetOr(""), updated, body))
  }

  ghost function DoCancel(e: Env, c: Conn, headers: seq<string>, id: string): Result {
    var postgroup := HeaderValue(headers, NEWSGROUPS_KEY).GetOr("");
    if postgroup == "" || !ValidGroupName(postgroup) then Refuse(c, 441)
    else if !MayPost(e, c.session, postgroup) then Refuse(c, 480)
    else
      match LoadGroup(e.spool, postgroup)
      case None => Refuse(c, 441)
      case Some(g) =>
        match FindIn(e.spool, g, id)
        case Miss => Refuse(c, 441)
        case Loops => Result(c.(closed := true), Silent, Nothing)
        case Hit(n) =>
          if !SameFrom(e, headers, postgroup, n) then Refuse(c, 441)
          else Result(c, Reply(240, [], []), RemoveFrom(postgroup, n))
  }

  predicate SameFrom(e: Env, headers: seq<string>, group: string, n: nat) {
    var cancelFrom := HeaderValue(headers, FROM_KEY).GetOr("");
    var origFrom := RawHeaderIn(ViewIn(e.spool, group), n, "From");
    cancelFrom != "" && origFrom != "" && e.o.fold(Trim(cancelFrom)) == e.o.fold(Trim(origFrom))
  }

  // ----- a step -----

  datatype Verb = AuthInfoVerb | ListVerb | ListGroupVerb | XPatVerb | OverVerb | HdrVerb | GroupVerb
                | NewGroupsVerb | NewNewsVerb | NextVerb | LastVerb | RetrieveVerb(part: Part) | PostVerb
                | QuitVerb | OtherVerb

  function VerbOf(word: string): Verb {
    if word == "AUTHINFO" then AuthInfoVerb
    else if word == "LIST" then ListVerb
    else if word == "LISTGROUP" then ListGroupVerb
    else if word == "XPAT" then XPatVerb
    else if word == "XOVER" || word == "OVER" then OverVerb
    else if word == "XHDR" || word == "HDR" then HdrVerb
    else if word == "GROUP" then GroupVerb
    else if word == "NEWGROUPS" then NewGroupsVerb
    else if word == "NEWNEWS" then NewNewsVerb
    else if word == "NEXT" then NextVerb
    else if word == "LAST" then LastVerb
    else if word == "HEAD" then RetrieveVerb(HeadPart)
    else if word == "BODY" then RetrieveVerb(BodyPart)
    else if word == "ARTICLE" then RetrieveVerb(WholeArticle)
    else if word == "STAT" then RetrieveVerb(StatusOnly)
    else if word == "POST" then PostVerb
    else if word == "QUIT" then QuitVerb
    else OtherVerb
  }

  /** The command of a request, when the connection is not waiting for AUTHINFO SIMPLE credentials. */
  ghost function Dispatch(e: Env, c: Conn, verb: Verb, req: Request): Result {
    match verb
    case AuthInfoVerb => DoAuthInfo(e, c, req)
    case ListVerb => DoList(e, c, req)
    case ListGroupVerb => DoListGroup(e, c, req)
    case XPatVerb => DoXPat(e, c, req)
    case OverVerb => DoOver(e, c, req)
    case HdrVerb => DoHdr(e, c, req)
    case GroupVerb => DoGroup(e, c, req)
    case NewGroupsVerb => DoNewGroups(e, c, req)
    case NewNewsVerb => DoNewNews(e, c, req)
    case NextVerb => DoNext(e, c)
    case LastVerb => DoLast(e, c)
    case RetrieveVerb(part) => DoRetrieve(e, c, part, req.arg1)
    case PostVerb => DoPost(e, c, req)
    case QuitVerb => Result(c.(closed := true), Reply(205, [], []), Nothing)
    case OtherVerb => Result(c, Fixed(req.word), Nothing)
  }

  ghost function Step(e: Env, c: Conn, req: Request): Result {
    if c.closed || req.word == "" then Result(c, Silent, Nothing)
    else if c.authSimple then DoAuthSimple(e, c, req)
    else Dispatch(e, c, VerbOf(e.o.upper(req.word)), req)
  }
}
