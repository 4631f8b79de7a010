/**
  What a client is answered (internal/nntp/server.go, handleConn and handleCancel), told by the words it
  sends, the permissions and the files: POST and cancel, retrieval, selection, NEXT and LAST, log-in.
 */
module SessionAnswers {
  import opened Text
  import opened Lines
  import opened Headers
  import opened ArticleFile
  import opened ArticleHeader
  import opened Spool
  import opened Search
  import LineCount
  import opened GroupList
  import opened Auth
  import opened Pipeline
  import opened NntpSession
  import S = SessionInvariant

  // ----- requests, groups and permissions -----

  /** The connection reads the request as that command. */
  predicate Sends(e: Env, c: Conn, req: Request, word: string) {
    !c.closed && !c.authSimple && req.word != "" && e.o.upper(req.word) == word
  }

  /** The group lets the session in; without an auth store every group lets everyone in. */
  predicate Lets(e: Env, session: Option<Session>, group: string, flag: char) {
    e.store.Some? ==> Admits(e.store.value, session, group, flag)
  }

  lemma LetsIs(e: Env, session: Option<Session>, group: string)
    ensures MayRead(e, session, group) <==> Lets(e, session, group, 'r')
    ensures MayPost(e, session, group) <==> Lets(e, session, group, 'w')
  {
    if e.store.Some? {
      AdmittedExactly(e.store.value, session, group, true);
    }
  }

  predicate IsThere(spool: SpoolState, group: string) {
    group in spool.groups && |group| < GROUP_MAX
  }

  lemma StepOf(e: Env, c: Conn, req: Request, word: string, verb: Verb)
    requires Sends(e, c, req, word) && VerbOf(word) == verb
    ensures Step(e, c, req) == Dispatch(e, c, verb, req)
  {
  }

  // ----- POST -----

  function PostedHeader(req: Request): seq<string>
    requires req.post.Complete?
  {
    HeadOf(AllLines(StripCR(req.post.msg)))
  }

  function PostedBody(req: Request): seq<string>
    requires req.post.Complete?
  {
    BodyOf(AllLines(StripCR(req.post.msg)))
  }

  /** The Control header says "cancel", in any case of letters, and something after it. */
  predicate AsksCancel(headers: seq<string>) {
    var control := HeaderValue(headers, CONTROL_KEY).GetOr("");
    |control| >= 7 && Lower(control[..7]) == "cancel "
  }

  function CancelledId(headers: seq<string>): string
    requires AsksCancel(headers)
  {
    Trim(HeaderValue(headers, CONTROL_KEY).GetOr("")[7..])
  }

  lemma AsksIs(headers: seq<string>)
    ensures CancelId(headers) == if AsksCancel(headers) then Some(CancelledId(headers)) else None
  {
  }

  /** The group a post names. */
  function GroupNamed(headers: seq<string>): string {
    HeaderValue(headers, NEWSGROUPS_KEY).GetOr("")
  }

  predicate NamesGroup(e: Env, headers: seq<string>) {
    var g := GroupNamed(headers);
    g != "" && ValidGroupName(g) && IsThere(e.spool, g)
  }

  /** On a logged-in connection the address in From is the user's name. */
  predicate FromIsOwn(e: Env, c: Conn, headers: seq<string>) {
    c.session.Some? && c.session.value.username != "" ==>
      var from := HeaderValue(headers, FROM_KEY).GetOr("");
      from != "" && e.o.fold(e.o.fromEmail(from)) == e.o.fold(c.session.value.username)
  }

  /** The line limit of the connection's group, if it has selected one with a limit, lets the text pass. */
  predicate WithinLimit(c: Conn, msg: string) {
    c.curGroup.valid && c.curGroup.postLimit > 0 ==> LineCount.PostLines(msg) <= c.curGroup.postLimit
  }

  lemma GroupSurvivesPath(e: Env, headers: seq<string>)
    ensures HeaderValue(PathUpdated(headers, e.serverName), NEWSGROUPS_KEY) == HeaderValue(headers, NEWSGROUPS_KEY)
  {
    KnownKeys();
    PathUpdateKeepsFields(headers, e.serverName, NEWSGROUPS_KEY);
  }

  lemma PostArticleAnswer(e: Env, c: Conn, msg: string, headers: seq<string>, body: seq<string>)
    ensures var r, g := DoPostArticle(e, c, msg, headers, body), GroupNamed(headers);
            && r.conn == c
            && (!NamesGroup(e, headers) ==> r.reply == Reply(441, [], []) && r.effect == Nothing)
            && (NamesGroup(e, headers) ==>
                  && (!Lets(e, c.session, g, 'w') ==> r.reply == Reply(480, [], []) && r.effect == Nothing)
                  && (Lets(e, c.session, g, 'w') ==>
                        && (!FromIsOwn(e, c, headers) ==> r.reply == Reply(441, [], []) && r.effect == Nothing)
                        && (FromIsOwn(e, c, headers) && !WithinLimit(c, msg) ==>
                              r.reply == Reply(411, [I(c.curGroup.postLimit)], []) && r.effect == Nothing)
                        && (FromIsOwn(e, c, headers) && WithinLimit(c, msg) ==>
                              && r.reply == Reply(240, [], [])
                              && r.effect == StoreIn(g, PathUpdated(headers, e.serverName), body))))
  {
    LetsIs(e, c.session, GroupNamed(headers));
    GroupSurvivesPath(e, headers);
  }

  /** What a post must meet to be stored. */
  predicate Acceptable(e: Env, c: Conn, msg: string, headers: seq<string>) {
    && NamesGroup(e, headers) && Lets(e, c.session, GroupNamed(headers), 'w')
    && FromIsOwn(e, c, headers) && WithinLimit(c, msg)
  }

  lemma PostStep(e: Env, c: Conn, req: Request)
    requires Sends(e, c, req, "POST")
    ensures Step(e, c, req) == DoPost(e, c, req)
  {
    StepOf(e, c, req, "POST", PostVerb);
  }

  lemma PostIs(e: Env, c: Conn, req: Request)
    requires req.post.Complete?
    ensures DoPost(e, c, req) ==
              match CancelId(PostedHeader(req))
              case Some(id) => DoCancel(e, c, PostedHeader(req), id)
              case None => DoPostArticle(e, c, req.post.msg, PostedHeader(req), PostedBody(req))
  {
  }

  lemma PostIsArticle(e: Env, c: Conn, req: Request)
    requires Sends(e, c, req, "POST") && req.post.Complete? && !AsksCancel(PostedHeader(req))
    ensures Step(e, c, req) == DoPostArticle(e, c, req.post.msg, PostedHeader(req), PostedBody(req))
  {
    PostStep(e, c, req);
    PostIs(e, c, req);
    AsksIs(PostedHeader(req));
  }

  /**
    POST is answered 240 and stores the article exactly when Newsgroups names one group that is there and
    lets the poster in, the From of a logged-in poster is its own, and the text is within the limit of the
    group selected on the connection, if one is; with none selected there is no limit. Otherwise nothing is
    stored, and the answer is 441, 480, 441 or 411 for the first of the four that fails.
   */
  lemma PostAnswer(e: Env, c: Conn, req: Request)
    requires Sends(e, c, req, "POST") && req.post.Complete? && !AsksCancel(PostedHeader(req))
    ensures var r, headers, g := Step(e, c, req), PostedHeader(req), GroupNamed(PostedHeader(req));
            && r.conn == c
            && (r.reply == Reply(240, [], []) <==> Acceptable(e, c, req.post.msg, headers))
            && r.effect == (if Acceptable(e, c, req.post.msg, headers) then
                              StoreIn(g, PathUpdated(headers, e.serverName), PostedBody(req))
                            else Nothing)
            && (!NamesGroup(e, headers) ==> r.reply == Reply(441, [], []))
            && (NamesGroup(e, headers) && !Lets(e, c.session, g, 'w') ==> r.reply == Reply(480, [], []))
            && (NamesGroup(e, headers) && Lets(e, c.session, g, 'w') && !FromIsOwn(e, c, headers) ==>
                  r.reply == Reply(441, [], []))
            && (NamesGroup(e, headers) && Lets(e, c.session, g, 'w') && FromIsOwn(e, c, headers) ==>
                  !WithinLimit(c, req.post.msg) ==> r.reply == Reply(411, [I(c.curGroup.postLimit)], []))
  {
    PostIsArticle(e, c, req);
    PostArticleAnswer(e, c, req.post.msg, PostedHeader(req), PostedBody(req));
  }

  /** A body that breaks off or is too large stores and removes nothing. */
  lemma BadBodyAnswer(e: Env, c: Conn, req: Request)
    requires Sends(e, c, req, "POST") && !req.post.Complete?
    ensures Step(e, c, req) == NntpSession.Result(c, Reply(441, [], []), Nothing)
  {
    PostStep(e, c, req);
  }

  // ----- cancel -----

  /** From of the canceller and From of the file, with its continuation lines, both have text and fold alike. */
  ghost predicate SameSender(e: Env, headers: seq<string>, text: string) {
    var mine, theirs := HeaderValue(headers, FROM_KEY).GetOr(""), RawValue(HeaderOf(Scanned(text)), FROM_KEY);
    mine != "" && theirs != "" && e.o.fold(Trim(mine)) == e.o.fold(Trim(theirs))
  }

  lemma TargetOfFrom()
    ensures Target("From") == FROM_KEY && FieldKey(FROM_KEY) && !Folded(FROM_KEY) && FROM_KEY != HOST_KEY
            && FROM_KEY != DATE_KEY && FROM_KEY != PATH_KEY
  {
    KnownKeys();
    assert Lower("From") == "from";
    assert FieldKey(FROM_KEY) by {
      assert Lower(FROM_KEY) == FROM_KEY;
    }
  }

  lemma SenderIs(e: Env, headers: seq<string>, group: string, n: nat, text: string)
    requires TextOf(ViewIn(e.spool, group), n) == Some(text)
    ensures SameFrom(e, headers, group, n) <==> SameSender(e, headers, text)
  {
    TargetOfFrom();
    RawOfAnyFile(Scanned(text), FROM_KEY);
  }

  /** A file that Post wrote: its header lines are the stored ones. */
  lemma HeaderOfFile(headers: seq<string>, body: seq<string>)
    requires HeaderLines(headers) && TextLines(body)
    requires NoLongerThan(headers, SCAN_LIMIT) && NoLongerThan(body, SCAN_LIMIT)
    ensures HeaderOf(Scanned(FileText(headers, body))) == headers
  {
    ScannedFile(headers, body);
    assert headers + [""] + body == headers + ([""] + body);
    HeaderOfLines(headers, [""] + body);
  }

  lemma PostIsCancel(e: Env, c: Conn, req: Request)
    requires Sends(e, c, req, "POST") && req.post.Complete? && AsksCancel(PostedHeader(req))
    ensures Step(e, c, req) == DoCancel(e, c, PostedHeader(req), CancelledId(PostedHeader(req)))
  {
    PostStep(e, c, req);
    PostIs(e, c, req);
    AsksIs(PostedHeader(req));
  }

  /** The article a cancel names: what a search of the group, as it is loaded now, gives. */
  ghost function Sought(e: Env, headers: seq<string>): Search.Result
    requires AsksCancel(headers) && NamesGroup(e, headers)
  {
    var g := GroupNamed(headers);
    var v := ViewIn(e.spool, g);
    Find(IdsOf(v), CancelledId(headers), InfoOf(v).start, InfoOf(v).end)
  }

  lemma SoughtHasText(e: Env, headers: seq<string>)
    requires AsksCancel(headers) && NamesGroup(e, headers)
    ensures var v := ViewIn(e.spool, GroupNamed(headers));
            Sought(e, headers).Hit? ==>
              Sought(e, headers).n in v.files
              && MessageIdOf(v.files[Sought(e, headers).n].text) == Some(CancelledId(headers))
  {
  }

  lemma DoCancelAnswer(e: Env, c: Conn, headers: seq<string>)
    requires AsksCancel(headers) && NamesGroup(e, headers) && Lets(e, c.session, GroupNamed(headers), 'w')
    ensures var r := DoCancel(e, c, headers, CancelledId(headers));
            match Sought(e, headers)
            case Hit(n) =>
              r == if SameFrom(e, headers, GroupNamed(headers), n) then
                     NntpSession.Result(c, Reply(240, [], []), RemoveFrom(GroupNamed(headers), n))
                   else NntpSession.Result(c, Reply(441, [], []), Nothing)
            case Miss => r == NntpSession.Result(c, Reply(441, [], []), Nothing)
            case Loops => r == NntpSession.Result(c.(closed := true), Silent, Nothing)
  {
    LetsIs(e, c.session, GroupNamed(headers));
  }

  /**
    A cancel that finds its article removes it, and is answered 240, exactly when the canceller's From and
    that of the file have text and fold alike; a stranger is answered 441 and nothing is removed.
   */
  lemma CancelAnswer(e: Env, c: Conn, req: Request)
    requires Sends(e, c, req, "POST") && req.post.Complete? && AsksCancel(PostedHeader(req))
    requires NamesGroup(e, PostedHeader(req)) && Lets(e, c.session, GroupNamed(PostedHeader(req)), 'w')
    ensures var r, headers := Step(e, c, req), PostedHeader(req);
            var g, v := GroupNamed(headers), ViewIn(e.spool, GroupNamed(headers));
            match Sought(e, headers)
            case Hit(n) =>
              && n in v.files
              && r == (if SameSender(e, headers, v.files[n].text) then
                         NntpSession.Result(c, Reply(240, [], []), RemoveFrom(g, n))
                       else NntpSession.Result(c, Reply(441, [], []), Nothing))
            case Miss => r == NntpSession.Result(c, Reply(441, [], []), Nothing)
            case Loops => r == NntpSession.Result(c.(closed := true), Silent, Nothing)
  {
    var headers := PostedHeader(req);
    PostIsCancel(e, c, req);
    DoCancelAnswer(e, c, headers);
    SoughtHasText(e, headers);
    if Sought(e, headers).Hit? {
      var n := Sought(e, headers).n;
      SenderIs(e, headers, GroupNamed(headers), n, ViewIn(e.spool, GroupNamed(headers)).files[n].text);
    }
  }

  /** A cancel that names no group, or one that does not let the canceller post, is refused. */
  lemma CancelRefused(e: Env, c: Conn, req: Request)
    requires Sends(e, c, req, "POST") && req.post.Complete? && AsksCancel(PostedHeader(req))
    ensures var r, g := Step(e, c, req), GroupNamed(PostedHeader(req));
            && (g == "" || !ValidGroupName(g) ==> r == NntpSession.Result(c, Reply(441, [], []), Nothing))
            && (g != "" && ValidGroupName(g) && !Lets(e, c.session, g, 'w') ==>
                  r == NntpSession.Result(c, Reply(480, [], []), Nothing))
            && (g != "" && ValidGroupName(g) && Lets(e, c.session, g, 'w') && !IsThere(e.spool, g) ==>
                  r == NntpSession.Result(c, Reply(441, [], []), Nothing))
  {
    PostIsCancel(e, c, req);
    LetsIs(e, c.session, GroupNamed(PostedHeader(req)));
  }

  // ----- HEAD, BODY, ARTICLE, STAT -----

  predicate IsRetrieval(word: string) {
    word in {"ARTICLE", "HEAD", "BODY", "STAT"}
  }

  /** The answer to a retrieval of article n, whose file holds the text. */
  function Retrieved(word: string, n: nat, id: string, text: string): Reply
    requires IsRetrieval(word)
  {
    if word == "ARTICLE" then Reply(220, [N(n), S(id)], [[S(Sent(text, true, true))]])
    else if word == "HEAD" then Reply(221, [N(n), S(id)], [[S(Sent(text, true, false))]])
    else if word == "BODY" then Reply(222, [N(n), S(id)], [[S("\r\n" + Sent(text, false, true))]])
    else Reply(223, [N(n), S(id)], [])
  }

  /** No argument stands for the current article, digits for that number, `<id>` for what a search finds. */
  predicate StandsFor(e: Env, c: Conn, arg: string, n: nat) {
    || (arg == "" && n == c.curArticle.number)
    || (arg != "" && arg[0] != '<' && ParseUint(arg) == Some(n))
    || (arg != "" && arg[0] == '<'
        && Find(IdsOf(ViewIn(e.spool, c.curGroup.name)), arg, c.curGroup.start, c.curGroup.end) == Hit(n))
  }

  lemma NamedIs(e: Env, c: Conn, arg: string, n: nat)
    requires StandsFor(e, c, arg, n)
    ensures NameArticle(e, c, arg).NumberedArticle? && NameArticle(e, c, arg).n == n
  {
    if arg != "" && arg[0] != '<' {
      assert IsDigit(arg[0]);
    }
  }

  function PartOf(word: string): Part
    requires IsRetrieval(word)
  {
    if word == "ARTICLE" then WholeArticle else if word == "HEAD" then HeadPart
    else if word == "BODY" then BodyPart else StatusOnly
  }

  lemma StepIsRetrieval(e: Env, c: Conn, req: Request, word: string)
    requires Sends(e, c, req, word) && IsRetrieval(word)
    ensures Step(e, c, req) == DoRetrieve(e, c, PartOf(word), req.arg1)
  {
    StepOf(e, c, req, word, RetrieveVerb(PartOf(word)));
  }

  lemma RetrieveNumber(e: Env, c: Conn, word: string, arg: string, n: nat)
    requires IsRetrieval(word) && c.curGroup.valid && MayRead(e, c.session, c.curGroup.name)
    requires NameArticle(e, c, arg).NumberedArticle? && NameArticle(e, c, arg).n == n
    ensures var r, a := DoRetrieve(e, c, PartOf(word), arg), LoadArticle(e.spool, c.curGroup.name, n);
            var text := TextOf(ViewIn(e.spool, c.curGroup.name), n).GetOr("");
            if c.curGroup.start <= n <= c.curGroup.end then
              r.reply == if a.valid then Retrieved(word, n, a.Get(MessageIdField), text) else Reply(430, [N(n)], [])
            else r.reply == Reply(423, [N(c.curGroup.start), N(c.curGroup.end)], []) && r.conn == c
  {
    S.LoadArticleIdentity(e.spool, c.curGroup.name, n);
  }

  /**
    A retrieval in a group that may be read answers with the number the argument stands for, the Message-ID
    of that article and the asked part of its file; 423 outside the group, 430 if the article does not load.
   */
  lemma RetrievalAnswer(e: Env, c: Conn, req: Request, word: string, n: nat)
    requires Sends(e, c, req, word) && IsRetrieval(word) && StandsFor(e, c, req.arg1, n)
    requires c.curGroup.valid && Lets(e, c.session, c.curGroup.name, 'r')
    ensures var r, a := Step(e, c, req), LoadArticle(e.spool, c.curGroup.name, n);
            var text := TextOf(ViewIn(e.spool, c.curGroup.name), n);
            if c.curGroup.start <= n <= c.curGroup.end then
              && (a.valid ==> text.Some? && r.reply == Retrieved(word, n, a.Get(MessageIdField), text.value))
              && (!a.valid ==> r.reply == Reply(430, [N(n)], []))
            else r.reply == Reply(423, [N(c.curGroup.start), N(c.curGroup.end)], []) && r.conn == c
  {
    StepIsRetrieval(e, c, req, word);
    LetsIs(e, c.session, c.curGroup.name);
    NamedIs(e, c, req.arg1, n);
    RetrieveNumber(e, c, word, req.arg1, n);
    S.LoadArticleIdentity(e.spool, c.curGroup.name, n);
  }

  /** In whatever state commands on an unchanged spool have led to: no argument sends the current article. */
  lemma CurrentIsSent(e: Env, turns: seq<S.Turn>, c: Conn, req: Request, word: string)
    requires S.AllOn(e.spool, turns) && c == S.Run(START, turns)
    requires Sends(e, c, req, word) && IsRetrieval(word) && req.arg1 == ""
    requires c.curGroup.valid && c.curGroup.start <= c.curGroup.end && Lets(e, c.session, c.curGroup.name, 'r')
    requires c.curArticle.valid
    ensures var n, text := c.curArticle.number, TextOf(ViewIn(e.spool, c.curGroup.name), c.curArticle.number);
            text.Some? && Step(e, c, req).reply == Retrieved(word, n, c.curArticle.Get(MessageIdField), text.value)
  {
    S.RunKeepsFresh(e.spool, turns);
    S.RunKeepsCursor(turns);
    RetrievalAnswer(e, c, req, word, c.curArticle.number);
  }

  /** The refusals of a retrieval: no group, no permission, an unknown Message-ID, an argument that is none. */
  lemma RetrievalRefused(e: Env, c: Conn, req: Request, word: string)
    requires Sends(e, c, req, word) && IsRetrieval(word)
    ensures var r, g, arg := Step(e, c, req), c.curGroup, req.arg1;
            && (!g.valid ==> r == Refuse(c, 412))
            && (g.valid && !Lets(e, c.session, g.name, 'r') ==> r == Refuse(c, 480))
            && (g.valid && Lets(e, c.session, g.name, 'r') && arg != "" ==>
                  && (arg[0] == '<' && Find(IdsOf(ViewIn(e.spool, g.name)), arg, g.start, g.end) == Miss ==>
                        r == Refuse(c, 430))
                  && (arg[0] != '<' && ParseUint(arg).None? ==> r == Refuse(c, 501)))
  {
    StepIsRetrieval(e, c, req, word);
    LetsIs(e, c.session, c.curGroup.name);
  }

  // ----- GROUP -----

  /** The numbers a group is announced with: those of `.info`, or of a scan when there is none. */
  ghost predicate Announced(v: GroupView, i: Info) {
    if v.info.Some? then i == v.info.value else IsSummary(i, v.files.Keys)
  }

  lemma AnnouncedIs(v: GroupView, i: Info)
    requires Announced(v, i)
    ensures InfoOf(v) == i
  {
    if v.info.None? {
      SummaryIs(i, v.files.Keys);
    }
  }

  /** The group as it is announced, with its configured limit. */
  function SnapshotWith(e: Env, group: string, i: Info): Snapshot
    requires IsThere(e.spool, group)
  {
    Snapshot(true, group, i.start, i.end, i.total, e.spool.groups[group].config.postLimit)
  }

  /** The connection with the group selected and its first article as the current one. */
  function Selecting(e: Env, c: Conn, group: string, i: Info): Conn
    requires IsThere(e.spool, group)
  {
    c.(curGroup := SnapshotWith(e, group, i), curArticle := LoadArticle(e.spool, group, i.start))
  }

  /**
    GROUP selects a group that is there and may be read: 211 with its count, Start, End and name, its first
    article as the current one; and refuses every other, leaving the connection as it was.
   */
  lemma GroupAnswer(e: Env, c: Conn, req: Request, i: Info)
    requires Sends(e, c, req, "GROUP") && Announced(ViewIn(e.spool, req.arg1), i)
    ensures var r, g := Step(e, c, req), req.arg1;
            && (g == "" || !ValidGroupName(g) ==> r == Refuse(c, 501))
            && (g != "" && ValidGroupName(g) && !IsThere(e.spool, g) ==> r == Refuse(c, 411))
            && (g != "" && ValidGroupName(g) && IsThere(e.spool, g) ==>
                  r == if !Lets(e, c.session, g, 'r') then Refuse(c, 480)
                       else NntpSession.Result(Selecting(e, c, g, i),
                                               Reply(211, [N(i.total), N(i.start), N(i.end), S(g)], []), Nothing))
  {
    StepOf(e, c, req, "GROUP", GroupVerb);
    LetsIs(e, c.session, req.arg1);
    AnnouncedIs(ViewIn(e.spool, req.arg1), i);
  }

  // ----- NEXT and LAST -----

  /** Going to article n: it becomes the current one and is reported if it loads; if not, nothing moves. */
  ghost predicate Goes(e: Env, c: Conn, r: NntpSession.Result, n: nat, failure: nat) {
    var a := LoadArticle(e.spool, c.curGroup.name, n);
    r == if a.valid then
           NntpSession.Result(c.(curArticle := a), Reply(223, [N(n), S(a.Get(MessageIdField))], []), Nothing)
         else NntpSession.Result(c, Reply(failure, [N(n)], []), Nothing)
  }

  /** NEXT goes to the following number, within the group. */
  lemma NextAnswer(e: Env, c: Conn, req: Request)
    requires Sends(e, c, req, "NEXT")
    ensures var r, g, n := Step(e, c, req), c.curGroup, c.curArticle.number + 1;
            if !g.valid then r == Refuse(c, 412)
            else if !Lets(e, c.session, g.name, 'r') then r == Refuse(c, 480)
            else if !c.curArticle.valid then r == Refuse(c, 420)
            else if !(g.start <= n <= g.end) then r == Refuse(c, 421)
            else Goes(e, c, r, n, 421)
  {
    StepOf(e, c, req, "NEXT", NextVerb);
    LetsIs(e, c.session, c.curGroup.name);
  }

  /** LAST goes to the number before, down to Start. */
  lemma LastAnswer(e: Env, c: Conn, req: Request)
    requires Sends(e, c, req, "LAST")
    ensures var r, g, n := Step(e, c, req), c.curGroup, c.curArticle.number;
            if !g.valid then r == Refuse(c, 412)
            else if !Lets(e, c.session, g.name, 'r') then r == Refuse(c, 480)
            else if !c.curArticle.valid then r == Refuse(c, 420)
            else if n <= g.start then r == Refuse(c, 422)
            else Goes(e, c, r, n - 1, 422)
  {
    StepOf(e, c, req, "LAST", LastVerb);
    LetsIs(e, c.session, c.curGroup.name);
  }

  // ----- log-in -----

  /** The store has that user with that password. */
  predicate Knows(e: Env, user: string, password: string) {
    && e.store.Some? && user in e.store.value.users
    && e.o.comparePassword(e.store.value.users[user].passwordHash, password)
  }

  function GroupsOf(e: Env, user: string): set<string>
    requires e.store.Some?
  {
    var m := e.store.value.membership;
    if user in m then m[user] else {}
  }

  predicate SendsAuthInfo(e: Env, c: Conn, req: Request, kind: string, value: string) {
    Sends(e, c, req, "AUTHINFO") && e.o.upper(req.arg1) == kind && req.arg2 == value
  }

  lemma UserStep(e: Env, c: Conn, req: Request, user: string)
    requires e.store.Some? && user != "" && SendsAuthInfo(e, c, req, "USER", user)
    ensures Step(e, c, req) == Refuse(c.(authUser := user), 381)
  {
    StepOf(e, c, req, "AUTHINFO", AuthInfoVerb);
  }

  lemma PassStep(e: Env, c: Conn, req: Request, password: string)
    requires e.store.Some? && password != "" && c.authUser != "" && SendsAuthInfo(e, c, req, "PASS", password)
    ensures var user, done := c.authUser, c.(authUser := "");
            if Knows(e, user, password) then
              var session := Session(user, e.store.value.users[user].realName, GroupsOf(e, user));
              Step(e, c, req) == Refuse(done.(session := Some(session)), 281)
            else Step(e, c, req) == Refuse(done, 482)
  {
    StepOf(e, c, req, "AUTHINFO", AuthInfoVerb);
  }

  /**
    AUTHINFO USER and then PASS: 381, and then 281 with the connection logged in as that user with the
    groups it has just then, if the password is the user's, and 482 with nobody else logged in if not.
   */
  lemma LogsIn(c: Conn, first: S.Turn, second: S.Turn, user: string, password: string)
    requires user != "" && password != "" && first.env.store.Some? && second.env.store.Some?
    requires SendsAuthInfo(first.env, c, first.req, "USER", user)
    requires SendsAuthInfo(second.env, c, second.req, "PASS", password)
    ensures var e, done := second.env, c.(authUser := "");
            if Knows(e, user, password) then
              && S.Replies(c, [first, second]) == [Reply(381, [], []), Reply(281, [], [])]
              && S.Run(c, [first, second]) ==
                 done.(session := Some(Session(user, e.store.value.users[user].realName, GroupsOf(e, user))))
            else
              && S.Replies(c, [first, second]) == [Reply(381, [], []), Reply(482, [], [])]
              && S.Run(c, [first, second]) == done
  {
    UserStep(first.env, c, first.req, user);
    PassStep(second.env, c.(authUser := user), second.req, password);
    TwoTurns(c, first, second);
  }

  lemma TwoTurns(c: Conn, first: S.Turn, second: S.Turn)
    ensures var r := Step(first.env, c, first.req);
            var t := Step(second.env, r.conn, second.req);
            S.Run(c, [first, second]) == t.conn && S.Replies(c, [first, second]) == [r.reply, t.reply]
  {
    assert [first, second][..1] == [first] && [first][..0] == [];
    assert S.Run(c, []) == c && S.Replies(c, []) == [];
    assert S.Run(c, [first]) == Step(first.env, c, first.req).conn;
    assert S.Replies(c, [first]) == [Step(first.env, c, first.req).reply];
  }

  lemma AskSimple(e: Env, c: Conn, req: Request)
    requires e.store.Some? && SendsAuthInfo(e, c, req, "SIMPLE", req.arg2)
    ensures Step(e, c, req) == Refuse(c.(authSimple := true), 350)
  {
    StepOf(e, c, req, "AUTHINFO", AuthInfoVerb);
  }

  /** AUTHINFO SIMPLE and then a line with user and password: 350, and then 250 and logged in, or 452. */
  lemma LogsInSimply(c: Conn, first: S.Turn, second: S.Turn)
    requires first.env.store.Some? && SendsAuthInfo(first.env, c, first.req, "SIMPLE", first.req.arg2)
    requires second.req.word != "" && second.req.arg1 != ""
    ensures var e, user, done := second.env, second.req.word, c.(authSimple := false);
            if Knows(e, user, second.req.arg1) then
              && S.Replies(c, [first, second]) == [Reply(350, [], []), Reply(250, [], [])]
              && S.Run(c, [first, second]) == done.(session := Some(Session(user, "", GroupsOf(e, user))))
            else
              && S.Replies(c, [first, second]) == [Reply(350, [], []), Reply(452, [], [])]
              && S.Run(c, [first, second]) == done
  {
    AskSimple(first.env, c, first.req);
    TwoTurns(c, first, second);
  }

  /** QUIT ends the connection, and a closed connection says nothing more. */
  lemma QuitAnswer(e: Env, c: Conn, req: Request, later: Request)
    requires Sends(e, c, req, "QUIT")
    ensures var r := Step(e, c, req);
            && r == NntpSession.Result(c.(closed := true), Reply(205, [], []), Nothing)
            && Step(e, r.conn, later) == NntpSession.Result(r.conn, Silent, Nothing)
  {
    StepOf(e, c, req, "QUIT", QuitVerb);
  }

  /** AUTHINFO when there is nothing to log in to, when it lacks a word, and PASS before any USER. */
  lemma AuthInfoRefused(e: Env, c: Conn, req: Request)
    requires Sends(e, c, req, "AUTHINFO")
    ensures var r, kind := Step(e, c, req), e.o.upper(req.arg1);
            && (e.store.None? ==> r == Refuse(c, 281))
            && (e.store.Some? ==>
                  && (kind in {"USER", "PASS"} && req.arg2 == "" ==> r == Refuse(c, 501))
                  && (kind == "PASS" && req.arg2 != "" && c.authUser == "" ==> r == Refuse(c, 482))
                  && (kind !in {"SIMPLE", "USER", "PASS"} ==> r == Refuse(c, 501)))
  {
    StepOf(e, c, req, "AUTHINFO", AuthInfoVerb);
  }

  /** A line of one word does for credentials as little as a wrong password, and asks for none again. */
  lemma SimpleRefused(e: Env, c: Conn, req: Request)
    requires !c.closed && c.authSimple && req.word != "" && req.arg1 == ""
    ensures Step(e, c, req) == Refuse(c.(authSimple := false), 501)
  {
  }

  // ----- other words -----

  predicate Known(word: string) {
    || IsRetrieval(word)
    || word in {"AUTHINFO", "LIST", "LISTGROUP", "XPAT", "OVER", "XOVER", "HDR", "XHDR", "GROUP"}
    || word in {"NEWGROUPS", "NEWNEWS", "NEXT", "LAST", "POST", "QUIT"}
  }

  /** Any other word has a fixed answer, and an empty line none; both leave everything as it was. */
  lemma OtherAnswer(e: Env, c: Conn, req: Request)
    ensures !c.closed && req.word == "" ==> Step(e, c, req) == NntpSession.Result(c, Silent, Nothing)
    ensures !c.closed && !c.authSimple && req.word != "" && !Known(e.o.upper(req.word)) ==>
              Step(e, c, req) == NntpSession.Result(c, Fixed(req.word), Nothing)
  {
    if !c.closed && !c.authSimple && req.word != "" && !Known(e.o.upper(req.word)) {
      StepOf(e, c, req, e.o.upper(req.word), OtherVerb);
    }
  }
}
