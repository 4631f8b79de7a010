/**
  What a session that may not read a group can learn about it: two servers whose spools differ only in
  that group answer every command of that session alike, except a cancel aimed at the group by a session
  that may post there.
 */
module Confinement {
  import opened Text
  import opened Lines
  import opened Headers
  import opened ArticleHeader
  import opened Spool
  import S = SessionInvariant
  import opened GroupList
  import opened Auth
  import opened NntpSession

  // ----- two worlds, two connections -----

  /** The same groups, and the same content in all of them but one. */
  predicate SameBut(g: string, s1: SpoolState, s2: SpoolState) {
    && s1.names == s2.names && s1.groups.Keys == s2.groups.Keys
    && forall h :: h in s1.groups && h != g ==> s1.groups[h] == s2.groups[h]
  }

  ghost predicate Alike(g: string, e1: Env, e2: Env) {
    e1.o == e2.o && e1.serverName == e2.serverName && e1.store == e2.store && SameBut(g, e1.spool, e2.spool)
  }

  predicate Hidden(e: Env, session: Option<Session>, g: string) {
    e.store.Some? && !CanRead(e.store.value, session, g, true)
  }

  /** Equal, but for the numbers and the article of group g if that is the current one; the post limit is the same. */
  predicate SameOutside(g: string, c1: Conn, c2: Conn) {
    && c1.session == c2.session && c1.authUser == c2.authUser && c1.authSimple == c2.authSimple
    && c1.closed == c2.closed
    && c1.curGroup.valid == c2.curGroup.valid && c1.curGroup.name == c2.curGroup.name
    && c1.curGroup.postLimit == c2.curGroup.postLimit
    && ((c1.curGroup.valid && c1.curGroup.name == g) || (c1.curGroup == c2.curGroup && c1.curArticle == c2.curArticle))
  }

  ghost predicate Twin(g: string, e1: Env, e2: Env, c1: Conn, c2: Conn) {
    Alike(g, e1, e2) && SameOutside(g, c1, c2) && Hidden(e1, c1.session, g)
  }

  ghost predicate SameAnswer(g: string, r1: NntpSession.Result, r2: NntpSession.Result) {
    r1.reply == r2.reply && r1.effect == r2.effect && SameOutside(g, r1.conn, r2.conn)
  }

  // ----- the spool outside g -----

  lemma OtherGroup(g: string, s1: SpoolState, s2: SpoolState, h: string)
    requires SameBut(g, s1, s2) && h != g
    ensures LoadGroup(s1, h) == LoadGroup(s2, h) && ViewIn(s1, h) == ViewIn(s2, h)
    ensures h in s1.groups <==> h in s2.groups
    ensures h in s1.groups ==> s1.groups[h] == s2.groups[h]
  {
    assert h in s1.groups.Keys <==> h in s2.groups.Keys;
  }

  lemma AnyGroup(g: string, s1: SpoolState, s2: SpoolState, h: string)
    requires SameBut(g, s1, s2)
    ensures LoadGroup(s1, h).Some? == LoadGroup(s2, h).Some?
  {
    assert h in s1.groups.Keys <==> h in s2.groups.Keys;
  }

  lemma HiddenIsNotListed(g: string, e: Env, session: Option<Session>)
    requires Hidden(e, session, g)
    ensures g !in VisibleNames(e, session)
  {
    ListableMembers(e.store.value, session, e.spool.names);
  }

  lemma {:induction false} SameListLines(g: string, s1: SpoolState, s2: SpoolState, kind: ListKind,
                                         pattern: Option<string>, names: seq<string>)
    requires SameBut(g, s1, s2) && g !in names
    ensures ListLines(s1, kind, pattern, names) == ListLines(s2, kind, pattern, names)
  {
    if names != [] {
      SameListLines(g, s1, s2, kind, pattern, names[..|names| - 1]);
      OtherGroup(g, s1, s2, names[|names| - 1]);
    }
  }

  lemma {:induction false} SameNewGroupLines(g: string, s1: SpoolState, s2: SpoolState, since: int, names: seq<string>)
    requires SameBut(g, s1, s2) && g !in names
    ensures NewGroupLines(s1, since, names) == NewGroupLines(s2, since, names)
  {
    if names != [] {
      SameNewGroupLines(g, s1, s2, since, names[..|names| - 1]);
      OtherGroup(g, s1, s2, names[|names| - 1]);
    }
  }

  lemma {:induction false} SameNewNewsLines(g: string, s1: SpoolState, s2: SpoolState, pattern: string, since: int,
                                            names: seq<string>)
    requires SameBut(g, s1, s2) && g !in names
    ensures NewNewsLines(s1, pattern, since, names) == NewNewsLines(s2, pattern, since, names)
  {
    if names != [] {
      SameNewNewsLines(g, s1, s2, pattern, since, names[..|names| - 1]);
      OtherGroup(g, s1, s2, names[|names| - 1]);
    }
  }

  // ----- one command -----

  lemma SameList(g: string, e1: Env, e2: Env, c1: Conn, c2: Conn, req: Request)
    requires Twin(g, e1, e2, c1, c2)
    ensures SameAnswer(g, DoList(e1, c1, req), DoList(e2, c2, req))
  {
    HiddenIsNotListed(g, e1, c1.session);
    var arg := e1.o.upper(req.arg1);
    var pattern := if arg == "ACTIVE" && req.arg2 != "" then Some(req.arg2) else None;
    SameListLines(g, e1.spool, e2.spool, ListKindOf(arg), pattern, VisibleNames(e1, c1.session));
  }

  lemma SameNewGroups(g: string, e1: Env, e2: Env, c1: Conn, c2: Conn, req: Request)
    requires Twin(g, e1, e2, c1, c2)
    ensures SameAnswer(g, DoNewGroups(e1, c1, req), DoNewGroups(e2, c2, req))
  {
    HiddenIsNotListed(g, e1, c1.session);
    var since := e1.o.parseDate(req.arg1, req.arg2);
    if since.Some? {
      SameNewGroupLines(g, e1.spool, e2.spool, since.value, VisibleNames(e1, c1.session));
    }
  }

  lemma SameNewNews(g: string, e1: Env, e2: Env, c1: Conn, c2: Conn, req: Request)
    requires Twin(g, e1, e2, c1, c2)
    ensures SameAnswer(g, DoNewNews(e1, c1, req), DoNewNews(e2, c2, req))
  {
    HiddenIsNotListed(g, e1, c1.session);
    var fields := Split(req.arg2, ' ');
    if |fields| >= 2 && e1.o.parseDate(fields[0], fields[1]).Some? {
      var since := e1.o.parseDate(fields[0], fields[1]).value;
      SameNewNewsLines(g, e1.spool, e2.spool, req.arg1, since, VisibleNames(e1, c1.session));
    }
  }

  lemma SameAuthInfo(g: string, e1: Env, e2: Env, c1: Conn, c2: Conn, req: Request)
    requires Twin(g, e1, e2, c1, c2)
    ensures SameAnswer(g, DoAuthInfo(e1, c1, req), DoAuthInfo(e2, c2, req))
  {
  }

  lemma SameAuthSimple(g: string, e1: Env, e2: Env, c1: Conn, c2: Conn, req: Request)
    requires Twin(g, e1, e2, c1, c2)
    ensures SameAnswer(g, DoAuthSimple(e1, c1, req), DoAuthSimple(e2, c2, req))
  {
  }

  lemma SameCurrent(g: string, e1: Env, e2: Env, c1: Conn, c2: Conn, range: string)
    requires Twin(g, e1, e2, c1, c2)
    ensures SameAnswer(g, ListCurrent(e1, c1, range), ListCurrent(e2, c2, range))
  {
    if c1.curGroup.name != g {
      OtherGroup(g, e1.spool, e2.spool, c1.curGroup.name);
    }
  }

  lemma SameGroup(g: string, e1: Env, e2: Env, c1: Conn, c2: Conn, req: Request)
    requires Twin(g, e1, e2, c1, c2)
    ensures SameAnswer(g, DoGroup(e1, c1, req), DoGroup(e2, c2, req))
  {
    AnyGroup(g, e1.spool, e2.spool, req.arg1);
    if req.arg1 != g {
      OtherGroup(g, e1.spool, e2.spool, req.arg1);
    }
  }

  lemma SameListNamed(g: string, e1: Env, e2: Env, c1: Conn, c2: Conn, req: Request)
    requires Twin(g, e1, e2, c1, c2) && req.arg1 != ""
    ensures SameAnswer(g, DoListGroup(e1, c1, req), DoListGroup(e2, c2, req))
  {
    AnyGroup(g, e1.spool, e2.spool, req.arg1);
    if req.arg1 != g && LoadGroup(e1.spool, req.arg1).Some? {
      OtherGroup(g, e1.spool, e2.spool, req.arg1);
      var snapshot := LoadGroup(e1.spool, req.arg1).value;
      SameCurrent(g, e1, e2, Select(e1, c1, snapshot), Select(e2, c2, snapshot), req.arg2);
    }
  }

  lemma SameListGroup(g: string, e1: Env, e2: Env, c1: Conn, c2: Conn, req: Request)
    requires Twin(g, e1, e2, c1, c2)
    ensures SameAnswer(g, DoListGroup(e1, c1, req), DoListGroup(e2, c2, req))
  {
    if req.arg1 == "" {
      SameCurrent(g, e1, e2, c1, c2, req.arg2);
    } else {
      SameListNamed(g, e1, e2, c1, c2, req);
    }
  }

  lemma SameOver(g: string, e1: Env, e2: Env, c1: Conn, c2: Conn, req: Request)
    requires Twin(g, e1, e2, c1, c2)
    ensures SameAnswer(g, DoOver(e1, c1, req), DoOver(e2, c2, req))
  {
    if c1.curGroup.name != g {
      OtherGroup(g, e1.spool, e2.spool, c1.curGroup.name);
    }
  }

  lemma SameHeadersFor(g: string, e1: Env, e2: Env, c1: Conn, c2: Conn, code: nat, field: string, range: string,
                       patterns: Option<seq<string>>)
    requires Twin(g, e1, e2, c1, c2) && c1.curGroup.valid && c1.curGroup.name != g
    ensures SameAnswer(g, HeadersFor(e1, c1, code, field, range, patterns),
                       HeadersFor(e2, c2, code, field, range, patterns))
  {
    OtherGroup(g, e1.spool, e2.spool, c1.curGroup.name);
  }

  lemma SameHdr(g: string, e1: Env, e2: Env, c1: Conn, c2: Conn, req: Request)
    requires Twin(g, e1, e2, c1, c2)
    ensures SameAnswer(g, DoHdr(e1, c1, req), DoHdr(e2, c2, req))
  {
    if c1.curGroup.valid && c1.curGroup.name != g {
      SameHeadersFor(g, e1, e2, c1, c2, 225, req.arg1, req.arg2, None);
    }
  }

  lemma SameXPat(g: string, e1: Env, e2: Env, c1: Conn, c2: Conn, req: Request)
    requires Twin(g, e1, e2, c1, c2)
    ensures SameAnswer(g, DoXPat(e1, c1, req), DoXPat(e2, c2, req))
  {
    var fields := Split(req.arg2, ' ');
    if c1.curGroup.valid && c1.curGroup.name != g && |fields| >= 2 {
      SameHeadersFor(g, e1, e2, c1, c2, 221, req.arg1, fields[0], Some(fields[1..]));
    }
  }

  lemma SameMoveElsewhere(g: string, e1: Env, e2: Env, c: Conn)
    requires Alike(g, e1, e2) && c.curGroup.name != g
    ensures forall n, failure :: MoveTo(e1, c, n, failure) == MoveTo(e2, c, n, failure)
  {
    OtherGroup(g, e1.spool, e2.spool, c.curGroup.name);
  }

  lemma SameNext(g: string, e1: Env, e2: Env, c1: Conn, c2: Conn)
    requires Twin(g, e1, e2, c1, c2)
    ensures SameAnswer(g, DoNext(e1, c1), DoNext(e2, c2))
  {
    if c1.curGroup.valid && c1.curGroup.name != g {
      assert c1 == c2;
      SameMoveElsewhere(g, e1, e2, c1);
    }
  }

  lemma SameLast(g: string, e1: Env, e2: Env, c1: Conn, c2: Conn)
    requires Twin(g, e1, e2, c1, c2)
    ensures SameAnswer(g, DoLast(e1, c1), DoLast(e2, c2))
  {
    if c1.curGroup.valid && c1.curGroup.name != g {
      assert c1 == c2;
      SameMoveElsewhere(g, e1, e2, c1);
    }
  }

  lemma SameRetrieveElsewhere(g: string, e1: Env, e2: Env, c: Conn, part: Part, arg: string)
    requires Alike(g, e1, e2) && c.curGroup.name != g
    ensures DoRetrieve(e1, c, part, arg) == DoRetrieve(e2, c, part, arg)
  {
    OtherGroup(g, e1.spool, e2.spool, c.curGroup.name);
    assert NameArticle(e1, c, arg) == NameArticle(e2, c, arg);
  }

  lemma SameRetrieve(g: string, e1: Env, e2: Env, c1: Conn, c2: Conn, part: Part, arg: string)
    requires Twin(g, e1, e2, c1, c2)
    ensures SameAnswer(g, DoRetrieve(e1, c1, part, arg), DoRetrieve(e2, c2, part, arg))
  {
    if c1.curGroup.valid && c1.curGroup.name != g {
      assert c1 == c2;
      SameRetrieveElsewhere(g, e1, e2, c1, part, arg);
    }
  }

  lemma SamePostArticle(g: string, e1: Env, e2: Env, c1: Conn, c2: Conn, msg: string, headers: seq<string>,
                        body: seq<string>)
    requires Twin(g, e1, e2, c1, c2)
    ensures SameAnswer(g, DoPostArticle(e1, c1, msg, headers, body), DoPostArticle(e2, c2, msg, headers, body))
  {
    AnyGroup(g, e1.spool, e2.spool, HeaderValue(headers, NEWSGROUPS_KEY).GetOr(""));
  }

  lemma SameCancelElsewhere(g: string, e1: Env, e2: Env, c1: Conn, c2: Conn, headers: seq<string>, id: string,
                            group: string)
    requires Twin(g, e1, e2, c1, c2)
    requires HeaderValue(headers, NEWSGROUPS_KEY) == Some(group) && group != g
    ensures SameAnswer(g, DoCancel(e1, c1, headers, id), DoCancel(e2, c2, headers, id))
  {
    OtherGroup(g, e1.spool, e2.spool, group);
    var loaded := LoadGroup(e1.spool, group);
    if loaded.Some? {
      assert FindIn(e1.spool, loaded.value, id) == FindIn(e2.spool, loaded.value, id);
    }
  }

  lemma SameCancel(g: string, e1: Env, e2: Env, c1: Conn, c2: Conn, headers: seq<string>, id: string)
    requires Twin(g, e1, e2, c1, c2)
    requires HeaderValue(headers, NEWSGROUPS_KEY) == Some(g) ==> !MayPost(e1, c1.session, g)
    ensures SameAnswer(g, DoCancel(e1, c1, headers, id), DoCancel(e2, c2, headers, id))
  {
    var field := HeaderValue(headers, NEWSGROUPS_KEY);
    if field.Some? && field.value != g {
      SameCancelElsewhere(g, e1, e2, c1, c2, headers, id, field.value);
    }
  }

  // ----- every command -----

  /** The request is a POST whose body asks to cancel an article of g. */
  predicate CancelsIn(o: Oracle, req: Request, g: string) {
    && VerbOf(o.upper(req.word)).PostVerb? && req.post.Complete?
    && var headers := HeadOf(AllLines(StripCR(req.post.msg)));
       CancelId(headers).Some? && HeaderValue(headers, NEWSGROUPS_KEY) == Some(g)
  }

  /** The one way to learn about a group one may not read. */
  predicate Reveals(e: Env, session: Option<Session>, req: Request, g: string) {
    CancelsIn(e.o, req, g) && MayPost(e, session, g)
  }

  lemma SamePost(g: string, e1: Env, e2: Env, c1: Conn, c2: Conn, req: Request)
    requires Twin(g, e1, e2, c1, c2)
    requires VerbOf(e1.o.upper(req.word)).PostVerb? && !Reveals(e1, c1.session, req, g)
    ensures SameAnswer(g, DoPost(e1, c1, req), DoPost(e2, c2, req))
  {
    if req.post.Complete? {
      var lines := AllLines(StripCR(req.post.msg));
      match CancelId(HeadOf(lines))
      case Some(id) => SameCancel(g, e1, e2, c1, c2, HeadOf(lines), id);
      case None => SamePostArticle(g, e1, e2, c1, c2, req.post.msg, HeadOf(lines), BodyOf(lines));
    }
  }

  /** One command of a session that may not read g does not depend on what g holds. */
  lemma StepConfined(g: string, e1: Env, e2: Env, c1: Conn, c2: Conn, req: Request)
    requires Twin(g, e1, e2, c1, c2) && !Reveals(e1, c1.session, req, g)
    ensures SameAnswer(g, Step(e1, c1, req), Step(e2, c2, req))
  {
    var verb := VerbOf(e1.o.upper(req.word));
    if c1.closed || req.word == "" {
    } else if c1.authSimple {
      SameAuthSimple(g, e1, e2, c1, c2, req);
    } else {
      match verb
      case AuthInfoVerb => SameAuthInfo(g, e1, e2, c1, c2, req);
      case ListVerb => SameList(g, e1, e2, c1, c2, req);
      case NewGroupsVerb => SameNewGroups(g, e1, e2, c1, c2, req);
      case NewNewsVerb => SameNewNews(g, e1, e2, c1, c2, req);
      case GroupVerb => SameGroup(g, e1, e2, c1, c2, req);
      case ListGroupVerb => SameListGroup(g, e1, e2, c1, c2, req);
      case OverVerb => SameOver(g, e1, e2, c1, c2, req);
      case HdrVerb => SameHdr(g, e1, e2, c1, c2, req);
      case XPatVerb => SameXPat(g, e1, e2, c1, c2, req);
      case NextVerb => SameNext(g, e1, e2, c1, c2);
      case LastVerb => SameLast(g, e1, e2, c1, c2);
      case RetrieveVerb(part) => SameRetrieve(g, e1, e2, c1, c2, part, req.arg1);
      case PostVerb => SamePost(g, e1, e2, c1, c2, req);
      case QuitVerb | OtherVerb =>
    }
  }

  // ----- the exception is one -----

  /** A spool with one group, which has no .info yet or holds one article without a header. */
  function OnlyGroup(g: string, v: GroupView): SpoolState {
    SpoolState([g], map[g := GroupEntry(v, GroupConfig("", "", 0), 0)])
  }

  const BARE := GroupView(None, map[], {})
  const ONE_ARTICLE := GroupView(Some(Info(1, 1, 1)), map[1 := Stored("", 0)], {})

  lemma CancelTellsApart(g: string, e: Env, c: Conn, headers: seq<string>, id: string)
    requires ValidGroupName(g) && |g| < GROUP_MAX && MayPost(e, c.session, g)
    requires HeaderValue(headers, NEWSGROUPS_KEY) == Some(g)
    ensures DoCancel(e.(spool := OnlyGroup(g, BARE)), c, headers, id).reply == Silent
    ensures DoCancel(e.(spool := OnlyGroup(g, ONE_ARTICLE)), c, headers, id).reply == Reply(441, [], [])
  {
    assert g != "";
    assert IdsOf(BARE) == map[];
    assert MessageIdOf("") == None;
    assert IdsOf(ONE_ARTICLE) == map[];
  }

  lemma StepDispatches(e: Env, c: Conn, req: Request, verb: Verb)
    requires !c.closed && !c.authSimple && req.word != "" && verb == VerbOf(e.o.upper(req.word))
    ensures Step(e, c, req) == Dispatch(e, c, verb, req)
  {
  }

  lemma DispatchPost(e: Env, c: Conn, req: Request)
    ensures Dispatch(e, c, PostVerb, req) == DoPost(e, c, req)
  {
  }

  lemma PostIsCancel(e: Env, c: Conn, req: Request, headers: seq<string>)
    requires req.post.Complete? && headers == HeadOf(AllLines(StripCR(req.post.msg))) && CancelId(headers).Some?
    ensures DoPost(e, c, req) == DoCancel(e, c, headers, CancelId(headers).value)
  {
  }

  lemma CancelStep(g: string, e: Env, c: Conn, req: Request)
    requires CancelsIn(e.o, req, g) && !c.closed && !c.authSimple && req.word != ""
    ensures var headers := HeadOf(AllLines(StripCR(req.post.msg)));
            Step(e, c, req) == DoCancel(e, c, headers, CancelId(headers).value)
  {
    StepDispatches(e, c, req, PostVerb);
    DispatchPost(e, c, req);
    PostIsCancel(e, c, req, HeadOf(AllLines(StripCR(req.post.msg))));
  }

  lemma RevealingStep(g: string, e: Env, c: Conn, req: Request, s1: SpoolState, s2: SpoolState)
    requires ValidGroupName(g) && |g| < GROUP_MAX && Reveals(e, c.session, req, g)
    requires !c.closed && !c.authSimple && req.word != ""
    requires s1 == OnlyGroup(g, BARE) && s2 == OnlyGroup(g, ONE_ARTICLE)
    ensures Step(e.(spool := s1), c, req).reply != Step(e.(spool := s2), c, req).reply
  {
    var headers := HeadOf(AllLines(StripCR(req.post.msg)));
    CancelTellsApart(g, e, c, headers, CancelId(headers).value);
    CancelStep(g, e.(spool := s1), c, req);
    CancelStep(g, e.(spool := s2), c, req);
  }

  /** The answer to a request is the same whatever the group holds. */
  ghost predicate Confined(g: string, e: Env, c: Conn, req: Request) {
    forall s1, s2 :: SameBut(g, s1, s2) ==> Step(e.(spool := s1), c, req).reply == Step(e.(spool := s2), c, req).reply
  }

  /** Exactly the cancels of a session that may post but not read there tell it something. */
  lemma ConfinedExactly(g: string, e: Env, c: Conn, req: Request)
    requires Hidden(e, c.session, g) && ValidGroupName(g) && |g| < GROUP_MAX
    requires !c.closed && !c.authSimple && req.word != ""
    ensures Confined(g, e, c, req) <==> !Reveals(e, c.session, req, g)
  {
    if Reveals(e, c.session, req, g) {
      RevealingStep(g, e, c, req, OnlyGroup(g, BARE), OnlyGroup(g, ONE_ARTICLE));
      assert SameBut(g, OnlyGroup(g, BARE), OnlyGroup(g, ONE_ARTICLE));
    } else {
      forall s1, s2 | SameBut(g, s1, s2)
        ensures Step(e.(spool := s1), c, req).reply == Step(e.(spool := s2), c, req).reply
      {
        StepConfined(g, e.(spool := s1), e.(spool := s2), c, c, req);
      }
    }
  }

  // ----- every run -----

  /** Two runs with the same requests, on spools that at each turn differ only in g. */
  ghost predicate AlikeTurns(g: string, t1: seq<S.Turn>, t2: seq<S.Turn>) {
    |t1| == |t2| && forall i :: 0 <= i < |t1| ==> t1[i].req == t2[i].req && Alike(g, t1[i].env, t2[i].env)
  }

  /** At turn i, g is closed to the session there is by then, and the request is not a revealing cancel. */
  ghost predicate ClosedAt(g: string, c: Conn, turns: seq<S.Turn>, i: nat)
    requires i < |turns|
  {
    var session := S.Run(c, turns[..i]).session;
    Hidden(turns[i].env, session, g) && !Reveals(turns[i].env, session, turns[i].req, g)
  }

  ghost predicate ClosedThroughout(g: string, c: Conn, turns: seq<S.Turn>) {
    forall i :: 0 <= i < |turns| ==> ClosedAt(g, c, turns, i)
  }

  lemma ClosedInPrefix(g: string, c: Conn, turns: seq<S.Turn>, n: nat, i: nat)
    requires i < n <= |turns|
    ensures ClosedAt(g, c, turns[..n], i) <==> ClosedAt(g, c, turns, i)
  {
    assert turns[..n][..i] == turns[..i];
  }

  lemma PrefixesAlike(g: string, c: Conn, t1: seq<S.Turn>, t2: seq<S.Turn>, n: nat)
    requires n <= |t1| && AlikeTurns(g, t1, t2) && ClosedThroughout(g, c, t1)
    ensures AlikeTurns(g, t1[..n], t2[..n]) && ClosedThroughout(g, c, t1[..n])
  {
    forall i | 0 <= i < n ensures ClosedAt(g, c, t1[..n], i) {
      ClosedInPrefix(g, c, t1, n, i);
    }
  }

  /** Nothing a connection is told depends on the content of a group that is closed to it. */
  lemma {:induction false} RunConfined(g: string, c1: Conn, c2: Conn, t1: seq<S.Turn>, t2: seq<S.Turn>)
    requires AlikeTurns(g, t1, t2) && SameOutside(g, c1, c2) && ClosedThroughout(g, c1, t1)
    ensures S.Replies(c1, t1) == S.Replies(c2, t2) && SameOutside(g, S.Run(c1, t1), S.Run(c2, t2))
    decreases |t1|
  {
    if t1 != [] {
      var n := |t1| - 1;
      PrefixesAlike(g, c1, t1, t2, n);
      RunConfined(g, c1, c2, t1[..n], t2[..n]);
      assert ClosedAt(g, c1, t1, n);
      StepConfined(g, t1[n].env, t2[n].env, S.Run(c1, t1[..n]), S.Run(c2, t2[..n]), t1[n].req);
    }
  }

  /**
    Once a reload has archived a group, no later step of any session -- whoever logs in on it -- reveals
    anything about it, its numbers and the article a connection that has it selected holds included. The
    one thing excepted is the post limit such a connection holds of it, which POST's 411 tells.
   */
  lemma ArchivedIsNeverRevealed(g: string, c1: Conn, c2: Conn, t1: seq<S.Turn>, t2: seq<S.Turn>)
    requires AlikeTurns(g, t1, t2) && SameOutside(g, c1, c2)
    requires forall i :: 0 <= i < |t1| ==> t1[i].env.store.Some? && IsArchived(t1[i].env.store.value, g)
    ensures S.Replies(c1, t1) == S.Replies(c2, t2) && SameOutside(g, S.Run(c1, t1), S.Run(c2, t2))
  {
    forall i | 0 <= i < |t1| ensures ClosedAt(g, c1, t1, i) {
      ArchivedIsClosed(t1[i].env.store.value, S.Run(c1, t1[..i]).session, g, true, []);
    }
    RunConfined(g, c1, c2, t1, t2);
  }
}
