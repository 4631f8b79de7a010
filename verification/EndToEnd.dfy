/**
  From one session to another: what a POST stored is what a later ARTICLE, by number or by Message-ID,
  sends to any client that may read the group.
 */
module EndToEnd {
  import opened Text
  import opened Lines
  import opened PostReader
  import opened Headers
  import opened ArticleFile
  import opened ArticleHeader
  import opened Spool
  import opened Search
  import opened GroupList
  import opened GroupStore
  import opened HeaderReading
  import opened Pipeline
  import opened NntpSession
  import A = SessionAnswers
  import S = SessionWrites

  /** The spool once Post has carried out a StoreIn, on a given day, for a given client address. */
  ghost function AfterPost(e: Env, w: Effect, date: string, remote: string, mtime: int): SpoolState
    requires w.StoreIn? && w.group in e.spool.groups
  {
    var entry := e.spool.groups[w.group];
    var article := Posted(e.serverName, w.group, date, remote, mtime, w.headers, w.body, false);
    e.spool.(groups := e.spool.groups[w.group := entry.(view := PostView(entry.view, article))])
  }

  /** The header lines that post stores. */
  ghost function StoredHeader(e: Env, w: Effect, date: string, remote: string): seq<string>
    requires w.StoreIn? && w.group in e.spool.groups
  {
    var n := NextNumber(e.spool.groups[w.group].view);
    Rewritten(w.headers, |w.body|, Stamp(e.serverName, w.group, n, date, remote), false)
  }

  /** The client's article, as lines it may post and may be sent: see Pipeline.PostThenArticle. */
  ghost predicate Postable(e: Env, w: Effect, headers: seq<string>, body: seq<string>, date: string, remote: string) {
    && headers != [] && HeaderLines(headers) && TextLines(body) && !StartsWithDot(headers[0])
    && |FileText(headers, body)| <= MAX_POST_SIZE
    && IsLine(e.serverName) && IsLine(date) && IsLine(remote)
    && NoLongerThan(body, SEND_LIMIT)
    && w.StoreIn? && w.group in e.spool.groups && IsLine(w.group)
    && NoLongerThan(StoredHeader(e, w, date, remote), SEND_LIMIT)
  }

  lemma PostArticleStores(e: Env, c: Conn, msg: string, headers: seq<string>, body: seq<string>)
    requires DoPostArticle(e, c, msg, headers, body).effect.StoreIn?
    ensures var w := DoPostArticle(e, c, msg, headers, body).effect;
            w.headers == PathUpdated(headers, e.serverName) && w.body == body && w.group in e.spool.groups
  {
    KnownKeys();
    PathUpdateKeepsFields(headers, e.serverName, NEWSGROUPS_KEY);
  }

  lemma OnlyPostArticleStores(e: Env, c: Conn, req: Request)
    ensures DoPost(e, c, req).effect.StoreIn? ==>
              && req.post.Complete?
              && var lines := AllLines(StripCR(req.post.msg));
                 DoPost(e, c, req) == DoPostArticle(e, c, req.post.msg, HeadOf(lines), BodyOf(lines))
  {
  }

  /** A POST that stores something stores the client's own lines, with Path updated. */
  lemma PostStores(e: Env, c: Conn, req: Request, headers: seq<string>, body: seq<string>)
    requires headers != [] && HeaderLines(headers) && TextLines(body) && !StartsWithDot(headers[0])
    requires |FileText(headers, body)| <= MAX_POST_SIZE && req.post == Complete(FileText(headers, body))
    ensures var w := DoPost(e, c, req).effect;
            w.StoreIn? ==>
              w.headers == PathUpdated(headers, e.serverName) && w.body == body && w.group in e.spool.groups
  {
    PostedIsParsed(headers, body, "");
    OnlyPostArticleStores(e, c, req);
    if DoPost(e, c, req).effect.StoreIn? {
      PostArticleStores(e, c, req.post.msg, headers, body);
    }
  }

  /** What a POST leaves in the group: the file, its time and End. */
  lemma AfterPostHolds(e: Env, w: Effect, date: string, remote: string, mtime: int)
    requires w.StoreIn? && w.group in e.spool.groups
    ensures var v := ViewIn(AfterPost(e, w, date, remote, mtime), w.group);
            var n := NextNumber(e.spool.groups[w.group].view);
            && TextOf(v, n) == Some(FileText(StoredHeader(e, w, date, remote), w.body))
            && n in v.files && v.files[n].mtime == mtime
            && v.info.Some? && v.info.value.end == n
  {
  }

  lemma FormatIsNumber(n: nat)
    requires n <= MAX_UINT64
    ensures ParseUint(Format(n)) == Some(n) && IsDigit(Format(n)[0]) && !IsMessageId(Format(n))
  {
    ValueOfFormat(n);
  }

  /** The answer to ARTICLE for a file that loads is its text; for one that does not, 430. */
  lemma RetrieveSends(e: Env, c: Conn, arg: string, n: nat, text: string)
    requires c.curGroup.valid && MayRead(e, c.session, c.curGroup.name)
    requires NameArticle(e, c, arg).NumberedArticle? && NameArticle(e, c, arg).n == n
    requires c.curGroup.start <= n <= c.curGroup.end
    requires TextOf(ViewIn(e.spool, c.curGroup.name), n) == Some(text)
    ensures var a := Loaded(Some(text), c.curGroup.name, n);
            DoRetrieve(e, c, WholeArticle, arg).reply ==
              if a.valid then Reply(220, [N(n), S(a.Get(MessageIdField))], [[S(Sent(text, true, true))]])
              else Reply(430, [N(n)], [])
  {
    LoadedIdentity(TextOf(ViewIn(e.spool, c.curGroup.name), n), c.curGroup.name, n);
  }

  lemma StoredLines(e: Env, c: Conn, req: Request, w: Effect, headers: seq<string>, body: seq<string>, date: string,
                    remote: string)
    requires Postable(e, w, headers, body, date, remote)
    requires req.post == Complete(FileText(headers, body)) && DoPost(e, c, req).effect == w
    ensures w.headers == PathUpdated(headers, e.serverName) && w.body == body
    ensures HeaderLines(StoredHeader(e, w, date, remote))
    ensures NoLongerThan(StoredHeader(e, w, date, remote), SCAN_LIMIT) && NoLongerThan(body, SCAN_LIMIT)
  {
    PostStores(e, c, req, headers, body);
    PathHeaderLines(headers, e.serverName);
    var st := Stamp(e.serverName, w.group, NextNumber(e.spool.groups[w.group].view), date, remote);
    RewrittenHeaderLines(w.headers, |body|, st, false);
  }

  /**
    After the POST, a session that has selected the group and may read it gets from ARTICLE, by number,
    the stored header, the separator and exactly the body lines the poster sent -- if and only if the last
    From and the last Message-ID of the stored header have a value, and 430 otherwise.
   */
  lemma PostedComesBack(e: Env, c: Conn, req: Request, w: Effect, headers: seq<string>, body: seq<string>, date: string,
                        remote: string, mtime: int, e2: Env, c2: Conn, after: string)
    requires Postable(e, w, headers, body, date, remote)
    requires e2.spool == AfterPost(e, w, date, remote, mtime) && LoadGroup(e2.spool, w.group) == Some(c2.curGroup)
    requires MayRead(e2, c2.session, w.group) && c2.curGroup.start <= c2.curGroup.end <= MAX_UINT64
    ensures req.post == Complete(FileText(headers, body)) && DoPost(e, c, req).effect == w ==>
              var n, stored := NextNumber(e.spool.groups[w.group].view), StoredHeader(e, w, date, remote);
              var out := Sent(FileText(stored, body), true, true);
              && DoRetrieve(e2, c2, WholeArticle, Format(n)).reply ==
                 (if Identified(stored) then Reply(220, [N(n), S(LastValue(stored, MessageIdField, ""))], [[S(out)]])
                  else Reply(430, [N(n)], []))
              && ReadBlock(out + (".\r\n" + after)) == Some((stored + [""] + body, after))
  {
    if req.post == Complete(FileText(headers, body)) && DoPost(e, c, req).effect == w {
      var n, stored := NextNumber(e.spool.groups[w.group].view), StoredHeader(e, w, date, remote);
      StoredLines(e, c, req, w, headers, body, date, remote);
      AfterPostHolds(e, w, date, remote, mtime);
      PostThenArticle(headers, body, "", after, e.serverName, Stamp(e.serverName, w.group, n, date, remote), false);
      FormatIsNumber(n);
      RetrieveSends(e2, c2, Format(n), n, FileText(stored, body));
      LoadsIfIdentified(stored, body, w.group, n, MessageIdField);
    }
  }

  /** If no continuation hangs on a line Post cuts out, the condition is one on the posted lines. */
  lemma ReadableAsPosted(e: Env, c: Conn, req: Request, w: Effect, headers: seq<string>, body: seq<string>,
                         date: string, remote: string)
    requires Postable(e, w, headers, body, date, remote) && CutsEnd(headers, false)
    ensures req.post == Complete(FileText(headers, body)) && DoPost(e, c, req).effect == w ==>
              var stored := StoredHeader(e, w, date, remote);
              && (Identified(stored) <==> IdentifiedAsPosted(headers))
              && (FirstEnds(stored, FROM_KEY) <==> FirstEnds(headers, FROM_KEY))
  {
    if req.post == Complete(FileText(headers, body)) && DoPost(e, c, req).effect == w {
      StoredLines(e, c, req, w, headers, body, date, remote);
      var st := Stamp(e.serverName, w.group, NextNumber(e.spool.groups[w.group].view), date, remote);
      StoredIsIdentified(headers, e.serverName, |body|, st, false);
    }
  }

  // ----- posts that are accepted and cannot be read -----

  /** Neither a blank From nor a blank Message-ID after the other headers is an obstacle to posting. */
  lemma StillAccepted(e: Env, c: Conn, msg: string, msg2: string, init: seq<string>, line: string, body: seq<string>)
    requires BlankId(line) && DoPostArticle(e, c, msg, init, body).effect.StoreIn?
    requires A.WithinLimit(c, msg2)
    ensures var r := DoPostArticle(e, c, msg2, init + [line], body);
            r.reply == Reply(240, [], []) && r.effect.StoreIn?
  {
    KnownKeys();
    BlankIdIs(line, NEWSGROUPS_KEY);
    FieldOfOne(line, NEWSGROUPS_KEY);
    FieldOfAppend(init, [line], NEWSGROUPS_KEY);
    FieldOfAppend(init, [line], FROM_KEY);
  }

  lemma StillNoCancel(init: seq<string>, line: string)
    requires BlankId(line)
    ensures CancelId(init + [line]) == CancelId(init)
  {
    KnownKeys();
    BlankIdIs(line, CONTROL_KEY);
    FieldOfOne(line, CONTROL_KEY);
    FieldOfAppend(init, [line], CONTROL_KEY);
  }

  lemma PostOfLines(e: Env, c: Conn, req: Request, headers: seq<string>, body: seq<string>)
    requires headers != [] && HeaderLines(headers) && TextLines(body) && !StartsWithDot(headers[0])
    requires |FileText(headers, body)| <= MAX_POST_SIZE && req.post == Complete(FileText(headers, body))
    ensures CancelId(headers).None? ==> DoPost(e, c, req) == DoPostArticle(e, c, req.post.msg, headers, body)
    ensures DoPost(e, c, req).effect.StoreIn? ==> CancelId(headers).None?
  {
    PostedIsParsed(headers, body, "");
    PostOf(e, c, req, headers, body);
  }

  lemma PostOf(e: Env, c: Conn, req: Request, headers: seq<string>, body: seq<string>)
    requires req.post.Complete?
    requires HeadOf(AllLines(StripCR(req.post.msg))) == headers && BodyOf(AllLines(StripCR(req.post.msg))) == body
    ensures CancelId(headers).None? ==> DoPost(e, c, req) == DoPostArticle(e, c, req.post.msg, headers, body)
    ensures DoPost(e, c, req).effect.StoreIn? ==> CancelId(headers).None?
  {
  }

  lemma ArticleIsPosted(e: Env, c: Conn, req: Request, headers: seq<string>, body: seq<string>, r: NntpSession.Result)
    requires headers != [] && HeaderLines(headers) && TextLines(body) && !StartsWithDot(headers[0])
    requires |FileText(headers, body)| <= MAX_POST_SIZE && req.post == Complete(FileText(headers, body))
    requires CancelId(headers).None? && r == DoPostArticle(e, c, req.post.msg, headers, body)
    ensures DoPost(e, c, req) == r
  {
    PostOfLines(e, c, req, headers, body);
  }

  lemma BlankArticle(e: Env, c: Conn, msg: string, req: Request, init: seq<string>, line: string,
                     headers: seq<string>, body: seq<string>)
    requires headers == init + [line] && HeaderLines(headers) && TextLines(body) && !StartsWithDot(headers[0])
    requires |FileText(headers, body)| <= MAX_POST_SIZE && CancelId(headers).None?
    requires BlankId(line) && DoPostArticle(e, c, msg, init, body).effect.StoreIn?
    requires req.post == Complete(FileText(headers, body)) && A.WithinLimit(c, req.post.msg)
    ensures DoPost(e, c, req).reply == Reply(240, [], []) && DoPost(e, c, req).effect.StoreIn?
  {
    StillAccepted(e, c, msg, req.post.msg, init, line, body);
    ArticleIsPosted(e, c, req, headers, body, DoPostArticle(e, c, req.post.msg, headers, body));
  }

  lemma WithBlankLine(init: seq<string>, line: string)
    requires init != [] && HeaderLines(init) && BlankId(line)
    ensures HeaderLines(init + [line]) && (init + [line])[0] == init[0]
  {
  }

  /** A POST that is accepted is accepted with a blank From or Message-ID after its headers, too. */
  lemma BlankIsAccepted(e: Env, c: Conn, req0: Request, req: Request, init: seq<string>, line: string,
                        body: seq<string>)
    requires BlankId(line) && init != [] && HeaderLines(init) && TextLines(body) && !StartsWithDot(init[0])
    requires |FileText(init, body)| <= MAX_POST_SIZE && |FileText(init + [line], body)| <= MAX_POST_SIZE
    requires req0.post == Complete(FileText(init, body)) && DoPost(e, c, req0).effect.StoreIn?
    requires req.post == Complete(FileText(init + [line], body)) && A.WithinLimit(c, req.post.msg)
    ensures DoPost(e, c, req).reply == Reply(240, [], []) && DoPost(e, c, req).effect.StoreIn?
  {
    PostOfLines(e, c, req0, init, body);
    StillNoCancel(init, line);
    WithBlankLine(init, line);
    BlankArticle(e, c, req0.post.msg, req, init, line, init + [line], body);
  }

  /** The connection of PostedComesBack: it has selected the group after the post and may read it. */
  ghost predicate Reaches(e: Env, w: Effect, headers: seq<string>, body: seq<string>, date: string, remote: string,
                          mtime: int, e2: Env, c2: Conn)
  {
    && Postable(e, w, headers, body, date, remote)
    && e2.spool == AfterPost(e, w, date, remote, mtime) && LoadGroup(e2.spool, w.group) == Some(c2.curGroup)
    && MayRead(e2, c2.session, w.group) && c2.curGroup.start <= c2.curGroup.end <= MAX_UINT64
  }

  lemma UnreadableComesNot(e: Env, c: Conn, req: Request, w: Effect, headers: seq<string>, body: seq<string>,
                           date: string, remote: string, mtime: int, e2: Env, c2: Conn)
    requires Reaches(e, w, headers, body, date, remote, mtime, e2, c2)
    requires req.post == Complete(FileText(headers, body)) && DoPost(e, c, req).effect == w
    requires !Identified(StoredHeader(e, w, date, remote))
    ensures var n := NextNumber(e.spool.groups[w.group].view);
            DoRetrieve(e2, c2, WholeArticle, Format(n)).reply == Reply(430, [N(n)], [])
  {
    PostedComesBack(e, c, req, w, headers, body, date, remote, mtime, e2, c2, "");
  }

  lemma BlankComesNot(e: Env, c: Conn, req: Request, w: Effect, init: seq<string>, line: string, body: seq<string>,
                      date: string, remote: string, mtime: int, e2: Env, c2: Conn)
    requires BlankId(line) && Reaches(e, w, init + [line], body, date, remote, mtime, e2, c2)
    requires req.post == Complete(FileText(init + [line], body)) && DoPost(e, c, req).effect == w
    ensures var n := NextNumber(e.spool.groups[w.group].view);
            DoRetrieve(e2, c2, WholeArticle, Format(n)).reply == Reply(430, [N(n)], [])
  {
    StoredLines(e, c, req, w, init + [line], body, date, remote);
    var st := Stamp(e.serverName, w.group, NextNumber(e.spool.groups[w.group].view), date, remote);
    BlankIsUnreadable(init, line, e.serverName, |body|, st, false);
    UnreadableComesNot(e, c, req, w, init + [line], body, date, remote, mtime, e2, c2);
  }

  lemma StoresInSpool(e: Env, c: Conn, req: Request, w: Effect)
    requires DoPost(e, c, req).effect == w && w.StoreIn?
    ensures w.group in e.spool.groups
  {
    OnlyPostArticleStores(e, c, req);
    var lines := AllLines(StripCR(req.post.msg));
    PostArticleStores(e, c, req.post.msg, HeadOf(lines), BodyOf(lines));
  }

  /**
    From 240 to 430: a POST that is accepted is accepted with a blank From or Message-ID after its
    headers, too, and then ARTICLE never sends what it stored.
   */
  lemma AcceptedButUnreadable(e: Env, c: Conn, req0: Request, req: Request, w: Effect, init: seq<string>, line: string,
                              body: seq<string>, date: string, remote: string, mtime: int, e2: Env, c2: Conn)
    requires BlankId(line) && init != [] && HeaderLines(init) && TextLines(body) && !StartsWithDot(init[0])
    requires |FileText(init, body)| <= MAX_POST_SIZE && |FileText(init + [line], body)| <= MAX_POST_SIZE
    requires req0.post == Complete(FileText(init, body)) && DoPost(e, c, req0).effect.StoreIn?
    requires req.post == Complete(FileText(init + [line], body)) && A.WithinLimit(c, req.post.msg)
    requires w == DoPost(e, c, req).effect
    ensures DoPost(e, c, req).reply == Reply(240, [], []) && w.StoreIn? && w.group in e.spool.groups
    ensures Reaches(e, w, init + [line], body, date, remote, mtime, e2, c2) ==>
              var n := NextNumber(e.spool.groups[w.group].view);
              DoRetrieve(e2, c2, WholeArticle, Format(n)).reply == Reply(430, [N(n)], [])
  {
    BlankIsAccepted(e, c, req0, req, init, line, body);
    StoresInSpool(e, c, req, w);
    if Reaches(e, w, init + [line], body, date, remote, mtime, e2, c2) {
      BlankComesNot(e, c, req, w, init, line, body, date, remote, mtime, e2, c2);
    }
  }

  /** A POST without From, which a connection that is not logged in may make, is never sent either. */
  lemma PostedWithoutFrom(e: Env, c: Conn, req: Request, w: Effect, headers: seq<string>, body: seq<string>,
                          date: string, remote: string, mtime: int, e2: Env, c2: Conn)
    requires Reaches(e, w, headers, body, date, remote, mtime, e2, c2) && !HasField(headers, FROM_KEY)
    ensures req.post == Complete(FileText(headers, body)) && DoPost(e, c, req).effect == w ==>
              var n := NextNumber(e.spool.groups[w.group].view);
              DoRetrieve(e2, c2, WholeArticle, Format(n)).reply == Reply(430, [N(n)], [])
  {
    if req.post == Complete(FileText(headers, body)) && DoPost(e, c, req).effect == w {
      StoredLines(e, c, req, w, headers, body, date, remote);
      var st := Stamp(e.serverName, w.group, NextNumber(e.spool.groups[w.group].view), date, remote);
      NoFromIsUnreadable(headers, e.serverName, |body|, st, false);
      UnreadableComesNot(e, c, req, w, headers, body, date, remote, mtime, e2, c2);
    }
  }

  /** The search for the Message-ID it was stored under finds that very article. */
  lemma PostedIsHit(e: Env, c: Conn, req: Request, w: Effect, headers: seq<string>, body: seq<string>, date: string,
                    remote: string, mtime: int, e2: Env, g: Snapshot)
    requires Postable(e, w, headers, body, date, remote)
    requires e2.spool == AfterPost(e, w, date, remote, mtime) && LoadGroup(e2.spool, w.group) == Some(g)
    requires req.post == Complete(FileText(headers, body)) && DoPost(e, c, req).effect == w
    ensures var n := NextNumber(e.spool.groups[w.group].view);
            && HasField(StoredHeader(e, w, date, remote), MESSAGE_ID_KEY)
            && var id := HeaderValue(StoredHeader(e, w, date, remote), MESSAGE_ID_KEY).value;
               FindIn(e2.spool, g, id) == Hit(n) <==> g.start <= n
  {
    PostStores(e, c, req, headers, body);
    AfterPostHolds(e, w, date, remote, mtime);
    PathHeaderLines(headers, e.serverName);
    PostedIsFound(e.spool.groups[w.group].view, e.serverName, w.group, date, remote, mtime, w.headers, w.body, false);
  }

  /** So that Message-ID names it in ARTICLE, HDR and cancel. */
  lemma PostedIsNamed(e: Env, c: Conn, req: Request, w: Effect, headers: seq<string>, body: seq<string>, date: string,
                      remote: string, mtime: int, e2: Env, c2: Conn)
    requires Postable(e, w, headers, body, date, remote)
    requires e2.spool == AfterPost(e, w, date, remote, mtime) && LoadGroup(e2.spool, w.group) == Some(c2.curGroup)
    ensures req.post == Complete(FileText(headers, body)) && DoPost(e, c, req).effect == w ==>
              var n := NextNumber(e.spool.groups[w.group].view);
              && HasField(StoredHeader(e, w, date, remote), MESSAGE_ID_KEY)
              && var id := HeaderValue(StoredHeader(e, w, date, remote), MESSAGE_ID_KEY).value;
                 IsMessageId(id) ==>
                   (NameArticle(e2, c2, id) == NumberedArticle(n, true) <==> c2.curGroup.start <= n)
  {
    if req.post == Complete(FileText(headers, body)) && DoPost(e, c, req).effect == w {
      PostedIsHit(e, c, req, w, headers, body, date, remote, mtime, e2, c2.curGroup);
    }
  }

  // ----- cancel -----

  lemma RawStored(v: GroupView, n: nat, stored: seq<string>, body: seq<string>, field: string, key: string,
                  value: string)
    requires TextOf(v, n) == Some(FileText(stored, body)) && HeaderLines(stored) && TextLines(body)
    requires NoLongerThan(stored, SCAN_LIMIT) && NoLongerThan(body, SCAN_LIMIT)
    requires Target(field) == key && FieldKey(key) && !Folded(key) && HeaderValue(stored, key) == Some(value)
    ensures var i := FirstField(stored, key);
            i < |stored| && RawHeaderIn(v, n, field) == value + Continued(stored[i + 1..])
  {
    RawIsHeaderValue(stored, body, field);
    FoldedAsKey(stored[FirstField(stored, key)], key);
  }

  lemma RawFrom(v: GroupView, n: nat, stored: seq<string>, body: seq<string>, value: string)
    requires TextOf(v, n) == Some(FileText(stored, body)) && HeaderLines(stored) && TextLines(body)
    requires NoLongerThan(stored, SCAN_LIMIT) && NoLongerThan(body, SCAN_LIMIT)
    requires HeaderValue(stored, FROM_KEY) == Some(value)
    ensures var i := FirstField(stored, FROM_KEY);
            i < |stored| && RawHeaderIn(v, n, "From") == value + Continued(stored[i + 1..])
  {
    A.TargetOfFrom();
    RawStored(v, n, stored, body, "From", FROM_KEY, value);
  }

  lemma StoredFromValue(e: Env, w: Effect, headers: seq<string>, body: seq<string>, date: string, remote: string)
    requires w.StoreIn? && w.group in e.spool.groups && w.headers == PathUpdated(headers, e.serverName)
    requires HasField(headers, FROM_KEY)
    ensures HeaderValue(StoredHeader(e, w, date, remote), FROM_KEY) == HeaderValue(headers, FROM_KEY)
  {
    A.TargetOfFrom();
    var st := Stamp(e.serverName, w.group, NextNumber(e.spool.groups[w.group].view), date, remote);
    PathUpdateKeepsFields(headers, e.serverName, FROM_KEY);
    RewrittenFields(w.headers, |w.body|, st, false);
  }

  lemma StoredText(e: Env, c: Conn, req: Request, w: Effect, headers: seq<string>, body: seq<string>,
                   date: string, remote: string, mtime: int, v: GroupView, stored: seq<string>)
    requires Postable(e, w, headers, body, date, remote) && stored == StoredHeader(e, w, date, remote)
    requires req.post == Complete(FileText(headers, body)) && DoPost(e, c, req).effect == w
    requires v == ViewIn(AfterPost(e, w, date, remote, mtime), w.group)
    ensures TextOf(v, NextNumber(e.spool.groups[w.group].view)) == Some(FileText(stored, body))
    ensures HeaderLines(stored) && NoLongerThan(stored, SCAN_LIMIT) && NoLongerThan(body, SCAN_LIMIT)
    ensures w.headers == PathUpdated(headers, e.serverName)
  {
    StoredLines(e, c, req, w, headers, body, date, remote);
    AfterPostHolds(e, w, date, remote, mtime);
  }

  /** The posted From as cancel finds it again in the stored file. */
  lemma StoredFrom(e: Env, c: Conn, req: Request, w: Effect, headers: seq<string>, body: seq<string>,
                   date: string, remote: string, mtime: int, v: GroupView, stored: seq<string>)
    requires Postable(e, w, headers, body, date, remote) && stored == StoredHeader(e, w, date, remote)
    requires req.post == Complete(FileText(headers, body)) && DoPost(e, c, req).effect == w
    requires v == ViewIn(AfterPost(e, w, date, remote, mtime), w.group) && HasField(headers, FROM_KEY)
    ensures var i := FirstField(stored, FROM_KEY);
            && i < |stored| && HeaderLines(stored)
            && RawHeaderIn(v, NextNumber(e.spool.groups[w.group].view), "From") ==
               HeaderValue(headers, FROM_KEY).value + Continued(stored[i + 1..])
  {
    StoredText(e, c, req, w, headers, body, date, remote, mtime, v, stored);
    StoredFromValue(e, w, headers, body, date, remote);
    RawFrom(v, NextNumber(e.spool.groups[w.group].view), stored, body, HeaderValue(headers, FROM_KEY).value);
  }

  lemma SameFromIs(e: Env, cancelHeaders: seq<string>, group: string, n: nat, from: string, more: string)
    requires HeaderValue(cancelHeaders, FROM_KEY) == Some(from) && from != "" && Trimmed(from)
    requires RawHeaderIn(ViewIn(e.spool, group), n, "From") == from + more
    ensures SameFrom(e, cancelHeaders, group, n) <==> e.o.fold(from) == e.o.fold(Trim(from + more))
    ensures more == "" ==> SameFrom(e, cancelHeaders, group, n)
  {
    TrimFixpoint(from);
    if more == "" {
      assert from + more == from;
    }
  }

  lemma FromCheck(e: Env, c: Conn, req: Request, w: Effect, headers: seq<string>, body: seq<string>, date: string,
                  remote: string, mtime: int, e2: Env, cancelHeaders: seq<string>, stored: seq<string>, from: string)
    requires Postable(e, w, headers, body, date, remote) && stored == StoredHeader(e, w, date, remote)
    requires req.post == Complete(FileText(headers, body)) && DoPost(e, c, req).effect == w
    requires e2.spool == AfterPost(e, w, date, remote, mtime)
    requires HeaderValue(headers, FROM_KEY) == HeaderValue(cancelHeaders, FROM_KEY) == Some(from) && from != ""
    ensures var i := FirstField(stored, FROM_KEY);
            && i < |stored| && HeaderLines(stored)
            && var more := Continued(stored[i + 1..]);
               var mayCancel := SameFrom(e2, cancelHeaders, w.group, NextNumber(e.spool.groups[w.group].view));
            && (mayCancel <==> e2.o.fold(from) == e2.o.fold(Trim(from + more)))
            && (more == "" ==> mayCancel)
  {
    StoredFrom(e, c, req, w, headers, body, date, remote, mtime, ViewIn(e2.spool, w.group), stored);
    TrimIsTrimmed(headers[FirstField(headers, FROM_KEY)][|FROM_KEY|..]);
    SameFromIs(e2, cancelHeaders, w.group, NextNumber(e.spool.groups[w.group].view), from,
               Continued(stored[FirstField(stored, FROM_KEY) + 1..]));
  }

  /**
    Who cancels with the From the article was posted with passes the From check of cancel if and only if
    that From and the stored one with its continuation lines fold alike: always, if the stored From has no
    continuation; so, if the posted From has none and none hangs on a line Post cuts out.
   */
  lemma OwnerMayCancel(e: Env, c: Conn, req: Request, w: Effect, headers: seq<string>, body: seq<string>, date: string,
                       remote: string, mtime: int, e2: Env, cancelHeaders: seq<string>)
    requires Postable(e, w, headers, body, date, remote)
    requires e2.spool == AfterPost(e, w, date, remote, mtime)
    requires HeaderValue(headers, FROM_KEY).Some? && HeaderValue(headers, FROM_KEY).value != ""
    requires HeaderValue(cancelHeaders, FROM_KEY) == HeaderValue(headers, FROM_KEY)
    ensures req.post == Complete(FileText(headers, body)) && DoPost(e, c, req).effect == w ==>
              var stored, from := StoredHeader(e, w, date, remote), HeaderValue(headers, FROM_KEY).value;
              var i := FirstField(stored, FROM_KEY);
              var mayCancel := SameFrom(e2, cancelHeaders, w.group, NextNumber(e.spool.groups[w.group].view));
              && i < |stored|
              && (mayCancel <==> e2.o.fold(from) == e2.o.fold(Trim(from + Continued(stored[i + 1..]))))
              && (FirstEnds(stored, FROM_KEY) ==> mayCancel)
              && (CutsEnd(headers, false) && FirstEnds(headers, FROM_KEY) ==> mayCancel)
  {
    if req.post == Complete(FileText(headers, body)) && DoPost(e, c, req).effect == w {
      var stored, from := StoredHeader(e, w, date, remote), HeaderValue(headers, FROM_KEY).value;
      FromCheck(e, c, req, w, headers, body, date, remote, mtime, e2, cancelHeaders, stored, from);
      ContinuedBlank(stored, FirstField(stored, FROM_KEY));
      if CutsEnd(headers, false) {
        ReadableAsPosted(e, c, req, w, headers, body, date, remote);
      }
    }
  }

  /**
    A measure of texts, such as the number of runes, that is the same for texts that fold alike and grows
    when something that begins with a space is appended.
   */
  ghost predicate Measures(o: Oracle, size: string -> nat) {
    && (forall a, b :: o.fold(a) == o.fold(b) ==> size(a) == size(b))
    && (forall a, b :: b != "" && b[0] == ' ' ==> size(a) < size(a + b))
  }

  lemma FoldsAlikeIff(o: Oracle, size: string -> nat, from: string, more: string)
    requires Measures(o, size) && from != "" && Trimmed(from) && (more == "" || more[0] == ' ')
    ensures o.fold(from) == o.fold(Trim(from + more)) <==> Blank(more)
  {
    BlankTrims(more);
    TrimAppend(from, more);
    TrimRightShape(more);
    if Blank(more) {
      assert from + "" == from;
    } else {
      assert TrimRight(more)[0] == ' ';
      assert size(from) < size(from + TrimRight(more));
    }
  }

  /** So the owner is refused exactly when the continuation of the stored From has text. */
  lemma OwnerIsRefused(e: Env, c: Conn, req: Request, w: Effect, headers: seq<string>, body: seq<string>, date: string,
                       remote: string, mtime: int, e2: Env, cancelHeaders: seq<string>, size: string -> nat)
    requires Postable(e, w, headers, body, date, remote)
    requires e2.spool == AfterPost(e, w, date, remote, mtime) && Measures(e2.o, size)
    requires HeaderValue(headers, FROM_KEY).Some? && HeaderValue(headers, FROM_KEY).value != ""
    requires HeaderValue(cancelHeaders, FROM_KEY) == HeaderValue(headers, FROM_KEY)
    ensures req.post == Complete(FileText(headers, body)) && DoPost(e, c, req).effect == w ==>
              var stored := StoredHeader(e, w, date, remote);
              var i := FirstField(stored, FROM_KEY);
              && i < |stored|
              && (SameFrom(e2, cancelHeaders, w.group, NextNumber(e.spool.groups[w.group].view)) <==>
                  Blank(Continued(stored[i + 1..])))
  {
    if req.post == Complete(FileText(headers, body)) && DoPost(e, c, req).effect == w {
      var stored, from := StoredHeader(e, w, date, remote), HeaderValue(headers, FROM_KEY).value;
      OwnerMayCancel(e, c, req, w, headers, body, date, remote, mtime, e2, cancelHeaders);
      TrimIsTrimmed(headers[FirstField(headers, FROM_KEY)][|FROM_KEY|..]);
      FoldsAlikeIff(e2.o, size, from, Continued(stored[FirstField(stored, FROM_KEY) + 1..]));
    }
  }

  lemma StoredGroup(e: Env, c: Conn, req: Request, w: Effect)
    requires DoPost(e, c, req).effect == w && w.StoreIn?
    ensures w.group != "" && ValidGroupName(w.group)
  {
    OnlyPostArticleStores(e, c, req);
    KnownKeys();
    PathUpdateKeepsFields(HeadOf(AllLines(StripCR(req.post.msg))), e.serverName, NEWSGROUPS_KEY);
  }

  lemma CancelOfHit(e: Env, c: Conn, cancelHeaders: seq<string>, group: string, g: Snapshot, id: string, n: nat)
    requires HeaderValue(cancelHeaders, NEWSGROUPS_KEY) == Some(group) && group != "" && ValidGroupName(group)
    requires MayPost(e, c.session, group) && LoadGroup(e.spool, group) == Some(g) && FindIn(e.spool, g, id) == Hit(n)
    ensures DoCancel(e, c, cancelHeaders, id) ==
            if SameFrom(e, cancelHeaders, group, n) then
              NntpSession.Result(c, Reply(240, [], []), RemoveFrom(group, n))
            else Refuse(c, 441)
  {
  }

  /**
    The owner's cancel from beginning to end: naming the group and the Message-ID the article was stored
    under, by a session that may post there, it is answered 240 and removes that very article if the stored
    From has no continuation, so if the posted one has none and none hangs on a line Post cuts out; where
    the From check fails it is answered 441.
   */
  lemma OwnerCancels(e: Env, c: Conn, req: Request, w: Effect, headers: seq<string>, body: seq<string>, date: string,
                     remote: string, mtime: int, e2: Env, c2: Conn, g: Snapshot, cancelHeaders: seq<string>)
    requires Postable(e, w, headers, body, date, remote)
    requires req.post == Complete(FileText(headers, body)) && DoPost(e, c, req).effect == w
    requires e2.spool == AfterPost(e, w, date, remote, mtime) && LoadGroup(e2.spool, w.group) == Some(g)
    requires g.start <= NextNumber(e.spool.groups[w.group].view) && MayPost(e2, c2.session, w.group)
    requires HeaderValue(headers, FROM_KEY).Some? && HeaderValue(headers, FROM_KEY).value != ""
    requires HeaderValue(cancelHeaders, FROM_KEY) == HeaderValue(headers, FROM_KEY)
    requires HeaderValue(cancelHeaders, NEWSGROUPS_KEY) == Some(w.group)
    ensures var n, stored := NextNumber(e.spool.groups[w.group].view), StoredHeader(e, w, date, remote);
            && HasField(stored, MESSAGE_ID_KEY)
            && var r := DoCancel(e2, c2, cancelHeaders, HeaderValue(stored, MESSAGE_ID_KEY).value);
            && r == (if SameFrom(e2, cancelHeaders, w.group, n) then
                       NntpSession.Result(c2, Reply(240, [], []), RemoveFrom(w.group, n))
                     else Refuse(c2, 441))
            && (FirstEnds(stored, FROM_KEY) || (CutsEnd(headers, false) && FirstEnds(headers, FROM_KEY)) ==>
                  r == NntpSession.Result(c2, Reply(240, [], []), RemoveFrom(w.group, n)))
  {
    var n, stored := NextNumber(e.spool.groups[w.group].view), StoredHeader(e, w, date, remote);
    StoredGroup(e, c, req, w);
    PostedIsHit(e, c, req, w, headers, body, date, remote, mtime, e2, g);
    CancelOfHit(e2, c2, cancelHeaders, w.group, g, HeaderValue(stored, MESSAGE_ID_KEY).value, n);
    OwnerMayCancel(e, c, req, w, headers, body, date, remote, mtime, e2, cancelHeaders);
  }

  /** The spool once DeleteArticle has carried out a RemoveFrom. */
  ghost function AfterCancel(spool: SpoolState, w: Effect): SpoolState
    requires w.RemoveFrom? && w.group in spool.groups
  {
    var entry := spool.groups[w.group];
    spool.(groups := spool.groups[w.group := entry.(view := DeleteView(entry.view, w.n))])
  }

  /**
    A cancel that is answered 240 removes the article with the named Message-ID and nothing else, brings
    the summary into line with what is left, and from then on a search gives another article or none.
   */
  lemma CancelTakesEffect(e: Env, c: Conn, req: Request, id: string)
    ensures var w := Step(e, c, req).effect;
            w.RemoveFrom? ==>
              && w.group in e.spool.groups && req.post.Complete?
              && var v := e.spool.groups[w.group].view;
                 var v2 := ViewIn(AfterCancel(e.spool, w), w.group);
              && A.AsksCancel(A.PostedHeader(req)) && w.n in v.files
              && MessageIdOf(v.files[w.n].text) == Some(A.CancelledId(A.PostedHeader(req)))
              && v2.files == v.files - {w.n} && v2.info.Some? && IsSummary(v2.info.value, v2.files.Keys)
              && match FindIn(AfterCancel(e.spool, w), SnapshotOf(w.group, v2), id)
                 case Hit(n) => n != w.n && n in v.files && MessageIdOf(v.files[n].text) == Some(id)
                 case _ => true
  {
    var w := Step(e, c, req).effect;
    if w.RemoveFrom? {
      S.WritesAreAuthorised(e, c, req);
      var after := AfterCancel(e.spool, w);
      S.FoundHasId(after, SnapshotOf(w.group, ViewIn(after, w.group)), id);
    }
  }

  /** A group as it is loaded, but for its configuration. */
  ghost function SnapshotOf(group: string, v: GroupView): Snapshot {
    var i := InfoOf(v);
    Snapshot(true, group, i.start, i.end, i.total, 0)
  }
}
