/**
  Who writes, over all command sequences: the checks behind every stored and every removed article, and
  the log-in behind every session.
 */
module SessionWrites {
  import opened Text
  import opened Headers
  import opened ArticleHeader
  import opened GroupList
  import opened Auth
  import opened NntpSession
  import opened SessionAnswers
  import opened SessionInvariant

  // ----- who writes -----

  /** An article goes to a group that lets the poster in, although Path was updated after the check. */
  ghost predicate StoreChecked(e: Env, c: Conn, r: NntpSession.Result) {
    r.effect.StoreIn? ==>
      var g, headers := r.effect.group, r.effect.headers;
      && Lets(e, c.session, g, 'w') && IsThere(e.spool, g) && ValidGroupName(g)
      && HeaderValue(headers, NEWSGROUPS_KEY) == Some(g)
      && FromIsOwn(e, c, headers)
      && r.reply == Reply(240, [], [])
  }

  /** An article goes only from a group that lets the canceller in, and with the named Message-ID and its From. */
  ghost predicate RemovalChecked(e: Env, c: Conn, req: Request, r: NntpSession.Result) {
    r.effect.RemoveFrom? ==>
      var g, n := r.effect.group, r.effect.n;
      && req.post.Complete? && AsksCancel(PostedHeader(req))
      && Lets(e, c.session, g, 'w') && IsThere(e.spool, g)
      && HeaderValue(PostedHeader(req), NEWSGROUPS_KEY) == Some(g) && r.reply == Reply(240, [], [])
      && var v := e.spool.groups[g].view;
         n in v.files && MessageIdOf(v.files[n].text) == Some(CancelledId(PostedHeader(req)))
         && SameSender(e, PostedHeader(req), v.files[n].text)
  }

  lemma PostArticleChecks(e: Env, c: Conn, msg: string, headers: seq<string>, body: seq<string>)
    ensures StoreChecked(e, c, DoPostArticle(e, c, msg, headers, body))
    ensures !DoPostArticle(e, c, msg, headers, body).effect.RemoveFrom?
  {
    KnownKeys();
    PathUpdateKeepsFields(headers, e.serverName, NEWSGROUPS_KEY);
    PathUpdateKeepsFields(headers, e.serverName, FROM_KEY);
    LetsIs(e, c.session, GroupNamed(headers));
  }

  lemma FoundHasId(spool: SpoolState, g: Snapshot, id: string)
    ensures match FindIn(spool, g, id)
            case Hit(n) => g.name in spool.groups && n in spool.groups[g.name].view.files
                           && MessageIdOf(spool.groups[g.name].view.files[n].text) == Some(id)
            case _ => true
  {
  }

  lemma CancelChecks(e: Env, c: Conn, req: Request)
    requires req.post.Complete? && AsksCancel(PostedHeader(req))
    ensures var r := DoCancel(e, c, PostedHeader(req), CancelledId(PostedHeader(req)));
            !r.effect.StoreIn? && RemovalChecked(e, c, req, r)
  {
    var headers := PostedHeader(req);
    var group := GroupNamed(headers);
    if LoadGroup(e.spool, group).Some? {
      LetsIs(e, c.session, group);
      FoundHasId(e.spool, LoadGroup(e.spool, group).value, CancelledId(headers));
      var r := DoCancel(e, c, headers, CancelledId(headers));
      if r.effect.RemoveFrom? {
        SenderIs(e, headers, group, r.effect.n, e.spool.groups[group].view.files[r.effect.n].text);
      }
    }
  }

  /** Whatever a step stores or removes, the checks were made on that very group. */
  lemma WritesAreAuthorised(e: Env, c: Conn, req: Request)
    ensures StoreChecked(e, c, Step(e, c, req))
    ensures RemovalChecked(e, c, req, Step(e, c, req))
  {
    var verb := VerbOf(e.o.upper(req.word));
    if c.closed || req.word == "" || c.authSimple {
    } else if IsListing(verb) {
      ListingFrame(e, c, verb, req);
    } else if MovesCursor(verb) {
      CursorFrame(e, c, verb, req);
    } else if verb.PostVerb? && req.post.Complete? {
      AsksIs(PostedHeader(req));
      if AsksCancel(PostedHeader(req)) {
        CancelChecks(e, c, req);
      } else {
        PostArticleChecks(e, c, req.post.msg, PostedHeader(req), PostedBody(req));
      }
    }
  }

  // ----- who is logged in -----

  /** The connection handles the request as AUTHINFO of that kind. */
  predicate IsAuthInfo(o: Oracle, c: Conn, req: Request, kind: string) {
    && !c.closed && req.word != "" && !c.authSimple
    && VerbOf(o.upper(req.word)).AuthInfoVerb? && o.upper(req.arg1) == kind
  }

  /** Turn j is an AUTHINFO USER that names the user. */
  ghost predicate NamedAt(turns: seq<Turn>, j: nat, username: string) {
    && j < |turns| && IsAuthInfo(turns[j].env.o, SessionInvariant.Run(START, turns[..j]), turns[j].req, "USER")
    && turns[j].req.arg2 == username
  }

  /** Turn j is an AUTHINFO SIMPLE, which makes the next line credentials. */
  ghost predicate AskedAt(turns: seq<Turn>, j: nat) {
    j < |turns| && IsAuthInfo(turns[j].env.o, SessionInvariant.Run(START, turns[..j]), turns[j].req, "SIMPLE")
  }

  /** The password is the user's, and the session's groups are the user's memberships in the store just then. */
  predicate Validates(e: Env, session: Session, password: string) {
    && e.store.Some? && ValidateUser(e.o, e.store.value, session.username, password)
    && session.groups == MembershipOf(e.store.value.membership, session.username)
  }

  /** Turn i is an AUTHINFO PASS with the password of the user pending then. */
  ghost predicate PassAt(turns: seq<Turn>, i: nat, session: Session) {
    && i < |turns| && IsAuthInfo(turns[i].env.o, SessionInvariant.Run(START, turns[..i]), turns[i].req, "PASS")
    && SessionInvariant.Run(START, turns[..i]).authUser == session.username
    && Validates(turns[i].env, session, turns[i].req.arg2)
  }

  /** Turn i is the line after an AUTHINFO SIMPLE, with the user and the password. */
  ghost predicate SimpleAt(turns: seq<Turn>, i: nat, session: Session) {
    && i < |turns| && SessionInvariant.Run(START, turns[..i]).authSimple && turns[i].req.word == session.username
    && Validates(turns[i].env, session, turns[i].req.arg1)
  }

  /**
    Some earlier turns of this connection logged the session in: AUTHINFO USER and then PASS with the
    right password, or AUTHINFO SIMPLE and then the right credentials.
   */
  ghost predicate ValidatedIn(turns: seq<Turn>, session: Session) {
    || (exists i, j :: j < i && PassAt(turns, i, session) && NamedAt(turns, j, session.username))
    || (exists i, j :: j < i && SimpleAt(turns, i, session) && AskedAt(turns, j))
  }

  lemma InPrefix(turns: seq<Turn>, n: nat, i: nat, username: string, session: Session)
    requires i < n <= |turns|
    ensures NamedAt(turns[..n], i, username) <==> NamedAt(turns, i, username)
    ensures AskedAt(turns[..n], i) <==> AskedAt(turns, i)
    ensures PassAt(turns[..n], i, session) <==> PassAt(turns, i, session)
    ensures SimpleAt(turns[..n], i, session) <==> SimpleAt(turns, i, session)
  {
    assert turns[..n][..i] == turns[..i];
  }

  /** Only AUTHINFO USER makes a user pending, only AUTHINFO SIMPLE asks for credentials. */
  lemma StepKeepsPending(e: Env, c: Conn, req: Request)
    ensures var c2 := Step(e, c, req).conn;
            && (c2.authUser != "" && c2.authUser != c.authUser ==>
                  IsAuthInfo(e.o, c, req, "USER") && req.arg2 == c2.authUser)
            && (c2.authSimple && !c.authSimple ==> IsAuthInfo(e.o, c, req, "SIMPLE"))
  {
    var verb := VerbOf(e.o.upper(req.word));
    if c.closed || req.word == "" || c.authSimple {
    } else if IsListing(verb) {
      ListingFrame(e, c, verb, req);
    } else if MovesCursor(verb) {
      CursorFrame(e, c, verb, req);
    } else if verb.PostVerb? {
      PostFrame(e, c, req);
    }
  }

  /** A pending user was named, and credentials were asked for, by an earlier turn. */
  lemma {:induction false} PendingWasAsked(turns: seq<Turn>)
    ensures var c := SessionInvariant.Run(START, turns);
            && (c.authUser != "" ==> exists j :: NamedAt(turns, j, c.authUser))
            && (c.authSimple ==> exists j :: AskedAt(turns, j))
  {
    if turns != [] {
      var n := |turns| - 1;
      var before, c := SessionInvariant.Run(START, turns[..n]), SessionInvariant.Run(START, turns);
      PendingWasAsked(turns[..n]);
      StepKeepsPending(turns[n].env, before, turns[n].req);
      if c.authUser != "" {
        if c.authUser == before.authUser {
          var j: nat :| NamedAt(turns[..n], j, c.authUser);
          assert NamedAt(turns, j, c.authUser) by {
            assert turns[..n][..j] == turns[..j];
          }
        } else {
          assert NamedAt(turns, n, c.authUser);
        }
      }
      if c.authSimple {
        if before.authSimple {
          var j: nat :| AskedAt(turns[..n], j);
          assert AskedAt(turns, j) by {
            assert turns[..n][..j] == turns[..j];
          }
        } else {
          assert AskedAt(turns, n);
        }
      }
    }
  }

  /** A step that changes the session is the PASS or the credentials line that it took. */
  lemma StepLogsIn(e: Env, c: Conn, req: Request)
    ensures var c2 := Step(e, c, req).conn;
            c2.session != c.session ==>
              && c2.session.Some?
              && (|| (IsAuthInfo(e.o, c, req, "PASS") && c.authUser != "" && c.authUser == c2.session.value.username
                      && Validates(e, c2.session.value, req.arg2))
                  || (c.authSimple && req.word == c2.session.value.username
                      && Validates(e, c2.session.value, req.arg1)))
  {
    var verb := VerbOf(e.o.upper(req.word));
    if c.closed || req.word == "" || c.authSimple {
    } else if IsListing(verb) {
      ListingFrame(e, c, verb, req);
    } else if MovesCursor(verb) {
      CursorFrame(e, c, verb, req);
    } else if verb.PostVerb? {
      PostFrame(e, c, req);
    }
  }

  lemma ValidatedInLonger(turns: seq<Turn>, session: Session)
    requires turns != [] && ValidatedIn(turns[..|turns| - 1], session)
    ensures ValidatedIn(turns, session)
  {
    var n := |turns| - 1;
    if i, j :| j < i && PassAt(turns[..n], i, session) && NamedAt(turns[..n], j, session.username) {
      InPrefix(turns, n, i, session.username, session);
      InPrefix(turns, n, j, session.username, session);
    } else {
      var i, j :| j < i && SimpleAt(turns[..n], i, session) && AskedAt(turns[..n], j);
      InPrefix(turns, n, i, session.username, session);
      InPrefix(turns, n, j, session.username, session);
    }
  }

  lemma LoggedInNow(turns: seq<Turn>, session: Session)
    requires turns != []
    requires (PassAt(turns, |turns| - 1, session) && session.username != "") || SimpleAt(turns, |turns| - 1, session)
    ensures ValidatedIn(turns, session)
  {
    var n := |turns| - 1;
    PendingWasAsked(turns[..n]);
    if PassAt(turns, n, session) && session.username != "" {
      var j: nat :| NamedAt(turns[..n], j, session.username);
      InPrefix(turns, n, j, session.username, session);
    } else {
      var j: nat :| AskedAt(turns[..n], j);
      InPrefix(turns, n, j, session.username, session);
    }
  }

  /**
    A connection is logged in only as a user it named itself and whose password was validated earlier on
    it, with the memberships of that moment.
   */
  lemma {:induction false} SessionWasValidated(turns: seq<Turn>)
    ensures var c := SessionInvariant.Run(START, turns);
            c.session.Some? ==> ValidatedIn(turns, c.session.value)
  {
    if turns != [] {
      var n := |turns| - 1;
      var before, c := SessionInvariant.Run(START, turns[..n]), SessionInvariant.Run(START, turns);
      SessionWasValidated(turns[..n]);
      StepLogsIn(turns[n].env, before, turns[n].req);
      if c.session.Some? {
        if c.session == before.session {
          ValidatedInLonger(turns, c.session.value);
        } else {
          LoggedInNow(turns, c.session.value);
        }
      }
    }
  }

  /**
    The trace property on writes: whatever the i-th command of a connection stores goes to the group
    whose CanPost was checked, and if the connection is logged in, as a user validated earlier on it
    whose name matches the From address; whatever it removes passed the checks of cancel.
   */
  lemma StoredWritesAreOwned(turns: seq<Turn>, i: nat)
    requires i < |turns|
    ensures |Effects(START, turns)| == |turns|
    ensures var e, c, w := turns[i].env, SessionInvariant.Run(START, turns[..i]), Effects(START, turns)[i];
            && (w.StoreIn? ==>
                  && Lets(e, c.session, w.group, 'w')
                  && HeaderValue(w.headers, NEWSGROUPS_KEY) == Some(w.group)
                  && (c.session.Some? && c.session.value.username != "" ==>
                        && ValidatedIn(turns[..i], c.session.value)
                        && HeaderValue(w.headers, FROM_KEY).Some?
                        && e.o.fold(e.o.fromEmail(HeaderValue(w.headers, FROM_KEY).value))
                           == e.o.fold(c.session.value.username)))
            && (w.RemoveFrom? ==> RemovalChecked(e, c, turns[i].req, Step(e, c, turns[i].req)))
  {
    StepAt(START, turns, i);
    WritesAreAuthorised(turns[i].env, SessionInvariant.Run(START, turns[..i]), turns[i].req);
    SessionWasValidated(turns[..i]);
  }
}
