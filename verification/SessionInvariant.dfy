/**
  What every command keeps, over all command sequences: the cursor invariant, refusals that select
  nothing, and the moves of NEXT, LAST and the retrievals.
 */
module SessionInvariant {
  import opened Text
  import opened ArticleHeader
  import opened Spool
  import Ranges
  import opened NntpSession

  /** One command and the world it meets. Between turns anything may happen to spool and store. */
  datatype Turn = Turn(env: Env, req: Request)

  ghost function Run(c: Conn, turns: seq<Turn>): Conn {
    if turns == [] then c
    else
      var last := turns[|turns| - 1];
      Step(last.env, Run(c, turns[..|turns| - 1]), last.req).conn
  }

  ghost function Replies(c: Conn, turns: seq<Turn>): seq<NntpSession.Reply> {
    if turns == [] then []
    else
      var last, before := turns[|turns| - 1], turns[..|turns| - 1];
      Replies(c, before) + [Step(last.env, Run(c, before), last.req).reply]
  }

  ghost function Effects(c: Conn, turns: seq<Turn>): seq<Effect> {
    if turns == [] then []
    else
      var last, before := turns[|turns| - 1], turns[..|turns| - 1];
      Effects(c, before) + [Step(last.env, Run(c, before), last.req).effect]
  }

  lemma {:induction false} AsManyAsTurns(c: Conn, turns: seq<Turn>)
    ensures |Replies(c, turns)| == |Effects(c, turns)| == |turns|
  {
    if turns != [] {
      AsManyAsTurns(c, turns[..|turns| - 1]);
    }
  }

  /** Later turns change nothing of what was said and done before. */
  lemma {:induction false} PrefixStays(c: Conn, turns: seq<Turn>, n: nat)
    requires n <= |turns|
    ensures Replies(c, turns[..n]) <= Replies(c, turns) && Effects(c, turns[..n]) <= Effects(c, turns)
    decreases |turns|
  {
    if n == |turns| {
      assert turns[..n] == turns;
    } else {
      var init := turns[..|turns| - 1];
      PrefixStays(c, init, n);
      assert init[..n] == turns[..n];
      assert Replies(c, init) <= Replies(c, turns) && Effects(c, init) <= Effects(c, turns);
    }
  }

  /** The i-th reply and effect are those of the i-th step. */
  lemma StepAt(c: Conn, turns: seq<Turn>, i: nat)
    requires i < |turns|
    ensures |Replies(c, turns)| == |Effects(c, turns)| == |turns|
    ensures var r := Step(turns[i].env, Run(c, turns[..i]), turns[i].req);
            Replies(c, turns)[i] == r.reply && Effects(c, turns)[i] == r.effect
  {
    var upTo := turns[..i + 1];
    assert upTo[..i] == turns[..i] && upTo[i] == turns[i];
    AsManyAsTurns(c, turns);
    AsManyAsTurns(c, turns[..i]);
    PrefixStays(c, turns, i + 1);
  }

  // ----- what each kind of command may change -----

  predicate IsListing(verb: Verb) {
    verb in {ListVerb, NewGroupsVerb, NewNewsVerb, OverVerb, HdrVerb, XPatVerb, QuitVerb, OtherVerb}
  }

  predicate MovesCursor(verb: Verb) {
    verb in {GroupVerb, ListGroupVerb, NextVerb, LastVerb} || verb.RetrieveVerb?
  }

  lemma ListingFrame(e: Env, c: Conn, verb: Verb, req: Request)
    requires IsListing(verb)
    ensures var r := Dispatch(e, c, verb, req);
            r.conn in {c, c.(closed := true)} && r.effect == Nothing
  {
  }

  lemma AuthInfoFrame(e: Env, c: Conn, req: Request)
    ensures var r := DoAuthInfo(e, c, req);
            r.conn.curGroup == c.curGroup && r.conn.curArticle == c.curArticle && r.effect == Nothing
  {
  }

  lemma PostFrame(e: Env, c: Conn, req: Request)
    ensures DoPost(e, c, req).conn in {c, c.(closed := true)}
  {
  }

  lemma CursorFrame(e: Env, c: Conn, verb: Verb, req: Request)
    requires MovesCursor(verb)
    ensures var r := Dispatch(e, c, verb, req);
            && r.conn.session == c.session && r.conn.authUser == c.authUser && r.conn.authSimple == c.authSimple
            && r.effect == Nothing
  {
  }

  // ----- the cursor -----

  /**
    If a group is selected, the current article belongs to it, and its number lies within the snapshot;
    if the snapshot is upside down, its number is the snapshot's Start.
   */
  predicate CursorInv(c: Conn) {
    c.curGroup.valid ==>
      && c.curArticle.group == c.curGroup.name && c.curGroup.start <= c.curArticle.number
      && (c.curArticle.number <= c.curGroup.end || c.curArticle.number == c.curGroup.start)
  }

  lemma LoadArticleIdentity(spool: SpoolState, group: string, n: nat)
    ensures LoadArticle(spool, group, n).group == group && LoadArticle(spool, group, n).number == n
    ensures LoadArticle(spool, group, n).valid ==> TextOf(ViewIn(spool, group), n).Some?
  {
    LoadedIdentity(TextOf(ViewIn(spool, group), n), group, n);
  }

  /** The connection with its cursor on article n. */
  function AtNumber(e: Env, c: Conn, n: nat): Conn {
    c.(curArticle := LoadArticle(e.spool, c.curGroup.name, n))
  }

  /** If a group is selected, the current article is what its file says. */
  predicate FreshIn(spool: SpoolState, c: Conn) {
    c.curGroup.valid ==> c.curArticle == LoadArticle(spool, c.curGroup.name, c.curArticle.number)
  }

  lemma StandsAt(e: Env, c: Conn, n: nat, d: Conn)
    requires c.curGroup.valid && d == AtNumber(e, c, n)
    ensures FreshIn(e.spool, d)
    ensures c.curGroup.start <= n <= c.curGroup.end ==> CursorInv(d)
  {
    LoadArticleIdentity(e.spool, c.curGroup.name, n);
  }

  /** NEXT goes to the following number or leaves the connection as it was. */
  lemma NextMoves(e: Env, c: Conn)
    ensures var n, d := c.curArticle.number + 1, DoNext(e, c).conn;
            d != c ==> c.curGroup.valid && c.curGroup.start <= n <= c.curGroup.end && d == AtNumber(e, c, n)
  {
  }

  lemma LastMoves(e: Env, c: Conn)
    ensures var n, d := c.curArticle.number, DoLast(e, c).conn;
            d != c ==> c.curGroup.valid && c.curGroup.start < n && d == AtNumber(e, c, n - 1)
  {
  }

  lemma SelectKeepsCursor(e: Env, c: Conn, name: string)
    requires LoadGroup(e.spool, name).Some?
    ensures CursorInv(Select(e, c, LoadGroup(e.spool, name).value))
  {
    var g := LoadGroup(e.spool, name).value;
    LoadArticleIdentity(e.spool, g.name, g.start);
  }

  lemma RetrieveKeepsCursor(e: Env, c: Conn, part: Part, arg: string)
    requires CursorInv(c)
    ensures CursorInv(DoRetrieve(e, c, part, arg).conn)
  {
    var g := c.curGroup;
    match NameArticle(e, c, arg)
    case NumberedArticle(n, _) =>
      LoadArticleIdentity(e.spool, g.name, n);
      LoadArticleIdentity(e.spool, g.name, c.curArticle.number);
    case _ =>
  }

  lemma SelectorKeepsCursor(e: Env, c: Conn, req: Request)
    requires CursorInv(c)
    ensures CursorInv(DoGroup(e, c, req).conn) && CursorInv(DoListGroup(e, c, req).conn)
  {
    if LoadGroup(e.spool, req.arg1).Some? {
      SelectKeepsCursor(e, c, req.arg1);
    }
  }

  lemma NextKeepsCursor(e: Env, c: Conn)
    requires CursorInv(c)
    ensures CursorInv(DoNext(e, c).conn)
  {
    NextMoves(e, c);
    if DoNext(e, c).conn != c {
      StandsAt(e, c, c.curArticle.number + 1, DoNext(e, c).conn);
    }
  }

  lemma LastKeepsCursor(e: Env, c: Conn)
    requires CursorInv(c)
    ensures CursorInv(DoLast(e, c).conn)
  {
    LastMoves(e, c);
    if DoLast(e, c).conn != c {
      StandsAt(e, c, c.curArticle.number - 1, DoLast(e, c).conn);
    }
  }

  lemma DispatchKeepsCursor(e: Env, c: Conn, verb: Verb, req: Request)
    requires CursorInv(c)
    ensures CursorInv(Dispatch(e, c, verb, req).conn)
  {
    match verb
    case GroupVerb | ListGroupVerb => SelectorKeepsCursor(e, c, req);
    case NextVerb => NextKeepsCursor(e, c);
    case LastVerb => LastKeepsCursor(e, c);
    case RetrieveVerb(part) => RetrieveKeepsCursor(e, c, part, req.arg1);
    case AuthInfoVerb => AuthInfoFrame(e, c, req);
    case PostVerb => PostFrame(e, c, req);
    case _ => ListingFrame(e, c, verb, req);
  }

  /** Over every sequence of commands, whatever happens to the spool in between. */
  lemma {:induction false} RunKeepsCursor(turns: seq<Turn>)
    ensures CursorInv(Run(START, turns))
  {
    if turns != [] {
      var last := turns[|turns| - 1];
      RunKeepsCursor(turns[..|turns| - 1]);
      var c := Run(START, turns[..|turns| - 1]);
      if !c.closed && last.req.word != "" && !c.authSimple {
        DispatchKeepsCursor(last.env, c, VerbOf(last.env.o.upper(last.req.word)), last.req);
      }
    }
  }

  /** A refused GROUP or LISTGROUP leaves group and article, and everything else, as they were. */
  lemma RefusedSelectsNothing(e: Env, c: Conn, req: Request)
    ensures DoGroup(e, c, req).reply.code != 211 ==> DoGroup(e, c, req).conn == c
    ensures DoListGroup(e, c, req).reply.code != 211 ==> DoListGroup(e, c, req).conn == c
    ensures DoGroup(e, c, req).reply.code in {211, 411, 480, 501}
    ensures DoListGroup(e, c, req).reply.code in {211, 411, 412, 480, 501}
  {
  }

  /** LISTGROUP of a group whose summary is right lists the stored articles, unless a directory sits among them. */
  lemma ListGroupListsArticles(e: Env, c: Conn, req: Request)
    requires req.arg1 != "" && req.arg2 == "" && DoListGroup(e, c, req).reply.code == 211
    requires var v := ViewIn(e.spool, req.arg1); v.info.Some? && Consistent(v)
    ensures var v := ViewIn(e.spool, req.arg1);
            var ns := Ranges.Listing(v, v.info.value.start, v.info.value.end);
            && DoListGroup(e, c, req).reply ==
               Reply(211, [N(v.info.value.total), N(v.info.value.start), N(v.info.value.end), S(req.arg1)],
                     Numbered(ns))
            && Ascending(ns)
            && ((forall n :: n in ns <==> n in v.files)
                <==> Ranges.NothingBlocked(v, v.info.value.start, v.info.value.end))
            && (|ns| == v.info.value.total <==> Ranges.NothingBlocked(v, v.info.value.start, v.info.value.end))
  {
    Ranges.ListGroupExact(ViewIn(e.spool, req.arg1));
  }

  // ----- moves of the cursor, on an unchanged spool -----

  lemma SelectIsFresh(e: Env, c: Conn, name: string)
    requires LoadGroup(e.spool, name).Some?
    ensures FreshIn(e.spool, Select(e, c, LoadGroup(e.spool, name).value))
  {
    var g := LoadGroup(e.spool, name).value;
    LoadArticleIdentity(e.spool, g.name, g.start);
  }

  lemma SelectorKeepsFresh(e: Env, c: Conn, req: Request)
    requires FreshIn(e.spool, c)
    ensures FreshIn(e.spool, DoGroup(e, c, req).conn) && FreshIn(e.spool, DoListGroup(e, c, req).conn)
  {
    if LoadGroup(e.spool, req.arg1).Some? {
      SelectIsFresh(e, c, req.arg1);
    }
  }

  lemma NextKeepsFresh(e: Env, c: Conn)
    requires FreshIn(e.spool, c)
    ensures FreshIn(e.spool, DoNext(e, c).conn)
  {
    NextMoves(e, c);
    if DoNext(e, c).conn != c {
      StandsAt(e, c, c.curArticle.number + 1, DoNext(e, c).conn);
    }
  }

  lemma LastKeepsFresh(e: Env, c: Conn)
    requires FreshIn(e.spool, c)
    ensures FreshIn(e.spool, DoLast(e, c).conn)
  {
    LastMoves(e, c);
    if DoLast(e, c).conn != c {
      StandsAt(e, c, c.curArticle.number - 1, DoLast(e, c).conn);
    }
  }

  lemma RetrieveKeepsFresh(e: Env, c: Conn, part: Part, arg: string)
    requires FreshIn(e.spool, c)
    ensures FreshIn(e.spool, DoRetrieve(e, c, part, arg).conn)
  {
    match NameArticle(e, c, arg)
    case NumberedArticle(n, _) =>
      LoadArticleIdentity(e.spool, c.curGroup.name, n);
      LoadArticleIdentity(e.spool, c.curGroup.name, c.curArticle.number);
    case _ =>
  }

  lemma DispatchKeepsFresh(e: Env, c: Conn, verb: Verb, req: Request)
    requires FreshIn(e.spool, c)
    ensures FreshIn(e.spool, Dispatch(e, c, verb, req).conn)
  {
    match verb
    case GroupVerb | ListGroupVerb => SelectorKeepsFresh(e, c, req);
    case NextVerb => NextKeepsFresh(e, c);
    case LastVerb => LastKeepsFresh(e, c);
    case RetrieveVerb(part) => RetrieveKeepsFresh(e, c, part, req.arg1);
    case AuthInfoVerb => AuthInfoFrame(e, c, req);
    case PostVerb => PostFrame(e, c, req);
    case _ => ListingFrame(e, c, verb, req);
  }

  /** The spool is the same at every turn. */
  ghost predicate AllOn(spool: SpoolState, turns: seq<Turn>) {
    forall i :: 0 <= i < |turns| ==> turns[i].env.spool == spool
  }

  /** Over every sequence of commands on one spool, a failed retrieval included. */
  lemma {:induction false} RunKeepsFresh(spool: SpoolState, turns: seq<Turn>)
    requires AllOn(spool, turns)
    ensures FreshIn(spool, Run(START, turns))
  {
    if turns != [] {
      var last := turns[|turns| - 1];
      RunKeepsFresh(spool, turns[..|turns| - 1]);
      var c := Run(START, turns[..|turns| - 1]);
      if !c.closed && last.req.word != "" && !c.authSimple {
        DispatchKeepsFresh(last.env, c, VerbOf(last.env.o.upper(last.req.word)), last.req);
      }
    }
  }

  /** A group is selected and may be read. */
  predicate Readable(e: Env, c: Conn) {
    c.curGroup.valid && MayRead(e, c.session, c.curGroup.name)
  }

  /** NEXT from article a moves to the next number, if that one loads, and reports it. */
  lemma NextFrom(e: Env, c: Conn, a: Article)
    requires Readable(e, c) && a.valid && c.curGroup.start <= a.number < c.curGroup.end
    requires LoadArticle(e.spool, c.curGroup.name, a.number + 1).valid
    ensures var r := DoNext(e, c.(curArticle := a));
            && r.conn == AtNumber(e, c, a.number + 1)
            && r.reply == Reply(223, [N(a.number + 1), S(r.conn.curArticle.Get(MessageIdField))], [])
  {
    LoadArticleIdentity(e.spool, c.curGroup.name, a.number + 1);
  }

  /** LAST from article a goes to the number before, if that one loads, and reports it. */
  lemma LastFrom(e: Env, c: Conn, a: Article)
    requires Readable(e, c) && a.valid && c.curGroup.start < a.number
    requires LoadArticle(e.spool, c.curGroup.name, a.number - 1).valid
    ensures var r := DoLast(e, c.(curArticle := a));
            && r.conn == AtNumber(e, c, a.number - 1)
            && r.reply == Reply(223, [N(a.number - 1), S(r.conn.curArticle.Get(MessageIdField))], [])
  {
    LoadArticleIdentity(e.spool, c.curGroup.name, a.number - 1);
  }

  /** From the article after c's, LAST goes to c's and reports it. */
  lemma LastReturns(e: Env, c: Conn, n: nat, there: Conn)
    requires Readable(e, c) && c.curGroup.start <= n < c.curGroup.end
    requires LoadArticle(e.spool, c.curGroup.name, n).valid && LoadArticle(e.spool, c.curGroup.name, n + 1).valid
    requires c == AtNumber(e, c, n) && there == AtNumber(e, c, n + 1)
    ensures DoLast(e, there).conn == c
    ensures DoLast(e, there).reply == Reply(223, [N(n), S(c.curArticle.Get(MessageIdField))], [])
  {
    LoadArticleIdentity(e.spool, c.curGroup.name, n + 1);
    LastFrom(e, c, there.curArticle);
  }

  /** From the article before c's, NEXT goes to c's. */
  lemma NextReturns(e: Env, c: Conn, n: nat, there: Conn)
    requires Readable(e, c) && c.curGroup.start <= n < c.curGroup.end
    requires LoadArticle(e.spool, c.curGroup.name, n).valid && LoadArticle(e.spool, c.curGroup.name, n + 1).valid
    requires c == AtNumber(e, c, n + 1) && there == AtNumber(e, c, n)
    ensures DoNext(e, there).conn == c
    ensures DoNext(e, there).reply == Reply(223, [N(n + 1), S(c.curArticle.Get(MessageIdField))], [])
  {
    LoadArticleIdentity(e.spool, c.curGroup.name, n);
    NextFrom(e, c, there.curArticle);
  }

  lemma NextSucceeded(e: Env, c: Conn)
    requires DoNext(e, c).reply.code == 223
    ensures Readable(e, c) && c.curArticle.valid && c.curArticle.number < c.curGroup.end
    ensures LoadArticle(e.spool, c.curGroup.name, c.curArticle.number + 1).valid
    ensures DoNext(e, c).conn == AtNumber(e, c, c.curArticle.number + 1)
  {
  }

  lemma LastSucceeded(e: Env, c: Conn)
    requires DoLast(e, c).reply.code == 223
    ensures Readable(e, c) && c.curArticle.valid && c.curGroup.start < c.curArticle.number
    ensures LoadArticle(e.spool, c.curGroup.name, c.curArticle.number - 1).valid
    ensures DoLast(e, c).conn == AtNumber(e, c, c.curArticle.number - 1)
  {
  }

  lemma FreshStandsThere(e: Env, c: Conn, n: nat)
    requires FreshIn(e.spool, c) && Readable(e, c) && c.curArticle.valid && n == c.curArticle.number
    ensures AtNumber(e, c, n) == c && LoadArticle(e.spool, c.curGroup.name, n).valid
  {
  }

  lemma NextAndBack(e: Env, c: Conn)
    requires CursorInv(c) && FreshIn(e.spool, c) && DoNext(e, c).reply.code == 223
    ensures var r := DoLast(e, DoNext(e, c).conn);
            r.conn == c && r.reply == Reply(223, [N(c.curArticle.number), S(c.curArticle.Get(MessageIdField))], [])
  {
    var n, there := c.curArticle.number, DoNext(e, c).conn;
    NextSucceeded(e, c);
    FreshStandsThere(e, c, n);
    LastReturns(e, c, n, there);
  }

  lemma LastAndBack(e: Env, c: Conn)
    requires CursorInv(c) && FreshIn(e.spool, c) && DoLast(e, c).reply.code == 223
    ensures var r := DoNext(e, DoLast(e, c).conn);
            r.conn == c && r.reply == Reply(223, [N(c.curArticle.number), S(c.curArticle.Get(MessageIdField))], [])
  {
    var n := c.curArticle.number - 1;
    LastSucceeded(e, c);
    FreshStandsThere(e, c, n + 1);
    NextReturns(e, c, n, DoLast(e, c).conn);
  }

  /**
    On an unchanged spool, in whatever state commands have led to: a successful NEXT and then LAST restore
    that state.
   */
  lemma NextThenLast(e: Env, turns: seq<Turn>, c: Conn)
    requires AllOn(e.spool, turns) && c == Run(START, turns)
    ensures DoNext(e, c).reply.code == 223 ==>
              var r := DoLast(e, DoNext(e, c).conn);
              r.conn == c && r.reply == Reply(223, [N(c.curArticle.number), S(c.curArticle.Get(MessageIdField))], [])
  {
    RunKeepsFresh(e.spool, turns);
    RunKeepsCursor(turns);
    if DoNext(e, c).reply.code == 223 {
      NextAndBack(e, c);
    }
  }

  /** And a successful LAST and then NEXT. */
  lemma LastThenNext(e: Env, turns: seq<Turn>, c: Conn)
    requires AllOn(e.spool, turns) && c == Run(START, turns)
    ensures DoLast(e, c).reply.code == 223 ==>
              var r := DoNext(e, DoLast(e, c).conn);
              r.conn == c && r.reply == Reply(223, [N(c.curArticle.number), S(c.curArticle.Get(MessageIdField))], [])
  {
    RunKeepsFresh(e.spool, turns);
    RunKeepsCursor(turns);
    if DoLast(e, c).reply.code == 223 {
      LastAndBack(e, c);
    }
  }

  predicate IsRetrieved(r: NntpSession.Reply) {
    r.Reply? && r.code in {220, 221, 222, 223}
  }

  lemma RestoredCursor(e: Env, c: Conn, part: Part, arg: string)
    requires FreshIn(e.spool, c) && (arg == "" || IsMessageId(arg))
    ensures IsRetrieved(DoRetrieve(e, c, part, arg).reply) ==> DoRetrieve(e, c, part, arg).conn == c
  {
  }

  /**
    Section 6.2.1 of RFC 3977, on an unchanged spool and in whatever state commands have led to:
    retrieving by Message-ID, or without an argument, does not move the cursor.
   */
  lemma RetrievalLeavesCursor(e: Env, turns: seq<Turn>, part: Part, arg: string)
    requires AllOn(e.spool, turns) && (arg == "" || IsMessageId(arg))
    ensures var c := Run(START, turns);
            IsRetrieved(DoRetrieve(e, c, part, arg).reply) ==> DoRetrieve(e, c, part, arg).conn == c
  {
    RunKeepsFresh(e.spool, turns);
    RestoredCursor(e, Run(START, turns), part, arg);
  }

  /** By number it moves the cursor to that article; a failed one leaves an invalid current article behind. */
  lemma RetrievalByNumber(e: Env, c: Conn, part: Part, arg: string)
    requires c.curGroup.valid && MayRead(e, c.session, c.curGroup.name)
    requires arg != "" && IsDigit(arg[0]) && ParseUint(arg).Some?
    requires c.curGroup.start <= ParseUint(arg).value <= c.curGroup.end
    ensures var n := ParseUint(arg).value;
            var r := DoRetrieve(e, c, part, arg);
            && r.conn == c.(curArticle := LoadArticle(e.spool, c.curGroup.name, n))
            && (r.reply.code == 430 <==> !r.conn.curArticle.valid)
            && r.conn.curArticle.number == n
  {
    assert !IsMessageId(arg);
    LoadArticleIdentity(e.spool, c.curGroup.name, ParseUint(arg).value);
  }
}
