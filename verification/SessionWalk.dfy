/**
  A client that selects a group and then sends NEXT until it is told to stop: what it is told, and where
  it ends.
 */
module SessionWalk {
  import opened ArticleHeader
  import opened NntpSession
  import S = SessionInvariant

  // ----- runs in parts -----

  lemma RunSnoc(c: Conn, before: seq<S.Turn>, t: S.Turn)
    ensures var r := Step(t.env, S.Run(c, before), t.req);
            S.Run(c, before + [t]) == r.conn && S.Replies(c, before + [t]) == S.Replies(c, before) + [r.reply]
  {
    var turns := before + [t];
    assert turns[|turns| - 1] == t && turns[..|turns| - 1] == before;
  }

  lemma ConcatOneMore(c: Conn, a: seq<S.Turn>, init: seq<S.Turn>, t: S.Turn)
    requires S.Run(c, a + init) == S.Run(S.Run(c, a), init)
    requires S.Replies(c, a + init) == S.Replies(c, a) + S.Replies(S.Run(c, a), init)
    ensures S.Run(c, a + (init + [t])) == S.Run(S.Run(c, a), init + [t])
    ensures S.Replies(c, a + (init + [t])) == S.Replies(c, a) + S.Replies(S.Run(c, a), init + [t])
  {
    RunSnoc(c, a + init, t);
    RunSnoc(S.Run(c, a), init, t);
    assert a + (init + [t]) == a + init + [t];
  }

  lemma {:induction false} RunConcat(c: Conn, a: seq<S.Turn>, b: seq<S.Turn>)
    ensures S.Run(c, a + b) == S.Run(S.Run(c, a), b)
    ensures S.Replies(c, a + b) == S.Replies(c, a) + S.Replies(S.Run(c, a), b)
    decreases |b|
  {
    if b == [] {
      assert a + b == a;
    } else {
      var init, t := b[..|b| - 1], b[|b| - 1];
      RunConcat(c, a, init);
      assert init + [t] == b;
      ConcatOneMore(c, a, init, t);
    }
  }

  /** The same turn k times. */
  function Repeat(t: S.Turn, k: nat): seq<S.Turn> {
    if k == 0 then [] else Repeat(t, k - 1) + [t]
  }

  // ----- a command that walks -----

  /** From each position n in [lo, hi) the command goes to n + 1 and says so. */
  ghost predicate Walks(step: Conn -> NntpSession.Result, at: nat -> Conn, said: nat -> Reply, lo: nat, hi: nat) {
    forall n: nat {:trigger step(at(n))} :: lo <= n < hi ==>
           step(at(n)).conn == at(n + 1) && step(at(n)).reply == said(n + 1)
  }

  ghost predicate IsStepOf(t: S.Turn, step: Conn -> NntpSession.Result) {
    forall d {:trigger Step(t.env, d, t.req)} :: step(d) == Step(t.env, d, t.req)
  }

  function Said(said: nat -> Reply, lo: nat, k: nat): (r: seq<Reply>)
    ensures |r| == k
  {
    seq(k, i requires 0 <= i < k => said(lo + 1 + i))
  }

  lemma OneMoreTurn(c: Conn, t: S.Turn, k: nat)
    ensures var d := S.Run(c, Repeat(t, k));
            && S.Run(c, Repeat(t, k + 1)) == Step(t.env, d, t.req).conn
            && S.Replies(c, Repeat(t, k + 1)) == S.Replies(c, Repeat(t, k)) + [Step(t.env, d, t.req).reply]
  {
    RunSnoc(c, Repeat(t, k), t);
  }

  /** From c on, the k-th state and all that was told up to it come from the one before by one step. */
  ghost predicate Iterates(step: Conn -> NntpSession.Result, c: Conn, ran: nat -> Conn, told: nat -> seq<Reply>) {
    && ran(0) == c && told(0) == []
    && forall k: nat {:trigger step(ran(k))} ::
         ran(k + 1) == step(ran(k)).conn && told(k + 1) == told(k) + [step(ran(k)).reply]
  }

  ghost predicate IsRunOf(t: S.Turn, c: Conn, ran: nat -> Conn, told: nat -> seq<Reply>) {
    forall k: nat {:trigger Repeat(t, k)} :: ran(k) == S.Run(c, Repeat(t, k)) && told(k) == S.Replies(c, Repeat(t, k))
  }

  lemma RunIs(t: S.Turn, c: Conn, ran: nat -> Conn, told: nat -> seq<Reply>, k: nat)
    requires IsRunOf(t, c, ran, told)
    ensures ran(k) == S.Run(c, Repeat(t, k)) && told(k) == S.Replies(c, Repeat(t, k))
  {
  }

  lemma OneMoreStep(t: S.Turn, step: Conn -> NntpSession.Result, c: Conn, k: nat, d: Conn, told: seq<Reply>)
    requires IsStepOf(t, step) && S.Run(c, Repeat(t, k)) == d && S.Replies(c, Repeat(t, k)) == told
    ensures S.Run(c, Repeat(t, k + 1)) == step(d).conn && S.Replies(c, Repeat(t, k + 1)) == told + [step(d).reply]
  {
    OneMoreTurn(c, t, k);
    assert step(d) == Step(t.env, d, t.req);
  }

  lemma RunTakesStep(t: S.Turn, step: Conn -> NntpSession.Result, c: Conn, ran: nat -> Conn, told: nat -> seq<Reply>,
                     k: nat)
    requires IsStepOf(t, step) && IsRunOf(t, c, ran, told)
    ensures ran(k + 1) == step(ran(k)).conn && told(k + 1) == told(k) + [step(ran(k)).reply]
  {
    RunIs(t, c, ran, told, k);
    RunIs(t, c, ran, told, k + 1);
    OneMoreStep(t, step, c, k, ran(k), told(k));
  }

  lemma RunIterates(t: S.Turn, step: Conn -> NntpSession.Result, c: Conn, ran: nat -> Conn, told: nat -> seq<Reply>)
    requires IsStepOf(t, step) && IsRunOf(t, c, ran, told)
    ensures Iterates(step, c, ran, told)
  {
    RunIs(t, c, ran, told, 0);
    forall k: nat {:trigger step(ran(k))}
      ensures ran(k + 1) == step(ran(k)).conn && told(k + 1) == told(k) + [step(ran(k)).reply]
    {
      RunTakesStep(t, step, c, ran, told, k);
    }
  }

  lemma {:induction false} WalkFrom(step: Conn -> NntpSession.Result, at: nat -> Conn, said: nat -> Reply,
                                    ran: nat -> Conn, told: nat -> seq<Reply>, lo: nat, hi: nat, k: nat)
    requires Walks(step, at, said, lo, hi) && lo + k <= hi && Iterates(step, at(lo), ran, told)
    ensures ran(k) == at(lo + k) && told(k) == Said(said, lo, k)
  {
    if k > 0 {
      WalkFrom(step, at, said, ran, told, lo, hi, k - 1);
      assert step(ran(k - 1)) == step(at(lo + k - 1));
      assert Said(said, lo, k) == Said(said, lo, k - 1) + [said(lo + (k - 1) + 1)];
    }
  }

  // ----- NEXT in a group -----

  /** The turn is a NEXT that the connection handles. */
  predicate IsNext(t: S.Turn, c: Conn) {
    !c.closed && !c.authSimple && t.req.word != "" && VerbOf(t.env.o.upper(t.req.word)).NextVerb?
  }

  predicate IsGroup(t: S.Turn, c: Conn) {
    !c.closed && !c.authSimple && t.req.word != "" && VerbOf(t.env.o.upper(t.req.word)).GroupVerb?
  }

  /** A group without gaps and unreadable articles. */
  ghost predicate AllLoad(spool: SpoolState, g: Snapshot) {
    g.start <= g.end && forall n :: g.start <= n <= g.end ==> LoadArticle(spool, g.name, n).valid
  }

  /** What NEXT says when it arrives on article n. */
  function Arrived(spool: SpoolState, group: string, n: nat): Reply {
    Reply(223, [N(n), S(LoadArticle(spool, group, n).Get(MessageIdField))], [])
  }

  lemma StepIsNext(t: S.Turn, d: Conn)
    requires IsNext(t, d)
    ensures Step(t.env, d, t.req) == DoNext(t.env, d)
  {
  }

  lemma NextArrives(e: Env, c: Conn, n: nat, here: Conn, there: Conn)
    requires S.Readable(e, c) && c.curGroup.start <= n < c.curGroup.end
    requires LoadArticle(e.spool, c.curGroup.name, n).valid && LoadArticle(e.spool, c.curGroup.name, n + 1).valid
    requires here == S.AtNumber(e, c, n) && there == S.AtNumber(e, c, n + 1)
    ensures DoNext(e, here) == NntpSession.Result(there, Arrived(e.spool, c.curGroup.name, n + 1), Nothing)
  {
    S.LoadArticleIdentity(e.spool, c.curGroup.name, n);
    S.NextFrom(e, c, here.curArticle);
  }

  /** NEXT moves to the next article and reports it. */
  lemma NextTurn(t: S.Turn, c: Conn, n: nat, here: Conn, there: Conn)
    requires IsNext(t, c) && S.Readable(t.env, c) && c.curGroup.start <= n < c.curGroup.end
    requires LoadArticle(t.env.spool, c.curGroup.name, n).valid
             && LoadArticle(t.env.spool, c.curGroup.name, n + 1).valid
    requires here == S.AtNumber(t.env, c, n) && there == S.AtNumber(t.env, c, n + 1)
    ensures Step(t.env, here, t.req) ==
            NntpSession.Result(there, Arrived(t.env.spool, c.curGroup.name, n + 1), Nothing)
  {
    NextArrives(t.env, c, n, here, there);
    StepIsNext(t, here);
  }

  /** At the end of the group it reports 421 and stays. */
  lemma NextAtEnd(t: S.Turn, c: Conn, last: Conn)
    requires IsNext(t, c) && S.Readable(t.env, c) && AllLoad(t.env.spool, c.curGroup)
    requires last == S.AtNumber(t.env, c, c.curGroup.end)
    ensures Step(t.env, last, t.req) == Refuse(last, 421)
  {
    S.LoadArticleIdentity(t.env.spool, c.curGroup.name, c.curGroup.end);
  }

  ghost predicate IsPosition(e: Env, c: Conn, at: nat -> Conn) {
    forall n: nat {:trigger S.AtNumber(e, c, n)} :: at(n) == S.AtNumber(e, c, n)
  }

  ghost predicate IsArrival(spool: SpoolState, group: string, said: nat -> Reply) {
    forall n: nat {:trigger Arrived(spool, group, n)} :: said(n) == Arrived(spool, group, n)
  }

  lemma Named(t: S.Turn, c: Conn)
    returns (step: Conn -> NntpSession.Result, at: nat -> Conn, said: nat -> Reply,
             ran: nat -> Conn, told: nat -> seq<Reply>)
    ensures IsStepOf(t, step) && IsPosition(t.env, c, at) && IsArrival(t.env.spool, c.curGroup.name, said)
    ensures IsRunOf(t, c, ran, told)
  {
    ran := (k: nat) => S.Run(c, Repeat(t, k));
    told := (k: nat) => S.Replies(c, Repeat(t, k));
    step := (d: Conn) => Step(t.env, d, t.req);
    at := (n: nat) => S.AtNumber(t.env, c, n);
    said := (n: nat) => Arrived(t.env.spool, c.curGroup.name, n);
  }

  lemma NextWalks(t: S.Turn, c: Conn, step: Conn -> NntpSession.Result, at: nat -> Conn, said: nat -> Reply)
    requires IsNext(t, c) && S.Readable(t.env, c) && AllLoad(t.env.spool, c.curGroup)
    requires IsStepOf(t, step) && IsPosition(t.env, c, at) && IsArrival(t.env.spool, c.curGroup.name, said)
    ensures Walks(step, at, said, c.curGroup.start, c.curGroup.end)
  {
    forall n: nat {:trigger step(at(n))} | c.curGroup.start <= n < c.curGroup.end
      ensures step(at(n)).conn == at(n + 1) && step(at(n)).reply == said(n + 1)
    {
      NextTurn(t, c, n, at(n), at(n + 1));
    }
  }

  lemma NextStays(t: S.Turn, c: Conn, step: Conn -> NntpSession.Result, at: nat -> Conn)
    requires IsNext(t, c) && S.Readable(t.env, c) && AllLoad(t.env.spool, c.curGroup)
    requires IsStepOf(t, step) && IsPosition(t.env, c, at)
    ensures step(at(c.curGroup.end)) == Refuse(at(c.curGroup.end), 421)
  {
    PositionIs(t.env, c, at, c.curGroup.end);
    NextAtEnd(t, c, at(c.curGroup.end));
  }

  /** What NEXT says on the way from Start: the articles after it, in order. */
  function Arrivals(spool: SpoolState, g: Snapshot, k: nat): (r: seq<Reply>)
    ensures |r| == k
  {
    seq(k, i requires 0 <= i < k => Arrived(spool, g.name, g.start + 1 + i))
  }

  lemma ArrivalsAreSaid(spool: SpoolState, g: Snapshot, said: nat -> Reply, k: nat)
    requires IsArrival(spool, g.name, said)
    ensures Said(said, g.start, k) == Arrivals(spool, g, k)
  {
    forall i | 0 <= i < k ensures Said(said, g.start, k)[i] == Arrivals(spool, g, k)[i] {
      assert said(g.start + 1 + i) == Arrived(spool, g.name, g.start + 1 + i);
    }
  }

  /** From Start on NEXT arrives on each article once, in order, and then stays with 421. */
  lemma NextIterates(t: S.Turn, c: Conn, step: Conn -> NntpSession.Result, at: nat -> Conn, said: nat -> Reply,
                     ran: nat -> Conn, told: nat -> seq<Reply>)
    requires IsNext(t, c) && S.Readable(t.env, c) && AllLoad(t.env.spool, c.curGroup)
    requires IsStepOf(t, step) && IsPosition(t.env, c, at) && IsArrival(t.env.spool, c.curGroup.name, said)
    requires Iterates(step, at(c.curGroup.start), ran, told)
    ensures var k := c.curGroup.end - c.curGroup.start;
            && ran(k + 1) == at(c.curGroup.end)
            && told(k + 1) == Arrivals(t.env.spool, c.curGroup, k) + [Reply(421, [], [])]
  {
    var g, k := c.curGroup, c.curGroup.end - c.curGroup.start;
    NextWalks(t, c, step, at, said);
    NextStays(t, c, step, at);
    WalkFrom(step, at, said, ran, told, g.start, g.end, k);
    ArrivalsAreSaid(t.env.spool, g, said, k);
    assert step(ran(k)) == Refuse(at(g.end), 421);
  }

  lemma PositionIs(e: Env, c: Conn, at: nat -> Conn, n: nat)
    requires IsPosition(e, c, at)
    ensures at(n) == S.AtNumber(e, c, n)
  {
  }

  lemma GroupStandsOnStart(t: S.Turn, c: Conn, r: NntpSession.Result)
    requires IsGroup(t, c) && r == Step(t.env, c, t.req) && r.reply.code == 211
    ensures r.conn.curGroup.valid && r.conn == S.AtNumber(t.env, r.conn, r.conn.curGroup.start)
  {
  }

  /**
    GROUP and then NEXT again and again, on one spool: one 223 for each article after the first, in order,
    and then 421; the cursor ends on the last article.
   */
  lemma NextWalksTheGroup(c: Conn, group: S.Turn, next: S.Turn, r: NntpSession.Result)
    requires IsGroup(group, c) && r == Step(group.env, c, group.req) && r.reply.code == 211
    requires next.env.spool == group.env.spool && IsNext(next, r.conn)
    requires S.Readable(next.env, r.conn) && AllLoad(next.env.spool, r.conn.curGroup)
    ensures var g := r.conn.curGroup;
            var k := g.end - g.start;
            var turns := [group] + Repeat(next, k + 1);
            && S.Run(c, turns) == S.AtNumber(next.env, r.conn, g.end)
            && S.Replies(c, turns) == [r.reply] + (Arrivals(next.env.spool, g, k) + [Reply(421, [], [])])
  {
    var k := r.conn.curGroup.end - r.conn.curGroup.start;
    GroupStandsOnStart(group, c, r);
    SameSpoolSamePosition(group.env, next.env, r.conn);
    NextWalksFrom(r.conn, next);
    GroupThen(c, group, Repeat(next, k + 1), r);
  }

  lemma SameSpoolSamePosition(e1: Env, e2: Env, c: Conn)
    requires e1.spool == e2.spool
    ensures S.AtNumber(e1, c, c.curGroup.start) == S.AtNumber(e2, c, c.curGroup.start)
  {
  }

  lemma GroupThen(c: Conn, group: S.Turn, rest: seq<S.Turn>, r: NntpSession.Result)
    requires r == Step(group.env, c, group.req)
    ensures S.Run(c, [group] + rest) == S.Run(r.conn, rest)
    ensures S.Replies(c, [group] + rest) == [r.reply] + S.Replies(r.conn, rest)
  {
    OneTurn(c, group);
    RunConcat(c, [group], rest);
  }

  lemma NextWalksFrom(c1: Conn, next: S.Turn)
    requires IsNext(next, c1) && S.Readable(next.env, c1) && AllLoad(next.env.spool, c1.curGroup)
    requires c1 == S.AtNumber(next.env, c1, c1.curGroup.start)
    ensures var g := c1.curGroup;
            var k := g.end - g.start;
            && S.Run(c1, Repeat(next, k + 1)) == S.AtNumber(next.env, c1, g.end)
            && S.Replies(c1, Repeat(next, k + 1)) == Arrivals(next.env.spool, g, k) + [Reply(421, [], [])]
  {
    var g, k := c1.curGroup, c1.curGroup.end - c1.curGroup.start;
    var step, at, said, ran, told := Named(next, c1);
    PositionIs(next.env, c1, at, g.start);
    PositionIs(next.env, c1, at, g.end);
    RunIterates(next, step, c1, ran, told);
    NextIterates(next, c1, step, at, said, ran, told);
    RunIs(next, c1, ran, told, k + 1);
  }

  lemma OneTurn(c: Conn, t: S.Turn)
    ensures S.Run(c, [t]) == Step(t.env, c, t.req).conn && S.Replies(c, [t]) == [Step(t.env, c, t.req).reply]
  {
    assert [t][..0] == [];
    assert S.Run(c, []) == c && S.Replies(c, []) == [];
  }
}
