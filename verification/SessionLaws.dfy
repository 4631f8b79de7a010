/**
  Laws between commands: what one command answers, told by what another one does.
 */
module SessionLaws {
  import opened Text
  import opened Lines
  import PostReader
  import opened ArticleFile
  import opened ArticleHeader
  import opened Spool
  import Ranges
  import Wildmat
  import opened NntpSession
  import S = SessionInvariant

  /** LISTGROUP of a named group selects it and announces it exactly as GROUP does. */
  lemma ListGroupSelectsLikeGroup(e: Env, c: Conn, req: Request)
    requires req.arg1 != ""
    ensures var l, g := DoListGroup(e, c, req), DoGroup(e, c, req);
            l.conn == g.conn && l.reply.code == g.reply.code && l.reply.args == g.reply.args && l.effect == g.effect
  {
  }

  // ----- OVER against LISTGROUP -----

  const NO_BODY := PostReader.Truncated("")

  /** Every article of the group loads. */
  ghost predicate FilesLoad(v: GroupView, group: string) {
    forall n :: n in v.files ==> Loaded(TextOf(v, n), group, n).valid
  }

  function LineFor(v: GroupView, group: string, n: nat): seq<Arg> {
    OverviewLine(Loaded(TextOf(v, n), group, n))
  }

  /** One overview line for each of the numbers. */
  function LinesFor(v: GroupView, group: string, ns: seq<nat>): (r: seq<seq<Arg>>)
    ensures |r| == |ns|
  {
    seq(|ns|, i requires 0 <= i < |ns| => LineFor(v, group, ns[i]))
  }

  lemma LinesForOneMore(v: GroupView, group: string, ns: seq<nat>, n: nat)
    ensures LinesFor(v, group, ns + [n]) == LinesFor(v, group, ns) + [LineFor(v, group, n)]
  {
    var both := LinesFor(v, group, ns + [n]);
    forall i | 0 <= i < |ns| ensures both[i] == LinesFor(v, group, ns)[i] {
      assert (ns + [n])[i] == ns[i];
    }
    assert (ns + [n])[|ns|] == n;
  }

  lemma {:induction false} OverviewOfListing(v: GroupView, group: string, lo: nat, hi: int)
    requires FilesLoad(v, group) && (hi >= lo ==> Ranges.NothingBlocked(v, lo, hi))
    ensures OverviewLines(v, group, lo, hi) == LinesFor(v, group, Ranges.Listing(v, lo, hi))
    decreases hi - lo + 1
  {
    if hi >= lo {
      assert Ranges.NothingBlocked(v, lo, hi);
      OverviewOfListing(v, group, lo, hi - 1);
      LoadedIdentity(TextOf(v, hi), group, hi);
      var before := Ranges.Listing(v, lo, hi - 1);
      LinesForOneMore(v, group, before, hi);
      assert Loaded(TextOf(v, hi), group, hi).valid <==> hi in v.files;
      assert Ranges.Listing(v, lo, hi) == if hi in v.files then before + [hi] else before + [];
    } else {
      assert LinesFor(v, group, []) == [];
    }
  }

  /**
    Where every article loads and no directory sits in the group, OVER has one line for each number LISTGROUP
    lists.
   */
  lemma OverFollowsListGroup(e: Env, c: Conn, range: string)
    requires S.Readable(e, c) && FilesLoad(ViewIn(e.spool, c.curGroup.name), c.curGroup.name)
    requires c.curGroup.start <= c.curGroup.end
    requires Ranges.NothingBlocked(ViewIn(e.spool, c.curGroup.name), c.curGroup.start, c.curGroup.end)
    ensures var v, g := ViewIn(e.spool, c.curGroup.name), c.curGroup;
            var (lo, hi) := if range != "" then RangeOf(g, range) else (g.start, g.end);
            var ns := Ranges.Listing(v, lo, hi);
            && ListCurrent(e, c, range).reply.lines == Numbered(ns)
            && DoOver(e, c, Request("OVER", range, "", NO_BODY)).reply == Reply(224, [], LinesFor(v, g.name, ns))
  {
    var v, g := ViewIn(e.spool, c.curGroup.name), c.curGroup;
    var (lo, hi) := if range != "" then RangeOf(g, range) else (g.start, g.end);
    Ranges.ClampedMeansIntersection(Ranges.Requested(range, g.end, g.start, g.end), g.start, g.end);
    OverviewOfListing(v, g.name, lo, hi);
  }

  // ----- HEAD, BODY, ARTICLE, STAT -----

  /** The four retrievals move the cursor alike, fail alike and name the same article. */
  lemma RetrievalsAgree(e: Env, c: Conn, p: Part, q: Part, arg: string)
    ensures var r, t := DoRetrieve(e, c, p, arg), DoRetrieve(e, c, q, arg);
            && r.conn == t.conn && (S.IsRetrieved(r.reply) <==> S.IsRetrieved(t.reply))
            && (if S.IsRetrieved(r.reply) then r.reply.args == t.reply.args else r.reply == t.reply)
  {
  }

  /** The text of ARTICLE is the text of HEAD and then the text of BODY, if the article has a body to separate. */
  lemma ArticleTextIsHeadThenBody(a: Article, text: string)
    ensures PartReply(WholeArticle, a, text).lines[0][0].s ==
            PartReply(HeadPart, a, text).lines[0][0].s
            + (if HasBlank(Sendable(text)) then PartReply(BodyPart, a, text).lines[0][0].s else "")
  {
    ArticleIsHeadAndBody(text);
  }

  // ----- XPAT against HDR -----

  lemma {:induction false} StarMatchesEveryHeader(v: GroupView, field: string, lo: nat, hi: int)
    ensures HeaderReports(v, field, Some(["*"]), lo, hi) == HeaderReports(v, field, None, lo, hi)
    decreases hi - lo + 1
  {
    if hi >= lo {
      StarMatchesEveryHeader(v, field, lo, hi - 1);
      var val := RawHeaderIn(v, hi, field);
      Wildmat.StarAlone(val);
      assert ["*"][0] == "*";
      assert AnyMatch(["*"], val);
    }
  }

  /** XPAT with the pattern * answers with the lines of HDR. */
  lemma XPatStarIsHdr(e: Env, c: Conn, field: string, range: string, arg2: string)
    requires field != "" && range != "" && arg2 != "" && Split(arg2, ' ') == [range, "*"]
    ensures var x := DoXPat(e, c, Request("XPAT", field, arg2, NO_BODY));
            var h := DoHdr(e, c, Request("HDR", field, range, NO_BODY));
            && x.conn == h.conn
            && (h.reply.Reply? && h.reply.code == 225 ==> x.reply == Reply(221, [], h.reply.lines))
            && (!(h.reply.Reply? && h.reply.code == 225) ==> x.reply == h.reply)
  {
    var fields := Split(arg2, ' ');
    assert fields[0] == range && fields[1..] == ["*"];
    HeadersForStar(e, c, field, range);
  }

  lemma HeadersForStar(e: Env, c: Conn, field: string, range: string)
    requires range != ""
    ensures var x, h := HeadersFor(e, c, 221, field, range, Some(["*"])), HeadersFor(e, c, 225, field, range, None);
            && x.conn == h.conn
            && (h.reply.Reply? && h.reply.code == 225 ==> x.reply == Reply(221, [], h.reply.lines))
            && (!(h.reply.Reply? && h.reply.code == 225) ==> x.reply == h.reply)
  {
    var v, g := ViewIn(e.spool, c.curGroup.name), c.curGroup;
    if IsMessageId(range) {
      match FindIn(e.spool, g, range)
      case Hit(n) => StarMatchesEveryHeader(v, field, n, n);
      case _ =>
    } else {
      var (lo, hi) := RangeOf(g, range);
      StarMatchesEveryHeader(v, field, lo, hi);
    }
  }
}
