/**
  What the listing commands of a connection list (internal/nntp/server.go, handleConn): LISTGROUP, OVER,
  HDR, XPAT, LIST, NEWGROUPS and NEWNEWS, told by the files, the permissions and the words of the request.
 */
module SessionListings {
  import opened Text
  import opened ArticleFile
  import opened ArticleHeader
  import opened Spool
  import opened Search
  import Ranges
  import Wildmat
  import opened GroupList
  import opened Auth
  import opened Pipeline
  import opened NntpSession
  import opened SessionAnswers

  // ----- ranges -----

  /** The articles a range argument asks for: all without one, and else from m to n, some of them in the group. */
  predicate RangeArg(range: string, g: Snapshot, m: nat, n: nat) {
    if range == "" then m == g.start && n == g.end
    else Ranges.Asks(range, g.end, m, n) && m <= n && m <= g.end && g.start <= n && g.start <= g.end
  }

  predicate InRange(g: Snapshot, m: nat, n: nat, x: nat) {
    m <= x <= n && g.start <= x <= g.end
  }

  /** The interval a command goes through for a range argument. */
  function Bounds(range: string, g: Snapshot): (nat, nat) {
    if range != "" then RangeOf(g, range) else (g.start, g.end)
  }

  lemma BoundsAre(range: string, g: Snapshot, m: nat, n: nat)
    requires RangeArg(range, g, m, n)
    ensures forall x :: Ranges.Within(x, Bounds(range, g).0, Bounds(range, g).1) <==> InRange(g, m, n, x)
  {
    if range != "" {
      Ranges.AskedIsSelected(range, g.start, g.end, g.start, g.end, m, n);
      var (lo, hi) := Bounds(range, g);
      forall x ensures Ranges.Within(x, lo, hi) <==> InRange(g, m, n, x) {
        assert Ranges.Within(x, lo, hi) <==> Ranges.Within(x, m, n) && Ranges.Within(x, g.start, g.end);
      }
    }
  }

  // ----- lines for those numbers of an interval that are kept -----

  ghost function Kept(lo: nat, hi: int, keep: nat -> bool, row: nat -> seq<Arg>): seq<seq<Arg>>
    decreases hi - lo + 1
  {
    if hi < lo then [] else Kept(lo, hi - 1, keep, row) + (if keep(hi) then [row(hi)] else [])
  }

  /** Those numbers of an interval that are kept, in order. */
  ghost predicate Picks(ns: seq<nat>, lo: nat, hi: int, keep: nat -> bool) {
    Ascending(ns) && forall x: nat :: x in ns <==> lo <= x <= hi && keep(x)
  }

  ghost predicate Rows(ns: seq<nat>, rows: seq<seq<Arg>>, row: nat -> seq<Arg>) {
    |rows| == |ns| && forall k :: 0 <= k < |ns| ==> rows[k] == row(ns[k])
  }

  /** The reply has that code and one line for each of the numbers, and nothing else comes of the step. */
  ghost predicate Lists(r: NntpSession.Result, c: Conn, code: nat, ns: seq<nat>, row: nat -> seq<Arg>) {
    && r.conn == c && r.effect == Nothing && r.reply.Reply? && r.reply.code == code && r.reply.args == []
    && Rows(ns, r.reply.lines, row)
  }

  lemma PickOneMore(ns: seq<nat>, lo: nat, hi: nat, keep: nat -> bool)
    requires lo <= hi && Picks(ns, lo, hi - 1, keep)
    ensures Picks(if keep(hi) then ns + [hi] else ns, lo, hi, keep)
  {
    AscendingOneMore(ns, hi);
  }

  lemma {:induction false} KeptRows(lo: nat, hi: int, keep: nat -> bool, row: nat -> seq<Arg>) returns (ns: seq<nat>)
    ensures Picks(ns, lo, hi, keep) && Rows(ns, Kept(lo, hi, keep, row), row)
    decreases hi - lo + 1
  {
    if hi < lo {
      ns := [];
    } else {
      ns := KeptRows(lo, hi - 1, keep, row);
      PickOneMore(ns, lo, hi, keep);
      ns := if keep(hi) then ns + [hi] else ns;
    }
  }

  // ----- LISTGROUP -----

  /** The reply announces the group and lists the numbers, one a line. */
  predicate ListsNumbers(r: Reply, g: Snapshot, ns: seq<nat>) {
    && r.Reply? && r.code == 211 && r.args == [N(g.total), N(g.start), N(g.end), S(g.name)]
    && |r.lines| == |ns| && forall k :: 0 <= k < |ns| ==> r.lines[k] == [N(ns[k])]
  }

  lemma ListsCurrent(e: Env, c: Conn, range: string, m: nat, n: nat) returns (ns: seq<nat>)
    requires c.curGroup.valid && Lets(e, c.session, c.curGroup.name, 'r') && RangeArg(range, c.curGroup, m, n)
    ensures var v := ViewIn(e.spool, c.curGroup.name);
            && Ascending(ns)
            && (forall x :: x in ns <==> InRange(c.curGroup, m, n, x) && (x in v.files || x in v.blocked))
    ensures var r := ListCurrent(e, c, range);
            r.conn == c && r.effect == Nothing && ListsNumbers(r.reply, c.curGroup, ns)
  {
    var g, v := c.curGroup, ViewIn(e.spool, c.curGroup.name);
    var (lo, hi) := Bounds(range, g);
    LetsIs(e, c.session, g.name);
    BoundsAre(range, g, m, n);
    ns := Ranges.Listing(v, lo, hi);
    Ranges.ListingIsTakenIn(v, lo, hi);
    forall x: nat ensures x in ns <==> InRange(g, m, n, x) && (x in v.files || x in v.blocked) {
      assert Ranges.Within(x, lo, hi) <==> InRange(g, m, n, x);
    }
  }

  /**
    LISTGROUP without a group lists, in order, those numbers of the selected group that were asked for and
    have a path.
   */
  lemma ListGroupAnswer(e: Env, c: Conn, req: Request, m: nat, n: nat) returns (ns: seq<nat>)
    requires Sends(e, c, req, "LISTGROUP") && req.arg1 == ""
    requires c.curGroup.valid && Lets(e, c.session, c.curGroup.name, 'r') && RangeArg(req.arg2, c.curGroup, m, n)
    ensures var v := ViewIn(e.spool, c.curGroup.name);
            && Ascending(ns)
            && (forall x :: x in ns <==> InRange(c.curGroup, m, n, x) && (x in v.files || x in v.blocked))
    ensures var r := Step(e, c, req);
            r.conn == c && r.effect == Nothing && ListsNumbers(r.reply, c.curGroup, ns)
  {
    StepOf(e, c, req, "LISTGROUP", ListGroupVerb);
    ns := ListsCurrent(e, c, req.arg2, m, n);
  }

  /** LISTGROUP with a group that is there and may be read selects it and lists it. */
  lemma ListGroupSelects(e: Env, c: Conn, req: Request, i: Info, m: nat, n: nat) returns (ns: seq<nat>)
    requires Sends(e, c, req, "LISTGROUP") && req.arg1 != "" && ValidGroupName(req.arg1) && IsThere(e.spool, req.arg1)
    requires Lets(e, c.session, req.arg1, 'r') && Announced(ViewIn(e.spool, req.arg1), i)
    requires RangeArg(req.arg2, SnapshotWith(e, req.arg1, i), m, n)
    ensures var v, g := ViewIn(e.spool, req.arg1), SnapshotWith(e, req.arg1, i);
            && Ascending(ns)
            && (forall x :: x in ns <==> InRange(g, m, n, x) && (x in v.files || x in v.blocked))
    ensures var r, g := Step(e, c, req), SnapshotWith(e, req.arg1, i);
            r.conn == Selecting(e, c, req.arg1, i) && r.effect == Nothing && ListsNumbers(r.reply, g, ns)
  {
    StepOf(e, c, req, "LISTGROUP", ListGroupVerb);
    LetsIs(e, c.session, req.arg1);
    AnnouncedIs(ViewIn(e.spool, req.arg1), i);
    ns := ListsCurrent(e, Selecting(e, c, req.arg1, i), req.arg2, m, n);
  }

  /** The refusals of LISTGROUP: those of GROUP, no group selected, and one that may no longer be read. */
  lemma ListGroupRefused(e: Env, c: Conn, req: Request)
    requires Sends(e, c, req, "LISTGROUP")
    ensures var r, g := Step(e, c, req), req.arg1;
            && (g != "" && !ValidGroupName(g) ==> r == Refuse(c, 501))
            && (g != "" && ValidGroupName(g) && !IsThere(e.spool, g) ==> r == Refuse(c, 411))
            && (g != "" && ValidGroupName(g) && IsThere(e.spool, g) && !Lets(e, c.session, g, 'r') ==>
                  r == Refuse(c, 480))
            && (g == "" && !c.curGroup.valid ==> r == Refuse(c, 412))
            && (g == "" && c.curGroup.valid && !Lets(e, c.session, c.curGroup.name, 'r') ==> r == Refuse(c, 480))
  {
    StepOf(e, c, req, "LISTGROUP", ListGroupVerb);
    LetsIs(e, c.session, req.arg1);
    LetsIs(e, c.session, c.curGroup.name);
  }

  // ----- OVER -----

  /** Number, Subject, From, Date, Message-ID, References, Lines and Xref of article n. */
  function OverviewRow(spool: SpoolState, group: string, n: nat): seq<Arg> {
    var a := LoadArticle(spool, group, n);
    [N(n), S(a.Get(SubjectField)), S(a.Get(FromField)), S(a.Get(DateField)), S(a.Get(MessageIdField)),
     S(a.Get(ReferencesField)), S(a.Get(LinesField)), S(a.Get(XrefField))]
  }

  lemma {:induction false} OverviewIsKept(spool: SpoolState, group: string, lo: nat, hi: int, keep: nat -> bool,
                                          row: nat -> seq<Arg>)
    requires forall x :: keep(x) <==> LoadArticle(spool, group, x).valid
    requires forall x :: row(x) == OverviewRow(spool, group, x)
    ensures OverviewLines(ViewIn(spool, group), group, lo, hi) == Kept(lo, hi, keep, row)
    decreases hi - lo + 1
  {
    if hi >= lo {
      OverviewIsKept(spool, group, lo, hi - 1, keep, row);
      LoadedIdentity(TextOf(ViewIn(spool, group), hi), group, hi);
    }
  }

  lemma OverStep(e: Env, c: Conn, req: Request, word: string)
    requires Sends(e, c, req, word) && (word == "OVER" || word == "XOVER")
    requires c.curGroup.valid && Lets(e, c.session, c.curGroup.name, 'r')
    ensures var g, (lo, hi) := c.curGroup, Bounds(req.arg1, c.curGroup);
            Step(e, c, req) ==
              NntpSession.Result(c, Reply(224, [], OverviewLines(ViewIn(e.spool, g.name), g.name, lo, hi)), Nothing)
  {
    StepOf(e, c, req, word, OverVerb);
    LetsIs(e, c.session, c.curGroup.name);
  }

  /** OVER and XOVER have one line, in order, for each article asked for that loads. */
  lemma OverAnswer(e: Env, c: Conn, req: Request, word: string, m: nat, n: nat) returns (ns: seq<nat>)
    requires Sends(e, c, req, word) && (word == "OVER" || word == "XOVER")
    requires c.curGroup.valid && Lets(e, c.session, c.curGroup.name, 'r') && RangeArg(req.arg1, c.curGroup, m, n)
    ensures Ascending(ns)
    ensures forall x :: x in ns <==> InRange(c.curGroup, m, n, x) && LoadArticle(e.spool, c.curGroup.name, x).valid
    ensures Lists(Step(e, c, req), c, 224, ns, (x: nat) => OverviewRow(e.spool, c.curGroup.name, x))
  {
    var g := c.curGroup;
    OverStep(e, c, req, word);
    BoundsAre(req.arg1, g, m, n);
    var (lo, hi) := Bounds(req.arg1, g);
    var keep := (x: nat) => LoadArticle(e.spool, g.name, x).valid;
    var row := (x: nat) => OverviewRow(e.spool, g.name, x);
    OverviewIsKept(e.spool, g.name, lo, hi, keep, row);
    ns := KeptRows(lo, hi, keep, row);
  }

  predicate AsksOfGroup(word: string) {
    word in {"OVER", "XOVER", "HDR", "XHDR", "XPAT"}
  }

  /** HDR needs a header name; XPAT needs one, a range and a pattern. */
  predicate LacksWords(word: string, req: Request) {
    || (word in {"HDR", "XHDR", "XPAT"} && req.arg1 == "")
    || (word == "XPAT" && (req.arg2 == "" || |Split(req.arg2, ' ')| < 2))
  }

  /** None of these commands answers without a group, or on one that may not be read. */
  lemma OfGroupRefused(e: Env, c: Conn, req: Request, word: string)
    requires Sends(e, c, req, word) && AsksOfGroup(word)
    ensures !c.curGroup.valid ==> Step(e, c, req) == Refuse(c, 412)
    ensures c.curGroup.valid && !Lets(e, c.session, c.curGroup.name, 'r') ==> Step(e, c, req) == Refuse(c, 480)
    ensures c.curGroup.valid && Lets(e, c.session, c.curGroup.name, 'r') && LacksWords(word, req) ==>
              Step(e, c, req) == Refuse(c, 501)
  {
    var verb := if word == "XPAT" then XPatVerb else if word == "OVER" || word == "XOVER" then OverVerb else HdrVerb;
    StepOf(e, c, req, word, verb);
    LetsIs(e, c.session, c.curGroup.name);
  }

  // ----- HDR and XPAT -----

  /** The value of a header in the file of article n: the first of that name with its continuation lines. */
  function ValueIn(spool: SpoolState, group: string, n: nat, field: string): string {
    var files := ViewIn(spool, group).files;
    if n in files then RawValue(HeaderOf(Scanned(files[n].text)), Target(field)) else ""
  }

  lemma ValueIs(spool: SpoolState, group: string, n: nat, field: string)
    ensures RawHeaderIn(ViewIn(spool, group), n, field) == ValueIn(spool, group, n, field)
  {
    var files := ViewIn(spool, group).files;
    if n in files {
      RawOfAnyFile(Scanned(files[n].text), Target(field));
    }
  }

  /** The article has that header, and some pattern matches its value if there are patterns. */
  ghost predicate Shows(spool: SpoolState, group: string, n: nat, field: string, patterns: Option<seq<string>>) {
    var value := ValueIn(spool, group, n, field);
    value != "" && (patterns.Some? ==> exists p :: p in patterns.value && Wildmat.Matches(p, value))
  }

  function ValueRow(spool: SpoolState, group: string, field: string, n: nat): seq<Arg> {
    [N(n), S(ValueIn(spool, group, n, field))]
  }

  lemma ReportIs(spool: SpoolState, group: string, field: string, patterns: Option<seq<string>>, n: nat)
    ensures HeaderReport(ViewIn(spool, group), field, patterns, n) ==
              if Shows(spool, group, n, field, patterns) then [ValueRow(spool, group, field, n)] else []
  {
    ValueIs(spool, group, n, field);
    if patterns.Some? {
      var value := ValueIn(spool, group, n, field);
      if p :| p in patterns.value && Wildmat.Matches(p, value) {
        var i :| 0 <= i < |patterns.value| && patterns.value[i] == p;
        assert AnyMatch(patterns.value, value);
      }
    }
  }

  lemma {:induction false} ReportsAreKept(spool: SpoolState, group: string, field: string,
                                          patterns: Option<seq<string>>, lo: nat, hi: int, keep: nat -> bool,
                                          row: nat -> seq<Arg>)
    requires forall x :: keep(x) <==> Shows(spool, group, x, field, patterns)
    requires forall x :: row(x) == ValueRow(spool, group, field, x)
    ensures HeaderReports(ViewIn(spool, group), field, patterns, lo, hi) == Kept(lo, hi, keep, row)
    decreases hi - lo + 1
  {
    if hi >= lo {
      ReportsAreKept(spool, group, field, patterns, lo, hi - 1, keep, row);
      ReportIs(spool, group, field, patterns, hi);
    }
  }

  lemma AskedIsNoId(range: string, gEnd: nat, m: nat, n: nat)
    requires Ranges.Asks(range, gEnd, m, n)
    ensures !IsMessageId(range)
  {
    assert IsDigit(Format(m)[0]);
  }

  lemma HeadersInRange(e: Env, c: Conn, code: nat, field: string, range: string, patterns: Option<seq<string>>,
                       m: nat, n: nat) returns (ns: seq<nat>)
    requires RangeArg(range, c.curGroup, m, n)
    ensures var group := c.curGroup.name;
            && Ascending(ns)
            && (forall x :: x in ns <==> InRange(c.curGroup, m, n, x) && Shows(e.spool, group, x, field, patterns))
            && Lists(HeadersFor(e, c, code, field, range, patterns), c, code, ns,
                     (x: nat) => ValueRow(e.spool, group, field, x))
  {
    var g := c.curGroup;
    BoundsAre(range, g, m, n);
    if range != "" {
      AskedIsNoId(range, g.end, m, n);
    }
    var (lo, hi) := Bounds(range, g);
    var keep := (x: nat) => Shows(e.spool, g.name, x, field, patterns);
    var row := (x: nat) => ValueRow(e.spool, g.name, field, x);
    ReportsAreKept(e.spool, g.name, field, patterns, lo, hi, keep, row);
    ns := KeptRows(lo, hi, keep, row);
    forall x: nat ensures x in ns <==> InRange(g, m, n, x) && Shows(e.spool, g.name, x, field, patterns) {
      assert Ranges.Within(x, lo, hi) <==> InRange(g, m, n, x);
    }
  }

  /** A Message-ID stands for the article a search of the group as it was selected finds. */
  ghost predicate AnswersForId(e: Env, c: Conn, r: NntpSession.Result, code: nat, id: string, field: string,
                               patterns: Option<seq<string>>) {
    var g := c.curGroup;
    match Find(IdsOf(ViewIn(e.spool, g.name)), id, g.start, g.end)
    case Miss => r == Refuse(c, 430)
    case Loops => r == NntpSession.Result(c.(closed := true), Silent, Nothing)
    case Hit(n) =>
      Lists(r, c, code, if Shows(e.spool, g.name, n, field, patterns) then [n] else [],
            (x: nat) => ValueRow(e.spool, g.name, field, x))
  }

  lemma OneReport(spool: SpoolState, group: string, field: string, patterns: Option<seq<string>>, n: nat)
    ensures HeaderReports(ViewIn(spool, group), field, patterns, n, n) ==
              if Shows(spool, group, n, field, patterns) then [ValueRow(spool, group, field, n)] else []
  {
    ReportIs(spool, group, field, patterns, n);
    assert HeaderReports(ViewIn(spool, group), field, patterns, n, n - 1) == [];
  }

  lemma HeadersOfHit(e: Env, c: Conn, code: nat, field: string, id: string, patterns: Option<seq<string>>, n: nat)
    requires IsMessageId(id) && FindIn(e.spool, c.curGroup, id) == Hit(n)
    ensures var group := c.curGroup.name;
            var rows := if Shows(e.spool, group, n, field, patterns) then [ValueRow(e.spool, group, field, n)] else [];
            HeadersFor(e, c, code, field, id, patterns) == NntpSession.Result(c, Reply(code, [], rows), Nothing)
  {
    OneReport(e.spool, c.curGroup.name, field, patterns, n);
  }

  lemma HeadersForId(e: Env, c: Conn, code: nat, field: string, id: string, patterns: Option<seq<string>>)
    requires IsMessageId(id)
    ensures AnswersForId(e, c, HeadersFor(e, c, code, field, id, patterns), code, id, field, patterns)
  {
    match FindIn(e.spool, c.curGroup, id)
    case Hit(n) => HeadersOfHit(e, c, code, field, id, patterns, n);
    case _ =>
  }

  lemma HdrStep(e: Env, c: Conn, req: Request, word: string)
    requires Sends(e, c, req, word) && (word == "HDR" || word == "XHDR")
    requires c.curGroup.valid && Lets(e, c.session, c.curGroup.name, 'r')
    ensures Step(e, c, req) == if req.arg1 == "" then Refuse(c, 501)
                               else HeadersFor(e, c, 225, req.arg1, req.arg2, None)
  {
    StepOf(e, c, req, word, HdrVerb);
    LetsIs(e, c.session, c.curGroup.name);
  }

  /** HDR and XHDR have one line, in order, for each article asked for that has the header. */
  lemma HdrAnswer(e: Env, c: Conn, req: Request, word: string, m: nat, n: nat) returns (ns: seq<nat>)
    requires Sends(e, c, req, word) && (word == "HDR" || word == "XHDR") && req.arg1 != ""
    requires c.curGroup.valid && Lets(e, c.session, c.curGroup.name, 'r') && RangeArg(req.arg2, c.curGroup, m, n)
    ensures var group := c.curGroup.name;
            && Ascending(ns)
            && (forall x :: x in ns <==> InRange(c.curGroup, m, n, x) && Shows(e.spool, group, x, req.arg1, None))
            && Lists(Step(e, c, req), c, 225, ns, (x: nat) => ValueRow(e.spool, group, req.arg1, x))
  {
    HdrStep(e, c, req, word);
    ns := HeadersInRange(e, c, 225, req.arg1, req.arg2, None, m, n);
  }

  lemma HdrOfId(e: Env, c: Conn, req: Request, word: string)
    requires Sends(e, c, req, word) && (word == "HDR" || word == "XHDR") && req.arg1 != "" && IsMessageId(req.arg2)
    requires c.curGroup.valid && Lets(e, c.session, c.curGroup.name, 'r')
    ensures AnswersForId(e, c, Step(e, c, req), 225, req.arg2, req.arg1, None)
  {
    HdrStep(e, c, req, word);
    HeadersForId(e, c, 225, req.arg1, req.arg2, None);
  }

  lemma XPatStep(e: Env, c: Conn, req: Request, range: string, patterns: seq<string>)
    requires Sends(e, c, req, "XPAT") && req.arg1 != "" && req.arg2 != ""
    requires patterns != [] && Split(req.arg2, ' ') == [range] + patterns
    requires c.curGroup.valid && Lets(e, c.session, c.curGroup.name, 'r')
    ensures Step(e, c, req) == HeadersFor(e, c, 221, req.arg1, range, Some(patterns))
  {
    StepOf(e, c, req, "XPAT", XPatVerb);
    LetsIs(e, c.session, c.curGroup.name);
    assert ([range] + patterns)[1..] == patterns;
  }

  /** XPAT lists, of the articles asked for, those with a header value that some pattern matches. */
  lemma XPatAnswer(e: Env, c: Conn, req: Request, range: string, patterns: seq<string>, m: nat, n: nat)
    returns (ns: seq<nat>)
    requires Sends(e, c, req, "XPAT") && req.arg1 != "" && req.arg2 != ""
    requires patterns != [] && Split(req.arg2, ' ') == [range] + patterns
    requires c.curGroup.valid && Lets(e, c.session, c.curGroup.name, 'r') && RangeArg(range, c.curGroup, m, n)
    ensures var group, shown := c.curGroup.name, Some(patterns);
            && Ascending(ns)
            && (forall x :: x in ns <==> InRange(c.curGroup, m, n, x) && Shows(e.spool, group, x, req.arg1, shown))
            && Lists(Step(e, c, req), c, 221, ns, (x: nat) => ValueRow(e.spool, group, req.arg1, x))
  {
    XPatStep(e, c, req, range, patterns);
    ns := HeadersInRange(e, c, 221, req.arg1, range, Some(patterns), m, n);
  }

  lemma XPatOfId(e: Env, c: Conn, req: Request, id: string, patterns: seq<string>)
    requires Sends(e, c, req, "XPAT") && req.arg1 != "" && req.arg2 != "" && IsMessageId(id)
    requires patterns != [] && Split(req.arg2, ' ') == [id] + patterns
    requires c.curGroup.valid && Lets(e, c.session, c.curGroup.name, 'r')
    ensures AnswersForId(e, c, Step(e, c, req), 221, id, req.arg1, Some(patterns))
  {
    XPatStep(e, c, req, id, patterns);
    HeadersForId(e, c, 221, req.arg1, id, Some(patterns));
  }

  // ----- LIST -----

  function NameAt(names: seq<string>, k: nat): string {
    if k < |names| then names[k] else ""
  }

  function Visible(e: Env, session: Option<Session>, names: seq<string>): seq<string> {
    match e.store case None => names case Some(st) => Listable(st, session, names)
  }

  lemma VisibleOneMore(e: Env, session: Option<Session>, names: seq<string>, j: nat)
    requires 0 < j <= |names|
    ensures Visible(e, session, names[..j]) ==
              Visible(e, session, names[..j - 1]) + (if Lets(e, session, names[j - 1], 'r') then [names[j - 1]] else [])
  {
    assert names[..j][..j - 1] == names[..j - 1];
    LetsIs(e, session, names[j - 1]);
  }

  /** What LIST says of a group, told by the numbers it is announced with, its configuration and its age. */
  ghost function ListRow(arg: string, spool: SpoolState, name: string): seq<Arg> {
    if !IsThere(spool, name) then []
    else
      var entry, i := spool.groups[name], InfoOf(spool.groups[name].view);
      if arg == "ACTIVE.TIMES" then [S(name), I(entry.ctime), S(entry.config.creator)]
      else if arg == "NEWSGROUPS" then [S(name), S(entry.config.desc)]
      else if arg == "COUNTS" then [S(name), N(i.end), N(i.start), N(i.total)]
      else [S(name), N(i.total), N(i.start)]
  }

  predicate ListsGroups(arg: string) {
    arg in {"", "ACTIVE", "ACTIVE.TIMES", "NEWSGROUPS", "COUNTS"}
  }

  /** The group is there and lets the reader in, and it matches the wildmat, which only LIST ACTIVE takes. */
  ghost predicate Listed(e: Env, session: Option<Session>, arg: string, wildmat: string, name: string) {
    && IsThere(e.spool, name) && Lets(e, session, name, 'r')
    && (arg == "ACTIVE" && wildmat != "" ==> Wildmat.Matches(wildmat, name))
  }

  lemma ListOneMore(e: Env, session: Option<Session>, arg: string, wildmat: string, names: seq<string>, name: string)
    requires ListsGroups(arg) && Lets(e, session, name, 'r')
    ensures var pattern := if arg == "ACTIVE" && wildmat != "" then Some(wildmat) else None;
            ListLines(e.spool, ListKindOf(arg), pattern, names + [name]) ==
              ListLines(e.spool, ListKindOf(arg), pattern, names)
              + (if Listed(e, session, arg, wildmat, name) then [ListRow(arg, e.spool, name)] else [])
  {
    assert (names + [name])[..|names|] == names;
  }

  lemma {:induction false} ListIsKept(e: Env, session: Option<Session>, arg: string, wildmat: string,
                                      names: seq<string>, j: nat, keep: nat -> bool, row: nat -> seq<Arg>)
    requires j <= |names| && ListsGroups(arg)
    requires forall k: nat :: keep(k) <==> k < |names| && Listed(e, session, arg, wildmat, NameAt(names, k))
    requires forall k: nat :: row(k) == ListRow(arg, e.spool, NameAt(names, k))
    ensures var pattern := if arg == "ACTIVE" && wildmat != "" then Some(wildmat) else None;
            ListLines(e.spool, ListKindOf(arg), pattern, Visible(e, session, names[..j])) == Kept(0, j - 1, keep, row)
  {
    if j > 0 {
      ListIsKept(e, session, arg, wildmat, names, j - 1, keep, row);
      VisibleOneMore(e, session, names, j);
      var before := Visible(e, session, names[..j - 1]);
      if Lets(e, session, names[j - 1], 'r') {
        ListOneMore(e, session, arg, wildmat, before, names[j - 1]);
      } else {
        assert before + [] == before;
      }
    } else {
      assert names[..0] == [];
    }
  }

  /** LIST has one line, in the order of the names, for each group listed. */
  lemma ListAnswer(e: Env, c: Conn, req: Request, arg: string) returns (ks: seq<nat>)
    requires Sends(e, c, req, "LIST") && e.o.upper(req.arg1) == arg && ListsGroups(arg)
    ensures var names := e.spool.names;
            && Ascending(ks)
            && (forall k: nat :: k in ks <==> k < |names| && Listed(e, c.session, arg, req.arg2, NameAt(names, k)))
            && Lists(Step(e, c, req), c, 215, ks, (k: nat) => ListRow(arg, e.spool, NameAt(names, k)))
  {
    var names := e.spool.names;
    StepOf(e, c, req, "LIST", ListVerb);
    assert names[..|names|] == names;
    var keep := (k: nat) => k < |names| && Listed(e, c.session, arg, req.arg2, NameAt(names, k));
    var row := (k: nat) => ListRow(arg, e.spool, NameAt(names, k));
    ListIsKept(e, c.session, arg, req.arg2, names, |names|, keep, row);
    ks := KeptRows(0, |names| - 1, keep, row);
  }

  /** Every other LIST is one of six fixed texts, or refused. */
  lemma ListOther(e: Env, c: Conn, req: Request, arg: string)
    requires Sends(e, c, req, "LIST") && e.o.upper(req.arg1) == arg && !ListsGroups(arg)
    ensures Step(e, c, req) ==
              if arg in {"EXTENSIONS", "DISTRIBUTIONS", "DISTRIB.PATS", "OVERVIEW.FMT", "SUBSCRIPTIONS", "HEADERS"}
              then NntpSession.Result(c, Fixed(arg), Nothing) else Refuse(c, 501)
  {
    StepOf(e, c, req, "LIST", ListVerb);
  }

  // ----- NEWGROUPS -----

  /** The group is there and lets the reader in, and it was created at that time or later. */
  predicate ListedSince(e: Env, session: Option<Session>, since: int, name: string) {
    IsThere(e.spool, name) && Lets(e, session, name, 'r') && e.spool.groups[name].ctime >= since
  }

  lemma NewGroupOneMore(spool: SpoolState, since: int, names: seq<string>, name: string)
    ensures NewGroupLines(spool, since, names + [name]) ==
              NewGroupLines(spool, since, names)
              + (if IsThere(spool, name) && spool.groups[name].ctime >= since then [[S(name)]] else [])
  {
    assert (names + [name])[..|names|] == names;
  }

  lemma {:induction false} NewGroupsAreKept(e: Env, session: Option<Session>, since: int, names: seq<string>, j: nat,
                                            keep: nat -> bool, row: nat -> seq<Arg>)
    requires j <= |names|
    requires forall k: nat :: keep(k) <==> k < |names| && ListedSince(e, session, since, NameAt(names, k))
    requires forall k: nat :: row(k) == [S(NameAt(names, k))]
    ensures NewGroupLines(e.spool, since, Visible(e, session, names[..j])) == Kept(0, j - 1, keep, row)
  {
    if j > 0 {
      NewGroupsAreKept(e, session, since, names, j - 1, keep, row);
      VisibleOneMore(e, session, names, j);
      var before := Visible(e, session, names[..j - 1]);
      if Lets(e, session, names[j - 1], 'r') {
        NewGroupOneMore(e.spool, since, before, names[j - 1]);
      } else {
        assert before + [] == before;
      }
    } else {
      assert names[..0] == [];
    }
  }

  /** NEWGROUPS names, in order, the groups that are visible and at least as new as the date. */
  lemma NewGroupsAnswer(e: Env, c: Conn, req: Request, since: int) returns (ks: seq<nat>)
    requires Sends(e, c, req, "NEWGROUPS") && e.o.parseDate(req.arg1, req.arg2) == Some(since)
    ensures var names := e.spool.names;
            && Ascending(ks)
            && (forall k: nat :: k in ks <==> k < |names| && ListedSince(e, c.session, since, NameAt(names, k)))
            && Lists(Step(e, c, req), c, 231, ks, (k: nat) => [S(NameAt(names, k))])
  {
    var names := e.spool.names;
    StepOf(e, c, req, "NEWGROUPS", NewGroupsVerb);
    assert names[..|names|] == names;
    var keep := (k: nat) => k < |names| && ListedSince(e, c.session, since, NameAt(names, k));
    var row := (k: nat) => [S(NameAt(names, k))];
    NewGroupsAreKept(e, c.session, since, names, |names|, keep, row);
    ks := KeptRows(0, |names| - 1, keep, row);
  }

  // ----- NEWNEWS -----

  predicate IsNewId(v: GroupView, since: int, n: nat) {
    n in v.files && v.files[n].mtime > since && MessageIdOf(v.files[n].text).Some?
  }

  /** The group matches, is there and lets the reader in, and its article n is newer and has a Message-ID. */
  ghost predicate IsNews(e: Env, session: Option<Session>, pattern: string, since: int, name: string, n: nat) {
    && IsThere(e.spool, name) && Lets(e, session, name, 'r') && Wildmat.Matches(pattern, name)
    && var v := e.spool.groups[name].view;
       InfoOf(v).start <= n <= InfoOf(v).end && IsNewId(v, since, n)
  }

  /** Pairs of a name's place and an article's number, by names and then by numbers. */
  ghost predicate InOrder(ps: seq<(nat, nat)>) {
    forall i, j :: 0 <= i < j < |ps| ==> ps[i].0 < ps[j].0 || (ps[i].0 == ps[j].0 && ps[i].1 < ps[j].1)
  }

  function IdRow(v: GroupView, n: nat): seq<Arg> {
    if n in v.files then [S(MessageIdOf(v.files[n].text).GetOr(""))] else []
  }

  ghost predicate IdRows(spool: SpoolState, names: seq<string>, ps: seq<(nat, nat)>, rows: seq<seq<Arg>>) {
    |rows| == |ps| && forall k :: 0 <= k < |ps| ==> rows[k] == IdRow(ViewIn(spool, NameAt(names, ps[k].0)), ps[k].1)
  }

  lemma {:induction false} NewIdsAreKept(v: GroupView, since: int, lo: nat, hi: int, keep: nat -> bool,
                                         row: nat -> seq<Arg>)
    requires forall n: nat :: keep(n) <==> IsNewId(v, since, n)
    requires forall n: nat :: row(n) == IdRow(v, n)
    ensures NewIds(v, since, lo, hi) == Kept(lo, hi, keep, row)
    decreases hi - lo + 1
  {
    if hi >= lo {
      NewIdsAreKept(v, since, lo, hi - 1, keep, row);
    }
  }

  lemma NewIdsOf(v: GroupView, since: int, lo: nat, hi: nat) returns (ns: seq<nat>)
    ensures Ascending(ns)
    ensures forall n: nat :: n in ns <==> lo <= n <= hi && IsNewId(v, since, n)
    ensures |NewIds(v, since, lo, hi)| == |ns|
    ensures forall k :: 0 <= k < |ns| ==> NewIds(v, since, lo, hi)[k] == IdRow(v, ns[k])
  {
    var keep := (n: nat) => IsNewId(v, since, n);
    var row := (n: nat) => IdRow(v, n);
    NewIdsAreKept(v, since, lo, hi, keep, row);
    ns := KeptRows(lo, hi, keep, row);
  }

  function Paired(k: nat, ns: seq<nat>): (ps: seq<(nat, nat)>)
    ensures |ps| == |ns| && forall i :: 0 <= i < |ns| ==> ps[i] == (k, ns[i])
  {
    seq(|ns|, i requires 0 <= i < |ns| => (k, ns[i]))
  }

  lemma PairedMembers(k: nat, ns: seq<nat>, p: (nat, nat))
    ensures p in Paired(k, ns) <==> p.0 == k && p.1 in ns
  {
    if p.0 == k && p.1 in ns {
      var i :| 0 <= i < |ns| && ns[i] == p.1;
      assert Paired(k, ns)[i] == p;
    }
  }

  lemma InOrderMore(ps: seq<(nat, nat)>, k: nat, ns: seq<nat>)
    requires InOrder(ps) && Ascending(ns) && forall p :: p in ps ==> p.0 < k
    ensures InOrder(ps + Paired(k, ns))
  {
    var all := ps + Paired(k, ns);
    forall i, j | 0 <= i < j < |all|
      ensures all[i].0 < all[j].0 || (all[i].0 == all[j].0 && all[i].1 < all[j].1)
    {
      if i < |ps| {
        assert ps[i] in ps;
      }
    }
  }

  /** What one group adds to the news. */
  ghost function NewsPart(spool: SpoolState, pattern: string, since: int, name: string): seq<seq<Arg>> {
    if IsThere(spool, name) && Wildmat.Matches(pattern, name) then
      var v := spool.groups[name].view;
      NewIds(v, since, InfoOf(v).start, InfoOf(v).end)
    else []
  }

  lemma NewsOneMore(spool: SpoolState, pattern: string, since: int, names: seq<string>, name: string)
    ensures NewNewsLines(spool, pattern, since, names + [name]) ==
              NewNewsLines(spool, pattern, since, names) + NewsPart(spool, pattern, since, name)
  {
    assert (names + [name])[..|names|] == names;
  }

  /** The news of one group, if it is visible and matches. */
  lemma NewsOf(e: Env, session: Option<Session>, pattern: string, since: int, name: string) returns (ns: seq<nat>)
    ensures Ascending(ns) && forall n: nat :: n in ns <==> IsNews(e, session, pattern, since, name, n)
    ensures var rows := if Lets(e, session, name, 'r') then NewsPart(e.spool, pattern, since, name) else [];
            |rows| == |ns| && forall k :: 0 <= k < |ns| ==> rows[k] == IdRow(ViewIn(e.spool, name), ns[k])
  {
    if Lets(e, session, name, 'r') && IsThere(e.spool, name) && Wildmat.Matches(pattern, name) {
      var v := e.spool.groups[name].view;
      ns := NewIdsOf(v, since, InfoOf(v).start, InfoOf(v).end);
    } else {
      ns := [];
    }
  }

  lemma IdRowsMore(spool: SpoolState, names: seq<string>, ps: seq<(nat, nat)>, rows: seq<seq<Arg>>, j: nat,
                   ns: seq<nat>, more: seq<seq<Arg>>)
    requires IdRows(spool, names, ps, rows) && j < |names| && |more| == |ns|
    requires forall k :: 0 <= k < |ns| ==> more[k] == IdRow(ViewIn(spool, names[j]), ns[k])
    ensures IdRows(spool, names, ps + Paired(j, ns), rows + more)
  {
  }

  /** The pairs are the news of the first j names, in order. */
  ghost predicate NewsPairs(e: Env, session: Option<Session>, pattern: string, since: int, names: seq<string>, j: nat,
                            ps: seq<(nat, nat)>) {
    && InOrder(ps)
    && forall p: (nat, nat) ::
         p in ps <==> p.0 < j && p.0 < |names| && IsNews(e, session, pattern, since, NameAt(names, p.0), p.1)
  }

  lemma NewsPairsMore(e: Env, session: Option<Session>, pattern: string, since: int, names: seq<string>, j: nat,
                      ps: seq<(nat, nat)>, ns: seq<nat>)
    requires j < |names| && NewsPairs(e, session, pattern, since, names, j, ps) && Ascending(ns)
    requires forall n: nat :: n in ns <==> IsNews(e, session, pattern, since, names[j], n)
    ensures NewsPairs(e, session, pattern, since, names, j + 1, ps + Paired(j, ns))
  {
    InOrderMore(ps, j, ns);
    forall p: (nat, nat)
      ensures p in ps + Paired(j, ns) <==>
                p.0 < j + 1 && p.0 < |names| && IsNews(e, session, pattern, since, NameAt(names, p.0), p.1)
    {
      PairedMembers(j, ns, p);
    }
  }

  lemma VisibleNewsMore(e: Env, session: Option<Session>, pattern: string, since: int, names: seq<string>, j: nat)
    requires 0 < j <= |names|
    ensures NewNewsLines(e.spool, pattern, since, Visible(e, session, names[..j])) ==
              NewNewsLines(e.spool, pattern, since, Visible(e, session, names[..j - 1]))
              + (if Lets(e, session, names[j - 1], 'r') then NewsPart(e.spool, pattern, since, names[j - 1]) else [])
  {
    var visible := Visible(e, session, names[..j - 1]);
    VisibleOneMore(e, session, names, j);
    NewsOneMore(e.spool, pattern, since, visible, names[j - 1]);
    if !Lets(e, session, names[j - 1], 'r') {
      assert visible + [] == visible;
    }
  }

  lemma {:induction false} NewsRows(e: Env, session: Option<Session>, pattern: string, since: int, names: seq<string>,
                                    j: nat) returns (ps: seq<(nat, nat)>)
    requires j <= |names|
    ensures NewsPairs(e, session, pattern, since, names, j, ps)
    ensures IdRows(e.spool, names, ps, NewNewsLines(e.spool, pattern, since, Visible(e, session, names[..j])))
  {
    if j == 0 {
      ps := [];
      assert names[..0] == [];
    } else {
      var name := names[j - 1];
      var before := NewsRows(e, session, pattern, since, names, j - 1);
      var ns := NewsOf(e, session, pattern, since, name);
      NewsPairsMore(e, session, pattern, since, names, j - 1, before, ns);
      VisibleNewsMore(e, session, pattern, since, names, j);
      var rows := NewNewsLines(e.spool, pattern, since, Visible(e, session, names[..j - 1]));
      var more := if Lets(e, session, name, 'r') then NewsPart(e.spool, pattern, since, name) else [];
      IdRowsMore(e.spool, names, before, rows, j - 1, ns, more);
      ps := before + Paired(j - 1, ns);
    }
  }

  /**
    NEWNEWS has the Message-IDs, by groups and then by numbers, of the articles in visible groups that match
    which were stored after the date.
   */
  lemma NewNewsAnswer(e: Env, c: Conn, req: Request, since: int) returns (ps: seq<(nat, nat)>)
    requires Sends(e, c, req, "NEWNEWS") && req.arg1 != "" && req.arg2 != "" && |Split(req.arg2, ' ')| >= 2
    requires e.o.parseDate(Split(req.arg2, ' ')[0], Split(req.arg2, ' ')[1]) == Some(since)
    ensures var names := e.spool.names;
            && InOrder(ps)
            && (forall p: (nat, nat) ::
                  p in ps <==> p.0 < |names| && IsNews(e, c.session, req.arg1, since, NameAt(names, p.0), p.1))
            && var r := Step(e, c, req);
               && r.conn == c && r.effect == Nothing && r.reply.Reply? && r.reply.code == 230 && r.reply.args == []
               && IdRows(e.spool, names, ps, r.reply.lines)
  {
    StepOf(e, c, req, "NEWNEWS", NewNewsVerb);
    ps := NewsRows(e, c.session, req.arg1, since, e.spool.names, |e.spool.names|);
    assert e.spool.names[..|e.spool.names|] == e.spool.names;
  }

  /** NEWGROUPS needs a date and a time; NEWNEWS a wildmat before them. */
  lemma DateRefused(e: Env, c: Conn, req: Request)
    ensures Sends(e, c, req, "NEWGROUPS") && e.o.parseDate(req.arg1, req.arg2).None? ==>
              Step(e, c, req) == Refuse(c, 501)
    ensures var fields := Split(req.arg2, ' ');
            Sends(e, c, req, "NEWNEWS")
            && (req.arg1 == "" || req.arg2 == "" || |fields| < 2 || e.o.parseDate(fields[0], fields[1]).None?) ==>
              Step(e, c, req) == Refuse(c, 501)
  {
    if Sends(e, c, req, "NEWGROUPS") {
      StepOf(e, c, req, "NEWGROUPS", NewGroupsVerb);
    }
    if Sends(e, c, req, "NEWNEWS") {
      StepOf(e, c, req, "NEWNEWS", NewNewsVerb);
    }
  }
}
