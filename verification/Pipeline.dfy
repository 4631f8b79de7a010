/**
  The stages composed: what a client posts, the server reads, parses, rewrites, stores, finds again
  and sends back.
 */
module Pipeline {
  import opened Text
  import opened Lines
  import opened PostReader
  import opened Headers
  import opened ArticleFile
  import opened ArticleHeader
  import opened Spool
  import opened Search
  import opened GroupStore

  predicate HeaderLines(ls: seq<string>) {
    forall i :: 0 <= i < |ls| ==> ls[i] != "" && IsLine(ls[i])
  }

  predicate TextLines(ls: seq<string>) {
    forall i :: 0 <= i < |ls| ==> IsLine(ls[i])
  }

  predicate NoLongerThan(ls: seq<string>, n: nat) {
    forall i :: 0 <= i < |ls| ==> |ls[i]| <= n
  }

  // ----- the stored header stays a header -----

  lemma {:induction false} WithoutHeaderLines(headers: seq<string>, drop: set<int>)
    requires HeaderLines(headers)
    ensures HeaderLines(Without(headers, drop))
  {
    if headers != [] {
      WithoutHeaderLines(headers[..|headers| - 1], drop);
    }
  }

  lemma {:induction false} FormatIsLine(n: nat)
    ensures IsLine(Format(n))
  {
    var s := Format(n);
    forall i | 0 <= i < |s| ensures s[i] != '\r' && s[i] != '\n' {
      assert IsDigit(s[i]);
    }
  }

  predicate StampIsLine(st: Stamp) {
    IsLine(st.server) && IsLine(st.group) && IsLine(st.date) && IsLine(st.remote)
  }

  lemma IsLineConcat(a: string, b: string)
    requires IsLine(a) && IsLine(b)
    ensures IsLine(a + b)
  {
  }

  lemma LineIsLine(name: string, value: string)
    requires name != "" && IsLine(name) && IsLine(value)
    ensures Line(name, value) != "" && IsLine(Line(name, value))
  {
    IsLineConcat(name, " ");
    IsLineConcat(name + " ", value);
  }

  lemma XrefIsLine(st: Stamp)
    requires StampIsLine(st)
    ensures XrefLine(st) != "" && IsLine(XrefLine(st))
  {
    FormatIsLine(st.number);
    IsLineConcat(st.server, " ");
    IsLineConcat(st.server + " ", st.group);
    IsLineConcat(st.server + " " + st.group, ":");
    IsLineConcat(st.server + " " + st.group + ":", Format(st.number));
    LineIsLine("Xref:", st.server + " " + st.group + ":" + Format(st.number));
  }

  lemma GeneratedIdIsLine(st: Stamp)
    requires StampIsLine(st)
    ensures IsLine(GeneratedId(st))
  {
    FormatIsLine(st.number);
    IsLineConcat("<", Format(st.number));
    IsLineConcat("<" + Format(st.number), "-");
    IsLineConcat("<" + Format(st.number) + "-", st.group);
    IsLineConcat("<" + Format(st.number) + "-" + st.group, "@");
    IsLineConcat("<" + Format(st.number) + "-" + st.group + "@", st.server);
    IsLineConcat("<" + Format(st.number) + "-" + st.group + "@" + st.server, ">");
  }

  lemma GeneratedHeaderLines(headers: seq<string>, bodyLines: nat, st: Stamp, preserveDate: bool)
    requires StampIsLine(st)
    ensures HeaderLines(Generated(headers, bodyLines, st, preserveDate))
  {
    FormatIsLine(bodyLines);
    XrefIsLine(st);
    GeneratedIdIsLine(st);
    LineIsLine("Date:", st.date);
    LineIsLine("NNTP-Posting-Host:", st.remote);
    LineIsLine("Message-ID:", GeneratedId(st));
    LineIsLine("Lines:", Format(bodyLines));
  }

  lemma RewrittenHeaderLines(headers: seq<string>, bodyLines: nat, st: Stamp, preserveDate: bool)
    requires HeaderLines(headers) && StampIsLine(st)
    ensures HeaderLines(Rewritten(headers, bodyLines, st, preserveDate))
  {
    WithoutHeaderLines(headers, Dropped(headers, preserveDate));
    GeneratedHeaderLines(headers, bodyLines, st, preserveDate);
  }

  lemma {:induction false} TrimIsLine(l: string)
    requires IsLine(l)
    ensures IsLine(Trim(l))
  {
    TrimIsTrimmed(l);
  }

  lemma PathHeaderLines(headers: seq<string>, hostname: string)
    requires HeaderLines(headers) && IsLine(hostname)
    ensures HeaderLines(PathUpdated(headers, hostname))
  {
    var i := FirstField(headers, PATH_KEY);
    if i < |headers| {
      TrimIsLine(headers[i][|PATH_KEY|..]);
    }
  }

  // ----- into the server -----

  /** A posted article reaches Post line for line. */
  lemma PostedIsParsed(headers: seq<string>, body: seq<string>, rest: string)
    requires headers != [] && HeaderLines(headers) && TextLines(body)
    requires !StartsWithDot(headers[0])
    requires |FileText(headers, body)| <= MAX_POST_SIZE
    ensures var wire := Encode(headers + [""] + body);
            ReadsAs(wire + rest, Complete(FileText(headers, body)), |wire|)
    ensures var lines := AllLines(StripCR(FileText(headers, body)));
            HeadOf(lines) == headers && BodyOf(lines) == body
  {
    var ls := headers + [""] + body;
    assert ls[0] == headers[0];
    EncodedBodyRoundTrip(ls, rest);
    ParseFileText(headers, body);
  }

  // ----- and out again -----

  lemma {:induction false} ScannedFile(headers: seq<string>, body: seq<string>)
    requires HeaderLines(headers) && TextLines(body)
    requires NoLongerThan(headers, SCAN_LIMIT) && NoLongerThan(body, SCAN_LIMIT)
    ensures Scanned(FileText(headers, body)) == headers + [""] + body
  {
    var ls := headers + [""] + body;
    AllLinesOfUnlines(ls);
    ScannableAll(ls);
  }

  lemma ClipLine(l: string)
    requires IsLine(l)
    ensures Clip(l) == if |l| > SEND_LIMIT then l[..SEND_LIMIT] else l
    ensures IsLine(Clip(l)) && (l != "" ==> Clip(l) != "")
    ensures Clip(l) == l <==> |l| <= SEND_LIMIT
  {
    BeforeCRNone(l);
  }

  lemma ClipAllParts(headers: seq<string>, body: seq<string>)
    requires HeaderLines(headers) && TextLines(body)
    ensures ClipAll(headers + [""] + body) == ClipAll(headers) + [""] + ClipAll(body)
    ensures HeaderLines(ClipAll(headers)) && TextLines(ClipAll(body))
    ensures ClipAll(body) == body <==> NoLongerThan(body, SEND_LIMIT)
  {
    forall i | 0 <= i < |headers| ensures ClipAll(headers)[i] != "" && IsLine(ClipAll(headers)[i]) {
      ClipLine(headers[i]);
    }
    forall i | 0 <= i < |body|
      ensures IsLine(ClipAll(body)[i]) && (ClipAll(body)[i] == body[i] <==> |body[i]| <= SEND_LIMIT)
    {
      ClipLine(body[i]);
    }
    ClipLine("");
    if !NoLongerThan(body, SEND_LIMIT) {
      var i :| 0 <= i < |body| && |body[i]| > SEND_LIMIT;
      assert ClipAll(body)[i] != body[i];
    } else {
      assert ClipAll(body) == body;
    }
  }

  lemma SentIsWire(head: seq<string>, body: seq<string>)
    requires HeaderLines(head)
    ensures SentLines(head + [""] + body, true, true) == Wire(head + [""] + body)
  {
    PartsOf(head, body);
    WireConcat(head + [""], body);
    WireSnoc(head, "");
    assert Stuff("") + "\r\n" == "\r\n";
  }

  lemma SentFile(headers: seq<string>, body: seq<string>)
    requires HeaderLines(headers) && TextLines(body)
    requires NoLongerThan(headers, SCAN_LIMIT) && NoLongerThan(body, SCAN_LIMIT)
    ensures Sent(FileText(headers, body), true, true) == Wire(ClipAll(headers) + [""] + ClipAll(body))
  {
    ScannedFile(headers, body);
    ClipAllParts(headers, body);
    SentIsWire(ClipAll(headers), ClipAll(body));
  }

  lemma PartsAreText(head: seq<string>, body: seq<string>)
    requires HeaderLines(head) && TextLines(body)
    ensures forall l :: l in head + [""] + body ==> IsLine(l)
  {
  }

  /**
    What ARTICLE sends for a stored file is read by a client as the stored lines, each cut to the
    sending limit; so the body comes back unchanged exactly when none of its lines exceeds it.
   */
  lemma SentIsReadBack(headers: seq<string>, body: seq<string>, after: string)
    requires HeaderLines(headers) && TextLines(body)
    requires NoLongerThan(headers, SCAN_LIMIT) && NoLongerThan(body, SCAN_LIMIT)
    ensures ReadBlock(Sent(FileText(headers, body), true, true) + (".\r\n" + after)) ==
            Some((ClipAll(headers) + [""] + ClipAll(body), after))
    ensures ClipAll(body) == body <==> NoLongerThan(body, SEND_LIMIT)
  {
    SentFile(headers, body);
    ClipAllParts(headers, body);
    var ls := ClipAll(headers) + [""] + ClipAll(body);
    PartsAreText(ClipAll(headers), ClipAll(body));
    ReadBlockOfWire(ls, after);
  }

  lemma PartsAreWire(head: seq<string>, body: seq<string>)
    requires HeaderLines(head)
    ensures SentLines(head + [""] + body, true, false) == Wire(head)
    ensures SentLines(head + [""] + body, false, true) == Wire(body)
  {
    PartsOf(head, body);
    NothingBeside(Wire(head));
    NothingBeside(Wire(body));
  }

  lemma NothingBeside(s: string)
    ensures s + "" + "" == s && "" + "" + s == s
  {
  }

  lemma SentParts(headers: seq<string>, body: seq<string>)
    requires HeaderLines(headers) && TextLines(body)
    requires NoLongerThan(headers, SCAN_LIMIT) && NoLongerThan(body, SCAN_LIMIT)
    ensures Sent(FileText(headers, body), true, false) == Wire(ClipAll(headers))
    ensures Sent(FileText(headers, body), false, true) == Wire(ClipAll(body))
  {
    ScannedFile(headers, body);
    ClipAllParts(headers, body);
    PartsAreWire(ClipAll(headers), ClipAll(body));
  }

  lemma WireOfBlankFirst(body: seq<string>)
    ensures Wire([""] + body) == "\r\n" + Wire(body)
  {
    WireConcat([""], body);
    WireOfOne("");
    assert Stuff("") + "\r\n" == "\r\n";
  }

  lemma WireIsReadBack(out: string, ls: seq<string>, after: string)
    requires out == Wire(ls) && forall l :: l in ls ==> IsLine(l)
    ensures ReadBlock(out + (".\r\n" + after)) == Some((ls, after))
  {
    ReadBlockOfWire(ls, after);
  }

  lemma BlankFirstIsReadBack(out: string, body: seq<string>, after: string)
    requires out == Wire(body) && TextLines(body)
    ensures ReadBlock("\r\n" + out + (".\r\n" + after)) == Some(([""] + body, after))
  {
    WireOfBlankFirst(body);
    WireIsReadBack("\r\n" + out, [""] + body, after);
  }

  lemma HeadIsReadBack(headers: seq<string>, body: seq<string>, after: string)
    requires HeaderLines(headers) && TextLines(body)
    requires NoLongerThan(headers, SCAN_LIMIT) && NoLongerThan(body, SCAN_LIMIT)
    ensures ReadBlock(Sent(FileText(headers, body), true, false) + (".\r\n" + after)) == Some((ClipAll(headers), after))
  {
    SentParts(headers, body);
    ClipAllParts(headers, body);
    WireIsReadBack(Sent(FileText(headers, body), true, false), ClipAll(headers), after);
  }

  lemma BodyIsReadBack(headers: seq<string>, body: seq<string>, after: string)
    requires HeaderLines(headers) && TextLines(body)
    requires NoLongerThan(headers, SCAN_LIMIT) && NoLongerThan(body, SCAN_LIMIT)
    ensures ReadBlock("\r\n" + Sent(FileText(headers, body), false, true) + (".\r\n" + after)) ==
            Some(([""] + ClipAll(body), after))
  {
    SentParts(headers, body);
    ClipAllParts(headers, body);
    BlankFirstIsReadBack(Sent(FileText(headers, body), false, true), ClipAll(body), after);
  }

  /** What HEAD sends is read as the header lines alone; what BODY sends, as a blank line and the body lines. */
  lemma PartsAreReadBack(headers: seq<string>, body: seq<string>, after: string)
    requires HeaderLines(headers) && TextLines(body)
    requires NoLongerThan(headers, SCAN_LIMIT) && NoLongerThan(body, SCAN_LIMIT)
    ensures ReadBlock(Sent(FileText(headers, body), true, false) + (".\r\n" + after)) == Some((ClipAll(headers), after))
    ensures ReadBlock("\r\n" + Sent(FileText(headers, body), false, true) + (".\r\n" + after)) ==
            Some(([""] + ClipAll(body), after))
  {
    HeadIsReadBack(headers, body, after);
    BodyIsReadBack(headers, body, after);
  }

  /**
    End to end: the lines a client posts come back from ARTICLE with the same body. The header is
    the client's with Path updated and rewritten by Post. Nothing of what the client pipelined after
    its article, or of what the server sends after its own, is touched.
   */
  lemma PostThenArticle(headers: seq<string>, body: seq<string>, rest: string, after: string,
                        hostname: string, st: Stamp, preserveDate: bool)
    requires headers != [] && HeaderLines(headers) && TextLines(body)
    requires !StartsWithDot(headers[0])
    requires |FileText(headers, body)| <= MAX_POST_SIZE
    requires IsLine(hostname) && StampIsLine(st)
    requires NoLongerThan(body, SEND_LIMIT)
    requires NoLongerThan(Rewritten(PathUpdated(headers, hostname), |body|, st, preserveDate), SEND_LIMIT)
    ensures var wire := Encode(headers + [""] + body);
            var text := FileText(headers, body);
            var stored := Rewritten(PathUpdated(headers, hostname), |body|, st, preserveDate);
            && ReadsAs(wire + rest, Complete(text), |wire|)
            && HeadOf(AllLines(StripCR(text))) == headers && BodyOf(AllLines(StripCR(text))) == body
            && ReadBlock(Sent(FileText(stored, body), true, true) + (".\r\n" + after)) ==
               Some((stored + [""] + body, after))
  {
    PostedIsParsed(headers, body, rest);
    var path := PathUpdated(headers, hostname);
    var stored := Rewritten(path, |body|, st, preserveDate);
    PathHeaderLines(headers, hostname);
    RewrittenHeaderLines(path, |body|, st, preserveDate);
    SentIsReadBack(stored, body, after);
    ClipAllParts(stored, body);
    ClipAllParts(stored, stored);
  }

  // ----- looked up again -----

  lemma FoldedAsKey(h: string, key: string)
    requires key != "" && IsField(h, key)
    ensures Folded(h) <==> Folded(key)
  {
    assert Lower(h[..|key|])[0] == LowerChar(h[0]);
  }

  /** What a look-up in the file makes of the header lines: the first of that name, with its continuation lines. */
  function RawValue(headers: seq<string>, key: string): string {
    var i := FirstField(headers, key);
    if i < |headers| && !Folded(headers[i]) then Trim(headers[i][|key|..]) + Continued(headers[i + 1..]) else ""
  }

  lemma NoRawOfFoldedKey(headers: seq<string>, key: string)
    requires Folded(key)
    ensures RawValue(headers, key) == ""
  {
    var i := FirstField(headers, key);
    if i < |headers| {
      FoldedAsKey(headers[i], key);
    }
  }

  lemma {:induction false} BeforeCRTwice(line: string)
    ensures BeforeCR(BeforeCR(line)) == BeforeCR(line)
  {
    if line != "" && line[0] != '\r' {
      BeforeCRTwice(line[1..]);
      assert BeforeCR(line)[1..] == BeforeCR(line[1..]);
    }
  }

  /** The header lines of any file, as the readers see them. */
  function HeaderOf(tokens: seq<string>): seq<string> {
    if |tokens| == 0 || |BeforeCR(tokens[0])| == 0 then [] else [BeforeCR(tokens[0])] + HeaderOf(tokens[1..])
  }

  lemma {:induction false} HeaderOfLines(headers: seq<string>, rest: seq<string>)
    requires HeaderLines(headers) && rest != [] && rest[0] == ""
    ensures HeaderOf(headers + rest) == headers
  {
    var tokens := headers + rest;
    if headers == [] {
      assert tokens[0] == "";
    } else {
      BeforeCRNone(headers[0]);
      assert tokens[1..] == headers[1..] + rest;
      HeaderOfLines(headers[1..], rest);
    }
  }

  lemma {:induction false} ContinuedOf(tokens: seq<string>)
    ensures Continued(tokens) == Continued(HeaderOf(tokens))
  {
    if |tokens| > 0 && |BeforeCR(tokens[0])| > 0 {
      BeforeCRTwice(tokens[0]);
      ContinuedOf(tokens[1..]);
      assert HeaderOf(tokens)[1..] == HeaderOf(tokens[1..]);
    }
  }

  lemma RawValueHere(line: string, rest: seq<string>, key: string)
    requires IsField(line, key)
    ensures RawValue([line] + rest, key) == if Folded(line) then "" else Trim(line[|key|..]) + Continued(rest)
  {
    assert ([line] + rest)[1..] == rest;
    FirstFieldIs([line] + rest, key, 0);
  }

  lemma RawValueLater(line: string, rest: seq<string>, key: string)
    requires !IsField(line, key)
    ensures RawValue([line] + rest, key) == RawValue(rest, key)
  {
    var all, i := [line] + rest, FirstField(rest, key);
    FirstFieldIs(all, key, 1 + i);
    if i < |rest| {
      assert all[1 + i] == rest[i] && all[1 + i + 1..] == rest[i + 1..];
    }
  }

  /** In any file the look-up gives the first header of that name with its continuation lines. */
  lemma {:induction false} RawOfAnyFile(tokens: seq<string>, key: string)
    requires key != ""
    ensures FindRaw(tokens, key) == RawValue(HeaderOf(tokens), key)
  {
    if |tokens| > 0 && |BeforeCR(tokens[0])| > 0 {
      var line, rest := BeforeCR(tokens[0]), HeaderOf(tokens[1..]);
      RawOfAnyFile(tokens[1..], key);
      ContinuedOf(tokens[1..]);
      if IsField(line, key) {
        RawValueHere(line, rest, key);
        FoldedAsKey(line, key);
        if Folded(key) {
          NoRawOfFoldedKey(rest, key);
        }
      } else {
        RawValueLater(line, rest, key);
      }
    }
  }

  /** A header with one continuation line reads as its value, a space and that line, both trimmed. */
  lemma OneContinuation(line: string, more: string, rest: seq<string>, key: string)
    requires IsField(line, key) && !Folded(line) && Folded(more) && IsLine(more) && BeginsAnew(rest) && key != ""
    requires HeaderLines(rest)
    ensures RawValue([line, more] + rest, key) == Trim(line[|key|..]) + " " + Trim(more)
  {
    var headers := [line, more] + rest;
    assert headers[1..][0] == more && headers[1..][1..] == rest;
    BeforeCRNone(more);
    if rest != [] {
      BeforeCRNone(rest[0]);
    }
    assert Continued(rest) == "" && Continued(headers[1..]) == " " + Trim(more) + "";
  }

  /** The lines do not begin with a continuation. */
  predicate BeginsAnew(ls: seq<string>) {
    |ls| > 0 ==> !Folded(ls[0])
  }

  /** No continuation line comes right after line i. */
  predicate EndsAt(headers: seq<string>, i: nat) {
    i + 1 < |headers| ==> !Folded(headers[i + 1])
  }

  /**
    The look-up in the file of a stored article gives the first header of that name with its continuation
    lines; that is the value the look-up in the header lines gives if and only if it has none.
   */
  lemma RawIsHeaderValue(headers: seq<string>, body: seq<string>, field: string)
    requires HeaderLines(headers) && TextLines(body)
    requires NoLongerThan(headers, SCAN_LIMIT) && NoLongerThan(body, SCAN_LIMIT)
    requires FieldKey(Target(field))
    ensures RawHeader(FileText(headers, body), field) == RawValue(headers, Target(field))
    ensures !Folded(Target(field)) ==>
              (RawHeader(FileText(headers, body), field) == HeaderValue(headers, Target(field)).GetOr("")
               <==> EndsAt(headers, FirstField(headers, Target(field))))
  {
    var key := Target(field);
    ScannedFile(headers, body);
    assert headers + [""] + body == headers + ([""] + body);
    HeaderOfLines(headers, [""] + body);
    RawOfAnyFile(headers + [""] + body, key);
    if !Folded(key) {
      RawIsValueIff(headers, key);
    }
  }

  lemma RawIsValueIff(headers: seq<string>, key: string)
    requires HeaderLines(headers) && FieldKey(key) && !Folded(key)
    ensures RawValue(headers, key) == HeaderValue(headers, key).GetOr("") <==> EndsAt(headers, FirstField(headers, key))
  {
    var i := FirstField(headers, key);
    if i < |headers| {
      FoldedAsKey(headers[i], key);
      ContinuedBlank(headers, i);
      assert HeaderValue(headers, key) == Some(Trim(headers[i][|key|..]));
    }
  }

  lemma ContinuedBlank(headers: seq<string>, i: nat)
    requires HeaderLines(headers) && i < |headers|
    ensures Continued(headers[i + 1..]) == "" <==> EndsAt(headers, i)
  {
    if i + 1 < |headers| {
      assert headers[i + 1..][0] == headers[i + 1] && headers[i + 1] in headers;
      BeforeCRNone(headers[i + 1]);
    }
  }

  // ----- found again -----

  lemma StoredMessageId(headers: seq<string>, body: seq<string>)
    requires HeaderLines(headers) && TextLines(body)
    requires NoLongerThan(headers, SCAN_LIMIT) && NoLongerThan(body, SCAN_LIMIT)
    ensures MessageIdOf(FileText(headers, body)) == HeaderValue(headers, MESSAGE_ID_KEY)
  {
    FindIdInHead(Scanned(FileText(headers, body)));
    ScannedFile(headers, body);
    PartsOf(headers, body);
  }

  lemma FindsTheEnd(ids: Ids, id: string, start: nat, end: nat)
    requires end in ids && ids[end] == id
    ensures Find(ids, id, start, end) == Hit(end) <==> start <= end
  {
  }

  /**
    Right after a post, searching the reloaded group for the article's Message-ID gives the new
    article -- whatever .info said before, exactly when Start does not lie above the new number.
   */
  lemma PostedIsFound(v: GroupView, server: string, group: string, date: string, remote: string, mtime: int,
                      headers: seq<string>, body: seq<string>, preserveDate: bool)
    requires HeaderLines(headers) && TextLines(body)
    requires StampIsLine(Stamp(server, group, NextNumber(v), date, remote))
    requires NoLongerThan(body, SCAN_LIMIT)
    requires NoLongerThan(Rewritten(headers, |body|, Stamp(server, group, NextNumber(v), date, remote), preserveDate),
                          SCAN_LIMIT)
    ensures var n := NextNumber(v);
            var after := PostView(v, Posted(server, group, date, remote, mtime, headers, body, preserveDate));
            var stored := Rewritten(headers, |body|, Stamp(server, group, n, date, remote), preserveDate);
            && HasField(stored, MESSAGE_ID_KEY)
            && var id := HeaderValue(stored, MESSAGE_ID_KEY).value;
               var i := LoadView(after).info.value;
               Find(IdsOf(after), id, i.start, i.end) == Hit(n) <==> i.start <= n
  {
    var n := NextNumber(v);
    var st := Stamp(server, group, n, date, remote);
    var stored := Rewritten(headers, |body|, st, preserveDate);
    RewrittenHeaderLines(headers, |body|, st, preserveDate);
    RewrittenFields(headers, |body|, st, preserveDate);
    StoredMessageId(stored, body);
    var after := PostView(v, Posted(server, group, date, remote, mtime, headers, body, preserveDate));
    assert after.files[n].text == FileText(stored, body);
    assert after.info.value.end == n;
    FindsTheEnd(IdsOf(after), HeaderValue(stored, MESSAGE_ID_KEY).value, LoadView(after).info.value.start, n);
  }
}
