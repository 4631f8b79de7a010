/**
  Articles as text: parsing a posted message (internal/group/group.go, ParseArticle), the stored file,
  and reading it back (internal/article/article.go; internal/group/group.go, GetMessageID).
 */
module ArticleFile {
  import opened Text
  import opened Lines

  // ----- ParseArticle -----

  method ParseArticle(msg: string) returns (headers: seq<string>, body: seq<string>)
    ensures headers == HeadOf(AllLines(StripCR(msg)))
    ensures body == BodyOf(AllLines(StripCR(msg)))
  {
    headers, body := [], [];
    var inHeader := true;
    var line := "";
    for i := 0 to |msg|
      invariant line == Tail(StripCR(msg[..i]))
      invariant inHeader <==> !HasBlank(FullLines(StripCR(msg[..i])))
      invariant headers == HeadOf(FullLines(StripCR(msg[..i])))
      invariant body == BodyOf(FullLines(StripCR(msg[..i])))
    {
      var c := msg[i];
      StripStep(msg, i);
      if c == '\r' {
        continue;
      }
      ghost var t := StripCR(msg[..i]);
      LinesOneByte(t, c);
      if c == '\n' {
        PartsStep(FullLines(t), line);
        var s := line;
        line := "";
        if inHeader {
          if s == "" {
            inHeader := false;
            continue;
          }
          headers := headers + [s];
        } else {
          body := body + [s];
        }
        continue;
      }
      line := line + [c];
    }
    assert msg[..|msg|] == msg;
    PartsStep(FullLines(StripCR(msg)), line);
    if |line| > 0 {
      if inHeader {
        headers := headers + [line];
      } else {
        body := body + [line];
      }
    }
  }

  /** The article file: header lines, a blank line, body lines. */
  function FileText(headers: seq<string>, body: seq<string>): string {
    Unlines(headers + [""] + body)
  }

  /** Parsing a well-formed text gives back its header and body. */
  lemma ParseFileText(headers: seq<string>, body: seq<string>)
    requires forall h :: h in headers ==> h != "" && IsLine(h)
    requires forall b :: b in body ==> IsLine(b)
    ensures HeadOf(AllLines(StripCR(FileText(headers, body)))) == headers
    ensures BodyOf(AllLines(StripCR(FileText(headers, body)))) == body
  {
    var ls := headers + [""] + body;
    forall l | l in ls ensures IsLine(l) {
      assert l in headers || l == "" || l in body;
    }
    UnlinesHasNoCR(ls);
    StripNothing(Unlines(ls));
    AllLinesOfUnlines(ls);
    PartsOf(headers, body);
  }

  /** What the parser makes of any message has no line ending inside, and its header lines are not blank. */
  lemma ParsedLinesAreClean(msg: string)
    ensures forall h :: h in HeadOf(AllLines(StripCR(msg))) ==> h != "" && IsLine(h)
    ensures forall b :: b in BodyOf(AllLines(StripCR(msg))) ==> IsLine(b)
  {
    var ls := AllLines(StripCR(msg));
    AllLinesShape(StripCR(msg));
    StrippedHasNoCR(msg);
    forall l | l in ls ensures IsLine(l) {
      assert l in FullLines(StripCR(msg)) || l == Tail(StripCR(msg));
    }
    forall h | h in HeadOf(ls) ensures h != "" && IsLine(h) {
      var k :| 0 <= k < FirstBlank(ls) && ls[k] == h;
    }
  }

  lemma {:induction false} StrippedHasNoCR(s: string)
    ensures '\r' !in StripCR(s)
  {
    if s != "" {
      StrippedHasNoCR(s[..|s| - 1]);
    }
  }

  // ----- bufio.Scanner over an article file -----

  /** The longest line the scanner's 64 KiB buffer holds together with its line feed. */
  const SCAN_LIMIT := 65535

  function DropCR(raw: string): string {
    if |raw| > 0 && raw[|raw| - 1] == '\r' then raw[..|raw| - 1] else raw
  }

  /** The lines of a file that come before the first one too long to scan. */
  function ScannableFrom(ls: seq<string>): seq<string> {
    if |ls| == 0 || |ls[0]| > SCAN_LIMIT then [] else [DropCR(ls[0])] + ScannableFrom(ls[1..])
  }

  function Scanned(text: string): seq<string> {
    ScannableFrom(AllLines(text))
  }

  predicate ScanFails(text: string) {
    |Scanned(text)| < |AllLines(text)|
  }

  lemma {:induction false} ScannableIs(ls: seq<string>)
    ensures var n := |ScannableFrom(ls)|;
            && n <= |ls| && (n < |ls| ==> |ls[n]| > SCAN_LIMIT)
            && forall i :: 0 <= i < n ==> |ls[i]| <= SCAN_LIMIT && ScannableFrom(ls)[i] == DropCR(ls[i])
  {
    if |ls| > 0 && |ls[0]| <= SCAN_LIMIT {
      ScannableIs(ls[1..]);
    }
  }

  /** The scanner gives the lines up to the first that is too long for it, and fails if there is one. */
  lemma ScansUpTo(text: string)
    ensures var ls, n := AllLines(text), |Scanned(text)|;
            && n <= |ls| && (n < |ls| ==> |ls[n]| > SCAN_LIMIT)
            && (forall i :: 0 <= i < n ==> |ls[i]| <= SCAN_LIMIT && Scanned(text)[i] == DropCR(ls[i]))
            && (ScanFails(text) <==> exists i :: 0 <= i < |ls| && |ls[i]| > SCAN_LIMIT)
  {
    ScannableIs(AllLines(text));
  }

  lemma {:induction false} ScannableAll(ls: seq<string>)
    requires forall l :: l in ls ==> '\r' !in l && |l| <= SCAN_LIMIT
    ensures ScannableFrom(ls) == ls
  {
    if ls != [] {
      assert ls[0] in ls;
      ScannableAll(ls[1..]);
    }
  }

  /** A scanned line up to its first carriage return. */
  function BeforeCR(line: string): string {
    if |line| == 0 || line[0] == '\r' then "" else [line[0]] + BeforeCR(line[1..])
  }

  lemma {:induction false} BeforeCRNone(line: string)
    requires '\r' !in line
    ensures BeforeCR(line) == line
  {
    if line != "" {
      BeforeCRNone(line[1..]);
    }
  }

  // ----- SendArticle -----

  /** The most of a line that is sent. */
  const SEND_LIMIT := 4092

  function Clip(line: string): string {
    var l := BeforeCR(line);
    if |l| > SEND_LIMIT then l[..SEND_LIMIT] else l
  }

  function ClipAll(ls: seq<string>): (r: seq<string>)
    ensures |r| == |ls|
  {
    seq(|ls|, i requires 0 <= i < |ls| => Clip(ls[i]))
  }

  /** What the file says, as far as the sender can read it. */
  function Sendable(text: string): seq<string> {
    ClipAll(Scanned(text))
  }

  function SentLines(ls: seq<string>, sendHead: bool, sendBody: bool): string {
    (if sendHead then Wire(HeadOf(ls)) else "")
    + (if sendHead && sendBody && HasBlank(ls) then "\r\n" else "")
    + (if sendBody then Wire(BodyOf(ls)) else "")
  }

  /** The bytes SendArticle writes. */
  function Sent(text: string, sendHead: bool, sendBody: bool): string {
    SentLines(Sendable(text), sendHead, sendBody)
  }

  datatype Mode = Head | Separator | Body

  method SendArticle(text: string, sendHead: bool, sendBody: bool) returns (out: string)
    ensures out == Sent(text, sendHead, sendBody)
  {
    out := SendLines(Scanned(text), sendHead, sendBody);
  }

  /** One turn of the scanning loop: the next mode, the bytes written, whether to stop reading. */
  method SendLine(line: string, mode0: Mode, sendHead: bool, sendBody: bool)
    returns (mode: Mode, out: string, stop: bool)
    requires !mode0.Head? ==> sendBody
    ensures out == Adds(!mode0.Head?, line, sendHead, sendBody)
    ensures stop <==> mode0.Head? && line == "" && !sendBody
    ensures mode == if !mode0.Head? then Body else if line == "" then Separator else Head
  {
    mode, out, stop := mode0, "", false;
    if mode == Separator {
      mode := Body;
    }
    if mode == Head && line == "" {
      mode := Separator;
      if !sendBody {
        stop := true;
        return;
      }
      if sendHead && sendBody {
        out := "\r\n";
      }
      return;
    }
    var send := (mode == Head && sendHead) || (mode == Body && sendBody) || (mode == Separator && sendHead && sendBody);
    if !send {
      return;
    }
    out := Stuff(line) + "\r\n";
  }

  /** The scanning loop of SendArticle. */
  method SendLines(tokens: seq<string>, sendHead: bool, sendBody: bool) returns (out: string)
    ensures out == SentLines(ClipAll(tokens), sendHead, sendBody)
  {
    out := "";
    var mode := Head;
    var i := 0;
    while i < |tokens|
      invariant i <= |tokens| && SentSoFar(ClipAll(tokens)[..i], mode, out, sendHead, sendBody)
    {
      var stop;
      mode, out, stop := SendNext(tokens, i, mode, out, sendHead, sendBody);
      if stop {
        return;
      }
      i := i + 1;
    }
    TakeAll(ClipAll(tokens));
  }

  /** What the sending loop has written for the lines so far, and the mode it is in. */
  ghost predicate SentSoFar(ls: seq<string>, mode: Mode, out: string, sendHead: bool, sendBody: bool) {
    && (mode.Head? <==> !HasBlank(ls)) && (!mode.Head? ==> sendBody)
    && out == SentLines(ls, sendHead, sendBody)
  }

  /** The loop body of the sender. */
  method SendNext(tokens: seq<string>, i: nat, mode0: Mode, out0: string, sendHead: bool, sendBody: bool)
    returns (mode: Mode, out: string, stop: bool)
    requires i < |tokens| && SentSoFar(ClipAll(tokens)[..i], mode0, out0, sendHead, sendBody)
    ensures !stop ==> SentSoFar(ClipAll(tokens)[..i + 1], mode, out, sendHead, sendBody)
    ensures stop ==> out == SentLines(ClipAll(tokens), sendHead, sendBody)
  {
    var line := Clip(tokens[i]);
    ClipAt(tokens, i);
    SentStep(ClipAll(tokens)[..i], line, sendHead, sendBody);
    var written;
    mode, written, stop := SendLine(line, mode0, sendHead, sendBody);
    out := out0 + written;
    if stop {
      HeadIsEnough(ClipAll(tokens), i + 1, sendHead);
    }
  }

  lemma TakeAll(ls: seq<string>)
    ensures ls[..|ls|] == ls
  {
  }

  /** What one more line adds to the output, by the part it stands in. */
  function Adds(inBody: bool, l: string, sendHead: bool, sendBody: bool): string {
    if inBody then (if sendBody then Stuff(l) + "\r\n" else "")
    else if l == "" then (if sendHead && sendBody then "\r\n" else "")
    else if sendHead then Stuff(l) + "\r\n" else ""
  }

  lemma SentBodyLine(ls: seq<string>, l: string, sendHead: bool, sendBody: bool)
    requires HasBlank(ls)
    ensures HasBlank(ls + [l])
    ensures SentLines(ls + [l], sendHead, sendBody) ==
            SentLines(ls, sendHead, sendBody) + (if sendBody then Stuff(l) + "\r\n" else "")
  {
    PartsStep(ls, l);
    WireSnoc(BodyOf(ls), l);
  }

  lemma SentSeparator(ls: seq<string>, sendHead: bool, sendBody: bool)
    requires !HasBlank(ls)
    ensures HasBlank(ls + [""])
    ensures SentLines(ls + [""], sendHead, sendBody) ==
            SentLines(ls, sendHead, sendBody) + (if sendHead && sendBody then "\r\n" else "")
  {
    PartsStep(ls, "");
  }

  lemma SentHeadLine(ls: seq<string>, l: string, sendHead: bool, sendBody: bool)
    requires !HasBlank(ls) && l != ""
    ensures !HasBlank(ls + [l])
    ensures SentLines(ls + [l], sendHead, sendBody) ==
            SentLines(ls, sendHead, sendBody) + (if sendHead then Stuff(l) + "\r\n" else "")
  {
    PartsStep(ls, l);
    WireSnoc(HeadOf(ls), l);
  }

  lemma SentStep(ls: seq<string>, l: string, sendHead: bool, sendBody: bool)
    ensures HasBlank(ls + [l]) <==> HasBlank(ls) || l == ""
    ensures SentLines(ls + [l], sendHead, sendBody) ==
            SentLines(ls, sendHead, sendBody) + Adds(HasBlank(ls), l, sendHead, sendBody)
  {
    if HasBlank(ls) {
      SentBodyLine(ls, l, sendHead, sendBody);
    } else if l == "" {
      SentSeparator(ls, sendHead, sendBody);
    } else {
      SentHeadLine(ls, l, sendHead, sendBody);
    }
  }

  lemma ClipAt(tokens: seq<string>, i: nat)
    requires i < |tokens|
    ensures ClipAll(tokens)[..i + 1] == ClipAll(tokens)[..i] + [Clip(tokens[i])]
  {
  }

  /** Without the body, nothing after the blank line matters. */
  lemma HeadIsEnough(ls: seq<string>, i: nat, sendHead: bool)
    requires i <= |ls| && HasBlank(ls[..i])
    ensures SentLines(ls[..i], sendHead, false) == SentLines(ls, sendHead, false)
  {
    assert ls[..i][FirstBlank(ls[..i])] == ls[FirstBlank(ls[..i])];
    assert forall k :: 0 <= k < FirstBlank(ls[..i]) ==> ls[k] == ls[..i][k];
    assert FirstBlank(ls) == FirstBlank(ls[..i]);
    assert HeadOf(ls) == HeadOf(ls[..i]);
  }

  /** ARTICLE's bytes are HEAD's bytes, CRLF if there is a blank line, and BODY's bytes. */
  lemma ArticleIsHeadAndBody(text: string)
    ensures Sent(text, true, true) ==
            Sent(text, true, false) + (if HasBlank(Sendable(text)) then "\r\n" else "") + Sent(text, false, true)
  {
    var ls := Sendable(text);
    var head, body := Wire(HeadOf(ls)), Wire(BodyOf(ls));
    assert Sent(text, true, false) == head + "" + "" == head;
    assert Sent(text, false, true) == "" + "" + body == body;
  }

  // ----- the client's side, section 3.1.1 of RFC 3977 -----

  /** The index of the first CRLF, or the length. */
  function FirstCRLF(w: string): (i: nat)
    ensures i <= |w|
    ensures i < |w| ==> i + 1 < |w| && w[i] == '\r' && w[i + 1] == '\n'
  {
    if |w| < 2 then |w|
    else if w[0] == '\r' && w[1] == '\n' then 0
    else 1 + FirstCRLF(w[1..])
  }

  /** A multi-line block as a client reads it: the lines without their stuffing, and what follows the lone dot. */
  function ReadBlock(w: string): Option<(seq<string>, string)>
    decreases |w|
  {
    var i := FirstCRLF(w);
    if i == |w| then None
    else
      var line, rest := w[..i], w[i + 2..];
      if line == "." then Some(([], rest))
      else
        match ReadBlock(rest)
        case None => None
        case Some((ls, after)) => Some(([if StartsWithDot(line) then line[1..] else line] + ls, after))
  }

  lemma {:induction false} FirstCRLFAfterLine(l: string, rest: string)
    requires IsLine(l)
    ensures FirstCRLF(l + "\r\n" + rest) == |l|
  {
    var w := l + "\r\n" + rest;
    if l != "" {
      assert w[1..] == l[1..] + "\r\n" + rest;
      FirstCRLFAfterLine(l[1..], rest);
    }
  }

  lemma ReadOneLine(l: string, w: string)
    requires IsLine(l)
    ensures ReadBlock(Stuff(l) + "\r\n" + w) ==
            match ReadBlock(w)
            case None => None
            case Some((ls, after)) => Some(([l] + ls, after))
  {
    var s := Stuff(l);
    FirstCRLFAfterLine(s, w);
    var all := s + "\r\n" + w;
    assert all[..|s|] == s && all[|s| + 2..] == w;
    assert s != ".";
    assert (if StartsWithDot(s) then s[1..] else s) == l;
  }

  lemma ReadEnd(after: string)
    ensures ReadBlock(".\r\n" + after) == Some(([], after))
  {
    FirstCRLFAfterLine(".", after);
    var w := ".\r\n" + after;
    assert w == "." + "\r\n" + after;
    assert w[..1] == "." && w[3..] == after;
  }

  lemma WireOfOne(l: string)
    ensures Wire([l]) == Stuff(l) + "\r\n"
  {
    WireSnoc([], l);
    assert [] + [l] == [l];
  }

  lemma WireFirst(ls: seq<string>, tail: string)
    requires ls != []
    ensures Wire(ls) + tail == Stuff(ls[0]) + "\r\n" + (Wire(ls[1..]) + tail)
  {
    assert [ls[0]] + ls[1..] == ls;
    WireConcat([ls[0]], ls[1..]);
    WireOfOne(ls[0]);
    var a, b := Stuff(ls[0]) + "\r\n", Wire(ls[1..]);
    assert (a + b) + tail == a + (b + tail);
  }

  lemma {:induction false} ReadBlockBefore(ls: seq<string>, tail: string, after: string)
    requires forall i :: 0 <= i < |ls| ==> IsLine(ls[i])
    requires ReadBlock(tail) == Some(([], after))
    ensures ReadBlock(Wire(ls) + tail) == Some((ls, after))
  {
    if ls == [] {
      assert Wire(ls) + tail == tail;
    } else {
      ReadBlockBefore(ls[1..], tail, after);
      var w := Wire(ls[1..]) + tail;
      ReadOneLine(ls[0], w);
      var first := Stuff(ls[0]) + "\r\n" + w;
      assert ReadBlock(first) == Some(([ls[0]] + ls[1..], after));
      assert [ls[0]] + ls[1..] == ls;
      assert Wire(ls) + tail == first by {
        WireFirst(ls, tail);
      }
    }
  }

  /** A client gets back exactly the lines that were sent, and none of them reads as the end. */
  lemma ReadBlockOfWire(ls: seq<string>, after: string)
    requires forall l :: l in ls ==> IsLine(l)
    ensures ReadBlock(Wire(ls) + (".\r\n" + after)) == Some((ls, after))
    ensures forall l :: l in ls ==> Stuff(l) != "."
  {
    ReadEnd(after);
    ReadBlockBefore(ls, ".\r\n" + after, after);
  }
}
