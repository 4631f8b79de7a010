/**
  Header lists (internal/group/group.go): look-up, the Path update, and the rewrite Post does
  before it writes an article.
 */
module Headers {
  import opened Text

  // ----- look-up -----

  /** A header name as look-ups compare it: lower case, ending in its only colon. */
  predicate FieldKey(key: string) {
    && key != "" && key[|key| - 1] == ':'
    && (forall i :: 0 <= i < |key| - 1 ==> key[i] != ':')
    && Lower(key) == key
  }

  const PATH_KEY := "path:"
  const DATE_KEY := "date:"
  const HOST_KEY := "nntp-posting-host:"
  const MESSAGE_ID_KEY := "message-id:"
  const LINES_KEY := "lines:"
  const NEWSGROUPS_KEY := "newsgroups:"
  const FROM_KEY := "from:"
  const CONTROL_KEY := "control:"

  predicate IsField(h: string, key: string) {
    |h| >= |key| && Lower(h[..|key|]) == key
  }

  /** Two different names never claim the same line. */
  lemma OneFieldPerLine(h: string, a: string, b: string)
    requires FieldKey(a) && FieldKey(b) && IsField(h, a) && IsField(h, b)
    ensures a == b
  {
    var shorter := if |a| < |b| then |a| else |b|;
    assert forall i :: 0 <= i < shorter ==> a[i] == LowerChar(h[i]) == b[i];
  }

  /** The first line with the name, or the number of lines. */
  function FirstField(headers: seq<string>, key: string): (i: nat)
    ensures i <= |headers|
    ensures i < |headers| ==> IsField(headers[i], key)
    ensures forall k :: 0 <= k < i ==> !IsField(headers[k], key)
  {
    if headers == [] || IsField(headers[0], key) then 0 else 1 + FirstField(headers[1..], key)
  }

  predicate HasField(headers: seq<string>, key: string) {
    FirstField(headers, key) < |headers|
  }

  function HeaderValue(headers: seq<string>, key: string): Option<string> {
    var i := FirstField(headers, key);
    if i < |headers| then Some(Trim(headers[i][|key|..])) else None
  }

  /** An index with the properties of the first field is the first field. */
  lemma FirstFieldIs(headers: seq<string>, key: string, i: nat)
    requires i <= |headers|
    requires i < |headers| ==> IsField(headers[i], key)
    requires forall k :: 0 <= k < i ==> !IsField(headers[k], key)
    ensures FirstField(headers, key) == i
  {
  }

  lemma HasFieldIff(headers: seq<string>, key: string)
    ensures HasField(headers, key) <==> exists h :: h in headers && IsField(h, key)
  {
    if h :| h in headers && IsField(h, key) {
      var k :| 0 <= k < |headers| && headers[k] == h;
    }
  }

  method GetHeaderIndex(headers: seq<string>, key: string) returns (i: int)
    ensures HasField(headers, key) ==> i == FirstField(headers, key)
    ensures !HasField(headers, key) ==> i == -1
  {
    for k := 0 to |headers|
      invariant forall j :: 0 <= j < k ==> !IsField(headers[j], key)
    {
      if IsField(headers[k], key) {
        FirstFieldIs(headers, key, k);
        return k;
      }
    }
    FirstFieldIs(headers, key, |headers|);
    return -1;
  }

  method GetHeaderValue(headers: seq<string>, key: string) returns (r: Option<string>)
    ensures r == HeaderValue(headers, key)
  {
    for k := 0 to |headers|
      invariant forall j :: 0 <= j < k ==> !IsField(headers[j], key)
    {
      var h := headers[k];
      if |h| < |key| {
        continue;
      }
      if Lower(h[..|key|]) == key {
        FirstFieldIs(headers, key, k);
        return Some(Trim(h[|key|..]));
      }
    }
    FirstFieldIs(headers, key, |headers|);
    return None;
  }

  // ----- UpdatePath -----

  function PathLine(h: string, hostname: string): string
    requires IsField(h, PATH_KEY)
  {
    var rest := Trim(h[|PATH_KEY|..]);
    if rest != "" then "Path: " + hostname + ", " + rest else "Path: " + hostname
  }

  /** The first Path line gains the server name in front; without one, a Path line is added at the end. */
  function PathUpdated(headers: seq<string>, hostname: string): seq<string> {
    var i := FirstField(headers, PATH_KEY);
    if i < |headers| then headers[i := PathLine(headers[i], hostname)]
    else headers + ["Path: " + hostname]
  }

  method UpdatePath(headers0: seq<string>, hostname: string) returns (headers: seq<string>)
    ensures headers == PathUpdated(headers0, hostname)
  {
    headers := headers0;
    for i := 0 to |headers|
      invariant headers == headers0
      invariant forall j :: 0 <= j < i ==> !IsField(headers0[j], PATH_KEY)
    {
      var h := headers[i];
      if |h| >= |PATH_KEY| && Lower(h[..|PATH_KEY|]) == PATH_KEY {
        FirstFieldIs(headers0, PATH_KEY, i);
        var rest := Trim(h[|PATH_KEY|..]);
        if rest != "" {
          headers := headers[i := "Path: " + hostname + ", " + rest];
        } else {
          headers := headers[i := "Path: " + hostname];
        }
        return;
      }
    }
    FirstFieldIs(headers0, PATH_KEY, |headers|);
    headers := headers + ["Path: " + hostname];
  }

  lemma IsPathLine(rest: string)
    ensures IsField("Path:" + rest, PATH_KEY)
  {
    assert ("Path:" + rest)[..5] == "Path:";
    assert Lower("Path:") == PATH_KEY;
  }

  /** Updating Path leaves every other field's value as it was, the target group among them. */
  lemma PathUpdateKeepsFields(headers: seq<string>, hostname: string, key: string)
    requires FieldKey(key) && key != PATH_KEY
    ensures HeaderValue(PathUpdated(headers, hostname), key) == HeaderValue(headers, key)
  {
    assert FieldKey(PATH_KEY) by {
      assert Lower(PATH_KEY) == PATH_KEY;
    }
    var after, i, p := PathUpdated(headers, hostname), FirstField(headers, key), FirstField(headers, PATH_KEY);
    var newLine := if p < |headers| then PathLine(headers[p], hostname) else "Path: " + hostname;
    var rest := newLine[5..];
    assert newLine == "Path:" + rest;
    IsPathLine(rest);
    if IsField(newLine, key) {
      OneFieldPerLine(newLine, key, PATH_KEY);
    }
    if p < |headers| && IsField(headers[p], key) {
      OneFieldPerLine(headers[p], key, PATH_KEY);
    }
    FirstFieldIs(after, key, if i < |headers| then i else |after|);
  }

  lemma TrimAfterSpace(s: string)
    ensures Trim(" " + s) == Trim(s)
  {
    assert (" " + s)[1..] == s;
  }

  lemma PathWith(value: string)
    ensures IsField("Path: " + value, PATH_KEY) && Trim(("Path: " + value)[|PATH_KEY|..]) == Trim(value)
  {
    assert "Path: " + value == "Path:" + (" " + value);
    IsPathLine(" " + value);
    TrimAfterSpace(value);
  }

  function PathBehind(hostname: string, was: string): string {
    if was != "" then hostname + ", " + was else hostname
  }

  lemma NewPath(headers: seq<string>, hostname: string)
    ensures var p := FirstField(headers, PATH_KEY);
            && p < |PathUpdated(headers, hostname)|
            && PathUpdated(headers, hostname)[p] ==
               "Path: " + PathBehind(hostname, HeaderValue(headers, PATH_KEY).GetOr(""))
  {
    var was := HeaderValue(headers, PATH_KEY).GetOr("");
    assert "Path: " + hostname + ", " + was == "Path: " + (hostname + ", " + was);
  }

  /** The server's name comes first in Path, before what was there; every other line stays. */
  lemma PathGainsServer(headers: seq<string>, hostname: string)
    ensures var after, was := PathUpdated(headers, hostname), HeaderValue(headers, PATH_KEY).GetOr("");
            && HeaderValue(after, PATH_KEY) == Some(Trim(if was != "" then hostname + ", " + was else hostname))
            && |after| == |headers| + (if HasField(headers, PATH_KEY) then 0 else 1)
            && forall k :: 0 <= k < |headers| && k != FirstField(headers, PATH_KEY) ==> after[k] == headers[k]
  {
    NewPath(headers, hostname);
    PathWith(PathBehind(hostname, HeaderValue(headers, PATH_KEY).GetOr("")));
    FirstFieldIs(PathUpdated(headers, hostname), PATH_KEY, FirstField(headers, PATH_KEY));
  }

  // ----- the rewrite in Post -----

  /** The lines whose index is not in `drop`, in order. */
  function Without(headers: seq<string>, drop: set<int>): seq<string> {
    if headers == [] then []
    else
      var n := |headers| - 1;
      Without(headers[..n], drop) + (if n in drop then [] else [headers[n]])
  }

  /** What Post takes out: the first NNTP-Posting-Host and, unless it is to be preserved, the first Date. */
  function Dropped(headers: seq<string>, preserveDate: bool): set<int> {
    {FirstField(headers, HOST_KEY)} + (if preserveDate then {} else {FirstField(headers, DATE_KEY)})
  }

  /** What the server knows when it stores an article. */
  datatype Stamp = Stamp(server: string, group: string, number: nat, date: string, remote: string)

  function Line(name: string, value: string): string {
    name + " " + value
  }

  function XrefLine(st: Stamp): string {
    Line("Xref:", st.server + " " + st.group + ":" + Format(st.number))
  }

  function GeneratedId(st: Stamp): string {
    "<" + Format(st.number) + "-" + st.group + "@" + st.server + ">"
  }

  function Generated(headers: seq<string>, bodyLines: nat, st: Stamp, preserveDate: bool): seq<string> {
    [XrefLine(st)]
    + (if preserveDate && HasField(headers, DATE_KEY) then [] else [Line("Date:", st.date)])
    + [Line("NNTP-Posting-Host:", st.remote)]
    + (if HasField(headers, MESSAGE_ID_KEY) then [] else [Line("Message-ID:", GeneratedId(st))])
    + (if HasField(headers, LINES_KEY) then [] else [Line("Lines:", Format(bodyLines))])
  }

  /** The stored header: the client's lines without the dropped ones, in order, then the generated ones. */
  function Rewritten(headers: seq<string>, bodyLines: nat, st: Stamp, preserveDate: bool): seq<string> {
    Without(headers, Dropped(headers, preserveDate)) + Generated(headers, bodyLines, st, preserveDate)
  }

  lemma {:induction false} WithoutNone(headers: seq<string>, drop: set<int>)
    requires forall d :: d in drop ==> d >= |headers| || d < 0
    ensures Without(headers, drop) == headers
  {
    if headers != [] {
      WithoutNone(headers[..|headers| - 1], drop);
    }
  }

  /** Cutting one index out is the only drop below it. */
  lemma {:induction false} WithoutOne(headers: seq<string>, i: nat, drop: set<int>)
    requires i < |headers| && i in drop && forall d :: d in drop ==> d == i || d < 0 || d >= |headers|
    ensures Without(headers, drop) == headers[..i] + headers[i + 1..]
  {
    var n := |headers| - 1;
    if n == i {
      WithoutNone(headers[..n], drop);
    } else {
      WithoutOne(headers[..n], i, drop);
      assert headers[..n][i + 1..] + [headers[n]] == headers[i + 1..];
      assert headers[..n][..i] == headers[..i];
    }
  }

  lemma {:induction false} WithoutTwo(headers: seq<string>, i: nat, j: nat, drop: set<int>)
    requires i < j < |headers| && i in drop && j in drop
    requires forall d :: d in drop ==> d == i || d == j || d < 0 || d >= |headers|
    ensures Without(headers, drop) == headers[..i] + headers[i + 1..j] + headers[j + 1..]
  {
    var n := |headers| - 1;
    if n == j {
      WithoutOne(headers[..n], i, drop);
      assert headers[..n][i + 1..] == headers[i + 1..j];
      assert headers[..n][..i] == headers[..i];
    } else {
      WithoutTwo(headers[..n], i, j, drop);
      assert headers[..n][j + 1..] + [headers[n]] == headers[j + 1..];
      assert headers[..n][..i] == headers[..i] && headers[..n][i + 1..j] == headers[i + 1..j];
    }
  }

  /** Dropping lines of other fields keeps a field's value. */
  lemma {:induction false} WithoutKeepsField(headers: seq<string>, drop: set<int>, key: string)
    requires forall k :: k in drop && 0 <= k < |headers| ==> !IsField(headers[k], key)
    ensures HeaderValue(Without(headers, drop), key) == HeaderValue(headers, key)
    ensures HasField(Without(headers, drop), key) <==> HasField(headers, key)
  {
    if headers != [] {
      var n := |headers| - 1;
      WithoutKeepsField(headers[..n], drop, key);
      FieldOfAppend(headers[..n], [headers[n]], key);
      assert headers[..n] + [headers[n]] == headers;
      if n !in drop {
        FieldOfAppend(Without(headers[..n], drop), [headers[n]], key);
      } else {
        FirstFieldIs([headers[n]], key, 1);
        assert Without(headers, drop) == Without(headers[..n], drop);
      }
    }
  }

  lemma FieldOfAppend(a: seq<string>, b: seq<string>, key: string)
    ensures HasField(a, key) ==>
            FirstField(a + b, key) == FirstField(a, key) && HeaderValue(a + b, key) == HeaderValue(a, key)
    ensures !HasField(a, key) ==>
            FirstField(a + b, key) == |a| + FirstField(b, key) && HeaderValue(a + b, key) == HeaderValue(b, key)
  {
    var i := if HasField(a, key) then FirstField(a, key) else |a| + FirstField(b, key);
    FirstFieldIs(a + b, key, i);
  }

  lemma KnownKeys()
    ensures FieldKey(PATH_KEY) && FieldKey(DATE_KEY) && FieldKey(HOST_KEY)
    ensures FieldKey(MESSAGE_ID_KEY) && FieldKey(LINES_KEY)
    ensures FieldKey(NEWSGROUPS_KEY) && FieldKey(FROM_KEY) && FieldKey(CONTROL_KEY)
  {
    assert Lower(PATH_KEY) == PATH_KEY && Lower(DATE_KEY) == DATE_KEY && Lower(HOST_KEY) == HOST_KEY;
    assert Lower(MESSAGE_ID_KEY) == MESSAGE_ID_KEY && Lower(LINES_KEY) == LINES_KEY;
    assert Lower(NEWSGROUPS_KEY) == NEWSGROUPS_KEY && Lower(FROM_KEY) == FROM_KEY && Lower(CONTROL_KEY) == CONTROL_KEY;
  }

  /** A line "Name: value" is a field of that name and of no other. */
  lemma NamedLine(name: string, rest: string, key: string)
    requires FieldKey(Lower(name)) && FieldKey(key)
    ensures IsField(name + rest, key) <==> key == Lower(name)
  {
    assert (name + rest)[..|name|] == name;
    if IsField(name + rest, key) {
      OneFieldPerLine(name + rest, key, Lower(name));
    }
  }

  lemma FieldOfOne(h: string, key: string)
    ensures HasField([h], key) <==> IsField(h, key)
    ensures !HasField([], key)
  {
    FirstFieldIs([h], key, if IsField(h, key) then 0 else 1);
  }

  lemma FieldOfFive(a: seq<string>, b: seq<string>, c: seq<string>, d: seq<string>, e: seq<string>, key: string)
    ensures HasField(a + b + c + d + e, key) <==>
            HasField(a, key) || HasField(b, key) || HasField(c, key) || HasField(d, key) || HasField(e, key)
    ensures !HasField(a, key) && !HasField(b, key) && !HasField(c, key) && HasField(d, key) ==>
              HeaderValue(a + b + c + d + e, key) == HeaderValue(d, key)
  {
    FieldOfAppend(a, b, key);
    FieldOfAppend(a + b, c, key);
    FieldOfAppend(a + b + c, d, key);
    FieldOfAppend(a + b + c + d, e, key);
  }

  /** Which of the three looked-for fields a generated line is. */
  lemma GeneratedNames(name: string)
    requires name in {"Xref:", "Date:", "NNTP-Posting-Host:", "Message-ID:", "Lines:"}
    ensures FieldKey(Lower(name))
    ensures Lower(name) == DATE_KEY <==> name == "Date:"
    ensures Lower(name) == MESSAGE_ID_KEY <==> name == "Message-ID:"
    ensures Lower(name) == LINES_KEY <==> name == "Lines:"
  {
    KnownKeys();
    assert Lower("Xref:") == "xref:" && Lower("Date:") == DATE_KEY && Lower("NNTP-Posting-Host:") == HOST_KEY;
    assert Lower("Message-ID:") == MESSAGE_ID_KEY && Lower("Lines:") == LINES_KEY;
    assert FieldKey("xref:") by {
      assert Lower("xref:") == "xref:";
    }
  }

  lemma GeneratedLine(name: string, value: string)
    requires name in {"Xref:", "Date:", "NNTP-Posting-Host:", "Message-ID:", "Lines:"}
    ensures IsField(Line(name, value), DATE_KEY) <==> name == "Date:"
    ensures IsField(Line(name, value), MESSAGE_ID_KEY) <==> name == "Message-ID:"
    ensures IsField(Line(name, value), LINES_KEY) <==> name == "Lines:"
  {
    KnownKeys();
    GeneratedNames(name);
    var rest := " " + value;
    assert Line(name, value) == name + rest;
    NamedLine(name, rest, DATE_KEY);
    NamedLine(name, rest, MESSAGE_ID_KEY);
    NamedLine(name, rest, LINES_KEY);
  }

  /** The generated lines hold a Date, a Message-ID and a Lines exactly when the client's lines leave one missing. */
  lemma GeneratedFields(headers: seq<string>, bodyLines: nat, st: Stamp, preserveDate: bool)
    ensures var g := Generated(headers, bodyLines, st, preserveDate);
            && (HasField(g, DATE_KEY) <==> !(preserveDate && HasField(headers, DATE_KEY)))
            && (HasField(g, MESSAGE_ID_KEY) <==> !HasField(headers, MESSAGE_ID_KEY))
            && (HasField(g, LINES_KEY) <==> !HasField(headers, LINES_KEY))
            && (!HasField(headers, MESSAGE_ID_KEY) ==>
                  HeaderValue(g, MESSAGE_ID_KEY) == HeaderValue([Line("Message-ID:", GeneratedId(st))], MESSAGE_ID_KEY))
  {
    var xref, date, host := XrefLine(st), Line("Date:", st.date), Line("NNTP-Posting-Host:", st.remote);
    var mid, lines := Line("Message-ID:", GeneratedId(st)), Line("Lines:", Format(bodyLines));
    var a: seq<string>, c: seq<string> := [xref], [host];
    var b := if preserveDate && HasField(headers, DATE_KEY) then [] else [date];
    var d := if HasField(headers, MESSAGE_ID_KEY) then [] else [mid];
    var e := if HasField(headers, LINES_KEY) then [] else [lines];
    FiveLines(st, bodyLines);
    forall key | key in {DATE_KEY, MESSAGE_ID_KEY, LINES_KEY}
      ensures HasField([xref], key) <==> IsField(xref, key)
      ensures HasField([date], key) <==> IsField(date, key)
      ensures HasField([host], key) <==> IsField(host, key)
      ensures HasField([mid], key) <==> IsField(mid, key)
      ensures HasField([lines], key) <==> IsField(lines, key)
      ensures !HasField([], key)
    {
      FieldOfOne(xref, key);
      FieldOfOne(date, key);
      FieldOfOne(host, key);
      FieldOfOne(mid, key);
      FieldOfOne(lines, key);
    }
    FieldOfFive(a, b, c, d, e, DATE_KEY);
    FieldOfFive(a, b, c, d, e, MESSAGE_ID_KEY);
    FieldOfFive(a, b, c, d, e, LINES_KEY);
  }

  lemma FiveLines(st: Stamp, bodyLines: nat)
    ensures var xref, date, host := XrefLine(st), Line("Date:", st.date), Line("NNTP-Posting-Host:", st.remote);
            var mid, lines := Line("Message-ID:", GeneratedId(st)), Line("Lines:", Format(bodyLines));
            && !IsField(xref, DATE_KEY) && !IsField(xref, MESSAGE_ID_KEY) && !IsField(xref, LINES_KEY)
            && IsField(date, DATE_KEY) && !IsField(date, MESSAGE_ID_KEY) && !IsField(date, LINES_KEY)
            && !IsField(host, DATE_KEY) && !IsField(host, MESSAGE_ID_KEY) && !IsField(host, LINES_KEY)
            && !IsField(mid, DATE_KEY) && IsField(mid, MESSAGE_ID_KEY) && !IsField(mid, LINES_KEY)
            && !IsField(lines, DATE_KEY) && !IsField(lines, MESSAGE_ID_KEY) && IsField(lines, LINES_KEY)
  {
    GeneratedLine("Xref:", st.server + " " + st.group + ":" + Format(st.number));
    GeneratedLine("Date:", st.date);
    GeneratedLine("NNTP-Posting-Host:", st.remote);
    GeneratedLine("Message-ID:", GeneratedId(st));
    GeneratedLine("Lines:", Format(bodyLines));
  }

  /** A line dropped by the rewrite is of no other field than those two. */
  lemma DroppedAreHostOrDate(headers: seq<string>, preserveDate: bool, key: string)
    requires FieldKey(key) && key != HOST_KEY && (key != DATE_KEY || preserveDate)
    ensures forall k :: k in Dropped(headers, preserveDate) && 0 <= k < |headers| ==> !IsField(headers[k], key)
  {
    KnownKeys();
    forall k | k in Dropped(headers, preserveDate) && 0 <= k < |headers|
      ensures !IsField(headers[k], key)
    {
      if IsField(headers[k], key) {
        OneFieldPerLine(headers[k], key, if k == FirstField(headers, HOST_KEY) then HOST_KEY else DATE_KEY);
      }
    }
  }

  /**
    The stored header always has a Date, a Message-ID and a Lines. The client's Message-ID (or, with
    preserveDate, Date), if it sent one, is the one found; every field other than the dropped two
    keeps its value.
   */
  lemma RewrittenFields(headers: seq<string>, bodyLines: nat, st: Stamp, preserveDate: bool)
    ensures var r := Rewritten(headers, bodyLines, st, preserveDate);
            && HasField(r, DATE_KEY) && HasField(r, MESSAGE_ID_KEY) && HasField(r, LINES_KEY)
            && (preserveDate && HasField(headers, DATE_KEY) ==>
                  HeaderValue(r, DATE_KEY) == HeaderValue(headers, DATE_KEY))
            && (!HasField(headers, MESSAGE_ID_KEY) ==>
                  HeaderValue(r, MESSAGE_ID_KEY) == HeaderValue([Line("Message-ID:", GeneratedId(st))], MESSAGE_ID_KEY))
    ensures forall key :: FieldKey(key) && key != HOST_KEY && key != DATE_KEY && HasField(headers, key) ==>
              HeaderValue(Rewritten(headers, bodyLines, st, preserveDate), key) == HeaderValue(headers, key)
  {
    KnownKeys();
    var kept := Without(headers, Dropped(headers, preserveDate));
    var g := Generated(headers, bodyLines, st, preserveDate);
    GeneratedFields(headers, bodyLines, st, preserveDate);
    forall key | FieldKey(key) && key != HOST_KEY && (key != DATE_KEY || preserveDate)
      ensures HasField(kept, key) <==> HasField(headers, key)
      ensures HeaderValue(kept, key) == HeaderValue(headers, key)
    {
      DroppedAreHostOrDate(headers, preserveDate, key);
      WithoutKeepsField(headers, Dropped(headers, preserveDate), key);
    }
    forall key
      ensures HasField(kept + g, key) <==> HasField(kept, key) || HasField(g, key)
      ensures HasField(kept, key) ==> HeaderValue(kept + g, key) == HeaderValue(kept, key)
      ensures !HasField(kept, key) ==> HeaderValue(kept + g, key) == HeaderValue(g, key)
    {
      FieldOfAppend(kept, g, key);
    }
  }

  predicate GeneratedName(name: string) {
    name in {"Xref:", "Date:", "NNTP-Posting-Host:", "Message-ID:", "Lines:"}
  }

  lemma NamesApart(a: string, b: string)
    requires GeneratedName(a) && GeneratedName(b)
    ensures FieldKey(Lower(a)) && (Lower(a) == Lower(b) <==> a == b)
  {
    GeneratedNames(a);
    GeneratedNames(b);
    assert Lower("Xref:") == "xref:";
  }

  /** The lines of one name are all the same one. */
  lemma OnlyValue(g: seq<string>, key: string, line: string)
    requires line in g && IsField(line, key) && forall h :: h in g && IsField(h, key) ==> h == line
    ensures HeaderValue(g, key) == Some(Trim(line[|key|..]))
  {
    HasFieldIff(g, key);
    assert g[FirstField(g, key)] in g;
  }

  /** The value generated for each name. */
  function GeneratedValue(name: string, bodyLines: nat, st: Stamp): string
    requires GeneratedName(name)
  {
    if name == "Xref:" then st.server + " " + st.group + ":" + Format(st.number)
    else if name == "Date:" then st.date
    else if name == "NNTP-Posting-Host:" then st.remote
    else if name == "Message-ID:" then "<" + Format(st.number) + "-" + st.group + "@" + st.server + ">"
    else Format(bodyLines)
  }

  function GeneratedLineOf(name: string, bodyLines: nat, st: Stamp): string
    requires GeneratedName(name)
  {
    Line(name, GeneratedValue(name, bodyLines, st))
  }

  lemma LineOfName(name: string, value: string, other: string)
    requires GeneratedName(name) && GeneratedName(other)
    ensures IsField(Line(name, value), Lower(other)) <==> name == other
    ensures Trim(Line(name, value)[|name|..]) == Trim(value)
  {
    NamesApart(name, other);
    NamesApart(other, name);
    assert Line(name, value) == name + (" " + value);
    NamedLine(name, " " + value, Lower(other));
    assert Line(name, value)[|name|..] == " " + value;
    TrimAfterSpace(value);
  }

  lemma InFive(a: seq<string>, b: seq<string>, c: seq<string>, d: seq<string>, e: seq<string>, h: string)
    ensures h in a + b + c + d + e <==> h in a || h in b || h in c || h in d || h in e
  {
  }

  lemma GeneratedParts(headers: seq<string>, bodyLines: nat, st: Stamp, preserveDate: bool, h: string)
    ensures h in Generated(headers, bodyLines, st, preserveDate) <==>
            || h == XrefLine(st)
            || (h == Line("Date:", st.date) && !(preserveDate && HasField(headers, DATE_KEY)))
            || h == Line("NNTP-Posting-Host:", st.remote)
            || (h == Line("Message-ID:", GeneratedId(st)) && !HasField(headers, MESSAGE_ID_KEY))
            || (h == Line("Lines:", Format(bodyLines)) && !HasField(headers, LINES_KEY))
  {
    var b := if preserveDate && HasField(headers, DATE_KEY) then [] else [Line("Date:", st.date)];
    var d := if HasField(headers, MESSAGE_ID_KEY) then [] else [Line("Message-ID:", GeneratedId(st))];
    var e := if HasField(headers, LINES_KEY) then [] else [Line("Lines:", Format(bodyLines))];
    InFive([XrefLine(st)], b, [Line("NNTP-Posting-Host:", st.remote)], d, e, h);
  }

  /** Nothing but the five lines is generated. */
  lemma NameOfGenerated(headers: seq<string>, bodyLines: nat, st: Stamp, preserveDate: bool, h: string)
    returns (name: string)
    requires h in Generated(headers, bodyLines, st, preserveDate)
    ensures GeneratedName(name) && h == GeneratedLineOf(name, bodyLines, st)
  {
    GeneratedParts(headers, bodyLines, st, preserveDate, h);
    name := if h == XrefLine(st) then "Xref:"
            else if h == Line("Date:", st.date) then "Date:"
            else if h == Line("NNTP-Posting-Host:", st.remote) then "NNTP-Posting-Host:"
            else if h == Line("Message-ID:", GeneratedId(st)) then "Message-ID:"
            else "Lines:";
  }

  /** Each of them that the client left out is. */
  lemma GeneratedHas(headers: seq<string>, bodyLines: nat, st: Stamp, preserveDate: bool, name: string)
    requires GeneratedName(name) && !HasField(headers, Lower(name))
    ensures GeneratedLineOf(name, bodyLines, st) in Generated(headers, bodyLines, st, preserveDate)
  {
    GeneratedNames(name);
    GeneratedParts(headers, bodyLines, st, preserveDate, GeneratedLineOf(name, bodyLines, st));
  }

  lemma GeneratedIs(headers: seq<string>, bodyLines: nat, st: Stamp, preserveDate: bool, name: string)
    requires GeneratedName(name) && !HasField(headers, Lower(name))
    ensures HeaderValue(Generated(headers, bodyLines, st, preserveDate), Lower(name)) ==
            Some(Trim(GeneratedValue(name, bodyLines, st)))
  {
    var g, key := Generated(headers, bodyLines, st, preserveDate), Lower(name);
    GeneratedHas(headers, bodyLines, st, preserveDate, name);
    LineOfName(name, GeneratedValue(name, bodyLines, st), name);
    forall h | h in g && IsField(h, key) ensures h == GeneratedLineOf(name, bodyLines, st) {
      var n := NameOfGenerated(headers, bodyLines, st, preserveDate, h);
      LineOfName(n, GeneratedValue(n, bodyLines, st), name);
    }
    OnlyValue(g, key, GeneratedLineOf(name, bodyLines, st));
  }

  /**
    What the client left out, Post fills in: server, group and number as Xref, the day as Date, the client's
    address as the posting host, a Message-ID made of number, group and server, and the count of body lines.
   */
  lemma FilledIn(headers: seq<string>, bodyLines: nat, st: Stamp, preserveDate: bool, name: string)
    requires GeneratedName(name) && !HasField(headers, Lower(name))
    ensures HeaderValue(Rewritten(headers, bodyLines, st, preserveDate), Lower(name)) ==
            Some(Trim(GeneratedValue(name, bodyLines, st)))
  {
    var key, drop := Lower(name), Dropped(headers, preserveDate);
    HasFieldIff(headers, key);
    forall k | k in drop && 0 <= k < |headers| ensures !IsField(headers[k], key) {
      assert headers[k] in headers;
    }
    WithoutKeepsField(headers, drop, key);
    FieldOfAppend(Without(headers, drop), Generated(headers, bodyLines, st, preserveDate), key);
    GeneratedIs(headers, bodyLines, st, preserveDate, name);
  }

  /** The deletions in place: the second index is shifted when the first cut lies below it. */
  method CutFields(headers0: seq<string>, hostIdx: int, dateIdx0: int, preserveDate: bool)
    returns (headers: seq<string>)
    requires -1 <= hostIdx < |headers0| && -1 <= dateIdx0 < |headers0|
    requires hostIdx >= 0 ==> hostIdx != dateIdx0
    ensures headers == Cut(headers0, if hostIdx >= 0 then hostIdx else |headers0|,
                           if dateIdx0 >= 0 && !preserveDate then dateIdx0 else |headers0|)
  {
    headers := headers0;
    var dateIdx := dateIdx0;
    if hostIdx >= 0 && dateIdx >= 0 {
      CutInTurn(headers, hostIdx, dateIdx);
    }
    if hostIdx >= 0 {
      headers := headers[..hostIdx] + headers[hostIdx + 1..];
      if dateIdx >= 0 && hostIdx < dateIdx {
        dateIdx := dateIdx - 1;
      }
    }
    if dateIdx >= 0 && !preserveDate {
      headers := headers[..dateIdx] + headers[dateIdx + 1..];
    }
  }

  method DeleteFields(headers0: seq<string>, preserveDate: bool) returns (headers: seq<string>, dateFlag: bool)
    ensures headers == Without(headers0, Dropped(headers0, preserveDate))
    ensures dateFlag == HasField(headers0, DATE_KEY)
  {
    var dateIdx := GetHeaderIndex(headers0, DATE_KEY);
    var hostIdx := GetHeaderIndex(headers0, HOST_KEY);
    dateFlag := dateIdx >= 0;
    HostIsNotDate(headers0);
    headers := CutFields(headers0, hostIdx, dateIdx, preserveDate);
    DeletionsAreDrops(headers0, preserveDate);
  }

  /** The whole rewrite of Post. */
  method RewriteHeaders(headers0: seq<string>, bodyLines: nat, st: Stamp, preserveDate: bool)
    returns (headers: seq<string>)
    ensures headers == Rewritten(headers0, bodyLines, st, preserveDate)
  {
    var dateFlag;
    headers, dateFlag := DeleteFields(headers0, preserveDate);
    headers := headers + [XrefLine(st)];
    if !preserveDate || !dateFlag {
      headers := headers + [Line("Date:", st.date)];
    }
    headers := headers + [Line("NNTP-Posting-Host:", st.remote)];
    assert headers == SoFar(headers0, st, preserveDate);
    LookupsSeeTheClient(headers0, st, preserveDate);
    LinesAfterId(headers, st);
    var mid := GetHeaderValue(headers, MESSAGE_ID_KEY);
    if mid.None? {
      headers := headers + [Line("Message-ID:", GeneratedId(st))];
    }
    var lines := GetHeaderValue(headers, LINES_KEY);
    if lines.None? {
      headers := headers + [Line("Lines:", Format(bodyLines))];
    }
    RewrittenIs(headers0, bodyLines, st, preserveDate);
  }

  lemma RewrittenIs(headers: seq<string>, bodyLines: nat, st: Stamp, preserveDate: bool)
    ensures Rewritten(headers, bodyLines, st, preserveDate) ==
            SoFar(headers, st, preserveDate)
            + (if HasField(headers, MESSAGE_ID_KEY) then [] else [Line("Message-ID:", GeneratedId(st))])
            + (if HasField(headers, LINES_KEY) then [] else [Line("Lines:", Format(bodyLines))])
  {
    var w: seq<string> := Without(headers, Dropped(headers, preserveDate));
    var xref, host := XrefLine(st), Line("NNTP-Posting-Host:", st.remote);
    var date := if preserveDate && HasField(headers, DATE_KEY) then [] else [Line("Date:", st.date)];
    var mid := if HasField(headers, MESSAGE_ID_KEY) then [] else [Line("Message-ID:", GeneratedId(st))];
    var lines := if HasField(headers, LINES_KEY) then [] else [Line("Lines:", Format(bodyLines))];
    Regroup(w, [xref], date, [host], mid, lines);
  }

  lemma Regroup(w: seq<string>, a: seq<string>, b: seq<string>, c: seq<string>, d: seq<string>, e: seq<string>)
    ensures w + (a + b + c + d + e) == w + a + b + c + d + e
  {
  }

  lemma LinesAfterId(headers: seq<string>, st: Stamp)
    ensures HasField(headers + [Line("Message-ID:", GeneratedId(st))], LINES_KEY) <==> HasField(headers, LINES_KEY)
  {
    FiveLines(st, 0);
    FieldOfAppend(headers, [Line("Message-ID:", GeneratedId(st))], LINES_KEY);
    FieldOfOne(Line("Message-ID:", GeneratedId(st)), LINES_KEY);
  }

  /** The list when Post looks for Message-ID and Lines. */
  function SoFar(headers: seq<string>, st: Stamp, preserveDate: bool): seq<string> {
    Without(headers, Dropped(headers, preserveDate))
    + [XrefLine(st)]
    + (if preserveDate && HasField(headers, DATE_KEY) then [] else [Line("Date:", st.date)])
    + [Line("NNTP-Posting-Host:", st.remote)]
  }

  lemma LookupsSeeTheClient(headers: seq<string>, st: Stamp, preserveDate: bool)
    ensures HasField(SoFar(headers, st, preserveDate), MESSAGE_ID_KEY) <==> HasField(headers, MESSAGE_ID_KEY)
    ensures HasField(SoFar(headers, st, preserveDate), LINES_KEY) <==> HasField(headers, LINES_KEY)
  {
    KnownKeys();
    FiveLines(st, 0);
    var kept := Without(headers, Dropped(headers, preserveDate));
    var date := if preserveDate && HasField(headers, DATE_KEY) then [] else [Line("Date:", st.date)];
    forall key | key in {MESSAGE_ID_KEY, LINES_KEY}
      ensures HasField(SoFar(headers, st, preserveDate), key) <==> HasField(headers, key)
    {
      DroppedAreHostOrDate(headers, preserveDate, key);
      WithoutKeepsField(headers, Dropped(headers, preserveDate), key);
      FieldOfOne(XrefLine(st), key);
      FieldOfOne(Line("Date:", st.date), key);
      FieldOfOne(Line("NNTP-Posting-Host:", st.remote), key);
      FieldOfFive(kept, [XrefLine(st)], date, [Line("NNTP-Posting-Host:", st.remote)], [], key);
      assert SoFar(headers, st, preserveDate) + [] == SoFar(headers, st, preserveDate);
    }
  }

  lemma HostIsNotDate(headers: seq<string>)
    ensures FirstField(headers, HOST_KEY) < |headers| ==> FirstField(headers, HOST_KEY) != FirstField(headers, DATE_KEY)
  {
    KnownKeys();
    var h := FirstField(headers, HOST_KEY);
    if h < |headers| && h == FirstField(headers, DATE_KEY) {
      OneFieldPerLine(headers[h], HOST_KEY, DATE_KEY);
    }
  }

  /** The list with the lines at h and d gone; an index past the end cuts nothing. */
  function Cut(headers: seq<string>, h: nat, d: nat): seq<string>
    requires h <= |headers| && d <= |headers|
  {
    if h < d < |headers| then headers[..h] + headers[h + 1..d] + headers[d + 1..]
    else if d < h < |headers| then headers[..d] + headers[d + 1..h] + headers[h + 1..]
    else if h < |headers| then headers[..h] + headers[h + 1..]
    else if d < |headers| then headers[..d] + headers[d + 1..]
    else headers
  }

  /** Cutting h first and then d, shifted down if h was below it, is cutting both. */
  lemma CutInTurn(headers: seq<string>, h: nat, d: nat)
    requires h < |headers| && d < |headers| && h != d
    ensures var cut, e := headers[..h] + headers[h + 1..], if h < d then d - 1 else d;
            cut[..e] + cut[e + 1..] == Cut(headers, h, d)
  {
    var cut := headers[..h] + headers[h + 1..];
    if h < d {
      assert cut[..d - 1] == headers[..h] + headers[h + 1..d];
      assert cut[d..] == headers[d + 1..];
    } else {
      assert cut[..d] == headers[..d];
      assert cut[d + 1..] == headers[d + 1..h] + headers[h + 1..];
    }
  }

  lemma CutIsWithout(headers: seq<string>, h: nat, d: nat, drop: set<int>)
    requires h <= |headers| && d <= |headers|
    requires forall k :: k in drop <==> k == h || k == d
    ensures Without(headers, drop) == Cut(headers, h, d)
  {
    if h < d < |headers| {
      WithoutTwo(headers, h, d, drop);
    } else if d < h < |headers| {
      WithoutTwo(headers, d, h, drop);
    } else if h < |headers| {
      WithoutOne(headers, h, drop);
    } else if d < |headers| {
      WithoutOne(headers, d, drop);
    } else {
      WithoutNone(headers, drop);
    }
  }

  lemma WithoutSame(headers: seq<string>, a: set<int>, b: set<int>)
    requires forall k :: 0 <= k < |headers| ==> (k in a <==> k in b)
    ensures Without(headers, a) == Without(headers, b)
  {
  }

  /** The two deletions leave exactly the lines outside the dropped indices. */
  lemma DeletionsAreDrops(headers: seq<string>, preserveDate: bool)
    ensures Without(headers, Dropped(headers, preserveDate)) ==
            Cut(headers, FirstField(headers, HOST_KEY),
                if preserveDate then |headers| else FirstField(headers, DATE_KEY))
  {
    var h, d := FirstField(headers, HOST_KEY), if preserveDate then |headers| else FirstField(headers, DATE_KEY);
    CutIsWithout(headers, h, d, {h as int, d as int});
    WithoutSame(headers, {h as int, d as int}, Dropped(headers, preserveDate));
  }
}
