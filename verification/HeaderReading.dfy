/**
  What Load makes of the header lines of an article (internal/article/article.go): of several headers of
  one name the last one counts, with its continuation lines; and when the article loads at all.
 */
module HeaderReading {
  import opened Text
  import opened Headers
  import opened ArticleFile
  import opened ArticleHeader
  import opened Pipeline

  // ----- header names -----

  function KeyOf(f: Field): string {
    match f
    case SubjectField => "subject:"
    case FromField => FROM_KEY
    case DateField => DATE_KEY
    case XrefField => "xref:"
    case MessageIdField => MESSAGE_ID_KEY
    case ReferencesField => "references:"
    case LinesField => LINES_KEY
  }

  lemma KeyOfIsKey(f: Field)
    ensures FieldKey(KeyOf(f))
  {
    KnownKeys();
    assert Lower(KeyOf(f)) == KeyOf(f);
  }

  lemma FieldOfKey(key: string, f: Field)
    ensures FieldOf(key) == Some(f) <==> Lower(key) == KeyOf(f)
  {
    assert "subject:"[0] == 's' && FROM_KEY[0] == 'f' && DATE_KEY[0] == 'd' && "xref:"[0] == 'x';
    assert MESSAGE_ID_KEY[0] == 'm' && "references:"[0] == 'r' && LINES_KEY[0] == 'l';
  }

  /** The line is a header of that name, not a continuation. */
  predicate Names(line: string, f: Field) {
    !Folded(line) && IsField(line, KeyOf(f))
  }

  lemma KeyUpToColon(line: string, key: string)
    requires FieldKey(key) && IsField(line, key)
    ensures KeyLength(line) == |key|
  {
    KeyEndsAtFirstColon(line);
    var n := |key|;
    assert Lower(line[..n])[n - 1] == ':' && line[n - 1] == ':';
    forall j | 0 <= j < n - 1 ensures line[j] != ':' {
      assert Lower(line[..n])[j] == key[j];
    }
  }

  /** Cutting a line at its first colon and comparing names is comparing the beginning of the line. */
  lemma SplitNames(line: string, f: Field)
    ensures |SplitKeyValue(line).0| > 0 && FieldOf(SplitKeyValue(line).0) == Some(f) <==> IsField(line, KeyOf(f))
    ensures IsField(line, KeyOf(f)) ==> SplitKeyValue(line).1 == TrimLeft(line[|KeyOf(f)|..])
  {
    KeyOfIsKey(f);
    FieldOfKey(SplitKeyValue(line).0, f);
    if IsField(line, KeyOf(f)) {
      KeyUpToColon(line, KeyOf(f));
    }
  }

  // ----- the value of a field -----

  /** A value and the continuation lines that follow it, cut to the limit as they are added. */
  function Collected(val: string, ls: seq<string>): string
    decreases |ls|
  {
    if |ls| == 0 || !Folded(ls[0]) then val else Collected(CutValue(val + ls[0]), ls[1..])
  }

  /** The continuation lines at the head of some lines, one after the other. */
  function Continuations(ls: seq<string>): string {
    if |ls| == 0 || !Folded(ls[0]) then "" else ls[0] + Continuations(ls[1..])
  }

  lemma CutTwice(a: string, b: string)
    ensures CutValue(CutValue(a) + b) == CutValue(a + b)
  {
    if |a| > FIELD_MAX {
      assert (a[..FIELD_MAX] + b)[..FIELD_MAX] == (a + b)[..FIELD_MAX];
    }
  }

  /** A value with continuation lines is the first 1024 bytes of them all; without any it is whole. */
  lemma {:induction false} CollectedIs(val: string, ls: seq<string>)
    ensures var all := val + Continuations(ls);
            Collected(val, ls) == if |ls| > 0 && Folded(ls[0]) && |all| > 1024 then all[..1024] else all
    decreases |ls|
  {
    if |ls| > 0 && Folded(ls[0]) {
      var first, rest := val + ls[0], Continuations(ls[1..]);
      CollectedIs(CutValue(first), ls[1..]);
      CutTwice(first, rest);
      assert first + rest == val + Continuations(ls);
      if rest == "" {
        assert CutValue(first) + rest == CutValue(first);
      }
    } else {
      assert val + "" == val;
    }
  }

  /** The value of the last header of that name, or a default. */
  function LastValue(headers: seq<string>, f: Field, dflt: string): string {
    if |headers| == 0 then dflt
    else
      LastValue(headers[1..], f,
                if Names(headers[0], f) then Collected(TrimLeft(headers[0][|KeyOf(f)|..]), headers[1..]) else dflt)
  }

  /** It is the value of the header no later one of that name follows. */
  lemma {:induction false} LastValueIs(headers: seq<string>, f: Field, dflt: string, i: nat)
    requires i < |headers| && Names(headers[i], f) && forall j :: i < j < |headers| ==> !Names(headers[j], f)
    ensures LastValue(headers, f, dflt) == Collected(TrimLeft(headers[i][|KeyOf(f)|..]), headers[i + 1..])
    decreases |headers|
  {
    var rest := headers[1..];
    if i == 0 {
      NoLastValue(rest, f, Collected(TrimLeft(headers[0][|KeyOf(f)|..]), rest));
    } else {
      assert rest[i..] == headers[i + 1..];
      var next := if Names(headers[0], f) then Collected(TrimLeft(headers[0][|KeyOf(f)|..]), rest) else dflt;
      LastValueIs(rest, f, next, i - 1);
    }
  }

  lemma {:induction false} NoLastValue(headers: seq<string>, f: Field, dflt: string)
    requires forall j :: 0 <= j < |headers| ==> !Names(headers[j], f)
    ensures LastValue(headers, f, dflt) == dflt
  {
    if headers != [] {
      NoLastValue(headers[1..], f, dflt);
    }
  }

  /** A continuation line never leaves a value blank. */
  lemma {:induction false} CollectedBlank(val: string, ls: seq<string>)
    ensures Collected(val, ls) == "" <==> val == "" && (ls == [] || !Folded(ls[0]))
    decreases |ls|
  {
    if ls != [] && Folded(ls[0]) {
      CollectedBlank(CutValue(val + ls[0]), ls[1..]);
    }
  }

  /** The i-th line is the last header of that name. */
  ghost predicate LastNamed(headers: seq<string>, f: Field, i: nat) {
    i < |headers| && Names(headers[i], f) && forall j :: i < j < |headers| ==> !Names(headers[j], f)
  }

  lemma {:induction false} LastNamedBelow(headers: seq<string>, f: Field, n: nat) returns (i: nat)
    requires n <= |headers| && forall j :: n <= j < |headers| ==> !Names(headers[j], f)
    ensures if i < |headers| then LastNamed(headers, f, i) else LastValue(headers, f, "") == ""
  {
    if n == 0 {
      NoLastValue(headers, f, "");
      i := |headers|;
    } else if Names(headers[n - 1], f) {
      i := n - 1;
    } else {
      i := LastNamedBelow(headers, f, n - 1);
    }
  }

  /** A field has a value if and only if the last header of its name has text or a continuation. */
  lemma HasValueIff(headers: seq<string>, f: Field)
    ensures LastValue(headers, f, "") != "" <==>
            exists i: nat :: LastNamed(headers, f, i) &&
                             (TrimLeft(headers[i][|KeyOf(f)|..]) != "" || !EndsAt(headers, i))
  {
    forall i: nat | LastNamed(headers, f, i)
      ensures LastValue(headers, f, "") == "" <==> TrimLeft(headers[i][|KeyOf(f)|..]) == "" && EndsAt(headers, i)
    {
      LastValueIs(headers, f, "", i);
      CollectedBlank(TrimLeft(headers[i][|KeyOf(f)|..]), headers[i + 1..]);
    }
    var i := LastNamedBelow(headers, f, |headers|);
  }

  // ----- Load on a header -----

  /** The value a half-read header will have. */
  function Pending(key: string, val: string, headers: seq<string>, f: Field, dflt: string): string {
    if |key| > 0 && FieldOf(key) == Some(f) then Collected(val, headers) else dflt
  }

  lemma FlushedValue(a: Article, key: string, val: string, f: Field)
    ensures Flushed(a, key, val).Get(f) == if |key| > 0 && FieldOf(key) == Some(f) then val else a.Get(f)
  {
  }

  /** The loop of Load over header lines and the blank line after them: each field gets its last value. */
  lemma {:induction false} LoadYields(headers: seq<string>, rest: seq<string>, key: string, val: string, a: Article,
                                      f: Field)
    requires HeaderLines(headers)
    ensures var (r, ended) := LoadFrom(headers + ([""] + rest), key, val, a);
            ended && r.Get(f) == LastValue(headers, f, Pending(key, val, headers, f, a.Get(f)))
    decreases |headers|
  {
    var tokens := headers + ([""] + rest);
    if headers == [] {
      assert tokens[0] == "";
      FlushedValue(a, key, val, f);
    } else {
      var line, tail := headers[0], headers[1..];
      BeforeCRNone(line);
      assert tokens[0] == line && tokens[1..] == tail + ([""] + rest);
      if Folded(line) {
        LoadYields(tail, rest, key, CutValue(val + line), a, f);
      } else {
        var kv := SplitKeyValue(line);
        LoadYields(tail, rest, kv.0, kv.1, Flushed(a, key, val), f);
        FlushedValue(a, key, val, f);
        SplitNames(line, f);
      }
    }
  }

  /** From and Message-ID have a value. */
  predicate Identified(headers: seq<string>) {
    LastValue(headers, FromField, "") != "" && LastValue(headers, MessageIdField, "") != ""
  }

  /**
    A stored article loads if and only if its group's name is short enough and the last From and the last
    Message-ID of its header have a value; every field is that of the last header of its name.
   */
  lemma LoadsIfIdentified(headers: seq<string>, body: seq<string>, group: string, number: nat, f: Field)
    requires HeaderLines(headers) && TextLines(body)
    requires NoLongerThan(headers, SCAN_LIMIT) && NoLongerThan(body, SCAN_LIMIT)
    ensures var a := Loaded(Some(FileText(headers, body)), group, number);
            && (a.valid <==> |group| < GROUP_MAX && Identified(headers))
            && (|group| < GROUP_MAX ==> a.Get(f) == LastValue(headers, f, ""))
  {
    ScannedFile(headers, body);
    assert headers + [""] + body == headers + ([""] + body);
    if |group| < GROUP_MAX {
      LoadYields(headers, body, "", "", NotLoaded(group, number), f);
      LoadYields(headers, body, "", "", NotLoaded(group, number), FromField);
      LoadYields(headers, body, "", "", NotLoaded(group, number), MessageIdField);
    }
  }

  // ----- headers in parts -----

  lemma {:induction false} CollectedAppend(val: string, a: seq<string>, b: seq<string>)
    requires BeginsAnew(b)
    ensures Collected(val, a + b) == Collected(val, a)
    decreases |a|
  {
    if a == [] {
      assert a + b == b;
    } else if Folded(a[0]) {
      assert (a + b)[1..] == a[1..] + b;
      CollectedAppend(CutValue(val + a[0]), a[1..], b);
    }
  }

  lemma {:induction false} LastValueAppend(a: seq<string>, b: seq<string>, f: Field, dflt: string)
    requires BeginsAnew(b)
    ensures LastValue(a + b, f, dflt) == LastValue(b, f, LastValue(a, f, dflt))
    decreases |a|
  {
    if a == [] {
      assert a + b == b;
    } else {
      var line, rest := a[0], a[1..];
      assert (a + b)[0] == line && (a + b)[1..] == rest + b;
      if Names(line, f) {
        var val := TrimLeft(line[|KeyOf(f)|..]);
        CollectedAppend(val, rest, b);
        LastValueAppend(rest, b, f, Collected(val, rest));
      } else {
        LastValueAppend(rest, b, f, dflt);
      }
    }
  }

  /** A line of another name in front changes nothing. */
  lemma LastValueAfter(line: string, rest: seq<string>, f: Field, dflt: string)
    requires !Names(line, f)
    ensures LastValue([line] + rest, f, dflt) == LastValue(rest, f, dflt)
  {
    assert ([line] + rest)[1..] == rest;
  }

  lemma NotNamed(line: string, key: string, f: Field)
    requires FieldKey(key) && IsField(line, key) && key != KeyOf(f)
    ensures !Names(line, f)
  {
    KeyOfIsKey(f);
    if IsField(line, KeyOf(f)) {
      OneFieldPerLine(line, key, KeyOf(f));
    }
  }

  lemma NoField(headers: seq<string>, f: Field, dflt: string)
    requires !HasField(headers, KeyOf(f))
    ensures LastValue(headers, f, dflt) == dflt
  {
    HasFieldIff(headers, KeyOf(f));
    forall j | 0 <= j < |headers| ensures !Names(headers[j], f) {
      assert headers[j] in headers;
    }
    NoLastValue(headers, f, dflt);
  }

  // ----- one line cut out -----

  /** The line is of another name, and no continuation hangs on it. */
  predicate StandsAlone(headers: seq<string>, i: nat, key: string) {
    i < |headers| && !IsField(headers[i], key) && !Folded(headers[i]) && EndsAt(headers, i)
  }

  function CutAt(headers: seq<string>, i: nat): seq<string>
    requires i < |headers|
  {
    headers[..i] + headers[i + 1..]
  }

  /** Whether the first header of that name has no continuation. */
  predicate FirstEnds(headers: seq<string>, key: string) {
    EndsAt(headers, FirstField(headers, key))
  }

  lemma CutKeepsLast(headers: seq<string>, i: nat, f: Field, dflt: string)
    requires StandsAlone(headers, i, KeyOf(f))
    ensures LastValue(CutAt(headers, i), f, dflt) == LastValue(headers, f, dflt)
  {
    var a, b := headers[..i], headers[i + 1..];
    assert headers == a + ([headers[i]] + b);
    LastValueAppend(a, [headers[i]] + b, f, dflt);
    LastValueAfter(headers[i], b, f, LastValue(a, f, dflt));
    LastValueAppend(a, b, f, dflt);
  }

  lemma CutKeepsFirst(headers: seq<string>, i: nat, key: string)
    requires StandsAlone(headers, i, key)
    ensures FirstEnds(CutAt(headers, i), key) <==> FirstEnds(headers, key)
  {
    var k, cut := FirstField(headers, key), CutAt(headers, i);
    FirstFieldIs(cut, key, if k < i then k else k - 1);
  }

  /** The lines Post cuts out have no continuation. */
  predicate CutsEnd(headers: seq<string>, preserveDate: bool) {
    FirstEnds(headers, HOST_KEY) && (preserveDate || FirstEnds(headers, DATE_KEY))
  }

  lemma CutTwo(headers: seq<string>, lo: nat, hi: nat, f: Field, key: string, dflt: string)
    requires lo < hi && StandsAlone(headers, lo, KeyOf(f)) && StandsAlone(headers, hi, KeyOf(f))
    requires !IsField(headers[lo], key) && !IsField(headers[hi], key)
    ensures var cut := headers[..lo] + headers[lo + 1..hi] + headers[hi + 1..];
            LastValue(cut, f, dflt) == LastValue(headers, f, dflt) && (FirstEnds(cut, key) <==> FirstEnds(headers, key))
  {
    var one := CutAt(headers, hi);
    assert one[lo] == headers[lo] && (lo + 1 < hi ==> one[lo + 1] == headers[lo + 1]);
    assert lo + 1 == hi && hi + 1 < |headers| ==> one[lo + 1] == headers[hi + 1];
    assert CutAt(one, lo) == headers[..lo] + headers[lo + 1..hi] + headers[hi + 1..];
    CutKeepsLast(headers, hi, f, dflt);
    CutKeepsLast(one, lo, f, dflt);
    CutKeepsFirst(headers, hi, key);
    CutKeepsFirst(one, lo, key);
  }

  lemma CutStandsAlone(headers: seq<string>, cut: string, key: string)
    requires cut in {HOST_KEY, DATE_KEY} && FieldKey(key) && key != cut
    requires HasField(headers, cut) && FirstEnds(headers, cut)
    ensures StandsAlone(headers, FirstField(headers, cut), key)
  {
    KnownKeys();
    var line := headers[FirstField(headers, cut)];
    FoldedAsKey(line, cut);
    if IsField(line, key) {
      OneFieldPerLine(line, key, cut);
    }
  }

  /** Lines that stand alone are cut without touching other headers; an index past the end cuts nothing. */
  lemma CutKeeps(headers: seq<string>, h: nat, d: nat, f: Field, key: string, dflt: string)
    requires h <= |headers| && d <= |headers| && (h != d || h == |headers|)
    requires h < |headers| ==> StandsAlone(headers, h, KeyOf(f)) && StandsAlone(headers, h, key)
    requires d < |headers| ==> StandsAlone(headers, d, KeyOf(f)) && StandsAlone(headers, d, key)
    ensures LastValue(Cut(headers, h, d), f, dflt) == LastValue(headers, f, dflt)
    ensures FirstEnds(Cut(headers, h, d), key) <==> FirstEnds(headers, key)
  {
    if h < d < |headers| {
      CutTwo(headers, h, d, f, key, dflt);
    } else if d < h < |headers| {
      CutTwo(headers, d, h, f, key, dflt);
    } else if h < |headers| {
      CutKeepsLast(headers, h, f, dflt);
      CutKeepsFirst(headers, h, key);
    } else if d < |headers| {
      CutKeepsLast(headers, d, f, dflt);
      CutKeepsFirst(headers, d, key);
    }
  }

  /** What Post cuts out does not touch the other headers, if no continuation hangs on it. */
  lemma DropsKeep(headers: seq<string>, preserveDate: bool, f: Field, key: string, dflt: string)
    requires CutsEnd(headers, preserveDate) && f != DateField
    requires FieldKey(key) && key != HOST_KEY && key != DATE_KEY
    ensures var kept := Without(headers, Dropped(headers, preserveDate));
            && LastValue(kept, f, dflt) == LastValue(headers, f, dflt)
            && (FirstEnds(kept, key) <==> FirstEnds(headers, key))
  {
    var h, d := FirstField(headers, HOST_KEY), if preserveDate then |headers| else FirstField(headers, DATE_KEY);
    KeyOfIsKey(f);
    assert KeyOf(f) != HOST_KEY && KeyOf(f) != DATE_KEY by {
      assert KeyOf(f)[0] != 'n' && KeyOf(f)[0] != 'd';
    }
    if h < |headers| {
      HostIsNotDate(headers);
      CutStandsAlone(headers, HOST_KEY, KeyOf(f));
      CutStandsAlone(headers, HOST_KEY, key);
    }
    if d < |headers| {
      CutStandsAlone(headers, DATE_KEY, KeyOf(f));
      CutStandsAlone(headers, DATE_KEY, key);
    }
    DeletionsAreDrops(headers, preserveDate);
    CutKeeps(headers, h, d, f, key, dflt);
  }

  // ----- the Path line and the generated lines -----

  lemma PathIsOther(line: string, f: Field, key: string)
    requires IsField(line, PATH_KEY) && FieldKey(key) && key != PATH_KEY
    ensures !Folded(line) && !Names(line, f) && !IsField(line, key)
  {
    KnownKeys();
    FoldedAsKey(line, PATH_KEY);
    NotNamed(line, PATH_KEY, f);
    if IsField(line, key) {
      OneFieldPerLine(line, key, PATH_KEY);
    }
  }

  lemma PathLineIsPath(hostname: string, rest: string)
    ensures IsField("Path: " + hostname + rest, PATH_KEY)
  {
    var value := " " + hostname + rest;
    assert "Path: " + hostname + rest == "Path:" + value;
    IsPathLine(value);
  }

  lemma NewPathLine(old_: string, hostname: string)
    requires IsField(old_, PATH_KEY)
    ensures IsField(PathLine(old_, hostname), PATH_KEY)
  {
    var value := Trim(old_[|PATH_KEY|..]);
    PathLineIsPath(hostname, "");
    PathLineIsPath(hostname, ", " + value);
    assert "Path: " + hostname + "" == "Path: " + hostname;
    assert "Path: " + hostname + (", " + value) == "Path: " + hostname + ", " + value;
  }

  /** Appending lines of other names, or to a list that has the name, leaves its first header as it was. */
  lemma AppendKeepsFirst(a: seq<string>, b: seq<string>, key: string)
    requires BeginsAnew(b) && (HasField(a, key) || !HasField(b, key))
    ensures FirstEnds(a + b, key) <==> FirstEnds(a, key)
  {
    FieldOfAppend(a, b, key);
  }

  lemma OtherLineLast(headers: seq<string>, p: nat, y: string, f: Field, dflt: string)
    requires p < |headers| && !Folded(headers[p]) && !Names(headers[p], f) && !Folded(y) && !Names(y, f)
    ensures LastValue(headers[p := y], f, dflt) == LastValue(headers, f, dflt)
  {
    var a, x, b := headers[..p], headers[p], headers[p + 1..];
    assert headers == a + ([x] + b) && headers[p := y] == a + ([y] + b);
    LastValueAppend(a, [x] + b, f, dflt);
    LastValueAppend(a, [y] + b, f, dflt);
    LastValueAfter(x, b, f, LastValue(a, f, dflt));
    LastValueAfter(y, b, f, LastValue(a, f, dflt));
  }

  lemma OtherLineFirst(headers: seq<string>, p: nat, y: string, key: string)
    requires p < |headers| && !Folded(headers[p]) && !IsField(headers[p], key) && !Folded(y) && !IsField(y, key)
    ensures FirstEnds(headers[p := y], key) <==> FirstEnds(headers, key)
  {
    FirstFieldIs(headers[p := y], key, FirstField(headers, key));
  }

  lemma OtherLineAdded(headers: seq<string>, y: string, f: Field, key: string, dflt: string)
    requires !Folded(y) && !Names(y, f) && !IsField(y, key)
    ensures LastValue(headers + [y], f, dflt) == LastValue(headers, f, dflt)
    ensures FirstEnds(headers + [y], key) <==> FirstEnds(headers, key)
  {
    LastValueAppend(headers, [y], f, dflt);
    LastValueAfter(y, [], f, LastValue(headers, f, dflt));
    assert [y] + [] == [y];
    FieldOfOne(y, key);
    AppendKeepsFirst(headers, [y], key);
  }

  lemma NewPathIsOther(old_: string, hostname: string, f: Field, key: string)
    requires IsField(old_, PATH_KEY) && FieldKey(key) && key != PATH_KEY
    ensures var line := PathLine(old_, hostname);
            !Folded(line) && !Names(line, f) && !IsField(line, key)
    ensures var line := "Path: " + hostname;
            !Folded(line) && !Names(line, f) && !IsField(line, key)
  {
    NewPathLine(old_, hostname);
    PathIsOther(PathLine(old_, hostname), f, key);
    PathLineIsPath(hostname, "");
    assert "Path: " + hostname + "" == "Path: " + hostname;
    PathIsOther("Path: " + hostname, f, key);
  }

  lemma PathKeeps(headers: seq<string>, hostname: string, f: Field, key: string, dflt: string)
    requires FieldKey(key) && key != PATH_KEY
    ensures LastValue(PathUpdated(headers, hostname), f, dflt) == LastValue(headers, f, dflt)
    ensures FirstEnds(PathUpdated(headers, hostname), key) <==> FirstEnds(headers, key)
  {
    var p := FirstField(headers, PATH_KEY);
    if p < |headers| {
      var line := PathLine(headers[p], hostname);
      NewPathIsOther(headers[p], hostname, f, key);
      PathIsOther(headers[p], f, key);
      OtherLineLast(headers, p, line, f, dflt);
      OtherLineFirst(headers, p, line, key);
    } else {
      IsPathLine("");
      NewPathIsOther("Path:" + "", hostname, f, key);
      OtherLineAdded(headers, "Path: " + hostname, f, key, dflt);
    }
  }

  lemma NoFromLine(name: string, value: string)
    requires name in {"Xref:", "Date:", "NNTP-Posting-Host:", "Message-ID:", "Lines:"}
    ensures !IsField(Line(name, value), FROM_KEY)
  {
    assert name[0] != 'F' && name[0] != 'f';
    assert Line(name, value)[..|FROM_KEY|][0] == name[0];
    assert FROM_KEY[0] == 'f';
  }

  lemma GeneratedNoFrom(headers: seq<string>, bodyLines: nat, st: Stamp, preserveDate: bool)
    ensures !HasField(Generated(headers, bodyLines, st, preserveDate), FROM_KEY)
    ensures BeginsAnew(Generated(headers, bodyLines, st, preserveDate))
  {
    var g := Generated(headers, bodyLines, st, preserveDate);
    NoFromLine("Xref:", st.server + " " + st.group + ":" + Format(st.number));
    NoFromLine("Date:", st.date);
    NoFromLine("NNTP-Posting-Host:", st.remote);
    NoFromLine("Message-ID:", GeneratedId(st));
    NoFromLine("Lines:", Format(bodyLines));
    HasFieldIff(g, FROM_KEY);
    assert g[0] == XrefLine(st) && g[0][0] == 'X';
  }

  lemma IdLineValue(id: string, after: seq<string>, dflt: string)
    requires BeginsAnew(after) && !HasField(after, MESSAGE_ID_KEY) && id != "" && !IsSpace(id[0])
    ensures LastValue([Line("Message-ID:", id)] + after, MessageIdField, dflt) == id
  {
    var line := Line("Message-ID:", id);
    GeneratedLine("Message-ID:", id);
    assert line[0] == 'M' && line[|MESSAGE_ID_KEY|..] == " " + id && (" " + id)[1..] == id;
    assert TrimLeft(" " + id) == id;
    assert ([line] + after)[1..] == after;
    NoField(after, MessageIdField, id);
  }

  /** The Message-ID that is generated when the client sent none. */
  lemma GeneratedIdLast(headers: seq<string>, bodyLines: nat, st: Stamp, preserveDate: bool, dflt: string)
    requires !HasField(headers, MESSAGE_ID_KEY)
    ensures LastValue(Generated(headers, bodyLines, st, preserveDate), MessageIdField, dflt) == GeneratedId(st)
  {
    var id := GeneratedId(st);
    var line, lines := Line("Message-ID:", id), Line("Lines:", Format(bodyLines));
    var before := [XrefLine(st)]
      + (if preserveDate && HasField(headers, DATE_KEY) then [] else [Line("Date:", st.date)])
      + [Line("NNTP-Posting-Host:", st.remote)];
    var after := if HasField(headers, LINES_KEY) then [] else [lines];
    assert Generated(headers, bodyLines, st, preserveDate) == before + ([line] + after);
    assert line[0] == 'M' && lines[0] == 'L' && id[0] == '<';
    GeneratedLine("Lines:", Format(bodyLines));
    FieldOfOne(lines, MESSAGE_ID_KEY);
    LastValueAppend(before, [line] + after, MessageIdField, dflt);
    IdLineValue(id, after, LastValue(before, MessageIdField, dflt));
  }

  // ----- the same, told by the lines a client posts -----

  /** The lines as a client posts them: the last From has a value, and so has the last Message-ID if there is one. */
  predicate IdentifiedAsPosted(headers: seq<string>) {
    && LastValue(headers, FromField, "") != ""
    && (HasField(headers, MESSAGE_ID_KEY) ==> LastValue(headers, MessageIdField, "") != "")
  }

  lemma PathKeepsCuts(headers: seq<string>, hostname: string, preserveDate: bool)
    ensures CutsEnd(PathUpdated(headers, hostname), preserveDate) <==> CutsEnd(headers, preserveDate)
  {
    KnownKeys();
    PathKeeps(headers, hostname, FromField, HOST_KEY, "");
    PathKeeps(headers, hostname, FromField, DATE_KEY, "");
  }

  /** What the rewrite does to the last header of a name other than Date. */
  lemma RewriteKeeps(headers: seq<string>, bodyLines: nat, st: Stamp, preserveDate: bool, f: Field)
    requires CutsEnd(headers, preserveDate) && f != DateField
    ensures LastValue(Rewritten(headers, bodyLines, st, preserveDate), f, "") ==
            LastValue(Generated(headers, bodyLines, st, preserveDate), f, LastValue(headers, f, ""))
  {
    KnownKeys();
    var kept := Without(headers, Dropped(headers, preserveDate));
    DropsKeep(headers, preserveDate, f, FROM_KEY, "");
    GeneratedNoFrom(headers, bodyLines, st, preserveDate);
    LastValueAppend(kept, Generated(headers, bodyLines, st, preserveDate), f, "");
  }

  lemma RewriteKeepsFirstFrom(headers: seq<string>, bodyLines: nat, st: Stamp, preserveDate: bool)
    requires CutsEnd(headers, preserveDate)
    ensures FirstEnds(Rewritten(headers, bodyLines, st, preserveDate), FROM_KEY) <==> FirstEnds(headers, FROM_KEY)
  {
    KnownKeys();
    DropsKeep(headers, preserveDate, FromField, FROM_KEY, "");
    GeneratedNoFrom(headers, bodyLines, st, preserveDate);
    AppendKeepsFirst(Without(headers, Dropped(headers, preserveDate)),
                     Generated(headers, bodyLines, st, preserveDate), FROM_KEY);
  }

  /**
    If no continuation hangs on a line Post cuts out, what it stores is identified exactly when what is
    posted is, and its first From has a continuation exactly when the posted one has.
   */
  lemma StoredIsIdentified(headers: seq<string>, hostname: string, bodyLines: nat, st: Stamp, preserveDate: bool)
    requires CutsEnd(headers, preserveDate)
    ensures var stored := Rewritten(PathUpdated(headers, hostname), bodyLines, st, preserveDate);
            && (Identified(stored) <==> IdentifiedAsPosted(headers))
            && (FirstEnds(stored, FROM_KEY) <==> FirstEnds(headers, FROM_KEY))
  {
    KnownKeys();
    var path := PathUpdated(headers, hostname);
    var g := Generated(path, bodyLines, st, preserveDate);
    PathKeepsCuts(headers, hostname, preserveDate);
    PathKeeps(headers, hostname, FromField, FROM_KEY, "");
    PathKeeps(headers, hostname, MessageIdField, FROM_KEY, "");
    PathUpdateKeepsFields(headers, hostname, MESSAGE_ID_KEY);
    RewriteKeeps(path, bodyLines, st, preserveDate, FromField);
    RewriteKeeps(path, bodyLines, st, preserveDate, MessageIdField);
    RewriteKeepsFirstFrom(path, bodyLines, st, preserveDate);
    GeneratedNoFrom(path, bodyLines, st, preserveDate);
    NoField(g, FromField, LastValue(path, FromField, ""));
    GeneratedFields(path, bodyLines, st, preserveDate);
    if HasField(headers, MESSAGE_ID_KEY) {
      NoField(g, MessageIdField, LastValue(path, MessageIdField, ""));
    } else {
      GeneratedIdLast(path, bodyLines, st, preserveDate, LastValue(path, MessageIdField, ""));
    }
  }

  /**
    The condition is needed: the continuation of a Date that Post takes out stays behind and joins the
    header before it, and may give a blank From a value.
   */
  lemma DateLeavesItsContinuation(from: string, date: string, more: string)
    requires IsField(from, FROM_KEY) && IsField(date, DATE_KEY) && Folded(more)
    requires !IsField(from, HOST_KEY) && !IsField(date, HOST_KEY) && !IsField(more, HOST_KEY)
    ensures var posted := [from, date, more];
            var kept := Without(posted, Dropped(posted, false));
            && kept == [from, more]
            && LastValue(posted, FromField, "") == TrimLeft(from[|FROM_KEY|..])
            && LastValue(kept, FromField, "") == CutValue(TrimLeft(from[|FROM_KEY|..]) + more) != ""
  {
    KnownKeys();
    var headers := [from, date, more];
    if IsField(from, DATE_KEY) {
      OneFieldPerLine(from, DATE_KEY, FROM_KEY);
    }
    FirstFieldIs(headers, DATE_KEY, 1);
    FirstFieldIs(headers, HOST_KEY, 3);
    WithoutOne(headers, 1, Dropped(headers, false));
    FoldedAsKey(from, FROM_KEY);
    FoldedAsKey(date, DATE_KEY);
    NotNamed(date, DATE_KEY, FromField);
    var value := TrimLeft(from[|FROM_KEY|..]);
    LastValueIs(headers, FromField, "", 0);
    LastValueIs([from, more], FromField, "", 0);
    assert headers[1..] == [date, more] && [from, more][1..] == [more];
    assert Collected(CutValue(value + more), [more][1..]) == CutValue(value + more);
  }

  // ----- headers that do not load, whatever is cut out of them -----

  /** A last, blank line of the name is what counts, if no line behind it has the name. */
  lemma BlankIsLast(before: seq<string>, line: string, rest: seq<string>, f: Field)
    requires Lower(line) == KeyOf(f) && !Folded(line) && BeginsAnew(rest) && !HasField(rest, KeyOf(f))
    ensures LastValue(before + ([line] + rest), f, "") == ""
  {
    LastValueAppend(before, [line] + rest, f, "");
    assert line[..|KeyOf(f)|] == line && TrimLeft(line[|KeyOf(f)|..]) == "";
    assert ([line] + rest)[1..] == rest;
    NoField(rest, f, "");
  }

  /** A From or a Message-ID without a value. */
  predicate BlankId(line: string) {
    line == "From:" || line == "Message-ID:"
  }

  function BlankField(line: string): Field {
    if line == "From:" then FromField else MessageIdField
  }

  lemma BlankIdIs(line: string, key: string)
    requires BlankId(line) && FieldKey(key)
    ensures Lower(line) == KeyOf(BlankField(line)) && !Folded(line)
    ensures IsField(line, key) <==> key == KeyOf(BlankField(line))
  {
    KnownKeys();
    assert Lower("From:") == FROM_KEY && Lower("Message-ID:") == MESSAGE_ID_KEY;
    assert line[..|line|] == line;
    if IsField(line, key) {
      OneFieldPerLine(line, key, KeyOf(BlankField(line)));
    }
  }

  lemma WithoutSnoc(headers: seq<string>, line: string, drop: set<int>)
    requires |headers| !in drop
    ensures Without(headers + [line], drop) == Without(headers, drop) + [line]
  {
    assert (headers + [line])[..|headers|] == headers;
  }

  /** Neither a blank From or Message-ID nor an added Path line is cut out. */
  lemma IsNotDropped(headers: seq<string>, i: nat, preserveDate: bool)
    requires i < |headers| && !IsField(headers[i], HOST_KEY) && !IsField(headers[i], DATE_KEY)
    ensures i !in Dropped(headers, preserveDate)
  {
  }

  /** A blank last line stays, with at most a Path line behind it. */
  lemma BlankStays(init: seq<string>, line: string, hostname: string, preserveDate: bool)
    returns (before: seq<string>, rest: seq<string>)
    requires BlankId(line)
    ensures var path := PathUpdated(init + [line], hostname);
            Without(path, Dropped(path, preserveDate)) == before + ([line] + rest)
    ensures rest == [] || (|rest| == 1 && IsField(rest[0], PATH_KEY))
  {
    KnownKeys();
    BlankIdIs(line, PATH_KEY);
    BlankIdIs(line, HOST_KEY);
    BlankIdIs(line, DATE_KEY);
    var headers, n := init + [line], |init|;
    var path := PathUpdated(headers, hostname);
    var drop := Dropped(path, preserveDate);
    IsNotDropped(path, n, preserveDate);
    if FirstField(headers, PATH_KEY) < |headers| {
      before, rest := Without(path[..n], drop), [];
      assert path == path[..n] + [line] && [line] + rest == [line];
      WithoutSnoc(path[..n], line, drop);
    } else {
      var added := "Path: " + hostname;
      before, rest := Without(init, drop), [added];
      PathLineIsPath(hostname, "");
      assert added + "" == added;
      PathIsOther(added, FromField, HOST_KEY);
      PathIsOther(added, FromField, DATE_KEY);
      IsNotDropped(path, n + 1, preserveDate);
      WithoutSnoc(init, line, drop);
      WithoutSnoc(headers, added, drop);
      assert before + [line] + [added] == before + ([line] + [added]);
    }
  }

  /** Nothing behind it has its name. */
  lemma NothingAfterBlank(init: seq<string>, line: string, hostname: string, bodyLines: nat, st: Stamp,
                          preserveDate: bool, rest: seq<string>)
    requires BlankId(line) && (rest == [] || (|rest| == 1 && IsField(rest[0], PATH_KEY)))
    ensures var g := Generated(PathUpdated(init + [line], hostname), bodyLines, st, preserveDate);
            BeginsAnew(rest + g) && !HasField(rest + g, KeyOf(BlankField(line)))
  {
    KnownKeys();
    var headers, key := init + [line], KeyOf(BlankField(line));
    var path := PathUpdated(headers, hostname);
    var g := Generated(path, bodyLines, st, preserveDate);
    BlankIdIs(line, key);
    FieldOfOne(line, key);
    FieldOfAppend(init, [line], key);
    PathUpdateKeepsFields(headers, hostname, key);
    GeneratedNoFrom(path, bodyLines, st, preserveDate);
    GeneratedFields(path, bodyLines, st, preserveDate);
    if rest != [] {
      PathIsOther(rest[0], BlankField(line), key);
      FieldOfOne(rest[0], key);
      assert rest == [rest[0]];
    } else {
      FieldOfOne("", key);
    }
    FieldOfAppend(rest, g, key);
  }

  lemma BlankInside(before: seq<string>, line: string, rest: seq<string>, g: seq<string>)
    requires BlankId(line) && BeginsAnew(rest + g) && !HasField(rest + g, KeyOf(BlankField(line)))
    ensures !Identified(before + ([line] + rest) + g)
  {
    KnownKeys();
    BlankIdIs(line, FROM_KEY);
    assert before + ([line] + rest) + g == before + ([line] + (rest + g));
    BlankIsLast(before, line, rest + g, BlankField(line));
  }

  /** A post whose last line is a blank From or Message-ID is stored under a header that does not load. */
  lemma BlankIsUnreadable(init: seq<string>, line: string, hostname: string, bodyLines: nat, st: Stamp,
                          preserveDate: bool)
    requires BlankId(line)
    ensures !Identified(Rewritten(PathUpdated(init + [line], hostname), bodyLines, st, preserveDate))
  {
    var path := PathUpdated(init + [line], hostname);
    var before, rest := BlankStays(init, line, hostname, preserveDate);
    NothingAfterBlank(init, line, hostname, bodyLines, st, preserveDate, rest);
    BlankInside(before, line, rest, Generated(path, bodyLines, st, preserveDate));
  }

  /** And so is a post without From. */
  lemma NoFromIsUnreadable(headers: seq<string>, hostname: string, bodyLines: nat, st: Stamp, preserveDate: bool)
    requires !HasField(headers, FROM_KEY)
    ensures !Identified(Rewritten(PathUpdated(headers, hostname), bodyLines, st, preserveDate))
  {
    KnownKeys();
    var path := PathUpdated(headers, hostname);
    var kept := Without(path, Dropped(path, preserveDate));
    PathUpdateKeepsFields(headers, hostname, FROM_KEY);
    DroppedAreHostOrDate(path, preserveDate, FROM_KEY);
    WithoutKeepsField(path, Dropped(path, preserveDate), FROM_KEY);
    GeneratedNoFrom(path, bodyLines, st, preserveDate);
    FieldOfAppend(kept, Generated(path, bodyLines, st, preserveDate), FROM_KEY);
    NoField(Rewritten(path, bodyLines, st, preserveDate), FromField, "");
  }
}
