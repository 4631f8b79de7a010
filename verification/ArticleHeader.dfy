/**
  Header data read back from an article file (internal/article/article.go, Load and GetRawHeader;
  internal/group/group.go, GetMessageID). Load lets the last of several equal headers win and unfolds
  continuation lines; the two look-ups take the first.
 */
module ArticleHeader {
  import opened Text
  import opened Lines
  import opened Headers
  import opened ArticleFile
  import opened Spool

  const FIELD_MAX := 1024
  const GROUP_MAX := 1024

  /** The headers Load keeps. */
  datatype Field = SubjectField | FromField | DateField | XrefField | MessageIdField | ReferencesField | LinesField

  datatype Article = Article(group: string, number: nat, valid: bool, headers: map<Field, string>) {
    function Get(f: Field): string {
      if f in headers then headers[f] else ""
    }
  }

  function NotLoaded(group: string, number: nat): Article {
    Article(group, number, false, map[])
  }

  predicate Folded(line: string) {
    |line| > 0 && (line[0] == ' ' || line[0] == '\t')
  }

  function KeyLength(line: string): (i: nat)
    ensures i <= |line|
  {
    if |line| == 0 then 0
    else if line[0] == ':' then 1
    else
      var rest := KeyLength(line[1..]);
      if rest == 0 then 0 else rest + 1
  }

  lemma {:induction false} KeyEndsAtFirstColon(line: string)
    ensures var i := KeyLength(line);
            && (i > 0 <==> ':' in line)
            && (i > 0 ==> line[i - 1] == ':' && ':' !in line[..i - 1])
  {
    if |line| > 0 && line[0] != ':' {
      KeyEndsAtFirstColon(line[1..]);
      var i := KeyLength(line[1..]);
      if i > 0 {
        assert line[..i] == [line[0]] + line[1..][..i - 1];
      }
    }
  }

  /** splitKeyValue: the name up to and with its colon, and the value without leading space; nothing without a colon. */
  function SplitKeyValue(line: string): (string, string) {
    var i := KeyLength(line);
    if i == 0 then ("", "") else (line[..i], TrimLeft(line[i..]))
  }

  function FieldOf(key: string): Option<Field> {
    var k := Lower(key);
    if k == "subject:" then Some(SubjectField)
    else if k == FROM_KEY then Some(FromField)
    else if k == DATE_KEY then Some(DateField)
    else if k == "xref:" then Some(XrefField)
    else if k == MESSAGE_ID_KEY then Some(MessageIdField)
    else if k == "references:" then Some(ReferencesField)
    else if k == LINES_KEY then Some(LinesField)
    else None
  }

  /** parseHeader */
  function WithHeader(a: Article, key: string, val: string): Article {
    match FieldOf(key) case Some(f) => a.(headers := a.headers[f := val]) case None => a
  }

  function Flushed(a: Article, key: string, val: string): Article {
    if |key| > 0 then WithHeader(a, key, val) else a
  }

  function CutValue(val: string): string {
    if |val| > FIELD_MAX then val[..FIELD_MAX] else val
  }

  /**
    The scanning loop of Load from some line on, with the header being collected and what is known so
    far; and whether a blank line ended it, which also ends the last header.
   */
  function LoadFrom(tokens: seq<string>, key: string, val: string, a: Article): (Article, bool) {
    if |tokens| == 0 then (a, false)
    else
      var line := BeforeCR(tokens[0]);
      if |line| == 0 then (Flushed(a, key, val), true)
      else if Folded(line) then LoadFrom(tokens[1..], key, CutValue(val + line), a)
      else
        var kv := SplitKeyValue(line);
        LoadFrom(tokens[1..], kv.0, kv.1, Flushed(a, key, val))
  }

  /** The article Load leaves behind; it is valid exactly when Load reports no error. */
  function Loaded(text: Option<string>, group: string, number: nat): Article {
    if |group| >= GROUP_MAX || text.None? then NotLoaded(group, number)
    else
      var (a, ended) := LoadFrom(Scanned(text.value), "", "", NotLoaded(group, number));
      a.(valid := (ended || !ScanFails(text.value)) && |a.Get(MessageIdField)| > 0 && |a.Get(FromField)| > 0)
  }

  method LoadHeader(tokens: seq<string>, a0: Article) returns (a: Article, ended: bool)
    ensures (a, ended) == LoadFrom(tokens, "", "", a0)
  {
    a := a0;
    var key, val := "", "";
    var i := 0;
    while i < |tokens|
      invariant i <= |tokens|
      invariant LoadFrom(tokens[i..], key, val, a) == LoadFrom(tokens, "", "", a0)
    {
      var line := BeforeCR(tokens[i]);
      assert tokens[i..][0] == tokens[i] && tokens[i..][1..] == tokens[i + 1..];
      if |line| == 0 {
        if key != "" {
          a := WithHeader(a, key, val);
        }
        return a, true;
      }
      i := i + 1;
      if line[0] == '\t' || line[0] == ' ' {
        val := val + line;
        if |val| > FIELD_MAX {
          val := val[..FIELD_MAX];
        }
        continue;
      }
      if key != "" {
        a := WithHeader(a, key, val);
      }
      var kv := SplitKeyValue(line);
      key, val := kv.0, kv.1;
    }
    return a, false;
  }

  method Load(text: Option<string>, group: string, number: nat) returns (a: Article)
    ensures a == Loaded(text, group, number)
  {
    a := NotLoaded(group, number);
    if |group| >= GROUP_MAX {
      return;
    }
    if text.None? {
      return;
    }
    KeepsIdentity(Scanned(text.value), "", "", a);
    var ended;
    a, ended := LoadHeader(Scanned(text.value), a);
    if !ended && ScanFails(text.value) {
      return;
    }
    if a.Get(MessageIdField) == "" {
      return;
    }
    if a.Get(FromField) == "" {
      return;
    }
    a := a.(valid := true);
  }

  lemma {:induction false} KeepsIdentity(tokens: seq<string>, key: string, val: string, a: Article)
    ensures var r := LoadFrom(tokens, key, val, a).0;
            r.valid == a.valid && r.group == a.group && r.number == a.number
    decreases tokens
  {
    if |tokens| > 0 {
      var line := BeforeCR(tokens[0]);
      var kv := SplitKeyValue(line);
      KeepsIdentity(tokens[1..], key, CutValue(val + line), a);
      KeepsIdentity(tokens[1..], kv.0, kv.1, Flushed(a, key, val));
    }
  }

  /** Whatever the file holds, the article carries the group and number that were asked for. */
  lemma LoadedIdentity(text: Option<string>, group: string, number: nat)
    ensures Loaded(text, group, number).group == group && Loaded(text, group, number).number == number
    ensures Loaded(text, group, number).valid ==> text.Some?
  {
    if |group| < GROUP_MAX && text.Some? {
      KeepsIdentity(Scanned(text.value), "", "", NotLoaded(group, number));
    }
  }

  // ----- GetMessageID -----

  function FindId(tokens: seq<string>): Option<string> {
    if |tokens| == 0 || |tokens[0]| == 0 then None
    else if IsField(tokens[0], MESSAGE_ID_KEY) then Some(Trim(tokens[0][|MESSAGE_ID_KEY|..]))
    else FindId(tokens[1..])
  }

  function MessageIdOf(text: string): Option<string> {
    FindId(Scanned(text))
  }

  /** It is the Message-ID header of the article's head. */
  lemma {:induction false} FindIdInHead(tokens: seq<string>)
    ensures FindId(tokens) == HeaderValue(HeadOf(tokens), MESSAGE_ID_KEY)
  {
    if |tokens| > 0 && |tokens[0]| > 0 {
      FindIdInHead(tokens[1..]);
      assert HeadOf(tokens) == [tokens[0]] + HeadOf(tokens[1..]);
    }
  }

  /** The Message-ID of every article of a group that has one. */
  function IdsOf(v: GroupView): map<nat, string> {
    map n | n in v.files && MessageIdOf(v.files[n].text).Some? :: MessageIdOf(v.files[n].text).value
  }

  method GetMessageID(text: string) returns (r: Option<string>)
    ensures r == MessageIdOf(text)
  {
    var tokens := Scanned(text);
    var i := 0;
    while i < |tokens|
      invariant i <= |tokens|
      invariant FindId(tokens[i..]) == FindId(tokens)
    {
      var line := tokens[i];
      assert tokens[i..][0] == line && tokens[i..][1..] == tokens[i + 1..];
      if line == "" {
        break;
      }
      if |line| >= 11 && Lower(line[..11]) == MESSAGE_ID_KEY {
        return Some(Trim(line[11..]));
      }
      i := i + 1;
    }
    return None;
  }

  // ----- GetRawHeader -----

  function Target(field: string): string {
    var t := Lower(field);
    if |t| > 0 && t[|t| - 1] == ':' then t else t + ":"
  }

  /** Continuation lines right after a header, each trimmed and put after one space. */
  function Continued(tokens: seq<string>): string {
    if |tokens| == 0 || !Folded(BeforeCR(tokens[0])) then ""
    else " " + Trim(BeforeCR(tokens[0])) + Continued(tokens[1..])
  }

  predicate Opens(line: string, target: string) {
    !Folded(line) && IsField(line, target)
  }

  /** The first header of that name, unfolded; empty when there is none before the blank line. */
  function FindRaw(tokens: seq<string>, target: string): string {
    if |tokens| == 0 then ""
    else
      var line := BeforeCR(tokens[0]);
      if |line| == 0 then ""
      else if Opens(line, target) then Trim(line[|target|..]) + Continued(tokens[1..])
      else FindRaw(tokens[1..], target)
  }

  function RawHeader(text: string, field: string): string {
    FindRaw(Scanned(text), Target(field))
  }

  method GetRawHeader(text: string, field: string) returns (val: string)
    ensures val == RawHeader(text, field)
  {
    var tokens := Scanned(text);
    val := FindHeader(tokens, Target(field));
  }

  lemma ContinuedStep(tokens: seq<string>, i: nat, val: string)
    requires i < |tokens|
    ensures var line := BeforeCR(tokens[i]);
            val + Continued(tokens[i..]) ==
              if Folded(line) then (val + (" " + Trim(line))) + Continued(tokens[i + 1..]) else val
  {
    assert tokens[i..][1..] == tokens[i + 1..];
  }

  /** The scanning loop of GetRawHeader. */
  method FindHeader(tokens: seq<string>, target: string) returns (val: string)
    ensures val == FindRaw(tokens, target)
  {
    val := "";
    var matched := false;
    var i := 0;
    while i < |tokens|
      invariant i <= |tokens|
      invariant !matched ==> val == "" && FindRaw(tokens[i..], target) == FindRaw(tokens, target)
      invariant matched ==> val + Continued(tokens[i..]) == FindRaw(tokens, target)
    {
      var line := BeforeCR(tokens[i]);
      assert tokens[i..][0] == tokens[i] && tokens[i..][1..] == tokens[i + 1..];
      ContinuedStep(tokens, i, val);
      if |line| == 0 {
        break;
      }
      if Folded(line) {
        if matched {
          val := val + (" " + Trim(line));
        }
        i := i + 1;
        continue;
      }
      if matched {
        return;
      }
      if |line| >= |target| && Lower(line[..|target|]) == target {
        val := Trim(line[|target|..]);
        matched := true;
      }
      i := i + 1;
    }
  }
}
