/**
  Byte strings as the server handles them. A `char` stands for one byte, so `|s|` is the
  byte length and slicing never splits anything.
 */
module Text {

  datatype Option<+T> = None | Some(value: T) {
    function GetOr(default: T): T {
      match this case Some(v) => v case None => default
    }
  }

  // ----- spaces, letter case -----

  predicate IsSpace(c: char) {
    c == ' ' || 9 <= c as int <= 13
  }

  function LowerChar(c: char): char {
    if 'A' <= c <= 'Z' then (c as int + 32) as char else c
  }

  /** ASCII lower-casing. */
  function Lower(s: string): (r: string)
    ensures |r| == |s|
  {
    seq(|s|, i requires 0 <= i < |s| => LowerChar(s[i]))
  }

  function TrimLeft(s: string): string {
    if s != "" && IsSpace(s[0]) then TrimLeft(s[1..]) else s
  }

  function TrimRight(s: string): string {
    if s != "" && IsSpace(s[|s| - 1]) then TrimRight(s[..|s| - 1]) else s
  }

  /** strings.TrimSpace */
  function Trim(s: string): string {
    TrimRight(TrimLeft(s))
  }

  /** Nothing left to trim at either end. */
  predicate Trimmed(s: string) {
    s == "" || (!IsSpace(s[0]) && !IsSpace(s[|s| - 1]))
  }

  lemma {:induction false} TrimLeftShape(s: string)
    ensures TrimLeft(s) == "" || !IsSpace(TrimLeft(s)[0])
    ensures exists k :: 0 <= k <= |s| && TrimLeft(s) == s[k..]
  {
    if s != "" && IsSpace(s[0]) {
      TrimLeftShape(s[1..]);
      var k :| 0 <= k <= |s[1..]| && TrimLeft(s[1..]) == s[1..][k..];
      assert s[1..][k..] == s[k + 1..];
    } else {
      assert s[0..] == s;
    }
  }

  lemma {:induction false} TrimRightShape(s: string)
    ensures TrimRight(s) == "" || !IsSpace(TrimRight(s)[|TrimRight(s)| - 1])
    ensures exists k :: 0 <= k <= |s| && TrimRight(s) == s[..k]
  {
    if s != "" && IsSpace(s[|s| - 1]) {
      TrimRightShape(s[..|s| - 1]);
      var k :| 0 <= k <= |s| - 1 && TrimRight(s[..|s| - 1]) == s[..|s| - 1][..k];
      assert s[..|s| - 1][..k] == s[..k];
    } else {
      assert s[..|s|] == s;
    }
  }

  /** Trimming leaves a trimmed piece of the input. */
  lemma TrimIsTrimmed(s: string)
    ensures Trimmed(Trim(s))
    ensures forall c :: c in Trim(s) ==> c in s
  {
    TrimLeftShape(s);
    TrimRightShape(TrimLeft(s));
  }

  lemma TrimFixpoint(s: string)
    requires Trimmed(s)
    ensures Trim(s) == s
  {
  }

  predicate Blank(s: string) {
    forall c :: c in s ==> IsSpace(c)
  }

  lemma {:induction false} BlankTrims(s: string)
    ensures TrimRight(s) == "" <==> Blank(s)
  {
    if s != "" {
      BlankTrims(s[..|s| - 1]);
      assert s == s[..|s| - 1] + [s[|s| - 1]];
    }
  }

  lemma {:induction false} TrimRightAppend(a: string, b: string)
    requires a != "" && Trimmed(a)
    ensures TrimRight(a + b) == a + TrimRight(b)
    decreases |b|
  {
    if b == "" {
      assert a + b == a;
    } else {
      var n := |b| - 1;
      assert (a + b)[|a + b| - 1] == b[n] && (a + b)[..|a + b| - 1] == a + b[..n];
      TrimRightAppend(a, b[..n]);
    }
  }

  /** Behind a trimmed text only the end is trimmed. */
  lemma TrimAppend(a: string, b: string)
    requires a != "" && Trimmed(a)
    ensures Trim(a + b) == a + TrimRight(b)
  {
    TrimRightAppend(a, b);
    assert (a + b)[0] == a[0] && TrimLeft(a + b) == a + b;
  }

  // ----- split and join -----

  /** strings.Split on a one-byte separator. */
  function Split(s: string, sep: char): (parts: seq<string>)
    ensures |parts| >= 1
  {
    if s == "" then [""]
    else if s[0] == sep then [""] + Split(s[1..], sep)
    else
      var rest := Split(s[1..], sep);
      [[s[0]] + rest[0]] + rest[1..]
  }

  /** strings.Join with a one-byte separator. */
  function Join(parts: seq<string>, sep: char): string {
    if |parts| == 0 then ""
    else if |parts| == 1 then parts[0]
    else parts[0] + [sep] + Join(parts[1..], sep)
  }

  lemma {:induction false} JoinSplit(s: string, sep: char)
    ensures Join(Split(s, sep), sep) == s
  {
    if s == "" {
    } else {
      JoinSplit(s[1..], sep);
      var rest := Split(s[1..], sep);
      if s[0] == sep {
        assert ([""] + rest)[1..] == rest;
        assert "" + [sep] + s[1..] == s;
      } else {
        var parts := [[s[0]] + rest[0]] + rest[1..];
        assert parts[1..] == rest[1..];
        if |rest| == 1 {
          assert [s[0]] + s[1..] == s;
        } else {
          assert parts[0] + [sep] + Join(rest[1..], sep) == [s[0]] + (rest[0] + [sep] + Join(rest[1..], sep));
          assert [s[0]] + s[1..] == s;
        }
      }
    }
  }

  lemma {:induction false} SplitPartsHaveNoSeparator(s: string, sep: char)
    ensures forall p :: p in Split(s, sep) ==> sep !in p
    ensures forall p, c :: p in Split(s, sep) && c in p ==> c in s
  {
    if s != "" {
      SplitPartsHaveNoSeparator(s[1..], sep);
      var rest := Split(s[1..], sep);
      forall p | p in Split(s, sep)
        ensures sep !in p && forall c :: c in p ==> c in s
      {
        if s[0] == sep {
          assert p == "" || p in rest;
        } else {
          assert p == [s[0]] + rest[0] || p in rest;
          assert rest[0] in rest;
        }
      }
    }
  }

  lemma {:induction false} SplitOfPrefix(a: string, s: string, sep: char)
    requires sep !in a
    ensures Split(a + s, sep) == [a + Split(s, sep)[0]] + Split(s, sep)[1..]
  {
    if a == "" {
      assert a + s == s;
      assert a + Split(s, sep)[0] == Split(s, sep)[0];
    } else {
      SplitOfPrefix(a[1..], s, sep);
      assert (a + s)[1..] == a[1..] + s;
      var rest := Split(s, sep);
      assert Split(a + s, sep) == [[a[0]] + (a[1..] + rest[0])] + rest[1..];
      assert [a[0]] + (a[1..] + rest[0]) == a + rest[0];
    }
  }

  lemma SplitFirst(first: string, joined: string, tail: seq<string>, sep: char)
    requires sep !in first && Split(joined, sep) == tail
    ensures Split(first + [sep] + joined, sep) == [first] + tail
  {
    var s := [sep] + joined;
    assert s[1..] == joined;
    assert Split(s, sep) == [""] + tail && ([""] + tail)[1..] == tail;
    SplitOfPrefix(first, s, sep);
    assert first + s == first + [sep] + joined && first + "" == first;
  }

  /** Splitting undoes joining as long as no part holds the separator. */
  lemma {:induction false} SplitJoin(parts: seq<string>, sep: char)
    requires |parts| >= 1
    requires forall p :: p in parts ==> sep !in p
    ensures Split(Join(parts, sep), sep) == parts
  {
    var first := parts[0];
    if |parts| == 1 {
      SplitOfPrefix(first, "", sep);
      assert first + "" == first;
      assert [first + ""] + [""][1..] == parts;
    } else {
      SplitJoin(parts[1..], sep);
      SplitFirst(first, Join(parts[1..], sep), parts[1..], sep);
      assert [first] + parts[1..] == parts;
    }
  }

  /** strings.ReplaceAll of one byte by another. */
  function Replace(s: string, old_: char, new_: char): (r: string)
    ensures |r| == |s|
  {
    seq(|s|, i requires 0 <= i < |s| => if s[i] == old_ then new_ else s[i])
  }

  lemma {:induction false} ReplaceInJoin(parts: seq<string>, a: char, b: char)
    requires forall p :: p in parts ==> a !in p
    ensures Replace(Join(parts, a), a, b) == Join(parts, b)
  {
    if |parts| == 0 {
    } else if |parts| == 1 {
      assert parts[0] in parts;
      assert Replace(parts[0], a, b) == parts[0];
    } else {
      ReplaceInJoin(parts[1..], a, b);
      var whole := Replace(Join(parts, a), a, b);
      var rest := Join(parts[1..], a);
      assert whole == Replace(parts[0], a, b) + [b] + Replace(rest, a, b);
      assert parts[0] in parts;
      assert Replace(parts[0], a, b) == parts[0];
    }
  }

  // ----- decimal numbers -----

  const MAX_UINT64: nat := 0xFFFF_FFFF_FFFF_FFFF

  predicate IsDigit(c: char) {
    '0' <= c <= '9'
  }

  predicate AllDigits(s: string) {
    forall i :: 0 <= i < |s| ==> IsDigit(s[i])
  }

  function Value(s: string): nat
    requires AllDigits(s)
  {
    if s == "" then 0 else Value(s[..|s| - 1]) * 10 + (s[|s| - 1] as int - '0' as int)
  }

  /** strconv.ParseUint(s, 10, 64) */
  function ParseUint(s: string): Option<nat> {
    if s != "" && AllDigits(s) && Value(s) <= MAX_UINT64 then Some(Value(s)) else None
  }

  /** strconv.FormatUint(n, 10) */
  function Format(n: nat): (s: string)
    ensures s != "" && AllDigits(s)
  {
    if n < 10 then [(n + '0' as int) as char] else Format(n / 10) + [(n % 10 + '0' as int) as char]
  }

  lemma {:induction false} ValueOfFormat(n: nat)
    ensures Value(Format(n)) == n
  {
    if n < 10 {
      assert Format(n)[..0] == "";
    } else {
      ValueOfFormat(n / 10);
      var s := Format(n);
      assert s[..|s| - 1] == Format(n / 10);
    }
  }

  /** Two numbers never share a decimal form. */
  lemma FormatInjective(m: nat, n: nat)
    requires Format(m) == Format(n)
    ensures m == n
  {
    ValueOfFormat(m);
    ValueOfFormat(n);
  }

  // ----- ascending numbers -----

  ghost predicate Ascending(ks: seq<nat>) {
    forall i, j :: 0 <= i < j < |ks| ==> ks[i] < ks[j]
  }

  lemma AscendingOneMore(ks: seq<nat>, n: nat)
    requires Ascending(ks) && forall k :: k in ks ==> k < n
    ensures Ascending(ks + [n])
  {
    forall i, j | 0 <= i < j < |ks + [n]| ensures (ks + [n])[i] < (ks + [n])[j] {
      assert ks[i] in ks;
    }
  }
}
