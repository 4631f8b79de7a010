/**
  Text as lines: what the POST reader, the article writer, the scanner and the line counters share.
 */
module Lines {

  // ----- carriage returns -----

  /** The stream without its carriage returns. */
  function StripCR(s: string): string {
    if s == "" then ""
    else StripCR(s[..|s| - 1]) + (if s[|s| - 1] == '\r' then "" else [s[|s| - 1]])
  }

  lemma StripStep(input: string, i: nat)
    requires i < |input|
    ensures StripCR(input[..i + 1]) ==
            if input[i] == '\r' then StripCR(input[..i]) else StripCR(input[..i]) + [input[i]]
  {
    assert input[..i + 1][..i] == input[..i];
  }

  lemma {:induction false} StripConcat(a: string, b: string)
    ensures StripCR(a + b) == StripCR(a) + StripCR(b)
  {
    if b == "" {
      assert a + b == a;
    } else {
      StripConcat(a, b[..|b| - 1]);
      assert (a + b)[..|a + b| - 1] == a + b[..|b| - 1];
    }
  }

  lemma {:induction false} StripNothing(a: string)
    requires '\r' !in a
    ensures StripCR(a) == a
  {
    if a != "" {
      StripNothing(a[..|a| - 1]);
    }
  }

  // ----- a text cut at its line feeds -----

  /** The complete lines of a text, without their line feeds. */
  function FullLines(t: string): seq<string> {
    if |t| == 0 then []
    else if t[|t| - 1] == '\n' then FullLines(t[..|t| - 1]) + [Tail(t[..|t| - 1])]
    else FullLines(t[..|t| - 1])
  }

  /** What follows the last line feed. */
  function Tail(t: string): string {
    if |t| == 0 || t[|t| - 1] == '\n' then "" else Tail(t[..|t| - 1]) + [t[|t| - 1]]
  }

  /** Every line, an unfinished last one included. */
  function AllLines(t: string): seq<string> {
    if |Tail(t)| == 0 then FullLines(t) else FullLines(t) + [Tail(t)]
  }

  /** A text line: no line ending inside. */
  predicate IsLine(l: string) {
    '\r' !in l && '\n' !in l
  }

  /** Lines as the server keeps them: each followed by a line feed. */
  function Unlines(ls: seq<string>): string {
    if ls == [] then "" else Unlines(ls[..|ls| - 1]) + (ls[|ls| - 1] + "\n")
  }

  lemma {:induction false} UnlinesEndsInLF(ls: seq<string>)
    requires ls != []
    ensures Unlines(ls) != "" && Unlines(ls)[|Unlines(ls)| - 1] == '\n'
  {
  }

  /** Appending to a text that ends a line: the piece's lines follow. */
  lemma {:induction false} LinesAppend(t: string, x: string)
    requires '\n' !in x
    requires Tail(t) == ""
    ensures FullLines(t + x) == FullLines(t) && Tail(t + x) == x
  {
    if x == "" {
      assert t + x == t;
    } else {
      LinesAppend(t, x[..|x| - 1]);
      assert (t + x)[..|t + x| - 1] == t + x[..|x| - 1];
    }
  }

  lemma LinesOneByte(t: string, c: char)
    ensures c == '\n' ==> FullLines(t + [c]) == FullLines(t) + [Tail(t)] && Tail(t + [c]) == ""
    ensures c != '\n' ==> FullLines(t + [c]) == FullLines(t) && Tail(t + [c]) == Tail(t) + [c]
  {
    var u := t + [c];
    assert u[..|u| - 1] == t;
  }

  /** A line that no line feed ends counts as a line, too. */
  lemma UnfinishedLine(t: string, x: string)
    requires '\n' !in x && x != "" && Tail(t) == ""
    ensures AllLines(t + x) == AllLines(t) + [x]
  {
    LinesAppend(t, x);
  }

  lemma LineAppend(t: string, x: string)
    requires '\n' !in x && Tail(t) == ""
    ensures FullLines(t + (x + "\n")) == FullLines(t) + [x] && Tail(t + (x + "\n")) == ""
  {
    LinesAppend(t, x);
    var u := t + (x + "\n");
    assert u[..|u| - 1] == t + x;
  }

  /** Cutting undoes writing, line for line. */
  lemma {:induction false} AllLinesOfUnlines(ls: seq<string>)
    requires forall l :: l in ls ==> '\n' !in l
    ensures Tail(Unlines(ls)) == "" && FullLines(Unlines(ls)) == ls && AllLines(Unlines(ls)) == ls
  {
    if ls != [] {
      var init, last := ls[..|ls| - 1], ls[|ls| - 1];
      assert last in ls && ls == init + [last];
      AllLinesOfUnlines(init);
      LineAppend(Unlines(init), last);
      assert Unlines(ls) == Unlines(init) + (last + "\n");
    }
  }

  lemma {:induction false} UnlinesHasNoCR(ls: seq<string>)
    requires forall l :: l in ls ==> '\r' !in l
    ensures '\r' !in Unlines(ls)
  {
    if ls != [] {
      assert ls[|ls| - 1] in ls;
      UnlinesHasNoCR(ls[..|ls| - 1]);
    }
  }

  lemma {:induction false} AllLinesShape(t: string)
    ensures forall l, c :: l in FullLines(t) && c in l ==> c in t && c != '\n'
    ensures forall c :: c in Tail(t) ==> c in t && c != '\n'
  {
    if t != "" {
      AllLinesShape(t[..|t| - 1]);
    }
  }

  // ----- the blank line between header and body -----

  /** The index of the first blank line, or the number of lines. */
  function FirstBlank(ls: seq<string>): (i: nat)
    ensures i <= |ls|
    ensures i < |ls| ==> |ls[i]| == 0
    ensures forall k :: 0 <= k < i ==> |ls[k]| > 0
  {
    if |ls| == 0 || |ls[0]| == 0 then 0 else 1 + FirstBlank(ls[1..])
  }

  function HeadOf(ls: seq<string>): seq<string> {
    ls[..FirstBlank(ls)]
  }

  function BodyOf(ls: seq<string>): seq<string> {
    if FirstBlank(ls) < |ls| then ls[FirstBlank(ls) + 1..] else []
  }

  predicate HasBlank(ls: seq<string>) {
    FirstBlank(ls) < |ls|
  }

  /** Header, blank line, body: the parts are found again. */
  lemma PartsOf(head: seq<string>, body: seq<string>)
    requires forall h :: h in head ==> h != ""
    ensures var ls := head + [""] + body;
            HasBlank(ls) && HeadOf(ls) == head && BodyOf(ls) == body
  {
    var ls := head + [""] + body;
    assert ls[|head|] == "";
    forall k | 0 <= k < |head| ensures ls[k] != "" {
      assert head[k] in head;
    }
    assert FirstBlank(ls) == |head|;
  }

  /** Without a blank line all is header. */
  lemma AllHeader(ls: seq<string>)
    requires "" !in ls
    ensures !HasBlank(ls) && HeadOf(ls) == ls && BodyOf(ls) == []
  {
  }

  lemma FirstBlankAppend(ls: seq<string>, l: string)
    ensures FirstBlank(ls + [l]) == if HasBlank(ls) || l == "" then FirstBlank(ls) else |ls| + 1
  {
    var u, i, j := ls + [l], FirstBlank(ls), FirstBlank(ls + [l]);
    assert forall k :: 0 <= k < |ls| ==> u[k] == ls[k];
    if i < |ls| {
      assert u[i] == "";
    }
    assert u[|ls|] == l;
    if j < |ls| {
      assert ls[j] == "";
    }
  }

  /** One more line goes to the header, is the separator, or goes to the body. */
  lemma PartsStep(ls: seq<string>, l: string)
    ensures HasBlank(ls) ==>
              HeadOf(ls + [l]) == HeadOf(ls) && BodyOf(ls + [l]) == BodyOf(ls) + [l] && HasBlank(ls + [l])
    ensures !HasBlank(ls) && l == "" ==> HeadOf(ls + [l]) == HeadOf(ls) && BodyOf(ls + [l]) == [] && HasBlank(ls + [l])
    ensures !HasBlank(ls) && l != "" ==>
              HeadOf(ls + [l]) == HeadOf(ls) + [l] && BodyOf(ls + [l]) == [] && !HasBlank(ls + [l])
    ensures !HasBlank(ls) ==> HeadOf(ls) == ls && BodyOf(ls) == []
  {
    FirstBlankAppend(ls, l);
  }

  // ----- dot-stuffing -----

  predicate StartsWithDot(l: string) {
    l != "" && l[0] == '.'
  }

  /** Dot-stuffing of one line, section 3.1.1 of RFC 3977. */
  function Stuff(l: string): string {
    if StartsWithDot(l) then "." + l else l
  }

  function StuffAll(ls: seq<string>): (r: seq<string>)
    ensures |r| == |ls|
  {
    seq(|ls|, i requires 0 <= i < |ls| => Stuff(ls[i]))
  }

  /** Stuffed lines, each ended by CRLF. */
  function Wire(ls: seq<string>): string {
    if ls == [] then "" else Wire(ls[..|ls| - 1]) + (Stuff(ls[|ls| - 1]) + "\r\n")
  }

  lemma Assoc(a: string, b: string, c: string)
    ensures (a + b) + c == a + (b + c)
  {
  }

  lemma WireSnoc(ls: seq<string>, l: string)
    ensures Wire(ls + [l]) == Wire(ls) + (Stuff(l) + "\r\n")
  {
    assert (ls + [l])[..|ls|] == ls;
  }

  lemma {:induction false} WireConcat(a: seq<string>, b: seq<string>)
    ensures Wire(a + b) == Wire(a) + Wire(b)
  {
    if b == [] {
      assert a + b == a;
    } else {
      var init, last := b[..|b| - 1], b[|b| - 1];
      WireConcat(a, init);
      assert b == init + [last] && a + b == (a + init) + [last];
      WireSnoc(init, last);
      WireSnoc(a + init, last);
      Assoc(Wire(a), Wire(init), Stuff(last) + "\r\n");
    }
  }
}
