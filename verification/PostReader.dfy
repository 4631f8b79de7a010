/**
  The reader of a POST body (internal/nntp/server.go): one byte at a time, CR dropped, the
  dot after a line feed removed, end at LF-dot-LF. Section 3.1.1 of RFC 3977 is what clients follow.
 */
module PostReader {
  import opened Lines

  const MAX_POST_SIZE: nat := 10 * 1024 * 1024

  datatype Mode = Normal | AfterLF | AfterLFDot

  datatype Outcome =
    | Complete(msg: string)   // terminator seen
    | Truncated(msg: string)  // connection ended first
    | TooLarge                // more than MAX_POST_SIZE bytes buffered

  // ----- what a body means -----

  predicate DotAfterLF(t: string, i: nat)
    requires i < |t|
  {
    t[i] == '.' && i > 0 && t[i - 1] == '\n'
  }

  /** The text with every dot that directly follows a line feed removed. */
  function Unstuff(t: string): string {
    if t == "" then ""
    else Unstuff(t[..|t| - 1]) + (if DotAfterLF(t, |t| - 1) then "" else [t[|t| - 1]])
  }

  /** LF-dot-LF starts at position k. */
  predicate TerminatorAt(t: string, k: nat) {
    k + 3 <= |t| && t[k] == '\n' && t[k + 1] == '.' && t[k + 2] == '\n'
  }

  ghost predicate NoTerminator(t: string) {
    forall k: nat :: !TerminatorAt(t, k)
  }

  /**
    The meaning of reading a body from `input`: the outcome and how many bytes were taken.
    Every outcome is pinned to the first LF-dot-LF of the CR-stripped stream.
   */
  ghost predicate ReadsAs(input: string, r: Outcome, consumed: nat) {
    && consumed <= |input|
    && match r
       case Complete(msg) =>
         && consumed > 0 && input[consumed - 1] == '\n'
         && var t := StripCR(input[..consumed]);
            && |t| >= 3 && TerminatorAt(t, |t| - 3)
            && NoTerminator(t[..|t| - 1])
            && msg == Unstuff(t[..|t| - 2])
            && |msg| <= MAX_POST_SIZE
       case Truncated(msg) =>
         && consumed == |input|
         && NoTerminator(StripCR(input))
         && msg == Unstuff(StripCR(input))
         && (consumed > 0 ==> |Unstuff(StripCR(input[..consumed - 1]))| <= MAX_POST_SIZE)
       case TooLarge =>
         && consumed > 0
         && var t := StripCR(input[..consumed - 1]);
            NoTerminator(t) && |Unstuff(t)| == MAX_POST_SIZE + 1
            && (consumed > 1 ==> |Unstuff(StripCR(input[..consumed - 2]))| <= MAX_POST_SIZE)
  }

  function ModeOf(t: string): Mode {
    if t != "" && t[|t| - 1] == '\n' then AfterLF
    else if t != "" && DotAfterLF(t, |t| - 1) then AfterLFDot
    else Normal
  }

  lemma LastOfMode(t: string)
    ensures ModeOf(t).AfterLF? <==> |t| >= 1 && t[|t| - 1] == '\n'
    ensures ModeOf(t).AfterLFDot? <==> |t| >= 2 && t[|t| - 2] == '\n' && t[|t| - 1] == '.'
  {
  }

  lemma UnstuffByte(t: string, c: char)
    ensures Unstuff(t + [c]) == Unstuff(t) + (if ModeOf(t).AfterLF? && c == '.' then "" else [c])
  {
    var u := t + [c];
    assert u[..|u| - 1] == t && u[|u| - 1] == c;
    LastOfMode(t);
    assert DotAfterLF(u, |u| - 1) <==> ModeOf(t).AfterLF? && c == '.';
  }

  /** A terminator of the longer text is one of the shorter one or ends it. */
  lemma TerminatorEnds(t: string, c: char, k: nat)
    requires TerminatorAt(t + [c], k)
    ensures TerminatorAt(t, k) || (k + 2 == |t| && ModeOf(t).AfterLFDot? && c == '\n')
  {
    var u := t + [c];
    assert u[k] == t[k] && u[k + 1] == t[k + 1] && u[k + 2] == if k + 2 < |t| then t[k + 2] else c;
    LastOfMode(t);
  }

  lemma LFDotLF(t: string)
    requires ModeOf(t).AfterLFDot?
    ensures |t| >= 2 && TerminatorAt(t + ['\n'], |t| - 2) && Unstuff(t) == Unstuff(t[..|t| - 1])
  {
    LastOfMode(t);
    var u := t + ['\n'];
    assert u[|t| - 2] == t[|t| - 2] && u[|t| - 1] == t[|t| - 1] && u[|t|] == '\n';
    assert DotAfterLF(t, |t| - 1);
  }

  /** One kept byte moves the mode, the decoded text and the terminator test together. */
  lemma AppendByte(t: string, c: char)
    requires NoTerminator(t)
    ensures NoTerminator(t + [c]) <==> !(ModeOf(t).AfterLFDot? && c == '\n')
    ensures ModeOf(t).AfterLFDot? && c == '\n' ==>
              |t| >= 2 && TerminatorAt(t + [c], |t| - 2) && Unstuff(t) == Unstuff(t[..|t| - 1])
    ensures Unstuff(t + [c]) == Unstuff(t) + (if ModeOf(t).AfterLF? && c == '.' then "" else [c])
  {
    UnstuffByte(t, c);
    if ModeOf(t).AfterLFDot? && c == '\n' {
      LFDotLF(t);
    } else {
      forall k: nat ensures !TerminatorAt(t + [c], k) {
        if TerminatorAt(t + [c], k) {
          TerminatorEnds(t, c, k);
        }
      }
    }
  }

  /** The loop state after the stripped text t, none of which ended the body. */
  ghost predicate Reading(t: string, msg: string, mode: Mode) {
    && NoTerminator(t) && msg == Unstuff(t) && mode == ModeOf(t)
    && (!mode.Normal? ==> msg != "" && msg[|msg| - 1] == '\n')
  }

  function ModeAfter(mode: Mode, c: char): Mode {
    if c == '\n' then AfterLF else if c == '.' && mode.AfterLF? then AfterLFDot else Normal
  }

  lemma NextByte(t: string, c: char, msg: string, mode: Mode)
    requires Reading(t, msg, mode) && !(mode.AfterLFDot? && c == '\n')
    ensures Reading(t + [c], if mode.AfterLF? && c == '.' then msg else msg + [c], ModeAfter(mode, c))
  {
    AppendByte(t, c);
    var u := t + [c];
    assert u[|u| - 1] == c && u[..|u| - 1] == t;
  }

  /** The reader has taken i bytes and wants more. */
  ghost predicate Waiting(input: string, i: nat, msg: string, mode: Mode) {
    && i <= |input| && Reading(StripCR(input[..i]), msg, mode)
    && |msg| <= MAX_POST_SIZE + 1
    && (i > 0 ==> |Unstuff(StripCR(input[..i - 1]))| <= MAX_POST_SIZE)
  }

  /** A carriage return changes nothing. */
  lemma WaitingCR(input: string, i: nat, msg: string, mode: Mode)
    requires Waiting(input, i, msg, mode) && i < |input| && |msg| <= MAX_POST_SIZE
    requires input[i] == '\r'
    ensures Waiting(input, i + 1, msg, mode)
  {
    StripStep(input, i);
  }

  /** Any other byte moves the state as the switch does. */
  lemma WaitingByte(input: string, i: nat, msg: string, mode: Mode)
    requires Waiting(input, i, msg, mode) && i < |input| && |msg| <= MAX_POST_SIZE
    requires input[i] != '\r' && !(mode.AfterLFDot? && input[i] == '\n')
    ensures var c := input[i];
            Waiting(input, i + 1, if mode.AfterLF? && c == '.' then msg else msg + [c], ModeAfter(mode, c))
  {
    StripStep(input, i);
    NextByte(StripCR(input[..i]), input[i], msg, mode);
  }

  /** But a line feed after a dot that followed a line feed completes the body. */
  lemma ReadsComplete(input: string, i: nat, msg: string, mode: Mode)
    requires Waiting(input, i, msg, mode) && i < |input| && |msg| <= MAX_POST_SIZE
    requires mode.AfterLFDot? && input[i] == '\n'
    ensures ReadsAs(input, Complete(msg), i + 1)
  {
    var t := StripCR(input[..i]);
    StripStep(input, i);
    AppendByte(t, '\n');
    var u := t + ['\n'];
    assert u[..|u| - 1] == t && u[..|u| - 2] == t[..|t| - 1];
  }

  lemma ReadsTooLarge(input: string, i: nat, msg: string, mode: Mode)
    requires Waiting(input, i, msg, mode) && i < |input| && |msg| > MAX_POST_SIZE
    ensures ReadsAs(input, TooLarge, i + 1)
  {
  }

  lemma ReadsTruncated(input: string, msg: string, mode: Mode)
    requires Waiting(input, |input|, msg, mode)
    ensures ReadsAs(input, Truncated(msg), |input|)
  {
    assert input[..|input|] == input;
  }

  /** readPostBodyRaw. `buffer` is the message builder when the reader returns; it only ever grows. */
  method ReadPostBodyRaw(input: string) returns (r: Outcome, consumed: nat, ghost buffer: string)
    ensures ReadsAs(input, r, consumed)
    ensures |buffer| <= MAX_POST_SIZE + 1
    ensures r.Complete? ==> r.msg == buffer && buffer != "" && buffer[|buffer| - 1] == '\n'
  {
    var msg := "";
    var mode := Normal;
    consumed := 0;
    while consumed < |input|
      invariant Waiting(input, consumed, msg, mode)
    {
      var c := input[consumed];
      if |msg| > MAX_POST_SIZE {
        ReadsTooLarge(input, consumed, msg, mode);
        return TooLarge, consumed + 1, msg;
      }
      if c == '\r' {
        WaitingCR(input, consumed, msg, mode);
        consumed := consumed + 1;
        continue;
      }
      if c == '\n' {
        if mode == AfterLFDot {
          ReadsComplete(input, consumed, msg, mode);
          return Complete(msg), consumed + 1, msg;
        }
        WaitingByte(input, consumed, msg, mode);
        mode := AfterLF;
        msg := msg + [c];
      } else {
        WaitingByte(input, consumed, msg, mode);
        if c == '.' && mode == AfterLF {
          mode := AfterLFDot;
        } else {
          mode := Normal;
          msg := msg + [c];
        }
      }
      consumed := consumed + 1;
    }
    ReadsTruncated(input, msg, mode);
    return Truncated(msg), consumed, msg;
  }

  // ----- the meaning is single-valued -----

  lemma {:induction false} StripMonotone(input: string, i: nat, j: nat)
    requires i <= j <= |input|
    ensures |StripCR(input[..i])| <= |StripCR(input[..j])|
    ensures StripCR(input[..i]) == StripCR(input[..j])[..|StripCR(input[..i])|]
    decreases j
  {
    if i < j {
      StripMonotone(input, i, j - 1);
      StripStep(input, j - 1);
      var a, b := StripCR(input[..i]), StripCR(input[..j]);
      assert b[..|StripCR(input[..j - 1])|] == StripCR(input[..j - 1]);
    }
  }

  lemma {:induction false} UnstuffMonotone(t: string, i: nat, j: nat)
    requires i <= j <= |t|
    ensures |Unstuff(t[..i])| <= |Unstuff(t[..j])|
    decreases j
  {
    if i < j {
      UnstuffMonotone(t, i, j - 1);
      assert t[..j][..j - 1] == t[..j - 1];
    }
  }

  lemma BufferMonotone(input: string, i: nat, j: nat)
    requires i <= j <= |input|
    ensures |Unstuff(StripCR(input[..i]))| <= |Unstuff(StripCR(input[..j]))|
  {
    StripMonotone(input, i, j);
    var a, b := StripCR(input[..i]), StripCR(input[..j]);
    UnstuffMonotone(b, |a|, |b|);
    assert b[..|b|] == b;
  }

  lemma NoTerminatorInPrefix(t: string, n: nat)
    requires NoTerminator(t) && n <= |t|
    ensures NoTerminator(t[..n])
  {
    forall k: nat ensures !TerminatorAt(t[..n], k) {
      assert !TerminatorAt(t, k);
    }
  }

  /** One byte before its end, a read has met neither the terminator nor (unless it fails so) the size bound. */
  lemma LastByte(input: string, r: Outcome, consumed: nat)
    requires ReadsAs(input, r, consumed) && consumed > 0
    ensures NoTerminator(StripCR(input[..consumed - 1]))
    ensures !r.TooLarge? ==> |Unstuff(StripCR(input[..consumed - 1]))| <= MAX_POST_SIZE
  {
    StripStep(input, consumed - 1);
    var t, u := StripCR(input[..consumed - 1]), StripCR(input[..consumed]);
    assert input[..|input|] == input;
    if r.Complete? {
      assert u[..|u| - 1] == t && t[..|t| - 1] == u[..|u| - 2];
      assert DotAfterLF(t, |t| - 1);
      assert Unstuff(t) == r.msg;
    } else if r.Truncated? {
      assert u[..|t|] == t;
      NoTerminatorInPrefix(u, |t|);
    }
  }

  /** So it is everywhere before its end. */
  lemma BeforeEnd(input: string, r: Outcome, consumed: nat, j: nat)
    requires ReadsAs(input, r, consumed) && j < consumed
    ensures NoTerminator(StripCR(input[..j]))
    ensures !r.TooLarge? || j + 1 < consumed ==> |Unstuff(StripCR(input[..j]))| <= MAX_POST_SIZE
  {
    LastByte(input, r, consumed);
    StripMonotone(input, j, consumed - 1);
    NoTerminatorInPrefix(StripCR(input[..consumed - 1]), |StripCR(input[..j])|);
    if !r.TooLarge? {
      BufferMonotone(input, j, consumed - 1);
    } else if j + 1 < consumed {
      BufferMonotone(input, j, consumed - 2);
    }
  }

  lemma NoShorterReading(input: string, r1: Outcome, c1: nat, r2: Outcome, c2: nat)
    requires ReadsAs(input, r1, c1) && ReadsAs(input, r2, c2)
    ensures c2 <= c1
  {
    if c1 < c2 {
      if r1.TooLarge? {
        BeforeEnd(input, r2, c2, c1 - 1);
      } else {
        BeforeEnd(input, r2, c2, c1);
      }
    }
  }

  /** Any two readings of a stream agree: the outcome and the bytes taken are determined by the input. */
  lemma ReadsAsUnique(input: string, r1: Outcome, c1: nat, r2: Outcome, c2: nat)
    requires ReadsAs(input, r1, c1) && ReadsAs(input, r2, c2)
    ensures r1 == r2 && c1 == c2
  {
    NoShorterReading(input, r1, c1, r2, c2);
    NoShorterReading(input, r2, c2, r1, c1);
    assert input[..|input|] == input;
    if c1 > 0 {
      LastByte(input, r1, c1);
      LastByte(input, r2, c2);
    }
  }

  // ----- the client's encoding and the exact round trip -----

  /** What a client sends: the stuffed lines and the final lone dot. */
  function Encode(ls: seq<string>): string {
    Wire(ls) + ".\r\n"
  }

  lemma {:induction false} StripWire(ls: seq<string>)
    requires forall l :: l in ls ==> IsLine(l)
    ensures StripCR(Wire(ls)) == Unlines(StuffAll(ls))
  {
    if ls != [] {
      var init, last := ls[..|ls| - 1], ls[|ls| - 1];
      StripWire(init);
      assert StuffAll(ls)[..|ls| - 1] == StuffAll(init);
      assert last in ls;
      StripConcat(Wire(init), Stuff(last) + "\r\n");
      StripConcat(Stuff(last), "\r\n");
      StripNothing(Stuff(last));
      assert StripCR("\r\n") == "\n" by {
        assert "\r\n"[..1] == "\r" && "\r"[..0] == "";
      }
    }
  }

  /** Unstuffing appended text that holds no line feed before its end only looks at the first byte. */
  lemma {:induction false} UnstuffAppend(t: string, x: string)
    requires forall i :: 0 <= i < |x| - 1 ==> x[i] != '\n'
    requires t != "" && t[|t| - 1] == '\n'
    ensures Unstuff(t + x) == Unstuff(t) + (if StartsWithDot(x) then x[1..] else x)
  {
    if x == "" {
      assert t + x == t;
    } else {
      var init, c := x[..|x| - 1], x[|x| - 1];
      UnstuffAppend(t, init);
      assert (t + x)[..|t + x| - 1] == t + init;
      assert x == init + [c];
      if init != "" {
        assert (t + x)[|t + x| - 2] == x[|x| - 2];
      }
    }
  }

  lemma {:induction false} UnstuffPlain(x: string)
    requires forall i :: 0 <= i < |x| - 1 ==> x[i] != '\n'
    ensures Unstuff(x) == x
  {
    if x != "" {
      UnstuffPlain(x[..|x| - 1]);
    }
  }

  lemma StuffAllInit(ls: seq<string>)
    requires ls != []
    ensures StuffAll(ls)[..|ls| - 1] == StuffAll(ls[..|ls| - 1])
    ensures Unlines(StuffAll(ls)) == Unlines(StuffAll(ls[..|ls| - 1])) + (Stuff(ls[|ls| - 1]) + "\n")
  {
  }

  lemma StuffedLineShape(l: string)
    requires IsLine(l)
    ensures var x := Stuff(l) + "\n";
            && (forall i :: 0 <= i < |x| - 1 ==> x[i] != '\n')
            && (if StartsWithDot(x) then x[1..] else x) == l + "\n"
  {
  }

  lemma UnstuffNextLine(head: string, l: string)
    requires IsLine(l)
    requires head == "" || head[|head| - 1] == '\n'
    ensures Unstuff(head + (Stuff(l) + "\n")) == Unstuff(head) + ((if head == "" then Stuff(l) else l) + "\n")
  {
    StuffedLineShape(l);
    var x := Stuff(l) + "\n";
    if head == "" {
      UnstuffPlain(x);
      assert head + x == x;
    } else {
      UnstuffAppend(head, x);
    }
  }

  /** The text the reader decodes: an extra dot in front if the first line starts with one. */
  function Decoded(ls: seq<string>): string {
    (if ls != [] && StartsWithDot(ls[0]) then "." else "") + Unlines(ls)
  }

  lemma DecodedStep(ls: seq<string>)
    requires ls != []
    ensures var init, last := ls[..|ls| - 1], ls[|ls| - 1];
            Decoded(ls) == Decoded(init) + ((if init == [] then Stuff(last) else last) + "\n")
  {
    var init, last := ls[..|ls| - 1], ls[|ls| - 1];
    if init != [] {
      assert init[0] == ls[0];
    }
  }

  /** The reader undoes stuffing except on the first line, where it keeps the added dot. */
  lemma {:induction false} UnstuffStuffed(ls: seq<string>)
    requires forall l :: l in ls ==> IsLine(l)
    ensures Unstuff(Unlines(StuffAll(ls))) == Decoded(ls)
  {
    if ls != [] {
      var init, last := ls[..|ls| - 1], ls[|ls| - 1];
      assert last in ls;
      UnstuffStuffed(init);
      StuffAllInit(ls);
      if init != [] {
        UnlinesEndsInLF(StuffAll(init));
      }
      UnstuffNextLine(Unlines(StuffAll(init)), last);
      DecodedStep(ls);
    }
  }

  /** Stuffed lines never hold LF-dot-LF, not even with a dot put after them. */
  lemma {:induction false} StuffedHasNoTerminator(ls: seq<string>)
    requires forall l :: l in ls ==> IsLine(l)
    ensures NoTerminator(Unlines(StuffAll(ls)))
    ensures NoTerminator(Unlines(StuffAll(ls)) + ".")
  {
    var t := Unlines(StuffAll(ls));
    if ls != [] {
      var init, last := ls[..|ls| - 1], ls[|ls| - 1];
      assert last in ls;
      StuffedHasNoTerminator(init);
      StuffAllInit(ls);
      var head, x := Unlines(StuffAll(init)), Stuff(last) + "\n";
      assert t == head + x;
      forall k: nat ensures !TerminatorAt(t, k) {
        if TerminatorAt(t, k) && k + 2 < |head| {
          assert TerminatorAt(head, k);
        }
      }
    }
    forall k: nat ensures !TerminatorAt(t + ".", k) {
      if TerminatorAt(t + ".", k) {
        assert TerminatorAt(t, k);
      }
    }
  }

  lemma StripEncode(ls: seq<string>)
    requires forall l :: l in ls ==> IsLine(l)
    ensures StripCR(Encode(ls)) == Unlines(StuffAll(ls)) + ".\n"
  {
    StripWire(ls);
    StripConcat(Wire(ls), ".\r\n");
    assert ".\r\n"[..2] == ".\r" && ".\r"[..1] == "." && "."[..0] == "";
  }

  /** Reading bytes that decode to body-dot-LF, where the body ends in LF. */
  lemma ReadsBody(input: string, n: nat, body: string, msg: string)
    requires 0 < n <= |input| && input[n - 1] == '\n'
    requires StripCR(input[..n]) == body + ".\n" && NoTerminator(body + ".")
    requires body != "" && body[|body| - 1] == '\n'
    ensures ReadsAs(input, Complete(msg), n) <==> msg == Unstuff(body) && |msg| <= MAX_POST_SIZE
  {
    var t := body + ".\n";
    assert t[..|t| - 1] == body + "." && t[..|t| - 2] == body;
    assert TerminatorAt(t, |t| - 3);
  }

  /**
    The exact round trip: what a client encodes is read back line for line, and nothing after its
    terminator is touched, if and only if there is a first line, that line does not begin with a dot,
    and the text fits the size bound.
   */
  lemma EncodedBodyRoundTrip(ls: seq<string>, rest: string)
    requires forall l :: l in ls ==> IsLine(l)
    ensures ReadsAs(Encode(ls) + rest, Complete(Unlines(ls)), |Encode(ls)|) <==>
            ls != [] && !StartsWithDot(ls[0]) && |Unlines(ls)| <= MAX_POST_SIZE
  {
    var input, n := Encode(ls) + rest, |Encode(ls)|;
    assert input[..n] == Encode(ls);
    StripEncode(ls);
    var body := Unlines(StuffAll(ls));
    if ls == [] {
      assert |StripCR(input[..n])| == 2;
    } else {
      UnstuffStuffed(ls);
      StuffedHasNoTerminator(ls);
      UnlinesEndsInLF(StuffAll(ls));
      ReadsBody(input, n, body, Unlines(ls));
      assert |Unstuff(body)| == |Unlines(ls)| + if StartsWithDot(ls[0]) then 1 else 0;
      assert "" + Unlines(ls) == Unlines(ls);
    }
  }

  lemma LoneDot()
    ensures Encode([]) == ".\r\n" && StripCR(".\r\n") == ".\n" && StripCR(".\r") == "."
    ensures Unstuff(".") == "." && Unstuff(".\n") == ".\n"
  {
    var dot, dotCR, dotLF := ".", ".\r", ".\n";
    assert dot[..0] == "" && dotCR[..1] == dot && dotLF[..1] == dot && ".\r\n"[..2] == dotCR;
    assert StripCR(dot) == "" + dot;
    assert Unstuff(dot) == "" + dot;
    assert !DotAfterLF(dotLF, 1);
  }

  lemma ReadsLoneDot(input: string, all: string)
    requires input == ".\r\n" && all == StripCR(input) == ".\n"
    ensures ReadsAs(input, Truncated(all), 3)
  {
    LoneDot();
    assert input[..2] == ".\r";
    assert StripCR(input[..2]) == ".";
    assert |all| == 2;
  }

  /** An empty article, sent as a lone dot, is not recognised as finished. */
  lemma EmptyBodyNeverCompletes()
    ensures ReadsAs(Encode([]), Truncated(".\n"), 3)
    ensures forall r, c :: ReadsAs(Encode([]), r, c) ==> !r.Complete?
  {
    LoneDot();
    ReadsLoneDot(Encode([]), ".\n");
    forall r, c | ReadsAs(Encode([]), r, c) ensures !r.Complete? {
      ReadsAsUnique(Encode([]), r, c, Truncated(".\n"), 3);
    }
  }
}
