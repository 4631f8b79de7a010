/**
  Sanity line counting. The NNTP side counts a received text (internal/nntp/server.go, countPostLines);
  the mail gateway counts while it reads (cmd/gonewsd/main.go, mailGateway). Lines over 80 bytes
  count as several.
 */
module LineCount {
  import opened Lines

  /** An LF-ended line of n bytes counts once, and once more for every 81 bytes. */
  function SumLines(ls: seq<string>): nat {
    if ls == [] then 0 else SumLines(ls[..|ls| - 1]) + (|ls[|ls| - 1]| / 81 + 1)
  }

  /** The closed form of countPostLines. */
  function PostLines(t: string): nat {
    SumLines(FullLines(t)) + (|Tail(t)| + 80) / 81
  }

  /** The closed form of the gateway's counter on the bytes it does not drop. */
  function GatewayLines(t: string): nat {
    SumLines(FullLines(t)) + |Tail(t)| / 81
  }

  lemma SumOneMore(ls: seq<string>, l: string)
    ensures SumLines(ls + [l]) == SumLines(ls) + (|l| / 81 + 1)
  {
    assert (ls + [l])[..|ls|] == ls;
  }

  /** How one byte moves the two counters both loops keep. */
  lemma CountStep(t: string, c: char)
    ensures var u := t + [c];
            var full := |Tail(t)| % 81 + 1 > 80 || c == '\n';
            && |Tail(u)| % 81 == (if full then 0 else |Tail(t)| % 81 + 1)
            && GatewayLines(u) == GatewayLines(t) + (if full then 1 else 0)
  {
    LinesOneByte(t, c);
    if c == '\n' {
      SumOneMore(FullLines(t), Tail(t));
    } else {
      Carry(|Tail(t)|);
    }
  }

  lemma Carry(n: nat)
    ensures (n + 1) % 81 == (if n % 81 + 1 > 80 then 0 else n % 81 + 1)
    ensures (n + 1) / 81 == n / 81 + (if n % 81 + 1 > 80 then 1 else 0)
  {
  }

  method CountPostLines(msg: string) returns (linecount: nat)
    ensures linecount == PostLines(msg)
  {
    var linechars := 0;
    linecount := 0;
    for i := 0 to |msg|
      invariant linechars == |Tail(msg[..i])| % 81
      invariant linecount == GatewayLines(msg[..i])
    {
      assert msg[..i] + [msg[i]] == msg[..i + 1];
      CountStep(msg[..i], msg[i]);
      linechars := linechars + 1;
      if linechars > 80 || msg[i] == '\n' {
        linechars := 0;
        linecount := linecount + 1;
      }
    }
    assert msg[..|msg|] == msg;
    if linechars > 0 {
      linecount := linecount + 1;
    }
  }

  /** CRLF before every line feed: what the gateway hands to the article parser. */
  function Normalised(t: string): string {
    if t == "" then ""
    else Normalised(t[..|t| - 1]) + (if t[|t| - 1] == '\n' then "\r\n" else [t[|t| - 1]])
  }

  predicate PairedAt(s: string, k: nat)
    requires k < |s|
  {
    && (s[k] == '\n' ==> k > 0 && s[k - 1] == '\r')
    && (s[k] == '\r' ==> k + 1 < |s| && s[k + 1] == '\n')
  }

  /** Each line feed has a carriage return before it, and there are no other carriage returns. */
  predicate Paired(s: string) {
    forall k :: 0 <= k < |s| ==> PairedAt(s, k)
  }

  lemma PairedAppend(a: string, b: string)
    requires Paired(a) && Paired(b)
    ensures Paired(a + b)
  {
    forall k | 0 <= k < |a + b| ensures PairedAt(a + b, k) {
      if k < |a| {
        assert PairedAt(a, k);
      } else {
        assert PairedAt(b, k - |a|);
      }
    }
  }

  lemma LastPaired(c: char)
    requires c != '\r'
    ensures Paired(if c == '\n' then "\r\n" else [c])
  {
  }

  lemma {:induction false} NormalisedPaired(t: string)
    requires '\r' !in t
    ensures Paired(Normalised(t))
  {
    if t != "" {
      var n := |t| - 1;
      NormalisedPaired(t[..n]);
      assert t[n] in t;
      LastPaired(t[n]);
      PairedAppend(Normalised(t[..n]), if t[n] == '\n' then "\r\n" else [t[n]]);
    }
  }

  /** The gateway pairs every line feed with a carriage return and changes nothing else. */
  lemma {:induction false} NormalisedIs(t: string)
    requires '\r' !in t
    ensures StripCR(Normalised(t)) == t && Paired(Normalised(t))
  {
    NormalisedPaired(t);
    if t != "" {
      var n := |t| - 1;
      NormalisedIs(t[..n]);
      assert t[..n] + [t[n]] == t && t[n] in t;
      StripConcat(Normalised(t[..n]), if t[n] == '\n' then "\r\n" else [t[n]]);
      StripOfLast(t[n]);
    }
  }

  lemma StripOfLast(c: char)
    requires c != '\r'
    ensures StripCR(if c == '\n' then "\r\n" else [c]) == [c]
  {
    assert [c][..0] == "" && "\r\n"[..1] == "\r" && "\r"[..0] == "";
  }

  /** The gateway's read loop over standard input, after its two header lines. */
  method GatewayRead(input: string, postLimit: int) returns (msg: string, toolong: bool)
    ensures toolong <==> postLimit > 0 && GatewayLines(StripCR(input)) > postLimit
    ensures !toolong ==> msg == Normalised(StripCR(input))
  {
    var linechars, linecount := 0, 0;
    msg, toolong := "", false;
    for i := 0 to |input|
      invariant linechars == |Tail(StripCR(input[..i]))| % 81
      invariant linecount == GatewayLines(StripCR(input[..i]))
      invariant toolong <==> postLimit > 0 && linecount > postLimit
      invariant !toolong ==> msg == Normalised(StripCR(input[..i]))
    {
      var c := input[i];
      ghost var t := StripCR(input[..i]);
      StripStep(input, i);
      if c == '\r' {
        continue;
      }
      CountStep(t, c);
      assert (t + [c])[..|t + [c]| - 1] == t;
      linechars := linechars + 1;
      if linechars > 80 || c == '\n' {
        linechars := 0;
        linecount := linecount + 1;
      }
      if postLimit > 0 && linecount > postLimit {
        toolong := true;
        continue;
      }
      if c == '\n' {
        msg := msg + "\r";
      }
      msg := msg + [c];
      assert c == '\n' ==> Normalised(t) + "\r" + [c] == Normalised(t) + "\r\n";
    }
    assert input[..|input|] == input;
  }

  /** The two counters agree on a text exactly when what follows its last LF fills whole 81-byte lines. */
  lemma CountersAgree(t: string)
    ensures PostLines(t) == GatewayLines(t) <==> |Tail(t)| % 81 == 0
    ensures t != "" && t[|t| - 1] == '\n' ==> PostLines(t) == GatewayLines(t)
  {
    var n := |Tail(t)|;
    assert n == n / 81 * 81 + n % 81;
    if n % 81 != 0 {
      assert (n + 80) / 81 == n / 81 + 1;
    }
  }

  /** Both doors accept the same line-feed-ended texts at a given limit. */
  lemma SameLimit(input: string, limit: nat)
    requires StripCR(input) != "" && StripCR(input)[|StripCR(input)| - 1] == '\n'
    ensures PostLines(StripCR(input)) > limit <==> GatewayLines(StripCR(input)) > limit
  {
    CountersAgree(StripCR(input));
  }

  /** Without the final line feed they differ: one byte is one line to POST and none to the gateway. */
  lemma CountersDiffer()
    ensures PostLines("x") == 1 && GatewayLines("x") == 0
  {
    assert "x"[..0] == "";
    assert Tail("x") == "x";
  }
}
