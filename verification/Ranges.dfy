/**
  Article ranges and LISTGROUP (internal/nntp/server.go, parseArticleRange and the LISTGROUP command).
 */
module Ranges {
  import opened Text
  import opened Spool

  // ----- fmt.Sscanf("%d") and literals, on the single-spaced text a command argument is -----

  function SkipSpaces(s: string, i: nat): (j: nat)
    requires i <= |s|
    ensures i <= j <= |s|
    decreases |s| - i
  {
    if i < |s| && s[i] == ' ' then SkipSpaces(s, i + 1) else i
  }

  function SkipDigits(s: string, i: nat): (j: nat)
    requires i <= |s|
    ensures i <= j <= |s| && AllDigits(s[i..j])
    decreases |s| - i
  {
    if i < |s| && IsDigit(s[i]) then
      var j := SkipDigits(s, i + 1);
      assert s[i..j] == [s[i]] + s[i + 1..j];
      j
    else i
  }

  /** A %d verb into a uint64: the number and where scanning goes on. */
  function ScanNumber(s: string, i: nat): Option<(nat, nat)>
    requires i <= |s|
  {
    var a := SkipSpaces(s, i);
    var b := SkipDigits(s, a);
    match ParseUint(s[a..b])
    case Some(n) => Some((n, b))
    case None => None
  }

  /** The interval a range text asks for; `lo` and `hi` are kept where the text says nothing. */
  function Requested(s: string, gEnd: nat, lo: nat, hi: nat): (nat, nat) {
    match ScanNumber(s, 0)
    case Some((n, i)) =>
      if '-' !in s then (n, n)
      else if i < |s| && s[i] == '-' && ScanNumber(s, i + 1).Some? then (n, ScanNumber(s, i + 1).value.0)
      else (n, gEnd)
    case None =>
      if '-' in s then (lo, hi) else (0, 0)
  }

  predicate Within(x: nat, lo: nat, hi: nat) {
    lo <= x <= hi
  }

  /** What a client means by N-M, N- and N in a group that ends at gEnd: the articles from m to n. */
  predicate Asks(s: string, gEnd: nat, m: nat, n: nat) {
    && m <= MAX_UINT64
    && (|| (s == Format(m) + "-" + Format(n) && n <= MAX_UINT64)
        || (s == Format(m) + "-" && n == gEnd)
        || (s == Format(m) && n == m))
  }

  /** Whatever interval the text asks for: a to b are its articles in the group, if there are any. */
  ghost predicate SelectsAsked(s: string, gStart: nat, gEnd: nat, a: nat, b: nat) {
    forall m: nat, n: nat :: Asks(s, gEnd, m, n) && m <= n && m <= gEnd && gStart <= n && gStart <= gEnd ==>
      forall x :: Within(x, a, b) <==> Within(x, m, n) && Within(x, gStart, gEnd)
  }

  /** Raised to lo, then lowered to hi. */
  function ClampTo(x: nat, lo: nat, hi: nat): nat {
    var raised := if x < lo then lo else x;
    if raised > hi then hi else raised
  }

  /** parseArticleRange */
  method ParseArticleRange(rangeStr: string, gStart: nat, gEnd: nat, sart0: nat, eart0: nat)
    returns (sart: nat, eart: nat)
    ensures (sart, eart) == Clamped(Requested(rangeStr, gEnd, sart0, eart0), gStart, gEnd)
    ensures gStart <= gEnd ==> gStart <= sart <= eart <= gEnd
    ensures SelectsAsked(rangeStr, gStart, gEnd, sart, eart)
  {
    sart, eart := sart0, eart0;
    if '-' in rangeStr {
      var first := ScanNumber(rangeStr, 0);
      if first.Some? {
        sart := first.value.0;
        var i := first.value.1;
        ScanBound(rangeStr, 0);
        if i < |rangeStr| && rangeStr[i] == '-' && ScanNumber(rangeStr, i + 1).Some? {
          eart := ScanNumber(rangeStr, i + 1).value.0;
        } else {
          eart := gEnd;
        }
      }
    } else {
      var single := match ScanNumber(rangeStr, 0) case Some(p) => p.0 case None => 0;
      sart, eart := single, single;
    }
    if sart < gStart {
      sart := gStart;
    }
    if sart > gEnd {
      sart := gEnd;
    }
    if eart < gStart {
      eart := gStart;
    }
    if eart > gEnd {
      eart := gEnd;
    }
    if sart > eart {
      sart := eart;
    }
    AllAskedSelected(rangeStr, gStart, gEnd, sart0, eart0);
  }

  lemma ScanBound(s: string, i: nat)
    requires i <= |s|
    ensures ScanNumber(s, i).Some? ==> i <= ScanNumber(s, i).value.1 <= |s|
  {
  }

  function Clamped(want: (nat, nat), gStart: nat, gEnd: nat): (nat, nat) {
    var e := ClampTo(want.1, gStart, gEnd);
    var s := ClampTo(want.0, gStart, gEnd);
    (if s > e then e else s, e)
  }

  /**
    A clamped range is a non-empty part of [Start, End]. It is the requested interval cut down to
    the group whenever the two meet, and a single article otherwise.
   */
  lemma ClampedMeansIntersection(want: (nat, nat), gStart: nat, gEnd: nat)
    requires gStart <= gEnd
    ensures var (s, e) := Clamped(want, gStart, gEnd);
            && gStart <= s <= e <= gEnd
            && (if exists x :: Within(x, want.0, want.1) && Within(x, gStart, gEnd)
                then forall x :: Within(x, s, e) <==> Within(x, want.0, want.1) && Within(x, gStart, gEnd)
                else s == e)
  {
    var (s, e) := Clamped(want, gStart, gEnd);
    if x :| Within(x, want.0, want.1) && Within(x, gStart, gEnd) {
      assert want.0 <= gEnd && want.1 >= gStart;
    } else if s < e {
      assert Within(s, want.0, want.1) && Within(s, gStart, gEnd);
      assert false;
    }
  }

  /** A reversed request names one article: its second number, cut to the group. */
  lemma ReversedRange(want: (nat, nat), gStart: nat, gEnd: nat)
    requires gStart <= gEnd && want.0 > want.1
    ensures Clamped(want, gStart, gEnd) == (ClampTo(want.1, gStart, gEnd), ClampTo(want.1, gStart, gEnd))
  {
  }

  // ----- what a client writes -----

  lemma {:induction false} SkipsDigits(s: string, i: nat, j: nat)
    requires i <= j <= |s| && AllDigits(s[i..j]) && (j < |s| ==> !IsDigit(s[j]))
    ensures SkipDigits(s, i) == j
    decreases j - i
  {
    if i < j {
      assert s[i..j][0] == s[i] && s[i..j][1..] == s[i + 1..j];
      SkipsDigits(s, i + 1, j);
    }
  }

  /** A number is scanned up to the end of its digits. */
  lemma ScansDigits(before: string, digits: string, after: string, n: nat)
    requires ParseUint(digits) == Some(n) && (after != "" ==> !IsDigit(after[0]))
    ensures ScanNumber(before + digits + after, |before|) == Some((n, |before| + |digits|))
  {
    var s, i, j := before + digits + after, |before|, |before| + |digits|;
    assert s[i..j] == digits && s[i] == digits[0];
    SkipsDigits(s, i, j);
  }

  lemma FormatParses(n: nat)
    requires n <= MAX_UINT64
    ensures ParseUint(Format(n)) == Some(n)
  {
    ValueOfFormat(n);
  }

  lemma NoDash(digits: string)
    requires AllDigits(digits)
    ensures '-' !in digits
  {
  }

  lemma Regroup(a: string, b: string)
    ensures a + "-" + b == "" + a + ("-" + b) && a + "-" + b == (a + "-") + b + ""
    ensures '-' in a + "-" + b && (a + "-" + b)[|a|] == '-'
  {
    assert (a + "-" + b)[|a|] == '-';
  }

  lemma SpanIsRequested(a: string, b: string, gEnd: nat, lo: nat, hi: nat, m: nat, n: nat)
    requires ParseUint(a) == Some(m) && ParseUint(b) == Some(n)
    ensures Requested(a + "-" + b, gEnd, lo, hi) == (m, n)
  {
    Regroup(a, b);
    ScansDigits("", a, "-" + b, m);
    ScansDigits(a + "-", b, "", n);
  }

  lemma OpenIsRequested(a: string, gEnd: nat, lo: nat, hi: nat, m: nat)
    requires ParseUint(a) == Some(m)
    ensures Requested(a + "-", gEnd, lo, hi) == (m, gEnd)
  {
    var s := a + "-";
    assert s == "" + a + "-";
    ScansDigits("", a, "-", m);
    assert s[|a|] == '-' && s[|a| + 1..|a| + 1] == "";
  }

  lemma OneIsRequested(a: string, gEnd: nat, lo: nat, hi: nat, m: nat)
    requires ParseUint(a) == Some(m)
    ensures Requested(a, gEnd, lo, hi) == (m, m)
  {
    NoDash(a);
    assert a == "" + a + "";
    ScansDigits("", a, "", m);
  }

  lemma AskedIsRequested(s: string, gEnd: nat, lo: nat, hi: nat, m: nat, n: nat)
    requires Asks(s, gEnd, m, n)
    ensures Requested(s, gEnd, lo, hi) == (m, n)
  {
    FormatParses(m);
    if s == Format(m) + "-" + Format(n) && n <= MAX_UINT64 {
      FormatParses(n);
      SpanIsRequested(Format(m), Format(n), gEnd, lo, hi, m, n);
    } else if s == Format(m) + "-" && n == gEnd {
      OpenIsRequested(Format(m), gEnd, lo, hi, m);
    } else {
      OneIsRequested(Format(m), gEnd, lo, hi, m);
    }
  }

  /** N-M, N- and N select the articles asked for that lie in the group. */
  lemma AskedIsSelected(s: string, gStart: nat, gEnd: nat, lo: nat, hi: nat, m: nat, n: nat)
    requires Asks(s, gEnd, m, n) && m <= n && m <= gEnd && gStart <= n && gStart <= gEnd
    ensures var (a, b) := Clamped(Requested(s, gEnd, lo, hi), gStart, gEnd);
            forall x :: Within(x, a, b) <==> Within(x, m, n) && Within(x, gStart, gEnd)
  {
    AskedIsRequested(s, gEnd, lo, hi, m, n);
  }

  lemma AllAskedSelected(s: string, gStart: nat, gEnd: nat, lo: nat, hi: nat)
    ensures var (a, b) := Clamped(Requested(s, gEnd, lo, hi), gStart, gEnd); SelectsAsked(s, gStart, gEnd, a, b)
  {
    var (a, b) := Clamped(Requested(s, gEnd, lo, hi), gStart, gEnd);
    forall m: nat, n: nat | Asks(s, gEnd, m, n) && m <= n && m <= gEnd && gStart <= n && gStart <= gEnd
      ensures forall x :: Within(x, a, b) <==> Within(x, m, n) && Within(x, gStart, gEnd)
    {
      AskedIsSelected(s, gStart, gEnd, lo, hi, m, n);
    }
  }

  // ----- LISTGROUP -----

  /** The numbers in [lo, hi] whose path exists, ascending. */
  function Listing(v: GroupView, lo: nat, hi: int): seq<nat>
    decreases hi - lo + 1
  {
    if hi < lo then []
    else Listing(v, lo, hi - 1) + (if Taken(v, hi) then [hi] else [])
  }

  method ListNumbers(v: GroupView, lo: nat, hi: nat) returns (ns: seq<nat>)
    ensures ns == Listing(v, lo, hi)
  {
    ns := [];
    var n := lo;
    while n <= hi
      invariant n == lo || lo < n <= hi + 1
      invariant ns == Listing(v, lo, n - 1)
    {
      if Taken(v, n) {
        ns := ns + [n];
      }
      n := n + 1;
    }
  }

  function TakenIn(v: GroupView, lo: nat, hi: int): set<nat> {
    set n | n in TakenSet(v) && lo <= n <= hi
  }

  lemma TakenInStep(v: GroupView, lo: nat, hi: nat)
    requires lo <= hi
    ensures TakenIn(v, lo, hi) == if Taken(v, hi) then TakenIn(v, lo, hi - 1) + {hi} else TakenIn(v, lo, hi - 1)
    ensures hi !in TakenIn(v, lo, hi - 1)
  {
  }

  /** The listing is the set of numbers with a path in the range, in order and without repeats. */
  lemma {:induction false} ListingIsTakenIn(v: GroupView, lo: nat, hi: int)
    ensures Ascending(Listing(v, lo, hi))
    ensures forall n :: n in Listing(v, lo, hi) <==> n in TakenIn(v, lo, hi)
    ensures |Listing(v, lo, hi)| == |TakenIn(v, lo, hi)|
    decreases hi - lo + 1
  {
    if hi >= lo {
      ListingIsTakenIn(v, lo, hi - 1);
      TakenInStep(v, lo, hi);
      var ns, rest := Listing(v, lo, hi - 1), TakenIn(v, lo, hi - 1);
      forall k | 0 <= k < |ns| ensures ns[k] < hi {
        assert ns[k] in ns;
        assert ns[k] in rest;
      }
    } else {
      assert TakenIn(v, lo, hi) == {};
    }
  }

  /** No directory sits under a number of the group's range. */
  ghost predicate NothingBlocked(v: GroupView, lo: nat, hi: nat) {
    forall n :: lo <= n <= hi ==> n !in v.blocked || n in v.files
  }

  /** The numbers a listing of the whole group shows beyond the stored articles. */
  function Extra(v: GroupView): set<nat>
    requires v.info.Some?
  {
    TakenIn(v, v.info.value.start, v.info.value.end) - v.files.Keys
  }

  lemma ExtraCount(v: GroupView)
    requires v.info.Some? && Consistent(v)
    ensures TakenIn(v, v.info.value.start, v.info.value.end) == v.files.Keys + Extra(v)
    ensures |TakenIn(v, v.info.value.start, v.info.value.end)| == v.info.value.total + |Extra(v)|
    ensures Extra(v) == {} <==> NothingBlocked(v, v.info.value.start, v.info.value.end)
  {
    var i := v.info.value;
    var s := TakenIn(v, i.start, i.end);
    forall n | n in v.files.Keys ensures n in s {
      assert n in TakenSet(v);
    }
    if !NothingBlocked(v, i.start, i.end) {
      var n :| i.start <= n <= i.end && n in v.blocked && n !in v.files;
      assert n in Extra(v);
    }
  }

  /**
    LISTGROUP of a freshly loaded group: strictly ascending always; exactly the stored articles, and
    as many as the Total it announces, if and only if no directory stands among the numbers listed.
   */
  lemma ListGroupExact(v: GroupView)
    requires v.info.Some? && Consistent(v)
    ensures var i := v.info.value;
            var ns := Listing(v, i.start, i.end);
            && Ascending(ns)
            && ((forall n :: n in ns <==> n in v.files) <==> NothingBlocked(v, i.start, i.end))
            && (|ns| == i.total <==> NothingBlocked(v, i.start, i.end))
  {
    var i := v.info.value;
    var ns := Listing(v, i.start, i.end);
    ListingIsTakenIn(v, i.start, i.end);
    ExtraCount(v);
    if x :| x in Extra(v) {
      assert x in ns && x !in v.files;
    }
  }
}
