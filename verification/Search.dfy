/**
  Message-ID search (internal/group/group.go, FindArticleByMessageID): a uint64 counts down from End
  while it is at least Start. `ids` gives the Message-ID of every number that has one.
 */
module Search {
  import opened Text

  type Ids = map<nat, string>

  /** The highest number in [lo, hi] with the given Message-ID. */
  function FindDown(ids: Ids, id: string, hi: int, lo: nat): (r: Option<nat>)
    ensures r.Some? ==> lo <= r.value <= hi && r.value in ids && ids[r.value] == id
    ensures r.Some? ==> forall n :: r.value < n <= hi && n in ids ==> ids[n] != id
    ensures r.None? ==> forall n :: lo <= n <= hi && n in ids ==> ids[n] != id
    decreases hi - lo + 1
  {
    if hi < lo then None
    else if hi in ids && ids[hi] == id then Some(hi)
    else FindDown(ids, id, hi - 1, lo)
  }

  /**
    FindArticleByMessageID where its countdown is sound: Start is at least 1, as in every group that
    holds an article.
   */
  method FindArticleByMessageID(ids: Ids, id: string, start: nat, end: nat) returns (r: Option<nat>)
    requires 1 <= start && end <= MAX_UINT64
    ensures r.Some? ==> start <= r.value <= end && r.value in ids && ids[r.value] == id
                        && forall n :: r.value < n <= end && n in ids ==> ids[n] != id
    ensures r.None? ==> forall n :: start <= n <= end && n in ids ==> ids[n] != id
    ensures r == FindDown(ids, id, end, start)
  {
    var artnum := end;
    while artnum >= start
      invariant artnum <= end
      invariant forall n :: artnum < n <= end && n in ids ==> ids[n] != id
      invariant FindDown(ids, id, end, start) == FindDown(ids, id, artnum, start)
    {
      if artnum in ids && ids[artnum] == id {
        return Some(artnum);
      }
      artnum := artnum - 1;
    }
    return None;
  }

  // ----- the countdown as it runs on 64-bit numbers -----

  datatype Countdown = Running(artnum: nat) | Found(n: nat) | NotFound

  /** One turn of the loop; below 0 the number wraps to the largest one. */
  function Turn(ids: Ids, id: string, start: nat, c: Countdown): Countdown {
    match c
    case Running(artnum) =>
      if artnum < start then NotFound
      else if artnum in ids && ids[artnum] == id then Found(artnum)
      else Running(if artnum == 0 then MAX_UINT64 else artnum - 1)
    case _ => c
  }

  function After(ids: Ids, id: string, start: nat, c: Countdown, turns: nat): Countdown
    decreases turns
  {
    if turns == 0 then c else After(ids, id, start, Turn(ids, id, start, c), turns - 1)
  }

  lemma {:induction false} AfterAdd(ids: Ids, id: string, start: nat, c: Countdown, m: nat, n: nat)
    ensures After(ids, id, start, After(ids, id, start, c, m), n) == After(ids, id, start, c, m + n)
    decreases m
  {
    if m > 0 {
      AfterAdd(ids, id, start, Turn(ids, id, start, c), m - 1, n);
    }
  }

  /** Counting down to lo: the search finds the first hit, or arrives below lo. */
  lemma {:induction false} CountDown(ids: Ids, id: string, start: nat, hi: nat, lo: nat) returns (turns: nat)
    requires start <= lo <= hi + 1
    ensures match FindDown(ids, id, hi, lo)
            case Some(n) => After(ids, id, start, Running(hi), turns) == Found(n)
            case None => After(ids, id, start, Running(hi), turns) ==
                         Running(if lo == 0 then MAX_UINT64 else lo - 1)
    decreases hi
  {
    if hi < lo {
      turns := 0;
    } else if hi in ids && ids[hi] == id {
      turns := 1;
      assert After(ids, id, start, Found(hi), 0) == Found(hi);
    } else if hi == 0 {
      turns := 1;
      assert After(ids, id, start, Turn(ids, id, start, Running(hi)), 0) == Running(MAX_UINT64);
    } else {
      var rest := CountDown(ids, id, start, hi - 1, lo);
      turns := rest + 1;
    }
  }

  /** The result of the search from End, `Loops` when the countdown never stops. */
  datatype Result = Hit(n: nat) | Miss | Loops

  function Find(ids: Ids, id: string, start: nat, end: nat): Result {
    if start >= 1 then
      match FindDown(ids, id, end, start) case Some(n) => Hit(n) case None => Miss
    else
      match FindDown(ids, id, end, 0)
      case Some(n) => Hit(n)
      case None =>
        match FindDown(ids, id, MAX_UINT64, end + 1) case Some(n) => Hit(n) case None => Loops
  }

  /** The greatest number in the range that has the Message-ID. */
  ghost predicate Latest(ids: Ids, id: string, start: nat, end: nat, n: nat) {
    start <= n <= end && n in ids && ids[n] == id && forall k :: n < k <= end && k in ids ==> ids[k] != id
  }

  /** What a search of a group that has an article gives, in terms of its articles. */
  lemma FindGivesLatest(ids: Ids, id: string, start: nat, end: nat, n: nat)
    requires start >= 1
    ensures Find(ids, id, start, end) == Hit(n) <==> Latest(ids, id, start, end, n)
    ensures Find(ids, id, start, end) == Miss <==> forall k :: start <= k <= end && k in ids ==> ids[k] != id
  {
  }

  lemma {:induction false} NeverStops(ids: Ids, id: string, artnum: nat, turns: nat)
    requires artnum <= MAX_UINT64
    requires forall n :: n in ids && n <= MAX_UINT64 ==> ids[n] != id
    ensures After(ids, id, 0, Running(artnum), turns).Running?
    decreases turns
  {
    if turns > 0 {
      NeverStops(ids, id, if artnum == 0 then MAX_UINT64 else artnum - 1, turns - 1);
    }
  }

  /** The 64-bit loop stops with exactly the result `Find` names, and runs for ever exactly on `Loops`. */
  lemma FindIsTheLoop(ids: Ids, id: string, start: nat, end: nat)
    requires start <= MAX_UINT64 && end <= MAX_UINT64
    ensures match Find(ids, id, start, end)
            case Hit(n) => exists k :: After(ids, id, start, Running(end), k) == Found(n)
            case Miss => exists k :: After(ids, id, start, Running(end), k) == NotFound
            case Loops => forall k :: After(ids, id, start, Running(end), k).Running?
  {
    if start >= 1 {
      if end < start {
        assert After(ids, id, start, NotFound, 0) == NotFound;
        assert After(ids, id, start, Running(end), 1) == NotFound;
      } else {
        var k := CountDown(ids, id, start, end, start);
        if FindDown(ids, id, end, start).None? {
          AfterAdd(ids, id, start, Running(end), k, 1);
          assert After(ids, id, start, Running(start - 1), 1) == After(ids, id, start, NotFound, 0);
        }
      }
    } else {
      var k := CountDown(ids, id, 0, end, 0);
      if FindDown(ids, id, end, 0).None? {
        var j := CountDown(ids, id, 0, MAX_UINT64, end + 1);
        AfterAdd(ids, id, 0, Running(end), k, j);
        if FindDown(ids, id, MAX_UINT64, end + 1).None? {
          forall t ensures After(ids, id, 0, Running(end), t).Running? {
            NeverStops(ids, id, end, t);
          }
        }
      }
    }
  }

  /**
    The search stops if and only if Start is at least 1 or some article has the Message-ID; on an
    empty group, where Start is 0, an unknown Message-ID is looked for without end.
   */
  lemma SearchStops(ids: Ids, id: string, start: nat, end: nat)
    requires start <= MAX_UINT64 && end <= MAX_UINT64
    ensures (exists k :: !After(ids, id, start, Running(end), k).Running?) <==>
            start >= 1 || exists n :: n in ids && n <= MAX_UINT64 && ids[n] == id
  {
    FindIsTheLoop(ids, id, start, end);
    if start == 0 && forall n :: n in ids && n <= MAX_UINT64 ==> ids[n] != id {
      assert Find(ids, id, start, end) == Loops;
    }
  }
}
