/**
  Wildmat matching (internal/group/group.go, doWildmat): `*` and `?`, a subset of section 4 of
  RFC 3977, over bytes.
 */
module Wildmat {

  // ----- what a pattern means -----

  /** The pieces of a name that one pattern byte stands for. */
  predicate Piece(c: char, x: string) {
    c == '*' || (|x| == 1 && (c == '?' || x[0] == c))
  }

  function Concat(parts: seq<string>): string {
    if parts == [] then "" else parts[0] + Concat(parts[1..])
  }

  ghost predicate Fits(pattern: string, parts: seq<string>) {
    |parts| == |pattern| && forall i :: 0 <= i < |parts| ==> Piece(pattern[i], parts[i])
  }

  /** A name matches when it can be cut into pieces, one for each pattern byte in order. */
  ghost predicate Matches(pattern: string, name: string) {
    exists parts :: Fits(pattern, parts) && Concat(parts) == name
  }

  // ----- laws -----

  lemma {:induction false} ConcatAppend(a: seq<string>, b: seq<string>)
    ensures Concat(a + b) == Concat(a) + Concat(b)
  {
    if a == [] {
      assert a + b == b;
    } else {
      ConcatAppend(a[1..], b);
      assert (a + b)[0] == a[0] && (a + b)[1..] == a[1..] + b;
      assert a[0] + (Concat(a[1..]) + Concat(b)) == a[0] + Concat(a[1..]) + Concat(b);
    }
  }

  /** Matches concatenate. */
  lemma MatchesConcatenate(p: string, q: string, m: string, n: string)
    requires Matches(p, m) && Matches(q, n)
    ensures Matches(p + q, m + n)
  {
    var a :| Fits(p, a) && Concat(a) == m;
    var b :| Fits(q, b) && Concat(b) == n;
    ConcatAppend(a, b);
    assert Fits(p + q, a + b);
  }

  /** Any match of p + q splits into a match of p and a match of q. */
  lemma MatchesSplit(p: string, q: string, name: string) returns (k: nat)
    requires Matches(p + q, name)
    ensures k <= |name| && Matches(p, name[..k]) && Matches(q, name[k..])
  {
    var parts :| Fits(p + q, parts) && Concat(parts) == name;
    var a, b := parts[..|p|], parts[|p|..];
    assert parts == a + b;
    ConcatAppend(a, b);
    k := |Concat(a)|;
    assert name[..k] == Concat(a) && name[k..] == Concat(b);
    assert Fits(p, a) && Fits(q, b);
  }

  lemma MatchesEmpty(name: string)
    ensures Matches("", name) <==> name == ""
  {
    if name == "" {
      assert Fits("", []) && Concat([]) == name;
    }
  }

  /** One pattern byte other than `*` takes exactly one byte of the name. */
  lemma MatchesOne(p: string, name: string)
    requires p != "" && p[0] != '*'
    ensures Matches(p, name) <==> name != "" && Piece(p[0], name[..1]) && Matches(p[1..], name[1..])
  {
    if Matches(p, name) {
      var parts :| Fits(p, parts) && Concat(parts) == name;
      assert Piece(p[0], parts[0]);
      assert name[..1] == parts[0] && name[1..] == Concat(parts[1..]);
      assert Fits(p[1..], parts[1..]);
    }
    if name != "" && Piece(p[0], name[..1]) && Matches(p[1..], name[1..]) {
      assert Fits(p[..1], [name[..1]]) && Concat([name[..1]]) == name[..1];
      MatchesConcatenate(p[..1], p[1..], name[..1], name[1..]);
      assert p[..1] + p[1..] == p && name[..1] + name[1..] == name;
    }
  }

  /** A star takes any piece, the empty one included. */
  lemma MatchesStar(q: string, name: string)
    ensures Matches("*" + q, name) <==> exists k :: 0 <= k <= |name| && Matches(q, name[k..])
  {
    if Matches("*" + q, name) {
      var k := MatchesSplit("*", q, name);
    }
    if k :| 0 <= k <= |name| && Matches(q, name[k..]) {
      assert Fits("*", [name[..k]]) && Concat([name[..k]]) == name[..k];
      MatchesConcatenate("*", q, name[..k], name[k..]);
      assert name[..k] + name[k..] == name;
    }
  }

  /** A run of stars means no more than one star. */
  lemma StarRun(q: string, name: string)
    ensures Matches("*" + ("*" + q), name) <==> Matches("*" + q, name)
  {
    MatchesStar("*" + q, name);
    MatchesStar(q, name);
    forall k | 0 <= k <= |name| ensures Matches("*" + q, name[k..]) ==> Matches("*" + q, name) {
      MatchesStar(q, name[k..]);
      if j :| 0 <= j <= |name[k..]| && Matches(q, name[k..][j..]) {
        assert name[k..][j..] == name[k + j..];
      }
    }
    assert name[0..] == name;
  }

  lemma StarAlone(name: string)
    ensures Matches("*", name)
  {
    assert Fits("*", [name]) && Concat([name]) == name;
  }

  // ----- the matcher -----

  /** doWildmat: collapses a run of stars, then tries every suffix. */
  method DoWildmat(pattern0: string, name0: string) returns (ok: bool)
    ensures ok <==> Matches(pattern0, name0)
    decreases |pattern0|
  {
    var pattern, name := pattern0, name0;
    while |pattern| > 0
      invariant |pattern| <= |pattern0|
      invariant Matches(pattern0, name0) <==> Matches(pattern, name)
      decreases |pattern|
    {
      if pattern[0] == '*' {
        assert pattern == "*" + pattern[1..];
        ghost var whole := pattern;
        pattern := pattern[1..];
        while |pattern| > 0 && pattern[0] == '*'
          invariant |pattern| < |whole|
          invariant Matches(whole, name) <==> Matches("*" + pattern, name)
        {
          assert pattern == "*" + pattern[1..];
          StarRun(pattern[1..], name);
          pattern := pattern[1..];
        }
        MatchesStar(pattern, name);
        if |pattern| == 0 {
          StarAlone(name);
          assert "*" + pattern == "*";
          return true;
        }
        for i := 0 to |name| + 1
          invariant forall j :: 0 <= j < i ==> !Matches(pattern, name[j..])
        {
          var sub := DoWildmat(pattern, name[i..]);
          if sub {
            return true;
          }
        }
        return false;
      } else {
        MatchesOne(pattern, name);
        if pattern[0] == '?' {
          if |name| == 0 {
            return false;
          }
        } else if |name| == 0 || pattern[0] != name[0] {
          return false;
        }
        pattern, name := pattern[1..], name[1..];
      }
    }
    MatchesEmpty(name);
    return |name| == 0;
  }
}
