/**
  Comma-separated group lists and group names (internal/auth/validate.go).
 */
module GroupList {
  import opened Text

  const BLOCKLIST: set<string> :=
    {"auth.db", "auth.log", "auth.mode", "pidfile", "test.conf", ".config"}

  predicate Alnum(c: char) {
    'a' <= c <= 'z' || 'A' <= c <= 'Z' || IsDigit(c)
  }

  /** ^[a-zA-Z0-9][a-zA-Z0-9.-]*$ */
  predicate NameFormat(s: string) {
    s != "" && Alnum(s[0]) && forall i :: 0 <= i < |s| ==> Alnum(s[i]) || s[i] == '.' || s[i] == '-'
  }

  /** A name safe to turn into a path: every dot-separated component is there and is not "..". */
  predicate ValidGroupName(name: string) {
    && name != "" && |name| <= 255
    && name !in BLOCKLIST
    && NameFormat(name)
    && forall part :: part in Split(name, '.') ==> part != ".." && part != ""
  }

  /** What both checks ask of one segment of a list. `existing` is the set of known names; empty means unknown. */
  predicate Acceptable(name: string, existing: set<string>) {
    && name != ""
    && !(|name| > 1 && name[0] == '*')
    && name !in BLOCKLIST
    && NameFormat(name)
    && (existing == {} || name in existing)
  }

  function Elements(names: seq<string>): set<string> {
    set n | n in names
  }

  /** The trimmed segments of a list. */
  function Segments(groups: string): (names: seq<string>)
    ensures |names| >= 1
  {
    var parts := Split(Trim(groups), ',');
    seq(|parts|, i requires 0 <= i < |parts| => Trim(parts[i]))
  }

  lemma SegmentsAreClean(groups: string)
    ensures forall n :: n in Segments(groups) ==> Trimmed(n) && ',' !in n
  {
    var parts := Split(Trim(groups), ',');
    SplitPartsHaveNoSeparator(Trim(groups), ',');
    forall n | n in Segments(groups) ensures Trimmed(n) && ',' !in n {
      var i :| 0 <= i < |parts| && n == Trim(parts[i]);
      assert parts[i] in parts;
      TrimIsTrimmed(parts[i]);
    }
  }

  function Dropping(names: seq<string>): seq<string> {
    if names == [] then []
    else Dropping(names[..|names| - 1]) + (if names[|names| - 1] == "" then [] else [names[|names| - 1]])
  }

  /** The normal form of a list. */
  function Normal(groups: string): string {
    if Trim(groups) == "" || Trim(groups) == "*" then Trim(groups)
    else if "*" in Segments(groups) then "*"
    else Join(Dropping(Segments(groups)), ',')
  }

  method NormalizeGroups(groups: string) returns (r: string)
    ensures r == Normal(groups)
  {
    var s := Trim(groups);
    if s == "" || s == "*" {
      return s;
    }
    ghost var names := Segments(groups);
    var out: seq<string> := [];
    var parts := Split(s, ',');
    for i := 0 to |parts|
      invariant "*" !in names[..i]
      invariant out == Dropping(names[..i])
    {
      var name := Trim(parts[i]);
      assert names[..i + 1] == names[..i] + [name];
      if name == "*" {
        assert names[i] == name;
        return "*";
      }
      if name != "" {
        out := out + [name];
      }
    }
    assert names[..|parts|] == names;
    return Join(out, ',');
  }

  /** The offending names, "(empty segment)" for a blank one. */
  function Offenders(names: seq<string>, existing: set<string>): seq<string> {
    if names == [] then []
    else
      var last := names[|names| - 1];
      Offenders(names[..|names| - 1], existing)
      + (if Acceptable(last, existing) then [] else if last == "" then ["(empty segment)"] else [last])
  }

  method InvalidGroupNames(groups: string, existingGroups: seq<string>) returns (invalid: seq<string>)
    ensures invalid == if Trim(groups) == "" || Trim(groups) == "*" then []
                       else Offenders(Segments(groups), Elements(existingGroups))
  {
    var s := Trim(groups);
    if s == "" {
      return [];
    }
    if s == "*" {
      return [];
    }
    var existingSet := Elements(existingGroups);
    ghost var names := Segments(groups);
    invalid := [];
    var parts := Split(s, ',');
    for i := 0 to |parts|
      invariant invalid == Offenders(names[..i], existingSet)
    {
      var name := Trim(parts[i]);
      assert names[..i + 1] == names[..i] + [name];
      if name == "" {
        invalid := invalid + ["(empty segment)"];
        continue;
      }
      if |name| > 1 && name[0] == '*' {
        invalid := invalid + [name];
        continue;
      }
      if name in BLOCKLIST {
        invalid := invalid + [name];
        continue;
      }
      if !NameFormat(name) {
        invalid := invalid + [name];
        continue;
      }
      if |existingSet| > 0 && name !in existingSet {
        invalid := invalid + [name];
      }
    }
    assert names[..|parts|] == names;
  }

  datatype Verdict = Accepted | Empty | EmptySegment | StarNotAlone | Blocked(name: string)
                   | BadName(name: string) | NoSuchGroup(name: string)

  ghost predicate AllAcceptable(names: seq<string>, existing: set<string>) {
    forall n :: n in names ==> Acceptable(n, existing)
  }

  /** The k-th segment is the first that is not acceptable. */
  ghost predicate FirstOffender(names: seq<string>, k: nat, existing: set<string>) {
    k < |names| && AllAcceptable(names[..k], existing) && !Acceptable(names[k], existing)
  }

  /** The complaint a segment deserves; no segment deserves two. */
  predicate Deserves(name: string, v: Verdict, existing: set<string>) {
    match v
    case Accepted | Empty => false
    case EmptySegment => name == ""
    case StarNotAlone => |name| > 1 && name[0] == '*'
    case Blocked(n) => n == name && name in BLOCKLIST
    case BadName(n) => n == name && name != "" && !NameFormat(name) && !(|name| > 1 && name[0] == '*')
        && name !in BLOCKLIST
    case NoSuchGroup(n) => n == name && NameFormat(name) && name !in BLOCKLIST && existing != {} && name !in existing
  }

  lemma OneComplaint(name: string, v: Verdict, w: Verdict, existing: set<string>)
    requires Deserves(name, v, existing) && Deserves(name, w, existing)
    ensures v == w && !Acceptable(name, existing)
  {
  }

  lemma RejectedBy(names: seq<string>, i: nat, existing: set<string>)
    requires i < |names| && !Acceptable(names[i], existing)
    ensures !AllAcceptable(names, existing)
  {
    assert names[i] in names;
  }

  lemma AcceptedOneMore(names: seq<string>, i: nat, existing: set<string>)
    requires i < |names| && AllAcceptable(names[..i], existing) && Acceptable(names[i], existing)
    ensures AllAcceptable(names[..i + 1], existing)
  {
    assert names[..i + 1] == names[..i] + [names[i]];
  }

  /** ValidateGroups: the first complaint about a list, or none. */
  method ValidateGroups(groups: string, existingGroups: seq<string>) returns (v: Verdict)
    ensures Trim(groups) == "" <==> v.Empty?
    ensures v.Accepted? <==> Trim(groups) == "*" ||
                             (Trim(groups) != "" && AllAcceptable(Segments(groups), Elements(existingGroups)))
    ensures !v.Accepted? && !v.Empty? ==>
              exists k: nat :: FirstOffender(Segments(groups), k, Elements(existingGroups))
                          && Deserves(Segments(groups)[k], v, Elements(existingGroups))
  {
    var s := Trim(groups);
    if s == "" {
      return Empty;
    }
    if s == "*" {
      return Accepted;
    }
    var existingSet := Elements(existingGroups);
    ghost var names := Segments(groups);
    var parts := Split(s, ',');
    for i := 0 to |parts|
      invariant AllAcceptable(names[..i], existingSet)
    {
      var name := Trim(parts[i]);
      assert names[i] == name;
      if Acceptable(name, existingSet) {
        AcceptedOneMore(names, i, existingSet);
      } else {
        RejectedBy(names, i, existingSet);
        assert FirstOffender(names, i, existingSet);
      }
      if name == "" {
        return EmptySegment;
      }
      if |name| > 1 && name[0] == '*' {
        return StarNotAlone;
      }
      if name in BLOCKLIST {
        return Blocked(name);
      }
      if !NameFormat(name) {
        return BadName(name);
      }
      if |existingSet| > 0 && name !in existingSet {
        return NoSuchGroup(name);
      }
    }
    assert names[..|parts|] == names;
    return Accepted;
  }

  // ----- laws -----

  lemma {:induction false} OffendersEmpty(names: seq<string>, existing: set<string>)
    ensures Offenders(names, existing) == [] <==> AllAcceptable(names, existing)
  {
    if names != [] {
      var init, last := names[..|names| - 1], names[|names| - 1];
      OffendersEmpty(init, existing);
      assert names == init + [last];
    }
  }

  ghost predicate PlacesOfOffenders(names: seq<string>, existing: set<string>, ks: seq<nat>) {
    Ascending(ks) && forall k: nat :: k in ks <==> k < |names| && !Acceptable(names[k], existing)
  }

  ghost predicate ReportsAt(names: seq<string>, ks: seq<nat>, reports: seq<string>) {
    && |reports| == |ks|
    && forall j :: 0 <= j < |ks| ==>
         ks[j] < |names| && reports[j] == if names[ks[j]] == "" then "(empty segment)" else names[ks[j]]
  }

  lemma OffenderOneMore(names: seq<string>, name: string, existing: set<string>, ks: seq<nat>)
    requires PlacesOfOffenders(names, existing, ks)
    ensures PlacesOfOffenders(names + [name], existing, if Acceptable(name, existing) then ks else ks + [|names|])
  {
    AscendingOneMore(ks, |names|);
  }

  lemma ReportOneMore(names: seq<string>, name: string, ks: seq<nat>, reports: seq<string>)
    requires ReportsAt(names, ks, reports)
    ensures ReportsAt(names + [name], ks, reports)
    ensures ReportsAt(names + [name], ks + [|names|], reports + [if name == "" then "(empty segment)" else name])
  {
  }

  /** Each name that is not acceptable is reported once, in order, a blank one by a text of its own. */
  lemma {:induction false} OffendersAre(names: seq<string>, existing: set<string>) returns (ks: seq<nat>)
    ensures PlacesOfOffenders(names, existing, ks) && ReportsAt(names, ks, Offenders(names, existing))
  {
    if names == [] {
      ks := [];
    } else {
      var init, last := names[..|names| - 1], names[|names| - 1];
      ks := OffendersAre(init, existing);
      assert names == init + [last];
      OffenderOneMore(init, last, existing, ks);
      ReportOneMore(init, last, ks, Offenders(init, existing));
      ks := if Acceptable(last, existing) then ks else ks + [|init|];
    }
  }

  /** On a non-blank list the two checks agree: no offender is listed exactly when the list is accepted. */
  lemma ChecksAgree(groups: string, existingGroups: seq<string>)
    requires Trim(groups) != "" && Trim(groups) != "*"
    ensures Offenders(Segments(groups), Elements(existingGroups)) == [] <==>
            AllAcceptable(Segments(groups), Elements(existingGroups))
  {
    OffendersEmpty(Segments(groups), Elements(existingGroups));
  }

  lemma {:induction false} DroppingShape(names: seq<string>)
    ensures forall n :: n in Dropping(names) <==> n in names && n != ""
    ensures "" !in names ==> Dropping(names) == names
  {
    if names != [] {
      var init, last := names[..|names| - 1], names[|names| - 1];
      DroppingShape(init);
      assert names == init + [last];
    }
  }

  /** These places of a list, in order, are the ones that hold a name. */
  ghost predicate PlacesOfNames(names: seq<string>, ks: seq<nat>) {
    Ascending(ks) && forall k: nat :: k in ks <==> k < |names| && names[k] != ""
  }

  ghost predicate NamesAt(names: seq<string>, ks: seq<nat>, kept: seq<string>) {
    |kept| == |ks| && forall j :: 0 <= j < |ks| ==> ks[j] < |names| && kept[j] == names[ks[j]]
  }

  lemma PlacesOneMore(names: seq<string>, name: string, ks: seq<nat>)
    requires PlacesOfNames(names, ks)
    ensures PlacesOfNames(names + [name], if name == "" then ks else ks + [|names|])
  {
    AscendingOneMore(ks, |names|);
  }

  lemma NamesOneMore(names: seq<string>, name: string, ks: seq<nat>, kept: seq<string>)
    requires NamesAt(names, ks, kept)
    ensures NamesAt(names + [name], ks, kept)
    ensures NamesAt(names + [name], ks + [|names|], kept + [name])
  {
  }

  lemma {:induction false} DroppingIs(names: seq<string>) returns (ks: seq<nat>)
    ensures PlacesOfNames(names, ks) && NamesAt(names, ks, Dropping(names))
  {
    if names == [] {
      ks := [];
    } else {
      var init, last := names[..|names| - 1], names[|names| - 1];
      ks := DroppingIs(init);
      assert names == init + [last];
      PlacesOneMore(init, last, ks);
      NamesOneMore(init, last, ks, Dropping(init));
      ks := if last == "" then ks else ks + [|init|];
    }
  }

  /** The normal form of any list: the star if it is among the segments, and else those that are there, in order. */
  lemma NormalIs(groups: string) returns (kept: seq<string>, ks: seq<nat>)
    ensures var names := Segments(groups);
            && PlacesOfNames(names, ks) && NamesAt(names, ks, kept)
            && Normal(groups) == if "*" in names then "*" else Join(kept, ',')
  {
    var names := Segments(groups);
    kept := Dropping(names);
    ks := DroppingIs(names);
    TrimIsTrimmed(groups);
    TrimFixpoint(Trim(groups));
    TrimFixpoint("*");
    if Trim(groups) == "*" {
      assert Split(Trim(groups), ',')[0] == "*";
      assert names[0] == "*";
    } else if Trim(groups) == "" {
      TrimFixpoint("");
      assert Split(Trim(groups), ',') == [""];
      assert |names| == 1 && names[0] == "";
      assert names[..0] == [];
    }
  }

  lemma {:induction false} JoinEnds(parts: seq<string>)
    requires parts != [] && forall p :: p in parts ==> p != "" && Trimmed(p)
    ensures Join(parts, ',') != ""
    ensures Trimmed(Join(parts, ','))
  {
    assert parts[0] in parts;
    if |parts| > 1 {
      forall p | p in parts[1..] ensures p in parts {}
      JoinEnds(parts[1..]);
      var tail := Join(parts[1..], ',');
      var s := Join(parts, ',');
      assert s == parts[0] + [','] + tail;
      assert s[|s| - 1] == tail[|tail| - 1];
    }
  }

  /** A list of clean names survives joining, trimming and splitting. */
  lemma SegmentsOfJoin(names: seq<string>)
    requires names != [] && forall n :: n in names ==> n != "" && Trimmed(n) && ',' !in n
    ensures Trim(Join(names, ',')) == Join(names, ',') && Segments(Join(names, ',')) == names
  {
    JoinEnds(names);
    TrimFixpoint(Join(names, ','));
    SplitJoin(names, ',');
    forall i | 0 <= i < |names| ensures Trim(names[i]) == names[i] {
      assert names[i] in names;
      TrimFixpoint(names[i]);
    }
  }

  /** Normalising twice is normalising once. */
  lemma NormalIdempotent(groups: string)
    ensures Normal(Normal(groups)) == Normal(groups)
  {
    TrimIsTrimmed(groups);
    TrimFixpoint(Trim(groups));
    TrimFixpoint("*");
    TrimFixpoint("");
    var names := Segments(groups);
    if Trim(groups) != "" && Trim(groups) != "*" && "*" !in names {
      var kept := Dropping(names);
      DroppingShape(names);
      SegmentsAreClean(groups);
      if kept != [] {
        SegmentsOfJoin(kept);
        DroppingShape(kept);
      }
    }
  }

  /** On an accepted list, normalising keeps the names and their order. */
  lemma NormalKeepsAccepted(groups: string, existing: set<string>)
    requires Trim(groups) != "" && Trim(groups) != "*" && AllAcceptable(Segments(groups), existing)
    ensures Segments(Normal(groups)) == Segments(groups)
    ensures AllAcceptable(Segments(Normal(groups)), existing)
  {
    var names := Segments(groups);
    assert "*" !in names;
    assert "" !in names;
    DroppingShape(names);
    SegmentsAreClean(groups);
    SegmentsOfJoin(names);
  }
}
