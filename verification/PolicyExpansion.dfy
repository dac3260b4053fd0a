/** Expansion of wildcard zone policies into concrete zone pairs (internal/config/expand.go).

    Policies are ordered and the first match wins, so expansion has to preserve, for every pair
    of zones, the ordered list of policies that apply to it. */
module PolicyExpansion {
  import opened Prelude
  import opened ConfigModel

  /** path/filepath.Match: None is its malformed-pattern error. */
  type Glob = (string, string) -> Option<bool>

  const WILDCARD_CHARS: seq<char> := ['*', '?', '[', ']']

  predicate IsWildcard(zone: string)
    ensures IsWildcard(zone) <==> '*' in zone || '?' in zone || '[' in zone || ']' in zone
  {
    exists i :: 0 <= i < |zone| && zone[i] in WILDCARD_CHARS
  }

  predicate MatchesZone(glob: Glob, pattern: string, zone: string) {
    pattern == "*" || glob(pattern, zone) == Some(true)
  }

  function ZoneNames(zones: seq<Zone>): seq<string> {
    Map(zones, (z: Zone) => z.name) + ["self"]
  }

  predicate Concrete(p: Policy) {
    !IsWildcard(p.from) && !IsWildcard(p.to)
  }

  function GeneratedName(p: Policy, from: string, to: string): string {
    if p.name == "" then from + "-" + to else p.name + "_" + from + "_" + to
  }

  function Copy(p: Policy, from: string, to: string): Policy {
    p.(from := from, to := to, name := GeneratedName(p, from, to))
  }

  function Candidates(glob: Glob, names: seq<string>, pattern: string): seq<string> {
    if IsWildcard(pattern) then Filter(names, z => MatchesZone(glob, pattern, z)) else [pattern]
  }

  function Row(p: Policy, from: string, tos: seq<string>): seq<Policy> {
    if tos == [] then []
    else
      var to := tos[|tos| - 1];
      Row(p, from, tos[..|tos| - 1]) + (if from == to then [] else [Copy(p, from, to)])
  }

  function Grid(p: Policy, froms: seq<string>, tos: seq<string>): seq<Policy> {
    if froms == [] then []
    else Grid(p, froms[..|froms| - 1], tos) + Row(p, froms[|froms| - 1], tos)
  }

  function ExpandOne(glob: Glob, names: seq<string>, p: Policy): seq<Policy> {
    if Concrete(p) then [p]
    else Grid(p, Candidates(glob, names, p.from), Candidates(glob, names, p.to))
  }

  function Expand(glob: Glob, names: seq<string>, ps: seq<Policy>): seq<Policy> {
    if ps == [] then []
    else Expand(glob, names, ps[..|ps| - 1]) + ExpandOne(glob, names, ps[|ps| - 1])
  }

  // ----- The source's loops -----

  method CollectCandidates(glob: Glob, names: seq<string>, pattern: string)
    returns (found: seq<string>)
    ensures found == Candidates(glob, names, pattern)
  {
    if IsWildcard(pattern) {
      found := [];
      for i := 0 to |names|
        invariant found == Filter(names[..i], z => MatchesZone(glob, pattern, z))
      {
        FilterSnoc(names[..i], names[i], z => MatchesZone(glob, pattern, z));
        assert names[..i + 1] == names[..i] + [names[i]];
        if MatchesZone(glob, pattern, names[i]) {
          found := found + [names[i]];
        }
      }
      assert names[..|names|] == names;
    } else {
      found := [pattern];
    }
  }

  method ExpandRow(policy: Policy, from: string, tos: seq<string>) returns (row: seq<Policy>)
    ensures row == Row(policy, from, tos)
  {
    row := [];
    for t := 0 to |tos|
      invariant row == Row(policy, from, tos[..t])
    {
      assert tos[..t + 1][..t] == tos[..t];
      if from != tos[t] {
        row := row + [Copy(policy, from, tos[t])];
      }
    }
    assert tos[..|tos|] == tos;
  }

  method ExpandWildcard(glob: Glob, names: seq<string>, policy: Policy)
    returns (copies: seq<Policy>)
    ensures copies
         == Grid(policy, Candidates(glob, names, policy.from), Candidates(glob, names, policy.to))
  {
    var froms := CollectCandidates(glob, names, policy.from);
    var tos := CollectCandidates(glob, names, policy.to);
    copies := [];
    for f := 0 to |froms|
      invariant copies == Grid(policy, froms[..f], tos)
    {
      assert froms[..f + 1][..f] == froms[..f];
      var row := ExpandRow(policy, froms[f], tos);
      copies := copies + row;
    }
    assert froms[..|froms|] == froms;
  }

  method ExpandPolicies(glob: Glob, policies: seq<Policy>, zones: seq<Zone>)
    returns (expanded: seq<Policy>)
    ensures expanded == Expand(glob, ZoneNames(zones), policies)
    ensures DistinctZones(zones) ==>
              forall from, to :: from != to ==>
                Bodies(At(expanded, from, to))
                == Bodies(Filter(policies, ReachesPair(glob, zones, from, to)))
  {
    var names: seq<string> := [];
    for i := 0 to |zones|
      invariant names == Map(zones[..i], (z: Zone) => z.name)
    {
      names := names + [zones[i].name];
    }
    assert zones[..|zones|] == zones;
    names := names + ["self"];

    expanded := [];
    for i := 0 to |policies|
      invariant expanded == Expand(glob, names, policies[..i])
    {
      assert policies[..i + 1][..i] == policies[..i];
      if Concrete(policies[i]) {
        expanded := expanded + [policies[i]];
      } else {
        var copies := ExpandWildcard(glob, names, policies[i]);
        expanded := expanded + copies;
      }
    }
    assert policies[..|policies|] == policies;
    if DistinctZones(zones) {
      forall from, to | from != to
        ensures Bodies(At(expanded, from, to))
             == Bodies(Filter(policies, ReachesPair(glob, zones, from, to)))
      {
        ExpansionForZones(glob, zones, policies, from, to);
      }
    }
  }

  // ----- Meaning -----

  /** The router itself is a zone beside the declared ones. */
  predicate IsZone(zones: seq<Zone>, zone: string) {
    zone == "self" || exists k :: 0 <= k < |zones| && zones[k].name == zone
  }

  ghost predicate DistinctZones(zones: seq<Zone>) {
    (forall k :: 0 <= k < |zones| ==> zones[k].name != "self")
    && forall j, k :: 0 <= j < k < |zones| ==> zones[j].name != zones[k].name
  }

  /** A side written plainly means that zone; a wildcard means every zone that it matches, "*" all
      of them and a malformed pattern none. */
  predicate SideReaches(glob: Glob, zones: seq<Zone>, side: string, zone: string) {
    if '*' in side || '?' in side || '[' in side || ']' in side
    then IsZone(zones, zone) && (side == "*" || glob(side, zone) == Some(true))
    else side == zone
  }

  function ReachesPair(glob: Glob, zones: seq<Zone>, from: string, to: string): Policy -> bool {
    (p: Policy) => SideReaches(glob, zones, p.from, from) && SideReaches(glob, zones, p.to, to)
  }

  /** A pattern covers a zone: a wildcard covers the known zones it matches, a plain name itself. */
  predicate Covers(glob: Glob, names: seq<string>, pattern: string, zone: string) {
    if IsWildcard(pattern) then zone in names && MatchesZone(glob, pattern, zone)
    else pattern == zone
  }

  predicate Applies(glob: Glob, names: seq<string>, p: Policy, from: string, to: string) {
    Covers(glob, names, p.from, from) && Covers(glob, names, p.to, to)
  }

  /** The policies, in order, whose two sides are literally `from` and `to`. */
  function At(ps: seq<Policy>, from: string, to: string): seq<Policy> {
    Filter(ps, ForPair(from, to))
  }

  function ForPair(from: string, to: string): Policy -> bool {
    (p: Policy) => p.from == from && p.to == to
  }

  /** The original policies, in order, that apply to the pair. */
  function Applicable(glob: Glob, names: seq<string>, ps: seq<Policy>, from: string, to: string)
    : seq<Policy>
  {
    Filter(ps, (p: Policy) => Applies(glob, names, p, from, to))
  }

  /** What a policy does, apart from the pair it is attached to and its label. */
  function Body(p: Policy): Policy {
    p.(from := "", to := "", name := "")
  }

  function Bodies(ps: seq<Policy>): seq<Policy> {
    Map(ps, Body)
  }

  /** How often a policy is copied for a pair: once per occurrence of each side's name. */
  function Multiplicity(glob: Glob, names: seq<string>, p: Policy, from: string, to: string): nat {
    Count(Candidates(glob, names, p.from), from) * Count(Candidates(glob, names, p.to), to)
  }

  /** Every policy's body, repeated by its multiplicity, in the original order. */
  function Weighted(glob: Glob, names: seq<string>, ps: seq<Policy>, from: string, to: string)
    : seq<Policy>
  {
    if ps == [] then []
    else
      var p := ps[|ps| - 1];
      Weighted(glob, names, ps[..|ps| - 1], from, to)
      + Repeat(Body(p), Multiplicity(glob, names, p, from, to))
  }

  lemma {:induction false} RowAt(p: Policy, f: string, tos: seq<string>, from: string, to: string)
    requires from != to
    ensures At(Row(p, f, tos), from, to)
         == Repeat(Copy(p, from, to), if f == from then Count(tos, to) else 0)
  {
    if tos != [] {
      var init, last := tos[..|tos| - 1], tos[|tos| - 1];
      RowAt(p, f, init, from, to);
      var tail := if f == last then [] else [Copy(p, f, last)];
      FilterAppend(Row(p, f, init), tail, ForPair(from, to));
    }
  }

  /** `n` copies for every occurrence of `from`. */
  function Tally(froms: seq<string>, from: string, n: nat): nat {
    if froms == [] then 0
    else Tally(froms[..|froms| - 1], from, n) + (if froms[|froms| - 1] == from then n else 0)
  }

  lemma {:induction false} TallyIsProduct(froms: seq<string>, from: string, n: nat)
    ensures Tally(froms, from, n) == Count(froms, from) * n
  {
    if froms != [] {
      TallyIsProduct(froms[..|froms| - 1], from, n);
    }
  }

  lemma {:induction false} GridAt(
    p: Policy, froms: seq<string>, tos: seq<string>, from: string, to: string)
    requires from != to
    ensures At(Grid(p, froms, tos), from, to)
         == Repeat(Copy(p, from, to), Tally(froms, from, Count(tos, to)))
  {
    if froms != [] {
      var init, last := froms[..|froms| - 1], froms[|froms| - 1];
      GridAt(p, init, tos, from, to);
      RowAt(p, last, tos, from, to);
      FilterAppend(Grid(p, init, tos), Row(p, last, tos), ForPair(from, to));
    }
  }

  lemma ConcreteMultiplicity(glob: Glob, names: seq<string>, p: Policy, from: string, to: string)
    requires Concrete(p)
    ensures Multiplicity(glob, names, p, from, to)
         == if p.from == from && p.to == to then 1 else 0
  {
    assert Count([p.from], from) == if p.from == from then 1 else 0;
    assert Count([p.to], to) == if p.to == to then 1 else 0;
  }

  lemma ExpandOneAt(glob: Glob, names: seq<string>, p: Policy, from: string, to: string)
    requires from != to
    ensures Bodies(At(ExpandOne(glob, names, p), from, to))
         == Repeat(Body(p), Multiplicity(glob, names, p, from, to))
  {
    if Concrete(p) {
      ConcreteMultiplicity(glob, names, p, from, to);
      FilterSnoc([], p, ForPair(from, to));
      assert [] + [p] == [p];
    } else {
      var froms, tos := Candidates(glob, names, p.from), Candidates(glob, names, p.to);
      GridAt(p, froms, tos, from, to);
      TallyIsProduct(froms, from, Count(tos, to));
    }
  }

  /** On every pair of different zones the expanded list is the original one with each policy
      repeated by its multiplicity: nothing is lost, invented or reordered, whatever the zone
      list looks like. */
  lemma {:induction false} ExpansionIsWeighted(
    glob: Glob, names: seq<string>, ps: seq<Policy>, from: string, to: string)
    requires from != to
    ensures Bodies(At(Expand(glob, names, ps), from, to)) == Weighted(glob, names, ps, from, to)
  {
    if ps != [] {
      var init, last := ps[..|ps| - 1], ps[|ps| - 1];
      ExpansionIsWeighted(glob, names, init, from, to);
      ExpandOneAt(glob, names, last, from, to);
      FilterAppend(Expand(glob, names, init), ExpandOne(glob, names, last),
                   ForPair(from, to));
    }
  }

  lemma CandidatesCount(glob: Glob, names: seq<string>, pattern: string, zone: string)
    ensures Count(Candidates(glob, names, pattern), zone) > 0
        <==> Covers(glob, names, pattern, zone)
    ensures Distinct(names) ==> Count(Candidates(glob, names, pattern), zone) <= 1
  {
    CountPositive(Candidates(glob, names, pattern), zone);
    if IsWildcard(pattern) {
      FilterMembers(names, z => MatchesZone(glob, pattern, z));
    }
    if Distinct(names) {
      if IsWildcard(pattern) {
        FilterDistinct(names, z => MatchesZone(glob, pattern, z));
      }
      CountDistinct(Candidates(glob, names, pattern), zone);
    }
  }

  lemma MultiplicityMeaning(glob: Glob, names: seq<string>, p: Policy, from: string, to: string)
    ensures Multiplicity(glob, names, p, from, to) > 0 <==> Applies(glob, names, p, from, to)
    ensures Distinct(names) ==> Multiplicity(glob, names, p, from, to) <= 1
  {
    CandidatesCount(glob, names, p.from, from);
    CandidatesCount(glob, names, p.to, to);
    var a := Count(Candidates(glob, names, p.from), from);
    var b := Count(Candidates(glob, names, p.to), to);
    assert a * b > 0 <==> a > 0 && b > 0;
    if a == 1 { assert a * b == b; }
  }

  /** With distinct zone names every applicable policy appears exactly once, in order. */
  lemma {:induction false} ExpansionPreservesMatches(
    glob: Glob, names: seq<string>, ps: seq<Policy>, from: string, to: string)
    requires from != to && Distinct(names)
    ensures Bodies(At(Expand(glob, names, ps), from, to))
         == Bodies(Applicable(glob, names, ps, from, to))
  {
    ExpansionIsWeighted(glob, names, ps, from, to);
    if ps != [] {
      var init, last := ps[..|ps| - 1], ps[|ps| - 1];
      ExpansionPreservesMatches(glob, names, init, from, to);
      ExpansionIsWeighted(glob, names, init, from, to);
      MultiplicityMeaning(glob, names, last, from, to);
    }
  }

  /** The deciding policy of a pair. */
  function FirstMatch(bodies: seq<Policy>): Option<Policy> {
    if bodies == [] then None else Some(bodies[0])
  }

  /** First-match meaning survives expansion for every zone list, duplicated names included. */
  lemma {:induction false} ExpansionPreservesFirstMatch(
    glob: Glob, names: seq<string>, ps: seq<Policy>, from: string, to: string)
    requires from != to
    ensures FirstMatch(Bodies(At(Expand(glob, names, ps), from, to)))
         == FirstMatch(Bodies(Applicable(glob, names, ps, from, to)))
  {
    ExpansionIsWeighted(glob, names, ps, from, to);
    if ps != [] {
      var init, last := ps[..|ps| - 1], ps[|ps| - 1];
      ExpansionPreservesFirstMatch(glob, names, init, from, to);
      ExpansionIsWeighted(glob, names, init, from, to);
      MultiplicityMeaning(glob, names, last, from, to);
    }
  }

  lemma ZoneNamesAreZones(zones: seq<Zone>, zone: string)
    ensures zone in ZoneNames(zones) <==> IsZone(zones, zone)
    ensures DistinctZones(zones) ==> Distinct(ZoneNames(zones))
  {
    var names := ZoneNames(zones);
    assert names[|zones|] == "self";
    assert forall k :: 0 <= k < |zones| ==> names[k] == zones[k].name;
  }

  /** The same in terms of the declared zones and the policies alone. */
  lemma ExpansionForZones(
    glob: Glob, zones: seq<Zone>, ps: seq<Policy>, from: string, to: string)
    requires from != to
    ensures DistinctZones(zones) ==>
              Bodies(At(Expand(glob, ZoneNames(zones), ps), from, to))
              == Bodies(Filter(ps, ReachesPair(glob, zones, from, to)))
    ensures FirstMatch(Bodies(At(Expand(glob, ZoneNames(zones), ps), from, to)))
         == FirstMatch(Bodies(Filter(ps, ReachesPair(glob, zones, from, to))))
  {
    var names := ZoneNames(zones);
    ZoneNamesAreZones(zones, from);
    ZoneNamesAreZones(zones, to);
    FilterSame(ps, (p: Policy) => Applies(glob, names, p, from, to),
               ReachesPair(glob, zones, from, to));
    ExpansionPreservesFirstMatch(glob, names, ps, from, to);
    if DistinctZones(zones) {
      ExpansionPreservesMatches(glob, names, ps, from, to);
    }
  }

  lemma {:induction false} GridDiagonal(p: Policy, froms: seq<string>, tos: seq<string>)
    ensures forall q :: q in Grid(p, froms, tos) ==> q.from != q.to
  {
    if froms != [] {
      GridDiagonal(p, froms[..|froms| - 1], tos);
      RowShape(p, froms[|froms| - 1], tos);
    }
  }

  /** A pair of equal zones keeps exactly the policies written for it without wildcards. */
  lemma {:induction false} DiagonalKeepsOnlyConcrete(
    glob: Glob, names: seq<string>, ps: seq<Policy>, zone: string)
    ensures At(Expand(glob, names, ps), zone, zone)
         == Filter(ps, (p: Policy) => Concrete(p) && p.from == zone && p.to == zone)
  {
    if ps != [] {
      var init, last := ps[..|ps| - 1], ps[|ps| - 1];
      DiagonalKeepsOnlyConcrete(glob, names, init, zone);
      var here := ForPair(zone, zone);
      FilterAppend(Expand(glob, names, init), ExpandOne(glob, names, last), here);
      if Concrete(last) {
        assert [last][..0] == [];
      } else {
        var froms, tos := Candidates(glob, names, last.from), Candidates(glob, names, last.to);
        GridDiagonal(last, froms, tos);
        FilterNone(Grid(last, froms, tos), here);
      }
    }
  }

  // ----- Shape of the output -----

  lemma {:induction false} RowShape(p: Policy, from: string, tos: seq<string>)
    ensures forall q :: q in Row(p, from, tos) <==>
              exists to :: to in tos && from != to && q == Copy(p, from, to)
  {
    if tos != [] {
      var init, last := tos[..|tos| - 1], tos[|tos| - 1];
      RowShape(p, from, init);
      assert tos == init + [last];
    }
  }

  ghost predicate CopyOf(p: Policy, froms: seq<string>, tos: seq<string>, q: Policy) {
    exists from, to :: from in froms && to in tos && from != to && q == Copy(p, from, to)
  }

  lemma {:induction false} GridShape(p: Policy, froms: seq<string>, tos: seq<string>)
    ensures forall q :: q in Grid(p, froms, tos) <==> CopyOf(p, froms, tos, q)
  {
    if froms != [] {
      var init, last := froms[..|froms| - 1], froms[|froms| - 1];
      GridShape(p, init, tos);
      RowShape(p, last, tos);
      assert froms == init + [last];
      forall q
        ensures q in Grid(p, froms, tos) <==> CopyOf(p, froms, tos, q)
      {
        if q in Row(p, last, tos) {
          var to :| to in tos && last != to && q == Copy(p, last, to);
          assert CopyOf(p, froms, tos, q);
        } else if q in Grid(p, init, tos) {
          var from, to :| from in init && to in tos && from != to && q == Copy(p, from, to);
          assert from in froms;
        }
      }
    }
  }

  /** `q` is the copy of `p` for its own pair, named after the pair, and after `p` if that has a
      name. */
  ghost predicate IsCopyFor(p: Policy, q: Policy) {
    q == p.(from := q.from, to := q.to,
            name := if p.name == "" then q.from + "-" + q.to
                    else p.name + "_" + q.from + "_" + q.to)
  }

  /** Where a policy of the expanded list comes from: it was written without wildcards, or copied
      from one with wildcards for two different zones that its sides reach. */
  ghost predicate StemsFrom(glob: Glob, zones: seq<Zone>, p: Policy, q: Policy) {
    if Concrete(p) then q == p
    else SideReaches(glob, zones, p.from, q.from) && SideReaches(glob, zones, p.to, q.to)
         && q.from != q.to && IsCopyFor(p, q)
  }

  lemma CandidatesAreReached(glob: Glob, zones: seq<Zone>, side: string, zone: string)
    ensures zone in Candidates(glob, ZoneNames(zones), side)
        <==> SideReaches(glob, zones, side, zone)
  {
    ZoneNamesAreZones(zones, zone);
    FilterMembers(ZoneNames(zones), z => MatchesZone(glob, side, z));
  }

  lemma ExpandOneMembers(glob: Glob, zones: seq<Zone>, p: Policy, q: Policy)
    ensures q in ExpandOne(glob, ZoneNames(zones), p) <==> StemsFrom(glob, zones, p, q)
  {
    if !Concrete(p) {
      var names := ZoneNames(zones);
      var froms, tos := Candidates(glob, names, p.from), Candidates(glob, names, p.to);
      GridShape(p, froms, tos);
      CandidatesAreReached(glob, zones, p.from, q.from);
      CandidatesAreReached(glob, zones, p.to, q.to);
      assert StemsFrom(glob, zones, p, q) ==> q == Copy(p, q.from, q.to);
    }
  }

  ghost predicate StemsFromSome(glob: Glob, zones: seq<Zone>, ps: seq<Policy>, q: Policy) {
    exists i :: 0 <= i < |ps| && StemsFrom(glob, zones, ps[i], q)
  }

  lemma StemsFromSnoc(glob: Glob, zones: seq<Zone>, init: seq<Policy>, last: Policy, q: Policy)
    ensures StemsFromSome(glob, zones, init + [last], q)
        <==> StemsFromSome(glob, zones, init, q) || StemsFrom(glob, zones, last, q)
  {
    var ps := init + [last];
    assert ps[|init|] == last && forall i :: 0 <= i < |init| ==> ps[i] == init[i];
  }

  /** The expanded list holds exactly the policies that stem from an original one. */
  lemma {:induction false} ExpandedMembers(glob: Glob, zones: seq<Zone>, ps: seq<Policy>, q: Policy)
    ensures q in Expand(glob, ZoneNames(zones), ps) <==> StemsFromSome(glob, zones, ps, q)
  {
    if ps != [] {
      var init, last := ps[..|ps| - 1], ps[|ps| - 1];
      ExpandedMembers(glob, zones, init, q);
      assert q in Expand(glob, ZoneNames(zones), ps)
          <==> q in Expand(glob, ZoneNames(zones), init)
               || q in ExpandOne(glob, ZoneNames(zones), last);
      ExpandOneMembers(glob, zones, last, q);
      StemsFromSnoc(glob, zones, init, last, q);
      assert init + [last] == ps;
    }
  }

  ghost predicate AllConcrete(ps: seq<Policy>) {
    forall p :: p in ps ==> Concrete(p)
  }

  ghost predicate NoWildcardNames(names: seq<string>) {
    forall z :: z in names ==> !IsWildcard(z)
  }

  lemma {:induction false} ExpandAllConcrete(glob: Glob, names: seq<string>, ps: seq<Policy>)
    requires NoWildcardNames(names)
    ensures AllConcrete(Expand(glob, names, ps))
  {
    if ps != [] {
      var p := ps[|ps| - 1];
      ExpandAllConcrete(glob, names, ps[..|ps| - 1]);
      GridShape(p, Candidates(glob, names, p.from), Candidates(glob, names, p.to));
      FilterMembers(names, z => MatchesZone(glob, p.from, z));
      FilterMembers(names, z => MatchesZone(glob, p.to, z));
    }
  }

  lemma {:induction false} ConcreteUnchanged(glob: Glob, names: seq<string>, ps: seq<Policy>)
    requires AllConcrete(ps)
    ensures Expand(glob, names, ps) == ps
  {
    if ps != [] {
      var init, last := ps[..|ps| - 1], ps[|ps| - 1];
      assert ps == init + [last] && last in ps;
      ConcreteUnchanged(glob, names, init);
    }
  }

  /** Expanding removes every wildcard exactly when no zone is itself named like a wildcard;
      expanding again then changes nothing. */
  lemma ExpansionCompleteIff(glob: Glob, zones: seq<Zone>)
    ensures (forall ps :: AllConcrete(Expand(glob, ZoneNames(zones), ps)))
        <==> NoWildcardNames(ZoneNames(zones))
    ensures NoWildcardNames(ZoneNames(zones)) ==>
              forall ps :: Expand(glob, ZoneNames(zones), Expand(glob, ZoneNames(zones), ps))
                        == Expand(glob, ZoneNames(zones), ps)
  {
    var names := ZoneNames(zones);
    if NoWildcardNames(names) {
      forall ps
        ensures AllConcrete(Expand(glob, names, ps))
        ensures Expand(glob, names, Expand(glob, names, ps)) == Expand(glob, names, ps)
      {
        ExpandAllConcrete(glob, names, ps);
        ConcreteUnchanged(glob, names, Expand(glob, names, ps));
      }
    } else {
      var z :| z in names && IsWildcard(z);
      WildcardZoneLeaks(glob, names, z);
    }
  }

  const NO_SETTINGS := PolicySettings("", 0, false, "", None, false, "")

  lemma SelfIsPlain()
    ensures !IsWildcard("self") && IsWildcard("*")
  {
    assert "*"[0] in WILDCARD_CHARS;
  }

  lemma ExpandSingle(glob: Glob, names: seq<string>, p: Policy)
    ensures Expand(glob, names, [p]) == ExpandOne(glob, names, p)
  {
  }

  lemma WildcardZoneLeaks(glob: Glob, names: seq<string>, zone: string)
    requires zone in names && IsWildcard(zone)
    ensures exists ps :: !AllConcrete(Expand(glob, names, ps))
  {
    SelfIsPlain();
    var p := Policy("*", "self", "", NO_SETTINGS, [], "");
    var froms, tos := Candidates(glob, names, "*"), Candidates(glob, names, "self");
    assert zone in froms by {
      FilterMembers(names, z => MatchesZone(glob, "*", z));
    }
    var leak := Copy(p, zone, "self");
    GridShape(p, froms, tos);
    assert CopyOf(p, froms, tos, leak);
    ExpandSingle(glob, names, p);
    assert leak in Expand(glob, names, [p]) && !Concrete(leak);
  }
}
