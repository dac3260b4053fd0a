/** Policy inheritance (internal/config/policy.go) and how it interacts with expansion.

    The source recurses along parent links without a cycle check of its own, so it returns exactly
    when the links reachable from the policy are acyclic; that is the precondition here.
    `ResolvesIff` characterises it, and validation's separate check decides it
    (`HasCircularInheritance`). */
module PolicyInheritance {
  import opened Prelude
  import opened ConfigModel
  import opened Walks
  import PE = PolicyExpansion

  /** The first policy carrying a name. */
  function FindByName(ps: seq<Policy>, name: string): Option<Policy> {
    if ps == [] then None
    else
      match FindByName(ps[..|ps| - 1], name)
      case Some(p) => Some(p)
      case None => if ps[|ps| - 1].name == name then Some(ps[|ps| - 1]) else None
  }

  function ParentOf(ps: seq<Policy>, p: Policy): Option<Policy> {
    if p.inherits == "" then None else FindByName(ps, p.inherits)
  }

  function Parents(ps: seq<Policy>): Policy -> Option<Policy> {
    p => ParentOf(ps, p)
  }

  /** Following parent links from `p` comes to an end. */
  ghost predicate Resolves(ps: seq<Policy>, p: Policy) {
    Stops(Parents(ps), p)
  }

  ghost function Depth(ps: seq<Policy>, p: Policy): nat
    requires Resolves(ps, p)
  {
    Height(Parents(ps), p)
  }

  lemma DepthStep(ps: seq<Policy>, p: Policy)
    requires Resolves(ps, p) && ParentOf(ps, p).Some?
    ensures Resolves(ps, ParentOf(ps, p).value)
    ensures Depth(ps, ParentOf(ps, p).value) < Depth(ps, p)
  {
    HeightStep(Parents(ps), p);
  }

  ghost function EffectiveRules(ps: seq<Policy>, p: Policy): seq<PolicyRule>
    requires Resolves(ps, p)
    decreases Depth(ps, p)
  {
    match ParentOf(ps, p)
    case None => p.rules
    case Some(q) => DepthStep(ps, p); EffectiveRules(ps, q) + p.rules
  }

  ghost function InheritanceChain(ps: seq<Policy>, p: Policy): seq<string>
    requires Resolves(ps, p)
    decreases Depth(ps, p)
  {
    if p.inherits == "" then []
    else
      match ParentOf(ps, p)
      case None => [p.inherits]
      case Some(q) => DepthStep(ps, p); [p.inherits] + InheritanceChain(ps, q)
  }

  // ----- The source's recursion with its linear searches -----

  lemma {:induction false} FindFirst(ps: seq<Policy>, name: string, i: nat)
    requires i < |ps| && ps[i].name == name
    requires forall j :: 0 <= j < i ==> ps[j].name != name
    ensures FindByName(ps, name) == Some(ps[i])
  {
    if i == |ps| - 1 {
      FindNone(ps[..i], name);
    } else {
      FindFirst(ps[..|ps| - 1], name, i);
    }
  }

  lemma {:induction false} FindNone(ps: seq<Policy>, name: string)
    requires forall j :: 0 <= j < |ps| ==> ps[j].name != name
    ensures FindByName(ps, name) == None
  {
    if ps != [] {
      FindNone(ps[..|ps| - 1], name);
    }
  }

  method FindParent(ps: seq<Policy>, name: string) returns (parent: Option<Policy>)
    ensures parent == FindByName(ps, name)
  {
    for i := 0 to |ps|
      invariant forall j :: 0 <= j < i ==> ps[j].name != name
    {
      if ps[i].name == name {
        FindFirst(ps, name, i);
        return Some(ps[i]);
      }
    }
    FindNone(ps, name);
    return None;
  }

  method GetEffectiveRules(p: Policy, all: seq<Policy>) returns (rules: seq<PolicyRule>)
    requires Resolves(all, p)
    ensures rules == EffectiveRules(all, p)
    decreases Depth(all, p)
  {
    if p.inherits == "" {
      return p.rules;
    }
    var parent := FindParent(all, p.inherits);
    if parent.None? {
      return p.rules;
    }
    DepthStep(all, p);
    var parentRules := GetEffectiveRules(parent.value, all);
    rules := parentRules + p.rules;
  }

  method GetInheritanceChain(p: Policy, all: seq<Policy>) returns (chain: seq<string>)
    requires Resolves(all, p)
    ensures chain == InheritanceChain(all, p)
    decreases Depth(all, p)
  {
    if p.inherits == "" {
      return [];
    }
    chain := [p.inherits];
    var parent := FindParent(all, p.inherits);
    if parent.Some? {
      DepthStep(all, p);
      var rest := GetInheritanceChain(parent.value, all);
      chain := chain + rest;
    }
  }

  // ----- Termination -----

  ghost function Members(ps: seq<Policy>): (s: set<Policy>)
    ensures |s| <= |ps|
    ensures forall p :: p in s <==> p in ps
  {
    if ps == [] then {}
    else
      assert ps == ps[..|ps| - 1] + [ps[|ps| - 1]];
      Members(ps[..|ps| - 1]) + {ps[|ps| - 1]}
  }

  lemma {:induction false} FindInside(ps: seq<Policy>, name: string)
    ensures FindByName(ps, name).Some? ==>
              FindByName(ps, name).value in ps && FindByName(ps, name).value.name == name
  {
    if ps != [] {
      FindInside(ps[..|ps| - 1], name);
    }
  }

  lemma MembersClosed(ps: seq<Policy>, p: Policy)
    ensures Closed(Parents(ps), Members(ps) + {p})
  {
    forall q | q in Members(ps) + {p} && Parents(ps)(q).Some?
      ensures Parents(ps)(q).value in Members(ps) + {p}
    {
      FindInside(ps, q.inherits);
    }
  }

  /** The recursion ends exactly when no ancestor is its own ancestor, and then it makes at most
      |ps| nested calls below the one for `p`. */
  lemma ResolvesIff(ps: seq<Policy>, p: Policy)
    ensures Resolves(ps, p) <==> !Cycles(Parents(ps), p)
    ensures Resolves(ps, p) <==> StopsBy(Parents(ps), p, |ps| + 1)
    ensures Resolves(ps, p) ==> |Ancestors(ps, p)| <= |ps|
  {
    var s := Members(ps) + {p};
    MembersClosed(ps, p);
    StopsIffAcyclic(Parents(ps), s, p);
    if Resolves(ps, p) {
      StoppedStaysStopped(Parents(ps), p, |s|, |ps| + 1);
      AncestorsLength(ps, p);
    }
  }

  /** The parent name of the first bearer of a name; empty when there is none. */
  function NextName(ps: seq<Policy>, name: string): string {
    match FindByName(ps, name)
    case None => ""
    case Some(q) => q.inherits
  }

  /** The walk over parent names that validation makes. */
  function NameNext(ps: seq<Policy>): string -> Option<string> {
    name => if NextName(ps, name) == "" then None else Some(NextName(ps, name))
  }

  lemma {:induction false} ResolvedNamesStop(ps: seq<Policy>, p: Policy)
    requires Resolves(ps, p) && p.inherits != ""
    ensures Stops(NameNext(ps), p.inherits)
    decreases Depth(ps, p)
  {
    if ParentOf(ps, p).Some? {
      var q := ParentOf(ps, p).value;
      DepthStep(ps, p);
      if q.inherits != "" {
        ResolvedNamesStop(ps, q);
      }
    }
    StopsFromNext(NameNext(ps), p.inherits);
  }

  lemma {:induction false} StoppedNamesResolve(ps: seq<Policy>, p: Policy)
    requires p.inherits != "" && Stops(NameNext(ps), p.inherits)
    ensures Resolves(ps, p)
    decreases Height(NameNext(ps), p.inherits)
  {
    if ParentOf(ps, p).Some? {
      var q := ParentOf(ps, p).value;
      HeightStep(NameNext(ps), p.inherits);
      if q.inherits != "" {
        StoppedNamesResolve(ps, q);
      } else {
        StopsFromNext(Parents(ps), q);
      }
    }
    StopsFromNext(Parents(ps), p);
  }

  ghost function ParentNames(ps: seq<Policy>): (s: set<string>)
    ensures forall p :: p in ps ==> p.inherits in s
  {
    set p | p in ps :: p.inherits
  }

  /** The names met during the first `n` moves from `start`. */
  ghost function Seen(ps: seq<Policy>, start: string, n: nat): set<string> {
    if n == 0 then {}
    else
      match Position(NameNext(ps), start, n - 1)
      case None => Seen(ps, start, n - 1)
      case Some(x) => Seen(ps, start, n - 1) + {x}
  }

  lemma {:induction false} SeenAt(ps: seq<Policy>, start: string, n: nat, x: string)
    returns (k: nat)
    requires x in Seen(ps, start, n)
    ensures k < n && Position(NameNext(ps), start, k) == Some(x)
  {
    if Position(NameNext(ps), start, n - 1) == Some(x) {
      k := n - 1;
    } else {
      k := SeenAt(ps, start, n - 1, x);
    }
  }

  /** After `n` moves the walk is at `current`, or has stopped when that is empty. */
  ghost predicate WalkAt(ps: seq<Policy>, start: string, n: nat, current: string) {
    Position(NameNext(ps), start, n) == if current == "" then None else Some(current)
  }

  lemma WalkOn(ps: seq<Policy>, start: string, n: nat, current: string)
    requires current != "" && WalkAt(ps, start, n, current)
    ensures WalkAt(ps, start, n + 1, NextName(ps, current))
    ensures Seen(ps, start, n + 1) == Seen(ps, start, n) + {current}
    ensures NextName(ps, current) != "" ==> NextName(ps, current) in ParentNames(ps)
  {
    PositionAdd(NameNext(ps), start, n, 1);
    assert Position(NameNext(ps), NextName(ps, current), 0) == Some(NextName(ps, current));
    FindInside(ps, current);
  }

  lemma ResolvesIffNamesStop(ps: seq<Policy>, p: Policy)
    requires p.inherits != ""
    ensures Resolves(ps, p) <==> Stops(NameNext(ps), p.inherits)
  {
    if Resolves(ps, p) {
      ResolvedNamesStop(ps, p);
    } else if Stops(NameNext(ps), p.inherits) {
      StoppedNamesResolve(ps, p);
    }
  }

  /** Validation's check for circular inheritance always ends, and reports exactly the policies on
      which the recursion would not: a configuration that passes it always resolves. */
  method HasCircularInheritance(policy: Policy, all: seq<Policy>) returns (circular: bool)
    ensures circular <==> !Resolves(all, policy)
  {
    if policy.inherits == "" {
      StopsFromNext(Parents(all), policy);
      return false;
    }
    circular := WalkRepeats(all, policy.inherits);
    ResolvesIffNamesStop(all, policy);
  }

  method WalkRepeats(all: seq<Policy>, start: string) returns (repeats: bool)
    requires start != ""
    ensures repeats <==> !Stops(NameNext(all), start)
  {
    var visited: set<string> := {};
    var current := start;
    ghost var n: nat := 0;
    ghost var space := ParentNames(all) + {start};
    while current != ""
      invariant visited == Seen(all, start, n) && WalkAt(all, start, n, current)
      invariant current != "" ==> current in space
      decreases space - visited
    {
      if current in visited {
        NameRepeats(all, start, n, current);
        return true;
      }
      WalkOn(all, start, n, current);
      visited := visited + {current};
      var found := FindParent(all, current);
      current := if found.Some? then found.value.inherits else "";
      n := n + 1;
    }
    assert StopsBy(NameNext(all), start, n);
    return false;
  }

  lemma NameRepeats(ps: seq<Policy>, start: string, n: nat, current: string)
    requires current != "" && current in Seen(ps, start, n) && WalkAt(ps, start, n, current)
    ensures !Stops(NameNext(ps), start)
  {
    var k := SeenAt(ps, start, n, current);
    assert Revisits(NameNext(ps), start, k, n);
    NoStopAfterRevisit(NameNext(ps), start, k, n);
  }

  /** A policy that names itself as its parent never resolves. */
  lemma SelfParentNeverResolves(p: Policy)
    requires p.inherits == p.name && p.name != ""
    ensures !Resolves([p], p)
  {
    FindSingle(p, p.name);
    assert Position(Parents([p]), p, 1) == Position(Parents([p]), p, 0);
    assert Revisits(Parents([p]), p, 0, 1);
    NoStopAfterRevisit(Parents([p]), p, 0, 1);
  }

  // ----- Meaning -----

  /** The resolved ancestors, nearest first. */
  ghost function Ancestors(ps: seq<Policy>, p: Policy): seq<Policy>
    requires Resolves(ps, p)
    decreases Depth(ps, p)
  {
    match ParentOf(ps, p)
    case None => []
    case Some(q) => DepthStep(ps, p); [q] + Ancestors(ps, q)
  }

  lemma {:induction false} AncestorsLength(ps: seq<Policy>, p: Policy)
    requires Resolves(ps, p)
    ensures |Ancestors(ps, p)| == Depth(ps, p) - 1
    decreases Depth(ps, p)
  {
    HeightStep(Parents(ps), p);
    if ParentOf(ps, p).Some? {
      AncestorsLength(ps, ParentOf(ps, p).value);
    }
  }

  /** The rules a name contributes on its own: none when it names no policy. */
  function OwnRules(ps: seq<Policy>, name: string): seq<PolicyRule> {
    match FindByName(ps, name)
    case None => []
    case Some(q) => q.rules
  }

  /** Own rules along a chain of names, from the far end (the root) to the near one. */
  function RulesFromRoot(ps: seq<Policy>, chain: seq<string>): seq<PolicyRule> {
    if chain == [] then [] else RulesFromRoot(ps, chain[1..]) + OwnRules(ps, chain[0])
  }

  /** Effective rules are the own rules of the reported inheritance chain, root first, followed
      by the policy's own; the parent's effective rules are a prefix of them. */
  lemma {:induction false} EffectiveRulesFollowChain(ps: seq<Policy>, p: Policy)
    requires Resolves(ps, p)
    ensures EffectiveRules(ps, p) == RulesFromRoot(ps, InheritanceChain(ps, p)) + p.rules
    ensures ParentOf(ps, p).Some? ==>
              Resolves(ps, ParentOf(ps, p).value)
              && EffectiveRules(ps, ParentOf(ps, p).value) <= EffectiveRules(ps, p)
    decreases Depth(ps, p)
  {
    match ParentOf(ps, p)
    case None =>
      if p.inherits != "" {
        assert InheritanceChain(ps, p)[1..] == [];
        assert RulesFromRoot(ps, [p.inherits]) == RulesFromRoot(ps, []) + OwnRules(ps, p.inherits);
      }
    case Some(q) =>
      DepthStep(ps, p);
      EffectiveRulesFollowChain(ps, q);
      assert InheritanceChain(ps, p)[1..] == InheritanceChain(ps, q);
  }

  /** The chain is what the policy and its ancestors name as their parents; each name but a dangling
      last one leads to the next ancestor. */
  lemma {:induction false} ChainNamesAncestors(ps: seq<Policy>, p: Policy)
    requires Resolves(ps, p)
    ensures var chain, line := InheritanceChain(ps, p), [p] + Ancestors(ps, p);
            |chain| == |line| - (if line[|line| - 1].inherits == "" then 1 else 0)
            && (forall i :: 0 <= i < |chain| ==> chain[i] == line[i].inherits)
            && (forall i :: 0 <= i < |line| - 1 ==> FindByName(ps, chain[i]) == Some(line[i + 1]))
            && (|chain| == |line| ==> FindByName(ps, chain[|line| - 1]) == None)
    decreases Depth(ps, p)
  {
    if ParentOf(ps, p).Some? {
      var q := ParentOf(ps, p).value;
      DepthStep(ps, p);
      ChainNamesAncestors(ps, q);
      var above := [q] + Ancestors(ps, q);
      assert [p] + Ancestors(ps, p) == [p] + above;
      assert InheritanceChain(ps, p) == [p.inherits] + InheritanceChain(ps, q);
    }
  }

  // ----- Expansion and inheritance -----

  /** The policy is copied, and some copy is named `name`. */
  ghost predicate Generates(glob: PE.Glob, names: seq<string>, p: Policy, name: string) {
    !PE.Concrete(p)
    && exists from, to :: from in PE.Candidates(glob, names, p.from)
                          && to in PE.Candidates(glob, names, p.to)
                          && from != to && PE.GeneratedName(p, from, to) == name
  }

  /** A wildcard policy that bears the name, and loses it, or makes a copy so named. */
  ghost predicate Disturbs(glob: PE.Glob, names: seq<string>, p: Policy, name: string) {
    !PE.Concrete(p) && (p.name == name || Generates(glob, names, p, name))
  }

  /** What the expansion of one policy answers when asked for a name. */
  function Answer(glob: PE.Glob, names: seq<string>, p: Policy, name: string): Option<Policy> {
    FindByName(PE.ExpandOne(glob, names, p), name)
  }

  /** The expansion of the policy answers the name with its first bearer: it is that bearer, and
      concrete, or one of its copies was already written out as that bearer. */
  ghost predicate Confirms(
    glob: PE.Glob, names: seq<string>, ps: seq<Policy>, p: Policy, name: string)
  {
    FindByName(ps, name).Some? && Answer(glob, names, p, name) == FindByName(ps, name)
  }

  /** Every policy that disturbs the name stands behind one that confirms it, or confirms it
      itself. */
  ghost predicate Settled(glob: PE.Glob, names: seq<string>, ps: seq<Policy>, name: string) {
    forall i :: 0 <= i < |ps| && Disturbs(glob, names, ps[i], name) ==>
      exists j :: 0 <= j <= i && Confirms(glob, names, ps, ps[j], name)
  }

  ghost predicate IsCopy(glob: PE.Glob, names: seq<string>, p: Policy, q: Policy) {
    !PE.Concrete(p)
    && PE.CopyOf(p, PE.Candidates(glob, names, p.from), PE.Candidates(glob, names, p.to), q)
  }

  /** A copy that is already written in the list has no wildcard in it; only a zone named like a
      wildcard could make one that has. */
  ghost predicate ListedCopiesConcrete(glob: PE.Glob, names: seq<string>, ps: seq<Policy>) {
    forall p, q :: p in ps && q in ps && IsCopy(glob, names, p, q) ==> PE.Concrete(q)
  }

  lemma {:induction false} FindAppend(xs: seq<Policy>, ys: seq<Policy>, name: string)
    ensures FindByName(xs + ys, name)
         == if FindByName(xs, name).Some? then FindByName(xs, name) else FindByName(ys, name)
  {
    if ys == [] {
      assert xs + ys == xs;
    } else {
      FindAppend(xs, ys[..|ys| - 1], name);
      assert (xs + ys)[..|xs + ys| - 1] == xs + ys[..|ys| - 1];
    }
  }

  /** What the expansion of one policy answers for a name. */
  lemma FindInOne(glob: PE.Glob, names: seq<string>, p: Policy, name: string)
    ensures var found := FindByName(PE.ExpandOne(glob, names, p), name);
            if PE.Concrete(p) then found == (if p.name == name then Some(p) else None)
            else (found.Some? <==> Generates(glob, names, p, name))
                 && (found.Some? ==> IsCopy(glob, names, p, found.value))
  {
    if PE.Concrete(p) {
      FindSingle(p, name);
    } else {
      var froms, tos := PE.Candidates(glob, names, p.from), PE.Candidates(glob, names, p.to);
      var grid := PE.Grid(p, froms, tos);
      PE.GridShape(p, froms, tos);
      FindInside(grid, name);
      if Generates(glob, names, p, name) {
        var from, to :| from in froms && to in tos && from != to
                        && PE.GeneratedName(p, from, to) == name;
        assert PE.CopyOf(p, froms, tos, PE.Copy(p, from, to));
        FindPresent(grid, PE.Copy(p, from, to));
      }
    }
  }

  lemma FindPresent(ps: seq<Policy>, p: Policy)
    requires p in ps
    ensures FindByName(ps, p.name).Some?
  {
  }

  lemma {:induction false} FindsSome(ps: seq<Policy>, i: nat)
    requires i < |ps|
    ensures FindByName(ps, ps[i].name).Some?
  {
    if i < |ps| - 1 {
      FindsSome(ps[..|ps| - 1], i);
    }
  }

  /** None of the first `m` policies' expansions answers the name. */
  ghost predicate Silent(
    glob: PE.Glob, names: seq<string>, ps: seq<Policy>, name: string, m: nat)
    requires m <= |ps|
  {
    forall i :: 0 <= i < m ==> Answer(glob, names, ps[i], name).None?
  }

  lemma ExpandedFind(glob: PE.Glob, names: seq<string>, ps: seq<Policy>, name: string)
    requires ps != []
    ensures var before := FindByName(PE.Expand(glob, names, ps[..|ps| - 1]), name);
            FindByName(PE.Expand(glob, names, ps), name)
            == if before.Some? then before else Answer(glob, names, ps[|ps| - 1], name)
  {
    FindAppend(PE.Expand(glob, names, ps[..|ps| - 1]), PE.ExpandOne(glob, names, ps[|ps| - 1]),
               name);
  }

  function Answers(glob: PE.Glob, names: seq<string>, ps: seq<Policy>, name: string)
    : seq<Option<Policy>>
  {
    Map(ps, p => Answer(glob, names, p, name))
  }

  function FirstSome(answers: seq<Option<Policy>>): Option<Policy> {
    if answers == [] then None
    else
      match FirstSome(answers[..|answers| - 1])
      case Some(p) => Some(p)
      case None => answers[|answers| - 1]
  }

  lemma {:induction false} FirstSomeAt(answers: seq<Option<Policy>>) returns (m: nat)
    ensures m <= |answers| && forall i :: 0 <= i < m ==> answers[i].None?
    ensures m < |answers| ==> answers[m].Some?
    ensures FirstSome(answers) == if m < |answers| then answers[m] else None
  {
    if answers == [] {
      m := 0;
    } else {
      m := FirstSomeAt(answers[..|answers| - 1]);
      if m == |answers| - 1 && answers[m].None? {
        m := |answers|;
      }
    }
  }

  lemma {:induction false} FindIsFirstSome(
    glob: PE.Glob, names: seq<string>, ps: seq<Policy>, name: string)
    ensures FindByName(PE.Expand(glob, names, ps), name)
         == FirstSome(Answers(glob, names, ps, name))
  {
    if ps != [] {
      var init, all := ps[..|ps| - 1], Answers(glob, names, ps, name);
      FindIsFirstSome(glob, names, init, name);
      ExpandedFind(glob, names, ps, name);
      assert all[..|all| - 1] == Answers(glob, names, init, name);
    }
  }

  /** Lookup after expansion takes the first answer. */
  lemma FirstAnswer(glob: PE.Glob, names: seq<string>, ps: seq<Policy>, name: string)
    returns (m: nat)
    ensures m <= |ps| && Silent(glob, names, ps, name, m)
    ensures m < |ps| ==> Answer(glob, names, ps[m], name).Some?
    ensures FindByName(PE.Expand(glob, names, ps), name)
         == if m < |ps| then Answer(glob, names, ps[m], name) else None
  {
    FindIsFirstSome(glob, names, ps, name);
    var all := Answers(glob, names, ps, name);
    m := FirstSomeAt(all);
    assert forall i :: 0 <= i < m ==> all[i] == Answer(glob, names, ps[i], name);
  }

  /** Lookup takes the first bearer. */
  lemma {:induction false} FirstBearer(ps: seq<Policy>, name: string) returns (m: nat)
    ensures m <= |ps| && forall i :: 0 <= i < m ==> ps[i].name != name
    ensures m < |ps| ==> ps[m].name == name
    ensures FindByName(ps, name) == if m < |ps| then Some(ps[m]) else None
  {
    if ps == [] {
      m := 0;
    } else {
      m := FirstBearer(ps[..|ps| - 1], name);
      if m == |ps| - 1 && ps[m].name != name {
        m := |ps|;
      }
    }
  }

  /** Before the first answer to a settled name stands no bearer of it. */
  lemma NoBearerWhileSilent(
    glob: PE.Glob, names: seq<string>, ps: seq<Policy>, name: string, m: nat)
    requires m <= |ps| && Settled(glob, names, ps, name) && Silent(glob, names, ps, name, m)
    ensures forall i :: 0 <= i < m ==> ps[i].name != name
  {
  }

  /** A settled name resolves alike before and after expansion. */
  lemma LookupSurvivesExpansion(
    glob: PE.Glob, names: seq<string>, ps: seq<Policy>, name: string)
    requires Settled(glob, names, ps, name)
    ensures FindByName(PE.Expand(glob, names, ps), name) == FindByName(ps, name)
  {
    var m := FirstAnswer(glob, names, ps, name);
    NoBearerWhileSilent(glob, names, ps, name, m);
    if m == |ps| {
      FindNone(ps, name);
    } else {
      FindInOne(glob, names, ps[m], name);
      if PE.Concrete(ps[m]) {
        FindFirst(ps, name, m);
      } else {
        assert Disturbs(glob, names, ps[m], name);
        var j :| 0 <= j <= m && Confirms(glob, names, ps, ps[j], name);
        assert j == m;
      }
    }
  }

  /** If lookup is unchanged, the first answer confirms the name and comes no later than any policy
      that disturbs it. */
  lemma LookupSurvivesOnlyIf(
    glob: PE.Glob, names: seq<string>, ps: seq<Policy>, name: string, i: nat)
    requires ListedCopiesConcrete(glob, names, ps)
    requires FindByName(PE.Expand(glob, names, ps), name) == FindByName(ps, name)
    requires i < |ps| && Disturbs(glob, names, ps[i], name)
    ensures exists j :: 0 <= j <= i && Confirms(glob, names, ps, ps[j], name)
  {
    var m := FirstAnswer(glob, names, ps, name);
    FindInOne(glob, names, ps[i], name);
    if m <= i {
      assert Confirms(glob, names, ps, ps[m], name);
    } else {
      BearerAnswers(glob, names, ps, name, m, i);
    }
  }

  /** A bearer that stands before the first answer keeps lookup from being unchanged. */
  lemma BearerAnswers(
    glob: PE.Glob, names: seq<string>, ps: seq<Policy>, name: string, m: nat, i: nat)
    requires i < m <= |ps| && Silent(glob, names, ps, name, m) && ps[i].name == name
    requires ListedCopiesConcrete(glob, names, ps)
    ensures m == |ps| ==> FindByName(ps, name) != None
    ensures m < |ps| ==> FindByName(ps, name) != Answer(glob, names, ps[m], name)
  {
    var b := FirstBearer(ps, name);
    assert b <= i && ps[b] in ps;
    FindInOne(glob, names, ps[b], name);
    if m < |ps| {
      assert ps[m] in ps;
      FindInOne(glob, names, ps[m], name);
    }
  }

  /** A name resolves alike before and after expansion exactly when it is settled. */
  lemma LookupSurvivesIff(glob: PE.Glob, names: seq<string>, ps: seq<Policy>, name: string)
    requires ListedCopiesConcrete(glob, names, ps)
    ensures FindByName(PE.Expand(glob, names, ps), name) == FindByName(ps, name)
        <==> Settled(glob, names, ps, name)
  {
    if Settled(glob, names, ps, name) {
      LookupSurvivesExpansion(glob, names, ps, name);
    } else if FindByName(PE.Expand(glob, names, ps), name) == FindByName(ps, name) {
      forall i | 0 <= i < |ps| && Disturbs(glob, names, ps[i], name)
        ensures exists j :: 0 <= j <= i && Confirms(glob, names, ps, ps[j], name)
      {
        LookupSurvivesOnlyIf(glob, names, ps, name, i);
      }
    }
  }

  /** With plain zone names the side condition always holds. */
  lemma PlainNamesListedConcrete(glob: PE.Glob, names: seq<string>, ps: seq<Policy>)
    requires PE.NoWildcardNames(names)
    ensures ListedCopiesConcrete(glob, names, ps)
  {
    forall p, q | p in ps && q in ps && IsCopy(glob, names, p, q)
      ensures PE.Concrete(q)
    {
      FilterMembers(names, z => PE.MatchesZone(glob, p.from, z));
      FilterMembers(names, z => PE.MatchesZone(glob, p.to, z));
    }
  }

  // ----- The condition when no copy is written out -----

  ghost predicate HasConcrete(ps: seq<Policy>, name: string) {
    exists j :: 0 <= j < |ps| && PE.Concrete(ps[j]) && ps[j].name == name
  }

  /** Every policy that disturbs the name stands behind a concrete bearer of it. */
  ghost predicate Undisturbed(glob: PE.Glob, names: seq<string>, ps: seq<Policy>, name: string) {
    forall i :: 0 <= i < |ps| && Disturbs(glob, names, ps[i], name) ==> HasConcrete(ps[..i], name)
  }

  /** No copy that expansion makes is already written in the list. */
  ghost predicate NoCopyListed(glob: PE.Glob, names: seq<string>, ps: seq<Policy>) {
    forall p, q :: p in ps && q in ps ==> !IsCopy(glob, names, p, q)
  }

  lemma UndisturbedSettles(glob: PE.Glob, names: seq<string>, ps: seq<Policy>, name: string)
    requires Undisturbed(glob, names, ps, name)
    ensures Settled(glob, names, ps, name)
  {
    var b := FirstBearer(ps, name);
    if b < |ps| {
      assert !HasConcrete(ps[..b], name);
      assert PE.Concrete(ps[b]);
      FindInOne(glob, names, ps[b], name);
      assert Confirms(glob, names, ps, ps[b], name);
    }
    forall i | 0 <= i < |ps| && Disturbs(glob, names, ps[i], name)
      ensures exists j :: 0 <= j <= i && Confirms(glob, names, ps, ps[j], name)
    {
      var j :| 0 <= j < i && PE.Concrete(ps[..i][j]) && ps[..i][j].name == name;
      assert ps[j].name == name;
      assert b <= j;
    }
  }

  /** Then settled means: behind a concrete bearer. */
  lemma SettledIffUndisturbed(glob: PE.Glob, names: seq<string>, ps: seq<Policy>, name: string)
    requires NoCopyListed(glob, names, ps)
    ensures Settled(glob, names, ps, name) <==> Undisturbed(glob, names, ps, name)
  {
    if Undisturbed(glob, names, ps, name) {
      UndisturbedSettles(glob, names, ps, name);
    } else if Settled(glob, names, ps, name) {
      var i :| 0 <= i < |ps| && Disturbs(glob, names, ps[i], name) && !HasConcrete(ps[..i], name);
      var j :| 0 <= j <= i && Confirms(glob, names, ps, ps[j], name);
      ConcreteBehind(glob, names, ps, name, i, j);
    }
  }

  lemma ConcreteBehind(
    glob: PE.Glob, names: seq<string>, ps: seq<Policy>, name: string, i: nat, j: nat)
    requires NoCopyListed(glob, names, ps)
    requires j <= i < |ps| && !PE.Concrete(ps[i]) && Confirms(glob, names, ps, ps[j], name)
    ensures HasConcrete(ps[..i], name)
  {
    ConfirmedByConcrete(glob, names, ps, name, j);
    assert ps[..i][j] == ps[j];
  }

  lemma ConfirmedByConcrete(
    glob: PE.Glob, names: seq<string>, ps: seq<Policy>, name: string, j: nat)
    requires NoCopyListed(glob, names, ps)
    requires j < |ps| && Confirms(glob, names, ps, ps[j], name)
    ensures PE.Concrete(ps[j]) && ps[j].name == name
  {
    FindInOne(glob, names, ps[j], name);
    FindInside(ps, name);
    assert ps[j] in ps;
  }

  lemma FindSingle(p: Policy, name: string)
    ensures FindByName([p], name) == if p.name == name then Some(p) else None
  {
  }

  ghost predicate ChainSettled(glob: PE.Glob, names: seq<string>, ps: seq<Policy>, p: Policy)
    requires Resolves(ps, p)
  {
    forall n :: n in InheritanceChain(ps, p) ==> Settled(glob, names, ps, n)
  }

  lemma ChainSettledStep(glob: PE.Glob, names: seq<string>, ps: seq<Policy>, p: Policy)
    requires Resolves(ps, p)
    ensures ParentOf(ps, p).Some? ==> Resolves(ps, ParentOf(ps, p).value)
    ensures ChainSettled(glob, names, ps, p)
        <==> (p.inherits != "" ==> Settled(glob, names, ps, p.inherits))
             && (ParentOf(ps, p).Some? ==>
                   ChainSettled(glob, names, ps, ParentOf(ps, p).value))
  {
    if ParentOf(ps, p).Some? {
      DepthStep(ps, p);
    }
  }

  /** Expansion commutes with inheritance: a policy whose chain names are all settled has the same
      effective rules afterwards, and so has every copy made of it. */
  lemma {:induction false} ExpansionKeepsEffectiveRules(
    glob: PE.Glob, names: seq<string>, ps: seq<Policy>, p: Policy)
    requires Resolves(ps, p) && ChainSettled(glob, names, ps, p)
    ensures Resolves(PE.Expand(glob, names, ps), p)
    ensures EffectiveRules(PE.Expand(glob, names, ps), p) == EffectiveRules(ps, p)
    ensures forall from, to ::
              var copy := PE.Copy(p, from, to);
              Resolves(PE.Expand(glob, names, ps), copy)
              && EffectiveRules(PE.Expand(glob, names, ps), copy) == EffectiveRules(ps, p)
    decreases Depth(ps, p)
  {
    var expanded := PE.Expand(glob, names, ps);
    ChainSettledStep(glob, names, ps, p);
    if p.inherits != "" {
      LookupSurvivesExpansion(glob, names, ps, p.inherits);
      if ParentOf(ps, p).Some? {
        DepthStep(ps, p);
        ExpansionKeepsEffectiveRules(glob, names, ps, ParentOf(ps, p).value);
      }
    }
    SameParentSameRules(ps, expanded, p, p);
    forall from, to
      ensures var copy := PE.Copy(p, from, to);
              Resolves(expanded, copy) && EffectiveRules(expanded, copy) == EffectiveRules(ps, p)
    {
      SameParentSameRules(ps, expanded, p, PE.Copy(p, from, to));
    }
  }

  /** The line of ancestors, which decides the rules, is untouched. */
  ghost predicate SameAncestors(ps: seq<Policy>, qs: seq<Policy>, p: Policy)
    requires Resolves(ps, p)
  {
    Resolves(qs, p) && Ancestors(qs, p) == Ancestors(ps, p)
  }

  lemma SameAncestorsStep(ps: seq<Policy>, qs: seq<Policy>, p: Policy)
    requires Resolves(ps, p)
    ensures ParentOf(ps, p).Some? ==> Resolves(ps, ParentOf(ps, p).value)
    ensures SameAncestors(ps, qs, p)
        <==> ParentOf(qs, p) == ParentOf(ps, p)
             && (ParentOf(ps, p).Some? ==> SameAncestors(ps, qs, ParentOf(ps, p).value))
  {
    if ParentOf(ps, p).Some? {
      DepthStep(ps, p);
    }
    if SameAncestors(ps, qs, p) {
      if ParentOf(qs, p).Some? {
        DepthStep(qs, p);
        assert Ancestors(qs, p)[0] == ParentOf(qs, p).value;
        assert Ancestors(qs, p)[1..] == Ancestors(qs, ParentOf(qs, p).value);
        assert Ancestors(ps, p)[1..] == Ancestors(ps, ParentOf(ps, p).value);
      }
    } else if ParentOf(qs, p) == ParentOf(ps, p) {
      if ParentOf(ps, p).None? || Resolves(qs, ParentOf(ps, p).value) {
        StopsFromNext(Parents(qs), p);
      }
    }
  }

  /** A policy keeps its ancestors through expansion exactly when every name of its chain is
      settled. */
  lemma {:induction false} AncestorsSurviveIff(
    glob: PE.Glob, names: seq<string>, ps: seq<Policy>, p: Policy)
    requires Resolves(ps, p) && ListedCopiesConcrete(glob, names, ps)
    ensures SameAncestors(ps, PE.Expand(glob, names, ps), p)
        <==> ChainSettled(glob, names, ps, p)
    decreases Depth(ps, p)
  {
    SameAncestorsStep(ps, PE.Expand(glob, names, ps), p);
    ChainSettledStep(glob, names, ps, p);
    if p.inherits != "" {
      LookupSurvivesIff(glob, names, ps, p.inherits);
    }
    if ParentOf(ps, p).Some? {
      DepthStep(ps, p);
      AncestorsSurviveIff(glob, names, ps, ParentOf(ps, p).value);
    }
  }

  lemma SameParentSameRules(ps: seq<Policy>, qs: seq<Policy>, p: Policy, p': Policy)
    requires Resolves(ps, p)
    requires p'.rules == p.rules && ParentOf(qs, p') == ParentOf(ps, p)
    requires ParentOf(ps, p).Some? ==>
               var up := ParentOf(ps, p).value;
               Resolves(ps, up) && Resolves(qs, up)
               && EffectiveRules(qs, up) == EffectiveRules(ps, up)
    ensures Resolves(qs, p') && EffectiveRules(qs, p') == EffectiveRules(ps, p)
  {
    StopsFromNext(Parents(qs), p');
  }

  const PLAIN := PE.NO_SETTINGS

  lemma RootRules(ps: seq<Policy>, p: Policy)
    requires ParentOf(ps, p) == None
    ensures Resolves(ps, p) && EffectiveRules(ps, p) == p.rules
  {
    StopsFromNext(Parents(ps), p);
  }

  lemma ChildRules(ps: seq<Policy>, p: Policy, parent: Policy)
    requires ParentOf(ps, p) == Some(parent) && ParentOf(ps, parent) == None
    ensures Resolves(ps, p) && EffectiveRules(ps, p) == parent.rules + p.rules
  {
    RootRules(ps, parent);
    StopsFromNext(Parents(ps), p);
  }

  /** Both ways of disturbing a name do harm. A wildcard parent loses its name to its copies, so
      its child loses the inherited rules. */
  lemma WildcardParentIsLost(glob: PE.Glob, rule: PolicyRule)
    ensures var parent := Policy("*", "lan", "base", PLAIN, [rule], "");
            var child := Policy("lan", "wan", "web", PLAIN, [], "base");
            var ps := [parent, child];
            var expanded := PE.Expand(glob, ["lan", "wan", "self"], ps);
            Resolves(ps, child) && EffectiveRules(ps, child) == [rule]
            && Resolves(expanded, child) && EffectiveRules(expanded, child) == []
  {
    var parent := Policy("*", "lan", "base", PLAIN, [rule], "");
    var child := Policy("lan", "wan", "web", PLAIN, [], "base");
    var ps, names := [parent, child], ["lan", "wan", "self"];
    FindFirst(ps, "base", 0);
    ChildRules(ps, child, parent);
    assert [rule] + [] == [rule];
    LostAfterExpansion(glob, names, parent, child);
    RootRules(PE.Expand(glob, names, ps), child);
  }

  lemma LostAfterExpansion(glob: PE.Glob, names: seq<string>, parent: Policy, child: Policy)
    requires parent.from == "*" && parent.name == "base"
    requires child.from == "lan" && child.to == "wan" && child.name == "web"
    ensures FindByName(PE.Expand(glob, names, [parent, child]), "base") == None
  {
    PE.SelfIsPlain();
    assert !PE.Concrete(parent) && PE.Concrete(child);
    ExpandPair(glob, names, parent, child);
    forall from, to
      ensures PE.GeneratedName(parent, from, to) != "base"
    {
      assert |PE.GeneratedName(parent, from, to)| > |"base"|;
    }
    FindInOne(glob, names, parent, "base");
    FindAppend(PE.ExpandOne(glob, names, parent), [child], "base");
    FindSingle(child, "base");
  }

  /** A generated name can shadow a parent: the copy of "x" made for (lan, wan) answers to
      "x_lan_wan". */
  lemma GeneratedNameShadowsParent(glob: PE.Glob, names: seq<string>, rule: PolicyRule)
    requires "lan" in names
    ensures var wild := Policy("*", "wan", "x", PLAIN, [], "");
            var parent := Policy("lan", "self", "x_lan_wan", PLAIN, [rule], "");
            var child := Policy("lan", "wan", "web", PLAIN, [], "x_lan_wan");
            var ps := [wild, parent, child];
            var expanded := PE.Expand(glob, names, ps);
            Resolves(ps, child) && EffectiveRules(ps, child) == [rule]
            && Resolves(expanded, child) && EffectiveRules(expanded, child) == []
  {
    var wild := Policy("*", "wan", "x", PLAIN, [], "");
    var parent := Policy("lan", "self", "x_lan_wan", PLAIN, [rule], "");
    var child := Policy("lan", "wan", "web", PLAIN, [], "x_lan_wan");
    var ps := [wild, parent, child];
    FindFirst(ps, "x_lan_wan", 1);
    ChildRules(ps, child, parent);
    assert [rule] + [] == [rule];
    var shadow := ShadowFound(glob, names, wild, [parent, child]);
    assert [wild] + [parent, child] == ps;
    ChildRules(PE.Expand(glob, names, ps), child, shadow);
  }

  lemma ShadowFound(glob: PE.Glob, names: seq<string>, wild: Policy, rest: seq<Policy>)
    returns (shadow: Policy)
    requires "lan" in names
    requires wild.from == "*" && wild.to == "wan" && wild.name == "x"
    ensures FindByName(PE.Expand(glob, names, [wild] + rest), "x_lan_wan") == Some(shadow)
    ensures shadow.rules == wild.rules && shadow.inherits == wild.inherits
  {
    PE.SelfIsPlain();
    FilterMembers(names, z => PE.MatchesZone(glob, "*", z));
    assert "lan" in PE.Candidates(glob, names, wild.from) && !PE.IsWildcard("wan");
    assert PE.GeneratedName(wild, "lan", "wan") == "x_lan_wan";
    assert Generates(glob, names, wild, "x_lan_wan");
    FindInOne(glob, names, wild, "x_lan_wan");
    var m := FirstAnswer(glob, names, [wild] + rest, "x_lan_wan");
    assert ([wild] + rest)[0] == wild;
    shadow := Answer(glob, names, wild, "x_lan_wan").value;
  }

  lemma ExpandPair(glob: PE.Glob, names: seq<string>, p: Policy, q: Policy)
    ensures PE.Expand(glob, names, [p, q])
         == PE.ExpandOne(glob, names, p) + PE.ExpandOne(glob, names, q)
  {
    assert [p, q][..1] == [p] && [p][..0] == [];
    assert PE.Expand(glob, names, [p]) == PE.Expand(glob, names, []) + PE.ExpandOne(glob, names, p);
  }
}
