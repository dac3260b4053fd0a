/** The schema-version chain search and its application (internal/config/migration.go).

    The search follows the first registered migration that starts at the current version. It has
    no cycle check, so it returns exactly when it visits no version twice (`SearchEndsIff`);
    registries whose migrations all raise the version are of that kind (`RaisingSearchEnds`). */
module SchemaMigrations {
  import opened Prelude
  import opened Walks
  import opened SchemaVersions
  import opened PLM = PostLoadMigrations

  /** `migrate` edits the configuration and may fail half-way, leaving its edits behind. */
  datatype Migration = Migration(
    from: Version, to: Version, description: string,
    migrate: ConfigData -> (ConfigData, Option<string>))

  function FirstFrom(reg: seq<Migration>, v: Version): (m: Option<Migration>)
    ensures m.Some? ==> m.value in reg && m.value.from == v
    ensures m.None? ==> forall i :: 0 <= i < |reg| ==> reg[i].from != v
  {
    if reg == [] then None
    else if Compare(reg[0].from, v) == 0 then Some(reg[0])
    else FirstFrom(reg[1..], v)
  }

  function Next(reg: seq<Migration>, to: Version): Version -> Option<Version> {
    v =>
      if !NeedsMigration(v, to) then None
      else
        match FirstFrom(reg, v)
        case None => None
        case Some(m) => Some(m.to)
  }

  ghost predicate SearchEnds(reg: seq<Migration>, from: Version, to: Version) {
    Stops(Next(reg, to), from)
  }

  /** The search's answer: the steps taken, or None when it gets stuck below `to`. */
  ghost function PathFrom(reg: seq<Migration>, from: Version, to: Version): Option<seq<Migration>>
    requires SearchEnds(reg, from, to)
    decreases Height(Next(reg, to), from)
  {
    if !NeedsMigration(from, to) then Some([])
    else
      match FirstFrom(reg, from)
      case None => None
      case Some(m) =>
        HeightStep(Next(reg, to), from);
        Prepend([m], PathFrom(reg, m.to, to))
  }

  ghost function Prepend(prefix: seq<Migration>, path: Option<seq<Migration>>)
    : Option<seq<Migration>>
  {
    match path
    case None => None
    case Some(p) => Some(prefix + p)
  }

  class MigrationRegistry {
    var migrations: seq<Migration>

    constructor ()
      ensures migrations == []
    {
      migrations := [];
    }

    method Register(m: Migration)
      modifies this
      ensures migrations == old(migrations) + [m]
    {
      migrations := migrations + [m];
    }

    /** The first registered migration that starts at the version. */
    static method FindFrom(reg: seq<Migration>, v: Version) returns (m: Option<Migration>)
      ensures m == FirstFrom(reg, v)
    {
      for i := 0 to |reg|
        invariant FirstFrom(reg, v) == FirstFrom(reg[i..], v)
      {
        if Compare(reg[i].from, v) == 0 {
          return Some(reg[i]);
        }
        assert reg[i..][1..] == reg[i + 1..];
      }
      return None;
    }

    method GetMigrationPath(from: Version, to: Version) returns (r: Result<seq<Migration>>)
      requires SearchEnds(migrations, from, to)
      ensures r.Ok? <==> PathFrom(migrations, from, to).Some?
      ensures r.Ok? ==> PathFrom(migrations, from, to) == Some(r.value)
    {
      if Compare(from, to) >= 0 {
        return Ok([]);
      }
      var path: seq<Migration> := [];
      var current := from;
      assert forall p: seq<Migration> :: path + p == p;
      while Compare(current, to) < 0
        invariant SearchEnds(migrations, current, to)
        invariant PathFrom(migrations, from, to)
               == Prepend(path, PathFrom(migrations, current, to))
        decreases Height(Next(migrations, to), current)
      {
        HeightStep(Next(migrations, to), current);
        var m := FindFrom(migrations, current);
        if m.None? {
          return Err("no migration path");
        }
        assert forall p: seq<Migration> :: path + ([m.value] + p) == (path + [m.value]) + p;
        path := path + [m.value];
        current := m.value.to;
      }
      assert path + [] == path;
      return Ok(path);
    }
  }

  // ----- Termination -----

  /** The search ends exactly when it meets no version twice, and then within |reg| + 1 moves. */
  lemma SearchEndsIff(reg: seq<Migration>, from: Version, to: Version)
    ensures SearchEnds(reg, from, to) <==> !Cycles(Next(reg, to), from)
    ensures SearchEnds(reg, from, to) <==> StopsBy(Next(reg, to), from, |reg| + 1)
  {
    var s := Targets(reg) + {from};
    forall v | v in s && Next(reg, to)(v).Some?
      ensures Next(reg, to)(v).value in s
    {
      assert FirstFrom(reg, v).value in reg;
    }
    StopsIffAcyclic(Next(reg, to), s, from);
    if SearchEnds(reg, from, to) {
      StoppedStaysStopped(Next(reg, to), from, |s|, |reg| + 1);
    }
  }

  ghost function Targets(reg: seq<Migration>): (s: set<Version>)
    ensures |s| <= |reg|
    ensures forall m :: m in reg ==> m.to in s
  {
    if reg == [] then {}
    else
      assert reg == [reg[0]] + reg[1..];
      {reg[0].to} + Targets(reg[1..])
  }

  ghost predicate Raising(reg: seq<Migration>) {
    forall m :: m in reg ==> NeedsMigration(m.from, m.to)
  }

  /** The entries that start at or above a version. */
  ghost function Ahead(reg: seq<Migration>, v: Version): set<int> {
    set i | 0 <= i < |reg| && !NeedsMigration(reg[i].from, v)
  }

  lemma AheadShrinks(reg: seq<Migration>, m: Migration)
    requires Raising(reg) && m in reg
    ensures Ahead(reg, m.to) < Ahead(reg, m.from)
  {
    var k :| 0 <= k < |reg| && reg[k] == m;
    forall i | 0 <= i < |reg| && !NeedsMigration(reg[i].from, m.to)
      ensures !NeedsMigration(reg[i].from, m.from)
    {
      CompareIsTotalOrder(m.from, m.to, reg[i].from);
      CompareIsTotalOrder(m.to, reg[i].from, m.from);
      CompareIsTotalOrder(m.from, reg[i].from, m.from);
    }
    assert k in Ahead(reg, m.from) && k !in Ahead(reg, m.to);
  }

  lemma {:induction false} RaisingSearchEnds(reg: seq<Migration>, from: Version, to: Version)
    requires Raising(reg)
    ensures SearchEnds(reg, from, to)
    decreases Ahead(reg, from)
  {
    if Next(reg, to)(from).Some? {
      var m := FirstFrom(reg, from).value;
      AheadShrinks(reg, m);
      RaisingSearchEnds(reg, m.to, to);
    }
    StopsFromNext(Next(reg, to), from);
  }

  /** The condition can fail: two entries that lead back and forth keep the search going. */
  lemma VersionCycleNeverEnds(
    f: ConfigData -> (ConfigData, Option<string>), v: Version, w: Version, to: Version)
    requires v != w && NeedsMigration(v, to) && NeedsMigration(w, to)
    ensures !SearchEnds([Migration(v, w, "", f), Migration(w, v, "", f)], v, to)
  {
    var up, down := Migration(v, w, "", f), Migration(w, v, "", f);
    var reg := [up, down];
    var next := Next(reg, to);
    assert FirstFrom(reg, v) == Some(up);
    assert reg[1..][0] == down && FirstFrom(reg[1..], w) == Some(down);
    assert Position(next, w, 1) == Position(next, v, 0);
    assert Revisits(next, v, 0, 2);
    NoStopAfterRevisit(next, v, 0, 2);
  }

  // ----- The path is right -----

  /** Registered migrations, end to start, from `from` to some version at or above `to`. */
  ghost predicate Chain(reg: seq<Migration>, from: Version, to: Version, p: seq<Migration>) {
    |p| > 0 && p[0].from == from && !NeedsMigration(p[|p| - 1].to, to)
    && (forall i :: 0 <= i < |p| ==> p[i] in reg)
    && (forall i :: 0 <= i < |p| - 1 ==> p[i].to == p[i + 1].from)
  }

  /** A returned path is a chain of registered migrations that crosses `to` only with its last
      step and takes no version, hence no entry, twice. */
  lemma {:induction false} PathIsMinimalChain(reg: seq<Migration>, from: Version, to: Version)
    requires SearchEnds(reg, from, to) && NeedsMigration(from, to)
    ensures PathFrom(reg, from, to).Some? ==>
              var p := PathFrom(reg, from, to).value;
              Chain(reg, from, to, p)
              && (forall i :: 0 <= i < |p| - 1 ==> NeedsMigration(p[i].to, to))
              && (forall i, j :: 0 <= i < j < |p| ==> p[i].from != p[j].from)
  {
    if PathFrom(reg, from, to).Some? {
      var p := PathFrom(reg, from, to).value;
      PathFollowsWalk(reg, from, to);
      forall i, j | 0 <= i < j < |p|
        ensures p[i].from != p[j].from
      {
        if p[i].from == p[j].from {
          assert Revisits(Next(reg, to), from, i, j);
          NoStopAfterRevisit(Next(reg, to), from, i, j);
        }
      }
    }
  }

  lemma {:induction false} PathFollowsWalk(reg: seq<Migration>, from: Version, to: Version)
    requires SearchEnds(reg, from, to) && NeedsMigration(from, to)
    ensures PathFrom(reg, from, to).Some? ==>
              var p := PathFrom(reg, from, to).value;
              Chain(reg, from, to, p)
              && (forall i :: 0 <= i < |p| - 1 ==> NeedsMigration(p[i].to, to))
              && (forall i :: 0 <= i < |p| ==>
                    Position(Next(reg, to), from, i) == Some(p[i].from))
    decreases Height(Next(reg, to), from)
  {
    if PathFrom(reg, from, to).Some? {
      var m := FirstFrom(reg, from).value;
      HeightStep(Next(reg, to), from);
      if NeedsMigration(m.to, to) {
        PathFollowsWalk(reg, m.to, to);
        var p, q := PathFrom(reg, from, to).value, PathFrom(reg, m.to, to).value;
        assert p == [m] + q;
        forall i | 0 <= i < |p|
          ensures Position(Next(reg, to), from, i) == Some(p[i].from)
        {
          if i > 0 {
            assert Position(Next(reg, to), from, i) == Position(Next(reg, to), m.to, i - 1);
          }
        }
      }
    }
  }

  // ----- When the search finds every chain -----

  /** The search ends with a path. */
  ghost predicate Reaches(reg: seq<Migration>, from: Version, to: Version) {
    SearchEnds(reg, from, to) && PathFrom(reg, from, to).Some?
  }

  ghost predicate HasChain(reg: seq<Migration>, from: Version, to: Version) {
    exists p :: Chain(reg, from, to, p)
  }

  /** The search towards `to` succeeds exactly where some registered chain leads there. */
  ghost predicate CompleteFor(reg: seq<Migration>, to: Version) {
    forall from :: NeedsMigration(from, to) ==>
      (Reaches(reg, from, to) <==> HasChain(reg, from, to))
  }

  /** Wherever an entry leads to success, so does the first entry with its start version. */
  ghost predicate FirstEntriesSuffice(reg: seq<Migration>, to: Version) {
    forall m :: m in reg && NeedsMigration(m.from, to) && Reaches(reg, m.to, to)
                ==> Reaches(reg, m.from, to)
  }

  lemma ReachesStep(reg: seq<Migration>, v: Version, to: Version)
    ensures !NeedsMigration(v, to) ==> Reaches(reg, v, to)
    ensures NeedsMigration(v, to) ==>
              (Reaches(reg, v, to)
               <==> FirstFrom(reg, v).Some? && Reaches(reg, FirstFrom(reg, v).value.to, to))
  {
    var next := Next(reg, to);
    if NeedsMigration(v, to) && FirstFrom(reg, v).Some? {
      if SearchEnds(reg, v, to) {
        HeightStep(next, v);
      } else if SearchEnds(reg, FirstFrom(reg, v).value.to, to) {
        StopsFromNext(next, v);
      }
    } else {
      StopsFromNext(next, v);
    }
  }

  lemma ReachesHasChain(reg: seq<Migration>, from: Version, to: Version)
    requires NeedsMigration(from, to) && Reaches(reg, from, to)
    ensures HasChain(reg, from, to)
  {
    PathIsMinimalChain(reg, from, to);
    assert Chain(reg, from, to, PathFrom(reg, from, to).value);
  }

  lemma {:induction false} ChainReaches(
    reg: seq<Migration>, from: Version, to: Version, p: seq<Migration>)
    requires NeedsMigration(from, to) && FirstEntriesSuffice(reg, to) && Chain(reg, from, to, p)
    ensures Reaches(reg, from, to)
    decreases |p|
  {
    var m := p[0];
    assert m in reg;
    if NeedsMigration(m.to, to) {
      assert Chain(reg, m.to, to, p[1..]);
      ChainReaches(reg, m.to, to, p[1..]);
    } else {
      ReachesStep(reg, m.to, to);
    }
  }

  lemma ChainExtends(reg: seq<Migration>, m: Migration, to: Version)
    requires m in reg && (NeedsMigration(m.to, to) ==> HasChain(reg, m.to, to))
    ensures HasChain(reg, m.from, to)
  {
    if NeedsMigration(m.to, to) {
      var p :| Chain(reg, m.to, to, p);
      assert Chain(reg, m.from, to, [m] + p);
    } else {
      assert Chain(reg, m.from, to, [m]);
    }
  }

  /** For every registry, cyclic ones included, the search misses no chain towards `to` exactly
      when first entries suffice for `to`. */
  lemma SearchCompleteIff(reg: seq<Migration>, to: Version)
    ensures CompleteFor(reg, to) <==> FirstEntriesSuffice(reg, to)
  {
    if FirstEntriesSuffice(reg, to) {
      forall from | NeedsMigration(from, to)
        ensures Reaches(reg, from, to) <==> HasChain(reg, from, to)
      {
        if Reaches(reg, from, to) {
          ReachesHasChain(reg, from, to);
        } else if HasChain(reg, from, to) {
          var p :| Chain(reg, from, to, p);
          ChainReaches(reg, from, to, p);
        }
      }
    } else {
      var m :| m in reg && NeedsMigration(m.from, to) && Reaches(reg, m.to, to)
               && !Reaches(reg, m.from, to);
      if NeedsMigration(m.to, to) {
        ReachesHasChain(reg, m.to, to);
      }
      ChainExtends(reg, m, to);
    }
  }

  /** Where following first entries from `v` ends. */
  ghost function Furthest(reg: seq<Migration>, v: Version): Version
    requires Raising(reg)
    decreases Ahead(reg, v)
  {
    match FirstFrom(reg, v)
    case None => v
    case Some(m) => AheadShrinks(reg, m); Furthest(reg, m.to)
  }

  lemma {:induction false} FurthestNotBelow(reg: seq<Migration>, v: Version)
    requires Raising(reg)
    ensures !NeedsMigration(Furthest(reg, v), v)
    decreases Ahead(reg, v)
  {
    if FirstFrom(reg, v).Some? {
      var m := FirstFrom(reg, v).value;
      AheadShrinks(reg, m);
      FurthestNotBelow(reg, m.to);
    }
  }

  lemma {:induction false} ReachesIffFurthest(reg: seq<Migration>, v: Version, to: Version)
    requires Raising(reg)
    ensures Reaches(reg, v, to) <==> !NeedsMigration(Furthest(reg, v), to)
    decreases Ahead(reg, v)
  {
    ReachesStep(reg, v, to);
    if NeedsMigration(v, to) {
      if FirstFrom(reg, v).Some? {
        var m := FirstFrom(reg, v).value;
        AheadShrinks(reg, m);
        ReachesIffFurthest(reg, m.to, to);
      }
    } else {
      FurthestNotBelow(reg, v);
    }
  }

  /** The condition as a comparison of versions: when all migrations raise the version, the search
      misses no chain at all exactly when no entry leads further than the first one with its start
      version. */
  lemma SearchCompleteIffFurthest(reg: seq<Migration>)
    requires Raising(reg)
    ensures (forall to :: CompleteFor(reg, to))
        <==> forall m :: m in reg ==> !NeedsMigration(Furthest(reg, m.from), Furthest(reg, m.to))
  {
    forall to
      ensures CompleteFor(reg, to) <==> FirstEntriesSuffice(reg, to)
    {
      SearchCompleteIff(reg, to);
    }
    forall v, to
      ensures Reaches(reg, v, to) <==> !NeedsMigration(Furthest(reg, v), to)
    {
      ReachesIffFurthest(reg, v, to);
    }
    if m :| m in reg && NeedsMigration(Furthest(reg, m.from), Furthest(reg, m.to)) {
      FurthestNotBelow(reg, m.from);
      assert !FirstEntriesSuffice(reg, Furthest(reg, m.to));
    }
  }

  ghost predicate UniqueStarts(reg: seq<Migration>) {
    forall m, n :: m in reg && n in reg && m.from == n.from ==> m == n
  }

  /** In particular with at most one migration per start version: the search then ends with a path
      exactly when some chain of registered migrations reaches the target. */
  lemma FailsIffNoChain(reg: seq<Migration>, from: Version, to: Version)
    requires NeedsMigration(from, to) && UniqueStarts(reg)
    ensures Reaches(reg, from, to) <==> HasChain(reg, from, to)
  {
    forall m | m in reg && NeedsMigration(m.from, to) && Reaches(reg, m.to, to)
      ensures Reaches(reg, m.from, to)
    {
      assert FirstFrom(reg, m.from) == Some(m);
      ReachesStep(reg, m.from, to);
    }
    SearchCompleteIff(reg, to);
  }

  /** An instance of the failure: the first entry from 1.0 leads into a dead end. */
  lemma FirstEntryCanMissChain(f: ConfigData -> (ConfigData, Option<string>))
    ensures var dead := Migration(Version(1, 0), Version(1, 1), "", f);
            var direct := Migration(Version(1, 0), Version(2, 0), "", f);
            var reg := [dead, direct];
            Raising(reg) && Chain(reg, Version(1, 0), Version(2, 0), [direct])
            && SearchEnds(reg, Version(1, 0), Version(2, 0))
            && PathFrom(reg, Version(1, 0), Version(2, 0)) == None
  {
    var dead := Migration(Version(1, 0), Version(1, 1), "", f);
    var direct := Migration(Version(1, 0), Version(2, 0), "", f);
    var reg := [dead, direct];
    var from, to := Version(1, 0), Version(2, 0);
    RaisingSearchEnds(reg, from, to);
    HeightStep(Next(reg, to), from);
    assert FirstFrom(reg, from) == Some(dead);
    assert FirstFrom(reg, Version(1, 1)) == None;
    assert direct in reg;
    assert PathFrom(reg, Version(1, 1), to) == None;
  }

  // ----- Applying the path -----

  function ApplyPath(path: seq<Migration>, c: ConfigData): (ConfigData, Option<string>) {
    if path == [] then (c, None)
    else
      var (edited, error) := path[0].migrate(c);
      if error.Some? then (edited, error)
      else ApplyPath(path[1..], edited.(schemaVersion := Print(path[0].to)))
  }

  /** The search is only started when the version parses and lies below the target. */
  ghost predicate Searchable(reg: seq<Migration>, c: ConfigData, target: Version) {
    Parse(c.schemaVersion).Ok? && NeedsMigration(Parse(c.schemaVersion).value, target)
    ==> SearchEnds(reg, Parse(c.schemaVersion).value, target)
  }

  ghost function MigrateData(
    reg: seq<Migration>, postLoad: seq<Kind>, c: ConfigData, target: Version)
    : (ConfigData, bool)
    requires Searchable(reg, c, target)
  {
    match Parse(c.schemaVersion)
    case Err(_) => (c, false)
    case Ok(current) =>
      if !NeedsMigration(current, target) then (c, true)
      else
        match PathFrom(reg, current, target)
        case None => (c, false)
        case Some(path) =>
          var (edited, error) := ApplyPath(path, c);
          if error.Some? then (edited, false) else (RunAll(postLoad, edited), true)
  }

  /** `postLoad` is the list of registered post-load migrations. */
  method MigrateConfig(
    registry: MigrationRegistry, postLoad: seq<Kind>, cfg: Config, target: Version)
    returns (ok: bool)
    requires Searchable(registry.migrations, cfg.Data(), target)
    modifies cfg
    ensures (cfg.Data(), ok)
         == MigrateData(old(registry.migrations), postLoad, old(cfg.Data()), target)
  {
    var parsed := Parse(cfg.schemaVersion);
    if parsed.Err? {
      return false;
    }
    if Compare(parsed.value, target) >= 0 {
      return true;
    }
    var found := registry.GetMigrationPath(parsed.value, target);
    if found.Err? {
      return false;
    }
    var path := found.value;
    for i := 0 to |path|
      invariant ApplyPath(path, old(cfg.Data())) == ApplyPath(path[i..], cfg.Data())
    {
      assert path[i..][1..] == path[i + 1..];
      var (edited, error) := path[i].migrate(cfg.Data());
      cfg.Assign(edited);
      if error.Some? {
        return false;
      }
      cfg.schemaVersion := Print(path[i].to);
    }
    cfg.ApplyPostLoad(postLoad);
    return true;
  }

  /** The configurations between the steps: each step succeeds on the one before it, and its result
      is stamped with the version it leads to. */
  ghost predicate Steps(path: seq<Migration>, cs: seq<ConfigData>) {
    |cs| == |path| + 1
    && forall i :: 0 <= i < |path| ==> StepsTo(path[i], cs[i], cs[i + 1])
  }

  ghost predicate StepsTo(m: Migration, c: ConfigData, d: ConfigData) {
    m.migrate(c).1.None? && d == m.migrate(c).0.(schemaVersion := Print(m.to))
  }

  ghost predicate Through(path: seq<Migration>, c: ConfigData, d: ConfigData) {
    exists cs :: Steps(path, cs) && cs[0] == c && cs[|path|] == d
  }

  lemma {:induction false} ApplyPathSteps(path: seq<Migration>, c: ConfigData)
    ensures ApplyPath(path, c).1.None? ==> Through(path, c, ApplyPath(path, c).0)
    ensures ApplyPath(path, c).1.Some? ==>
              exists i, d :: 0 <= i < |path| && Through(path[..i], c, d)
                             && path[i].migrate(d) == ApplyPath(path, c)
  {
    if path == [] {
      assert Steps(path, [c]);
    } else {
      var (edited, error) := path[0].migrate(c);
      if error.Some? {
        assert Steps(path[..0], [c]);
        assert Through(path[..0], c, c);
      } else {
        var next := edited.(schemaVersion := Print(path[0].to));
        ApplyPathSteps(path[1..], next);
        if ApplyPath(path[1..], next).1.None? {
          ThroughFirst(path, c, next, ApplyPath(path, c).0);
        } else {
          var i, d :| 0 <= i < |path[1..]| && Through(path[1..][..i], next, d)
                      && path[1..][i].migrate(d) == ApplyPath(path[1..], next);
          assert path[..i + 1][1..] == path[1..][..i];
          ThroughFirst(path[..i + 1], c, next, d);
          assert path[i + 1].migrate(d) == ApplyPath(path, c);
        }
      }
    }
  }

  lemma ThroughFirst(path: seq<Migration>, c: ConfigData, next: ConfigData, d: ConfigData)
    requires path != [] && StepsTo(path[0], c, next) && Through(path[1..], next, d)
    ensures Through(path, c, d)
  {
    var cs :| Steps(path[1..], cs) && cs[0] == next && cs[|path| - 1] == d;
    var all := [c] + cs;
    forall i | 0 <= i < |path|
      ensures StepsTo(path[i], all[i], all[i + 1])
    {
      if i > 0 {
        assert StepsTo(path[1..][i - 1], cs[i - 1], cs[i]);
      }
    }
    assert Steps(path, all);
  }

  lemma {:induction false} ThroughApplies(path: seq<Migration>, cs: seq<ConfigData>)
    requires Steps(path, cs)
    ensures ApplyPath(path, cs[0]) == (cs[|path|], None)
  {
    if path != [] {
      assert StepsTo(path[0], cs[0], cs[1]);
      assert Steps(path[1..], cs[1..]) by {
        forall i | 0 <= i < |path| - 1
          ensures StepsTo(path[1..][i], cs[1..][i], cs[1..][i + 1])
        {
          assert StepsTo(path[i + 1], cs[i + 1], cs[i + 2]);
        }
      }
      ThroughApplies(path[1..], cs[1..]);
    }
  }

  /** When migrating starts at all and finds a path: it succeeds exactly when the configuration can
      be taken through all its steps, and gives the last one with the post-load migrations run; it
      fails with the edits of the first failing step. */
  lemma MigrateOutcome(
    reg: seq<Migration>, postLoad: seq<Kind>, c: ConfigData, target: Version, path: seq<Migration>)
    requires Searchable(reg, c, target)
    requires Parse(c.schemaVersion).Ok? && NeedsMigration(Parse(c.schemaVersion).value, target)
    requires PathFrom(reg, Parse(c.schemaVersion).value, target) == Some(path)
    ensures var (result, ok) := MigrateData(reg, postLoad, c, target);
            (ok <==> exists d :: Through(path, c, d))
            && (forall d :: Through(path, c, d) ==> result == RunAll(postLoad, d))
            && (!ok ==> exists i, d :: 0 <= i < |path| && Through(path[..i], c, d)
                                       && path[i].migrate(d).1.Some?
                                       && result == path[i].migrate(d).0)
  {
    ApplyPathSteps(path, c);
    forall d | Through(path, c, d)
      ensures ApplyPath(path, c) == (d, None)
    {
      var cs :| Steps(path, cs) && cs[0] == c && cs[|path|] == d;
      ThroughApplies(path, cs);
    }
  }

  /** Otherwise the configuration is left alone: nothing to do is a success, an unreadable version
      and a missing path are failures. A configuration without a version counts as 1.0. */
  lemma MigrateLeavesAlone(
    reg: seq<Migration>, postLoad: seq<Kind>, c: ConfigData, target: Version)
    requires Searchable(reg, c, target)
    ensures Parse(c.schemaVersion).Err? ==> MigrateData(reg, postLoad, c, target) == (c, false)
    ensures Parse(c.schemaVersion).Ok? && !NeedsMigration(Parse(c.schemaVersion).value, target) ==>
              MigrateData(reg, postLoad, c, target) == (c, true)
    ensures Parse(c.schemaVersion).Ok? && NeedsMigration(Parse(c.schemaVersion).value, target)
            && PathFrom(reg, Parse(c.schemaVersion).value, target) == None ==>
              MigrateData(reg, postLoad, c, target) == (c, false)
    ensures c.schemaVersion == "" && target == Version(1, 0) ==>
              MigrateData(reg, postLoad, c, target) == (c, true)
  {
    ParseIff("", Version(1, 0));
  }

  lemma {:induction false} ApplyPathVersion(path: seq<Migration>, c: ConfigData)
    requires path != []
    ensures ApplyPath(path, c).1.None? ==>
              ApplyPath(path, c).0.schemaVersion == Print(path[|path| - 1].to)
  {
    var (edited, error) := path[0].migrate(c);
    if |path| > 1 && error.None? {
      ApplyPathVersion(path[1..], edited.(schemaVersion := Print(path[0].to)));
    }
  }

  ghost predicate AllRepresentable(reg: seq<Migration>) {
    forall m :: m in reg ==> m.to.Representable()
  }

  /** Success leaves a version at or above the target, and a second run then changes nothing. */
  lemma MigrateReachesTargetAndIsIdempotent(
    reg: seq<Migration>, postLoad: seq<Kind>, c: ConfigData, target: Version)
    requires Searchable(reg, c, target) && AllRepresentable(reg)
    requires MigrateData(reg, postLoad, c, target).1
    ensures var d := MigrateData(reg, postLoad, c, target).0;
            Parse(d.schemaVersion).Ok? && !NeedsMigration(Parse(d.schemaVersion).value, target)
            && Searchable(reg, d, target)
            && MigrateData(reg, postLoad, d, target) == (d, true)
  {
    var current := Parse(c.schemaVersion).value;
    if NeedsMigration(current, target) {
      var path := PathFrom(reg, current, target).value;
      PathIsMinimalChain(reg, current, target);
      var last := path[|path| - 1];
      assert last in reg;
      ApplyPathVersion(path, c);
      VersionUntouched(postLoad, ApplyPath(path, c).0);
      ParsePrint(last.to);
    }
  }
}
