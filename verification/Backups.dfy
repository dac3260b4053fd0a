/** Versioned configuration backups (internal/config/backup.go).

    The backup directory is a list of files in the order of their creation; listing sorts it by
    version like the source does. Input and output succeed; parsing and schema migration of a
    configuration text are parameters (`Tools`). */
module Backups {
  import opened Prelude

  const CURRENT_SCHEMA := "1.0"

  datatype Backup = Backup(
    version: int, time: int, description: string, isAuto: bool, pinned: bool, schema: string,
    content: string)

  /** `schemaOf` is the schema version found in a text, empty when it does not parse;
      `upgrade` parses, migrates to the current schema and prints, None when that fails. */
  datatype Tools = Tools(schemaOf: string -> string, upgrade: string -> Option<string>)

  /** `config` is None while the configuration file is missing. */
  datatype State = State(config: Option<string>, files: seq<Backup>, max: int)

  // ----- Listing -----

  function Insert(b: Backup, sorted: seq<Backup>): seq<Backup> {
    if sorted == [] then [b]
    else if b.version > sorted[0].version then [b] + sorted
    else [sorted[0]] + Insert(b, sorted[1..])
  }

  /** Newest first. */
  function Listing(files: seq<Backup>): seq<Backup> {
    if files == [] then [] else Insert(files[|files| - 1], Listing(files[..|files| - 1]))
  }

  ghost predicate DistinctVersions(files: seq<Backup>) {
    forall i, j :: 0 <= i < j < |files| ==> files[i].version != files[j].version
  }

  ghost predicate Descending(list: seq<Backup>) {
    forall i, j :: 0 <= i < j < |list| ==> list[i].version > list[j].version
  }

  lemma {:induction false} InsertSorts(b: Backup, sorted: seq<Backup>)
    requires Descending(sorted)
    requires forall x :: x in sorted ==> x.version != b.version
    ensures Descending(Insert(b, sorted)) && |Insert(b, sorted)| == |sorted| + 1
    ensures forall x :: x in Insert(b, sorted) <==> x in sorted || x == b
  {
    if sorted != [] {
      var head, tail := sorted[0], sorted[1..];
      assert sorted == [head] + tail;
      assert forall x :: x in tail ==> head.version > x.version;
      if b.version > head.version {
        DescendingCons(b, sorted);
      } else {
        assert head in sorted;
        InsertSorts(b, tail);
        DescendingCons(head, Insert(b, tail));
      }
    }
  }

  /** Newest first, equal numbers in any order. */
  ghost predicate NotRising(list: seq<Backup>) {
    forall i, j :: 0 <= i < j < |list| ==> list[i].version >= list[j].version
  }

  lemma {:induction false} InsertNotRising(b: Backup, sorted: seq<Backup>)
    requires NotRising(sorted)
    ensures NotRising(Insert(b, sorted)) && Insert(b, sorted) != []
    ensures Insert(b, sorted)[0] == b || (sorted != [] && Insert(b, sorted)[0] == sorted[0])
  {
    if sorted != [] {
      var head, tail := sorted[0], sorted[1..];
      if b.version > head.version {
        NotRisingCons(b, sorted);
      } else {
        InsertNotRising(b, tail);
        NotRisingCons(head, Insert(b, tail));
      }
    }
  }

  lemma NotRisingCons(head: Backup, list: seq<Backup>)
    requires NotRising(list) && (list != [] ==> head.version >= list[0].version)
    ensures NotRising([head] + list)
  {
  }

  lemma {:induction false} InsertAdds(b: Backup, sorted: seq<Backup>)
    ensures multiset(Insert(b, sorted)) == multiset(sorted) + multiset{b}
  {
    if sorted != [] {
      assert sorted == [sorted[0]] + sorted[1..];
      InsertAdds(b, sorted[1..]);
    }
  }

  /** Whatever numbers the files carry, no number rises in the listing, */
  lemma {:induction false} ListingNotRising(files: seq<Backup>)
    ensures NotRising(Listing(files))
  {
    if files != [] {
      ListingNotRising(files[..|files| - 1]);
      InsertNotRising(files[|files| - 1], Listing(files[..|files| - 1]));
    }
  }

  /** and it holds exactly the files. */
  lemma {:induction false} ListingHoldsAll(files: seq<Backup>)
    ensures multiset(Listing(files)) == multiset(files)
  {
    if files != [] {
      var init, last := files[..|files| - 1], files[|files| - 1];
      ListingHoldsAll(init);
      InsertAdds(last, Listing(init));
      assert files == init + [last];
    }
  }

  lemma DescendingCons(b: Backup, list: seq<Backup>)
    requires Descending(list) && forall x :: x in list ==> b.version > x.version
    ensures Descending([b] + list)
  {
  }

  lemma {:induction false} ListingSorts(files: seq<Backup>)
    requires DistinctVersions(files)
    ensures Descending(Listing(files)) && |Listing(files)| == |files|
    ensures forall x :: x in Listing(files) <==> x in files
  {
    if files != [] {
      var init, last := files[..|files| - 1], files[|files| - 1];
      ListingSorts(init);
      assert files == init + [last];
      InsertSorts(last, Listing(init));
    }
  }

  function Find(files: seq<Backup>, version: int): Option<Backup> {
    if files == [] then None
    else if files[|files| - 1].version == version then Some(files[|files| - 1])
    else Find(files[..|files| - 1], version)
  }

  // ----- What each operation does to the state -----

  function NextVersion(files: seq<Backup>): int {
    var list := Listing(files);
    if list == [] then 1 else list[0].version + 1
  }

  ghost function Newer(files: seq<Backup>, b: Backup): set<Backup> {
    set x | x in files && !x.pinned && x.version > b.version
  }

  /** Retention: pinned backups, and those with fewer than `max` newer unpinned ones. */
  ghost predicate Retained(files: seq<Backup>, max: int, b: Backup) {
    b.pinned || |Newer(files, b)| < max
  }

  ghost function Prune(files: seq<Backup>, max: int): seq<Backup> {
    Filter(files, b => Retained(files, max, b))
  }

  function SchemaFor(tools: Tools, text: string): string {
    if tools.schemaOf(text) == "" then CURRENT_SCHEMA else tools.schemaOf(text)
  }

  function NewBackup(
    tools: Tools, s: State, text: string, description: string, isAuto: bool, now: int): Backup
  {
    Backup(NextVersion(s.files), now, description, isAuto, false, SchemaFor(tools, text), text)
  }

  ghost function Create(tools: Tools, s: State, description: string, isAuto: bool, now: int): State
  {
    match s.config
    case None => s
    case Some(text) =>
      s.(files := Prune(s.files + [NewBackup(tools, s, text, description, isAuto, now)], s.max))
  }

  function SetPinned(files: seq<Backup>, version: int, pinned: bool): seq<Backup> {
    Map(files, (b: Backup) => if b.version == version then b.(pinned := pinned) else b)
  }

  ghost function CreatePinned(tools: Tools, s: State, description: string, now: int): State {
    var s' := Create(tools, s, description, false, now);
    if s.config.None? then s' else s'.(files := SetPinned(s'.files, NextVersion(s.files), true))
  }

  ghost function SetMax(s: State, max: int): State {
    if max > 0 then s.(max := max, files := Prune(s.files, max)) else s
  }

  /** The limit a newly opened manager uses. */
  function Limit(max: int): (limit: int)
    ensures limit >= 1
  {
    if max <= 0 then 20 else max
  }

  const BEFORE_RESTORE := "Auto-backup before restore"

  /** What restoring writes; None when migrating the text fails. */
  function Restored(tools: Tools, b: Backup, autoMigrate: bool): Option<string> {
    if autoMigrate && b.schema != "" && b.schema != CURRENT_SCHEMA then tools.upgrade(b.content)
    else Some(b.content)
  }

  ghost function Restore(tools: Tools, s: State, version: int, autoMigrate: bool, now: int): State {
    match Find(s.files, version)
    case None => s
    case Some(b) =>
      var s' := Create(tools, s, BEFORE_RESTORE, true, now);
      match Restored(tools, b, autoMigrate)
      case None => s'
      case Some(text) => s'.(config := Some(text))
  }

  function Without(files: seq<Backup>, version: int): seq<Backup> {
    Filter(files, (b: Backup) => b.version != version)
  }

  // ----- The manager -----

  ghost predicate Ascending(files: seq<Backup>) {
    forall i, j :: 0 <= i < j < |files| ==> files[i].version < files[j].version
  }

  ghost predicate Valid(s: State) {
    s.max >= 1 && Ascending(s.files) && forall b :: b in s.files ==> b.version >= 1
  }

  /** The removal loop: one file after another, from rank `max` on. */
  method RemoveFrom(files: seq<Backup>, unpinned: seq<Backup>, max: int)
    returns (kept: seq<Backup>)
    requires Ascending(files) && unpinned == Unpinned(files) && 0 <= max <= |unpinned|
    ensures kept == DropRanks(files, max, |unpinned|)
  {
    kept := files;
    DropNothing(files, max);
    for i := max to |unpinned|
      invariant kept == DropRanks(files, max, i)
    {
      DropOneRank(files, max, i);
      kept := Without(kept, unpinned[i].version);
    }
  }

  class BackupManager {
    var config: Option<string>
    var files: seq<Backup>
    var maxBackups: int

    ghost function Abs(): State
      reads this
    {
      State(config, files, maxBackups)
    }

    /** Opens the manager on a directory that may already hold backups. */
    constructor (config: Option<string>, files: seq<Backup>, maxBackups: int)
      ensures Abs() == State(config, files, Limit(maxBackups))
      ensures this.maxBackups == if maxBackups > 0 then maxBackups else 20
      ensures Valid(Abs()) <==> Ascending(files) && forall b :: b in files ==> b.version >= 1
    {
      this.config, this.files := config, files;
      this.maxBackups := maxBackups;
      if maxBackups <= 0 {
        this.maxBackups := 20;
      }
    }

    method ListBackups() returns (list: seq<Backup>)
      ensures list == Listing(files)
      ensures NotRising(list) && multiset(list) == multiset(files)
      ensures Valid(Abs()) ==>
                Descending(list) && |list| == |files| && forall b :: b in list <==> b in files
    {
      list := SortFiles();
      ListingNotRising(files);
      ListingHoldsAll(files);
      if Valid(Abs()) {
        ListingSorts(files);
      }
    }

    /** The loop over the directory, with each file put in its place. */
    method SortFiles() returns (list: seq<Backup>)
      ensures list == Listing(files)
    {
      list := [];
      for i := 0 to |files|
        invariant list == Listing(files[..i])
      {
        assert files[..i + 1][..i] == files[..i];
        list := Insert(files[i], list);
      }
      assert files[..|files|] == files;
    }

    method GetBackup(version: int) returns (found: Option<Backup>)
      requires Valid(Abs())
      ensures found == Find(files, version)
    {
      var list := SortFiles();
      ListingSorts(files);
      for i := 0 to |list|
        invariant forall j :: 0 <= j < i ==> list[j].version != version
      {
        if list[i].version == version {
          FindIs(files, list[i]);
          return Some(list[i]);
        }
      }
      FindNothing(files, version);
      return None;
    }

    method CollectUnpinned() returns (unpinned: seq<Backup>)
      requires Valid(Abs())
      ensures unpinned == Unpinned(files)
    {
      var list := SortFiles();
      unpinned := SelectUnpinned(list);
    }

    static method SelectUnpinned(list: seq<Backup>) returns (unpinned: seq<Backup>)
      ensures unpinned == Filter(list, IsUnpinned)
    {
      unpinned := [];
      for i := 0 to |list|
        invariant unpinned == Filter(list[..i], IsUnpinned)
      {
        assert list[..i + 1] == list[..i] + [list[i]];
        FilterSnoc(list[..i], list[i], IsUnpinned);
        if !list[i].pinned {
          unpinned := unpinned + [list[i]];
        }
      }
      assert list[..|list|] == list;
    }

    method PruneOldBackups()
      requires Valid(Abs())
      modifies this`files
      ensures files == Prune(old(files), maxBackups)
    {
      var unpinned := CollectUnpinned();
      PruneByRank(files, maxBackups, |unpinned|);
      if |unpinned| <= maxBackups {
        return;
      }
      files := RemoveFrom(files, unpinned, maxBackups);
    }

    method CreateBackup(tools: Tools, description: string, isAuto: bool, now: int)
      returns (made: Option<Backup>)
      requires Valid(Abs())
      modifies this`files
      ensures Abs() == Create(tools, old(Abs()), description, isAuto, now)
      ensures Valid(Abs())
      ensures made.Some? <==> config.Some?
      ensures made.Some? ==>
                made.value == NewBackup(tools, old(Abs()), config.value, description, isAuto, now)
                && made.value in files
    {
      if config.None? {
        return None;
      }
      CreateStep(tools, Abs(), description, isAuto, now);
      var list := SortFiles();
      var version := if |list| > 0 then list[0].version + 1 else 1;
      var text := config.value;
      var b := Backup(version, now, description, isAuto, false, SchemaFor(tools, text), text);
      assert b == NewBackup(tools, Abs(), text, description, isAuto, now);
      AppendFresh(files, b);
      files := files + [b];
      PruneOldBackups();
      return Some(b);
    }

    method CreatePinnedBackup(tools: Tools, description: string, now: int)
      returns (made: Option<Backup>)
      requires Valid(Abs())
      modifies this`files
      ensures Abs() == CreatePinned(tools, old(Abs()), description, now)
      ensures Valid(Abs())
      ensures made.Some? <==> config.Some?
      ensures made.Some? ==>
                made.value == NewBackup(tools, old(Abs()), config.value, description, false, now)
                                .(pinned := true)
                && made.value in files
    {
      var created := CreateBackup(tools, description, false, now);
      if created.None? {
        return None;
      }
      PinStored(Abs(), created.value);
      files := SetPinned(files, created.value.version, true);
      return Some(created.value.(pinned := true));
    }

    method SetBackupPinned(version: int, pinned: bool) returns (ok: bool)
      requires Valid(Abs())
      modifies this`files
      ensures Valid(Abs())
      ensures ok <==> Find(old(files), version).Some?
      ensures files == SetPinned(old(files), version, pinned)
    {
      var found := GetBackup(version);
      if found.None? {
        NothingToPin(files, version, pinned);
        return false;
      }
      files := SetPinned(files, version, pinned);
      return true;
    }

    method SetMaxBackups(max: int)
      requires Valid(Abs())
      modifies this`files, this`maxBackups
      ensures Abs() == SetMax(old(Abs()), max)
      ensures Valid(Abs())
    {
      if max > 0 {
        maxBackups := max;
        PruneKeepsOrder(files, max);
        PruneOldBackups();
      }
    }

    method RestoreBackup(tools: Tools, version: int, autoMigrate: bool, now: int)
      returns (ok: bool)
      requires Valid(Abs())
      modifies this
      ensures Abs() == Restore(tools, old(Abs()), version, autoMigrate, now)
      ensures Valid(Abs())
      ensures ok <==> Find(old(files), version).Some?
                      && Restored(tools, Find(old(files), version).value, autoMigrate).Some?
    {
      var found := GetBackup(version);
      if found.None? {
        return false;
      }
      var b := found.value;
      var _ := CreateBackup(tools, BEFORE_RESTORE, true, now);
      if autoMigrate && b.schema != "" && b.schema != CURRENT_SCHEMA {
        var migrated := tools.upgrade(b.content);
        if migrated.None? {
          return false;
        }
        config := migrated;
        return true;
      }
      config := Some(b.content);
      return true;
    }

    method DeleteBackup(version: int) returns (ok: bool)
      requires Valid(Abs())
      modifies this`files
      ensures Valid(Abs())
      ensures ok <==> Find(old(files), version).Some?
      ensures files == Without(old(files), version)
    {
      var found := GetBackup(version);
      WithoutKeepsOrder(files, version);
      if found.None? {
        FindNothingIff(files, version);
        FilterAll(files, (b: Backup) => b.version != version);
        return false;
      }
      files := Without(files, version);
      return true;
    }
  }

  // ----- Lookup -----

  lemma {:induction false} FindIs(files: seq<Backup>, b: Backup)
    requires DistinctVersions(files) && b in files
    ensures Find(files, b.version) == Some(b)
  {
    if files[|files| - 1] != b {
      assert files == files[..|files| - 1] + [files[|files| - 1]];
      FindIs(files[..|files| - 1], b);
    }
  }

  lemma {:induction false} FindNothing(files: seq<Backup>, version: int)
    requires forall b :: b in files ==> b.version != version
    ensures Find(files, version) == None
  {
    if files != [] {
      FindNothing(files[..|files| - 1], version);
    }
  }

  lemma {:induction false} FindNothingIff(files: seq<Backup>, version: int)
    ensures Find(files, version) == None <==> forall b :: b in files ==> b.version != version
    ensures Find(files, version).Some? ==>
              Find(files, version).value in files && Find(files, version).value.version == version
  {
    if files != [] {
      assert files == files[..|files| - 1] + [files[|files| - 1]];
      FindNothingIff(files[..|files| - 1], version);
    }
  }

  lemma NothingToPin(files: seq<Backup>, version: int, pinned: bool)
    requires Find(files, version) == None
    ensures SetPinned(files, version, pinned) == files
  {
  }

  // ----- Versions -----

  lemma NextIsFresh(files: seq<Backup>)
    requires Ascending(files)
    ensures NextVersion(files) == if files == [] then 1 else files[|files| - 1].version + 1
  {
    ListingSorts(files);
    if files != [] {
      var last, list := files[|files| - 1], Listing(files);
      assert last in list && list[0] in files;
    }
  }

  // ----- Pruning -----

  /** The unpinned backups, newest first: the list that the source cuts off at the limit. */
  function Unpinned(files: seq<Backup>): seq<Backup> {
    Filter(Listing(files), IsUnpinned)
  }

  predicate IsUnpinned(b: Backup) {
    !b.pinned
  }

  lemma {:induction false} FilterDescending(list: seq<Backup>, p: Backup -> bool)
    requires Descending(list)
    ensures Descending(Filter(list, p))
  {
    if list != [] {
      FilterDescending(list[..|list| - 1], p);
      FilterMembers(list[..|list| - 1], p);
      assert forall x :: x in list[..|list| - 1] ==> x.version > list[|list| - 1].version;
    }
  }

  lemma UnpinnedSorted(files: seq<Backup>)
    requires Ascending(files)
    ensures Descending(Unpinned(files))
    ensures forall b :: b in Unpinned(files) <==> b in files && !b.pinned
  {
    ListingSorts(files);
    FilterDescending(Listing(files), IsUnpinned);
    FilterMembers(Listing(files), IsUnpinned);
  }

  ghost function Elements(list: seq<Backup>): set<Backup> {
    set b | b in list
  }

  lemma {:induction false} DescendingSize(list: seq<Backup>)
    requires Descending(list)
    ensures |Elements(list)| == |list|
  {
    if list != [] {
      var init, last := list[..|list| - 1], list[|list| - 1];
      DescendingSize(init);
      assert Elements(list) == Elements(init) + {last};
    }
  }

  /** A backup's position in that list is the number of newer unpinned backups. */
  lemma PositionIsRank(files: seq<Backup>, i: nat)
    requires Ascending(files) && i < |Unpinned(files)|
    ensures |Newer(files, Unpinned(files)[i])| == i
  {
    var list := Unpinned(files);
    UnpinnedSorted(files);
    DescendingSize(list[..i]);
    assert forall x :: x in list[..i] ==> x in list;
    forall x | x in Newer(files, list[i])
      ensures x in list[..i]
    {
      assert x in list;
      var j :| 0 <= j < |list| && list[j] == x;
      assert list[..i][j] == x;
    }
    assert Newer(files, list[i]) == Elements(list[..i]);
  }

  /** The state of the removal loop: ranks from `lo` up to `hi` are gone. */
  ghost function DropRanks(files: seq<Backup>, lo: int, hi: int): seq<Backup> {
    Filter(files, (b: Backup) => b.pinned || !(lo <= |Newer(files, b)| < hi))
  }

  lemma DropNothing(files: seq<Backup>, lo: int)
    ensures DropRanks(files, lo, lo) == files
  {
    FilterAll(files, (b: Backup) => b.pinned || !(lo <= |Newer(files, b)| < lo));
  }

  lemma {:induction false} FilterTwice<T>(xs: seq<T>, p: T -> bool, q: T -> bool, both: T -> bool)
    requires forall x :: x in xs ==> both(x) == (p(x) && q(x))
    ensures Filter(Filter(xs, p), q) == Filter(xs, both)
  {
    if xs != [] {
      var init, last := xs[..|xs| - 1], xs[|xs| - 1];
      FilterTwice(init, p, q, both);
      if p(last) {
        FilterSnoc(Filter(init, p), last, q);
      } else {
        assert Filter(xs, p) == Filter(init, p);
      }
    }
  }

  lemma DropOneRank(files: seq<Backup>, lo: int, i: int)
    requires Ascending(files) && 0 <= lo <= i < |Unpinned(files)|
    ensures Without(DropRanks(files, lo, i), Unpinned(files)[i].version)
         == DropRanks(files, lo, i + 1)
  {
    var list := Unpinned(files);
    UnpinnedSorted(files);
    assert list[i] in list;
    PositionIsRank(files, i);
    forall b | b in files
      ensures (b.pinned || !(lo <= |Newer(files, b)| < i + 1))
           == ((b.pinned || !(lo <= |Newer(files, b)| < i)) && b.version != list[i].version)
    {
      if b.version == list[i].version {
        assert b == list[i];
      } else if !b.pinned {
        var j :| 0 <= j < |list| && list[j] == b;
        PositionIsRank(files, j);
      }
    }
    FilterTwice(files, (b: Backup) => b.pinned || !(lo <= |Newer(files, b)| < i),
                (b: Backup) => b.version != list[i].version,
                (b: Backup) => b.pinned || !(lo <= |Newer(files, b)| < i + 1));
  }

  lemma PruneByRank(files: seq<Backup>, max: int, hi: int)
    requires Ascending(files) && hi == |Unpinned(files)|
    ensures DropRanks(files, max, hi) == Prune(files, max)
    ensures hi <= max ==> Prune(files, max) == files
  {
    var list := Unpinned(files);
    UnpinnedSorted(files);
    forall b | b in files && !b.pinned
      ensures |Newer(files, b)| < hi
    {
      var j :| 0 <= j < |list| && list[j] == b;
      PositionIsRank(files, j);
    }
    FilterSame(files, (b: Backup) => b.pinned || !(max <= |Newer(files, b)| < hi),
               b => Retained(files, max, b));
    if hi <= max {
      FilterAll(files, b => Retained(files, max, b));
    }
  }

  lemma {:induction false} FilterAscending(files: seq<Backup>, p: Backup -> bool)
    requires Ascending(files)
    ensures Ascending(Filter(files, p))
  {
    if files != [] {
      FilterAscending(files[..|files| - 1], p);
      FilterMembers(files[..|files| - 1], p);
      assert forall x :: x in files[..|files| - 1] ==> x.version < files[|files| - 1].version;
    }
  }

  lemma PruneKeepsOrder(files: seq<Backup>, max: int)
    requires Ascending(files)
    ensures Ascending(Prune(files, max))
    ensures forall b :: b in Prune(files, max) <==> b in files && Retained(files, max, b)
  {
    FilterAscending(files, b => Retained(files, max, b));
    FilterMembers(files, b => Retained(files, max, b));
  }

  lemma WithoutKeepsOrder(files: seq<Backup>, version: int)
    requires Ascending(files)
    ensures Ascending(Without(files, version))
    ensures forall b :: b in Without(files, version) <==> b in files && b.version != version
  {
    FilterAscending(files, (b: Backup) => b.version != version);
    FilterMembers(files, (b: Backup) => b.version != version);
  }

  lemma NewestRetained(files: seq<Backup>, max: int)
    requires Ascending(files) && files != [] && max >= 1
    ensures Prune(files, max) != []
    ensures Prune(files, max)[|Prune(files, max)| - 1] == files[|files| - 1]
  {
  }

  /** Pruning keeps every pinned backup and exactly the newest `max` unpinned ones. */
  lemma PruneKeepsNewest(files: seq<Backup>, max: int)
    requires Ascending(files) && max >= 0
    ensures Ascending(Prune(files, max))
    ensures forall b :: b in files && b.pinned ==> b in Prune(files, max)
    ensures Unpinned(Prune(files, max)) == Cut(Unpinned(files), max)
  {
    PruneKeepsOrder(files, max);
    PrunedUnpinnedList(files, max);
  }

  lemma PrunedUnpinnedList(files: seq<Backup>, max: int)
    requires Ascending(files) && max >= 0
    ensures Unpinned(Prune(files, max)) == Cut(Unpinned(files), max)
  {
    var now, cut := Unpinned(Prune(files, max)), Cut(Unpinned(files), max);
    assert Descending(now) && Descending(cut) by {
      PruneKeepsOrder(files, max);
      UnpinnedSorted(files);
      UnpinnedSorted(Prune(files, max));
    }
    forall b
      ensures b in now <==> b in cut
    {
      PrunedUnpinned(files, max, b);
    }
    DescendingUnique(now, cut);
  }

  function Cut(list: seq<Backup>, max: int): seq<Backup>
    requires max >= 0
  {
    if |list| <= max then list else list[..max]
  }

  lemma PrunedUnpinned(files: seq<Backup>, max: int, b: Backup)
    requires Ascending(files) && max >= 0
    ensures b in Unpinned(Prune(files, max)) <==> b in Cut(Unpinned(files), max)
  {
    var list := Unpinned(files);
    PruneKeepsOrder(files, max);
    UnpinnedSorted(files);
    UnpinnedSorted(Prune(files, max));
    if b in list {
      var j :| 0 <= j < |list| && list[j] == b;
      PositionIsRank(files, j);
      InCut(list, max, j);
    }
  }

  lemma InCut(list: seq<Backup>, max: int, j: nat)
    requires Descending(list) && max >= 0 && j < |list|
    ensures list[j] in Cut(list, max) <==> j < max
  {
  }

  lemma {:induction false} DescendingUnique(xs: seq<Backup>, ys: seq<Backup>)
    requires Descending(xs) && Descending(ys)
    requires forall b :: b in xs <==> b in ys
    ensures xs == ys
  {
    DescendingSize(xs);
    DescendingSize(ys);
    assert Elements(xs) == Elements(ys);
    if xs != [] {
      assert xs[0] in ys && ys[0] in xs;
      assert xs[0] == ys[0];
      assert xs == [xs[0]] + xs[1..] && ys == [ys[0]] + ys[1..];
      forall b
        ensures b in xs[1..] <==> b in ys[1..]
      {
        if b in xs[1..] { assert b in xs; }
        if b in ys[1..] { assert b in ys; }
      }
      DescendingUnique(xs[1..], ys[1..]);
    }
  }

  // ----- Whole runs -----

  /** `OpEdit` stands for any change of the configuration file made outside the manager and
      `OpReopen` for a new manager on the same directory. */
  datatype Op =
    | OpCreate(description: string, isAuto: bool)
    | OpCreatePinned(description: string)
    | OpPin(version: int)
    | OpUnpin(version: int)
    | OpDelete(version: int)
    | OpSetMax(max: int)
    | OpRestore(version: int, autoMigrate: bool)
    | OpEdit(text: Option<string>)
    | OpReopen(max: int)

  ghost function Step(tools: Tools, s: State, op: Op, now: int): State {
    match op
    case OpCreate(d, isAuto) => Create(tools, s, d, isAuto, now)
    case OpCreatePinned(d) => CreatePinned(tools, s, d, now)
    case OpPin(v) => s.(files := SetPinned(s.files, v, true))
    case OpUnpin(v) => s.(files := SetPinned(s.files, v, false))
    case OpDelete(v) => s.(files := Without(s.files, v))
    case OpSetMax(max) => SetMax(s, max)
    case OpRestore(v, autoMigrate) => Restore(tools, s, v, autoMigrate, now)
    case OpEdit(text) => s.(config := text)
    case OpReopen(max) => s.(max := Limit(max))
  }

  /** Whether the operation writes a new backup file. */
  predicate Creates(s: State, op: Op) {
    s.config.Some?
    && (op.OpCreate? || op.OpCreatePinned? || (op.OpRestore? && Find(s.files, op.version).Some?))
  }

  lemma AppendFresh(files: seq<Backup>, b: Backup)
    requires Ascending(files) && b.version == NextVersion(files)
    requires forall x :: x in files ==> x.version >= 1
    ensures Ascending(files + [b]) && b.version >= 1
  {
  }

  lemma CreateStep(tools: Tools, s: State, description: string, isAuto: bool, now: int)
    requires Valid(s)
    ensures var s' := Create(tools, s, description, isAuto, now);
            Valid(s') && s'.max == s.max && s'.config == s.config
            && (s.config.Some? ==>
                  s'.files != []
                  && s'.files[|s'.files| - 1]
                     == NewBackup(tools, s, s.config.value, description, isAuto, now))
            && (forall b :: b in s.files && b.pinned ==> b in s'.files)
  {
    if s.config.Some? {
      var b := NewBackup(tools, s, s.config.value, description, isAuto, now);
      var files := s.files + [b];
      AppendFresh(s.files, b);
      PruneKeepsOrder(files, s.max);
      NewestRetained(files, s.max);
    }
  }

  lemma PinStored(s: State, b: Backup)
    requires Valid(s) && b in s.files
    ensures Valid(s.(files := SetPinned(s.files, b.version, true)))
    ensures b.(pinned := true) in SetPinned(s.files, b.version, true)
  {
  }

  lemma SetPinnedKeeps(files: seq<Backup>, version: int, pinned: bool)
    requires Ascending(files)
    ensures Ascending(SetPinned(files, version, pinned))
    ensures forall b :: b in files && (b.version != version || b.pinned == pinned) ==>
              b in SetPinned(files, version, pinned)
  {
  }

  /** The number the next backup will get. */
  function Upcoming(s: State): int {
    NextVersion(s.files)
  }

  /** The backup an operation may take the protection from, or remove, by its version. */
  function Released(op: Op): Option<int> {
    if op.OpUnpin? || op.OpDelete? then Some(op.version) else None
  }

  predicate DeletesNewest(s: State, op: Op) {
    op.OpDelete? && s.files != [] && s.files[|s.files| - 1].version == op.version
  }

  /** What every operation guarantees: versions stay ordered and distinct, pinned backups other
      than the released one stay, and the next version advances exactly when a backup was made and
      falls exactly when the newest was deleted. */
  ghost predicate Keeps(
    s: State, s': State, released: Option<int>, created: bool, deletedNewest: bool)
  {
    Valid(s')
    && (forall b :: b in s.files && b.pinned && released != Some(b.version) ==> b in s'.files)
    && (if deletedNewest then Upcoming(s') < Upcoming(s)
        else Upcoming(s') == Upcoming(s) + (if created then 1 else 0))
  }

  lemma CreateKeeps(tools: Tools, s: State, description: string, isAuto: bool, now: int)
    requires Valid(s)
    ensures Keeps(s, Create(tools, s, description, isAuto, now), None, s.config.Some?, false)
  {
    CreateStep(tools, s, description, isAuto, now);
    NextIsFresh(s.files);
    NextIsFresh(Create(tools, s, description, isAuto, now).files);
  }

  lemma PinKeeps(s: State, version: int, pinned: bool)
    requires Valid(s)
    ensures Keeps(s, s.(files := SetPinned(s.files, version, pinned)),
                  if pinned then None else Some(version), false, false)
  {
    SetPinnedKeeps(s.files, version, pinned);
    NextIsFresh(s.files);
    NextIsFresh(SetPinned(s.files, version, pinned));
  }

  lemma SetMaxKeeps(s: State, max: int)
    requires Valid(s)
    ensures Keeps(s, SetMax(s, max), None, false, false)
  {
    if max > 0 {
      PruneKeepsOrder(s.files, max);
      if s.files != [] {
        NewestRetained(s.files, max);
      }
      NextIsFresh(s.files);
      NextIsFresh(Prune(s.files, max));
    }
  }

  lemma DeleteKeeps(s: State, version: int)
    requires Valid(s)
    ensures Keeps(s, s.(files := Without(s.files, version)), Some(version), false,
                  DeletesNewest(s, OpDelete(version)))
  {
    assert Valid(s.(files := Without(s.files, version))) by {
      WithoutKeepsOrder(s.files, version);
    }
    WithoutKeepsOrder(s.files, version);
    DeleteMovesNext(s.files, version);
  }

  lemma DeleteMovesNext(files: seq<Backup>, version: int)
    requires Ascending(files) && forall b :: b in files ==> b.version >= 1
    ensures var next, next' := NextVersion(files), NextVersion(Without(files, version));
            if files != [] && files[|files| - 1].version == version then next' < next
            else next' == next
  {
    if files != [] {
      assert files[|files| - 1] in files;
      LastAfterDelete(files, version);
      NextIsFresh(Without(files, version));
    }
    NextIsFresh(files);
  }

  lemma StepKeeps(tools: Tools, s: State, op: Op, now: int)
    requires Valid(s)
    ensures Keeps(s, Step(tools, s, op, now), Released(op), Creates(s, op), DeletesNewest(s, op))
  {
    match op
    case OpCreate(d, isAuto) => CreateKeeps(tools, s, d, isAuto, now);
    case OpCreatePinned(d) =>
      CreateKeeps(tools, s, d, false, now);
      PinKeeps(Create(tools, s, d, false, now), Upcoming(s), true);
    case OpPin(v) => PinKeeps(s, v, true);
    case OpUnpin(v) => PinKeeps(s, v, false);
    case OpDelete(v) => DeleteKeeps(s, v);
    case OpSetMax(max) => SetMaxKeeps(s, max);
    case OpRestore(v, autoMigrate) => CreateKeeps(tools, s, BEFORE_RESTORE, true, now);
    case OpEdit(_) =>
    case OpReopen(_) =>
  }

  ghost function Run(tools: Tools, s: State, ops: seq<Op>, clock: seq<int>): State
    requires |clock| == |ops|
    decreases |ops|
  {
    if ops == [] then s
    else Run(tools, Step(tools, s, ops[0], clock[0]), ops[1..], clock[1..])
  }

  /** The version numbers handed out during a run, in order. */
  ghost function Issued(tools: Tools, s: State, ops: seq<Op>, clock: seq<int>): seq<int>
    requires |clock| == |ops|
    decreases |ops|
  {
    if ops == [] then []
    else
      var later := Issued(tools, Step(tools, s, ops[0], clock[0]), ops[1..], clock[1..]);
      if Creates(s, ops[0]) then [Upcoming(s)] + later else later
  }

  lemma {:induction false} RunKeepsValid(tools: Tools, s: State, ops: seq<Op>, clock: seq<int>)
    requires Valid(s) && |clock| == |ops|
    ensures Valid(Run(tools, s, ops, clock))
    decreases |ops|
  {
    if ops != [] {
      StepKeeps(tools, s, ops[0], clock[0]);
      RunKeepsValid(tools, Step(tools, s, ops[0], clock[0]), ops[1..], clock[1..]);
    }
  }

  /** No deletion of the newest backup is followed by the making of another. */
  ghost predicate NeverReopened(tools: Tools, s: State, ops: seq<Op>, clock: seq<int>)
    requires |clock| == |ops|
    decreases |ops|
  {
    ops == []
    || (var s' := Step(tools, s, ops[0], clock[0]);
        (DeletesNewest(s, ops[0]) ==> Issued(tools, s', ops[1..], clock[1..]) == [])
        && NeverReopened(tools, s', ops[1..], clock[1..]))
  }

  ghost predicate Consecutive(numbers: seq<int>, from: int) {
    forall k :: 0 <= k < |numbers| ==> numbers[k] == from + k
  }

  lemma ConsecutiveCons(from: int, rest: seq<int>)
    requires Consecutive(rest, from + 1)
    ensures Consecutive([from] + rest, from)
  {
  }

  lemma {:induction false} UpcomingFollows(tools: Tools, s: State, ops: seq<Op>, clock: seq<int>)
    requires Valid(s) && |clock| == |ops| && forall op :: op in ops ==> !op.OpDelete?
    ensures Upcoming(Run(tools, s, ops, clock)) == Upcoming(s) + |Issued(tools, s, ops, clock)|
    decreases |ops|
  {
    if ops != [] {
      assert ops[0] in ops;
      StepKeeps(tools, s, ops[0], clock[0]);
      UpcomingFollows(tools, Step(tools, s, ops[0], clock[0]), ops[1..], clock[1..]);
    }
  }

  lemma {:induction false} IssuedConsecutive(tools: Tools, s: State, ops: seq<Op>, clock: seq<int>)
    requires Valid(s) && |clock| == |ops| && NeverReopened(tools, s, ops, clock)
    ensures Consecutive(Issued(tools, s, ops, clock), Upcoming(s))
    decreases |ops|
  {
    if ops != [] {
      var s', rest, later := Step(tools, s, ops[0], clock[0]), ops[1..], clock[1..];
      StepKeeps(tools, s, ops[0], clock[0]);
      IssuedConsecutive(tools, s', rest, later);
      if Creates(s, ops[0]) {
        ConsecutiveCons(Upcoming(s), Issued(tools, s', rest, later));
      }
    }
  }

  /** In a run without that the issued versions are consecutive; without any deletion the next one
      then follows on them. */
  lemma RunIssuesConsecutive(tools: Tools, s: State, ops: seq<Op>, clock: seq<int>)
    requires Valid(s) && |clock| == |ops| && NeverReopened(tools, s, ops, clock)
    ensures var issued := Issued(tools, s, ops, clock);
            Consecutive(issued, Upcoming(s))
            && ((forall op :: op in ops ==> !op.OpDelete?) ==>
                  Upcoming(Run(tools, s, ops, clock)) == Upcoming(s) + |issued|)
  {
    IssuedConsecutive(tools, s, ops, clock);
    if forall op :: op in ops ==> !op.OpDelete? {
      UpcomingFollows(tools, s, ops, clock);
    }
  }

  lemma {:induction false} NothingIssued(tools: Tools, s: State, ops: seq<Op>, clock: seq<int>)
    requires |clock| == |ops| && Issued(tools, s, ops, clock) == []
    ensures NeverReopened(tools, s, ops, clock)
    decreases |ops|
  {
    if ops != [] {
      NothingIssued(tools, Step(tools, s, ops[0], clock[0]), ops[1..], clock[1..]);
    }
  }

  /** The next number to be issued is never above the upcoming one. */
  lemma {:induction false} FirstIssued(tools: Tools, s: State, ops: seq<Op>, clock: seq<int>)
    requires Valid(s) && |clock| == |ops| && Issued(tools, s, ops, clock) != []
    ensures Issued(tools, s, ops, clock)[0] <= Upcoming(s)
    decreases |ops|
  {
    if !Creates(s, ops[0]) {
      StepKeeps(tools, s, ops[0], clock[0]);
      FirstIssued(tools, Step(tools, s, ops[0], clock[0]), ops[1..], clock[1..]);
    }
  }

  /** All numbers issued are new: none was in use up to now, and none is issued twice. */
  ghost predicate AllNew(issued: seq<int>, from: int) {
    Distinct(issued) && forall k :: 0 <= k < |issued| ==> issued[k] >= from
  }

  lemma {:induction false} ReopenedReuses(tools: Tools, s: State, ops: seq<Op>, clock: seq<int>)
    requires Valid(s) && |clock| == |ops| && !NeverReopened(tools, s, ops, clock)
    ensures !AllNew(Issued(tools, s, ops, clock), Upcoming(s))
    decreases |ops|
  {
    var s', rest, later := Step(tools, s, ops[0], clock[0]), ops[1..], clock[1..];
    StepKeeps(tools, s, ops[0], clock[0]);
    if !DeletesNewest(s, ops[0]) {
      ReopenedReuses(tools, s', rest, later);
      OneAhead(Issued(tools, s', rest, later), Upcoming(s));
    } else if Issued(tools, s', rest, later) == [] {
      NothingIssued(tools, s', rest, later);
    } else {
      FirstIssued(tools, s', rest, later);
    }
  }

  lemma OneAhead(issued: seq<int>, first: int)
    ensures AllNew([first] + issued, first) ==> AllNew(issued, first + 1)
  {
    var all := [first] + issued;
    if AllNew(all, first) {
      forall k | 0 <= k < |issued|
        ensures issued[k] >= first + 1
      {
        assert all[k + 1] == issued[k] && all[0] != all[k + 1];
      }
      forall i, j | 0 <= i < j < |issued|
        ensures issued[i] != issued[j]
      {
        assert all[i + 1] != all[j + 1];
      }
    }
  }

  /** Over every run, all version numbers issued are new exactly when no deletion of the newest
      backup is followed by the making of another. */
  lemma VersionsNewIff(tools: Tools, s: State, ops: seq<Op>, clock: seq<int>)
    requires Valid(s) && |clock| == |ops|
    ensures AllNew(Issued(tools, s, ops, clock), Upcoming(s))
        <==> NeverReopened(tools, s, ops, clock)
  {
    if NeverReopened(tools, s, ops, clock) {
      RunIssuesConsecutive(tools, s, ops, clock);
    } else {
      ReopenedReuses(tools, s, ops, clock);
    }
  }

  /** The shortest way to reuse a number, from every state with a configuration and a backup. */
  lemma DeleteThenCreateReuses(tools: Tools, s: State, description: string, clock: seq<int>)
    requires Valid(s) && s.config.Some? && s.files != [] && |clock| == 2
    ensures var ops := [OpDelete(s.files[|s.files| - 1].version), OpCreate(description, false)];
            !AllNew(Issued(tools, s, ops, clock), Upcoming(s))
  {
    var ops := [OpDelete(s.files[|s.files| - 1].version), OpCreate(description, false)];
    var s' := Step(tools, s, ops[0], clock[0]);
    assert ops[1..][0] == ops[1] && Creates(s', ops[1]);
    assert Issued(tools, s', ops[1..], clock[1..]) != [];
    VersionsNewIff(tools, s, ops, clock);
  }

  /** A pinned backup survives any run in which it is neither unpinned nor deleted. */
  lemma {:induction false} RunKeepsPinned(
    tools: Tools, s: State, ops: seq<Op>, clock: seq<int>, b: Backup)
    requires Valid(s) && |clock| == |ops| && b in s.files && b.pinned
    requires OpUnpin(b.version) !in ops && OpDelete(b.version) !in ops
    ensures b in Run(tools, s, ops, clock).files
    decreases |ops|
  {
    if ops != [] {
      assert ops[0] in ops;
      StepKeeps(tools, s, ops[0], clock[0]);
      RunKeepsPinned(tools, Step(tools, s, ops[0], clock[0]), ops[1..], clock[1..], b);
    }
  }

  /** Pruning does not spare backups made by hand: with a limit of one, making any backup removes an
      unpinned manual one. */
  lemma ManualBackupPruned(
    tools: Tools, s: State, b: Backup, description: string, isAuto: bool, now: int)
    requires Valid(s) && s.config.Some? && s.max == 1
    requires b in s.files && !b.isAuto && !b.pinned
    ensures b !in Create(tools, s, description, isAuto, now).files
  {
    var made := NewBackup(tools, s, s.config.value, description, isAuto, now);
    AppendFresh(s.files, made);
    PruneKeepsOrder(s.files + [made], s.max);
    RetainedAfterAppend(s.files, made, s.max, b);
  }

  /** What creating a backup leaves as the newest file: the current text with its schema version
      ("1.0" when it has none), the caller's description and kind, unpinned, numbered one above the
      newest before it. */
  lemma CreateRecords(tools: Tools, s: State, description: string, isAuto: bool, now: int)
    requires Valid(s) && s.config.Some?
    ensures var files := Create(tools, s, description, isAuto, now).files;
            files != []
            && files[|files| - 1]
               == Backup(if s.files == [] then 1 else s.files[|s.files| - 1].version + 1, now,
                         description, isAuto, false,
                         if tools.schemaOf(s.config.value) == "" then "1.0"
                         else tools.schemaOf(s.config.value), s.config.value)
  {
    CreateStep(tools, s, description, isAuto, now);
    NextIsFresh(s.files);
  }

  /** A pinned backup is recorded alike, apart from the pin; the backup before a restore is an
      automatic one with a description of its own. */
  lemma OthersRecord(tools: Tools, s: State, description: string, version: int, now: int)
    requires Valid(s) && s.config.Some?
    ensures var made := NewBackup(tools, s, s.config.value, description, false, now);
            var files := CreatePinned(tools, s, description, now).files;
            files != [] && files[|files| - 1] == made.(pinned := true)
    ensures Find(s.files, version).Some? ==>
              var files := Restore(tools, s, version, true, now).files;
              files != [] && files[|files| - 1].isAuto && !files[|files| - 1].pinned
              && files[|files| - 1].description == "Auto-backup before restore"
              && files[|files| - 1].time == now
  {
    CreateStep(tools, s, description, false, now);
    CreateStep(tools, s, BEFORE_RESTORE, true, now);
  }

  // ----- The limit in force -----

  ghost predicate WithinLimit(s: State) {
    |Unpinned(s.files)| <= s.max
  }

  /** Setting a positive limit prunes at once: the newest unpinned backups up to it stay. */
  lemma SetMaxApplies(s: State, max: int)
    requires Valid(s) && max > 0
    ensures SetMax(s, max).max == max && WithinLimit(SetMax(s, max))
    ensures Unpinned(SetMax(s, max).files) == Cut(Unpinned(s.files), max)
  {
    PruneKeepsNewest(s.files, max);
  }

  lemma PruneWithinLimit(files: seq<Backup>, max: int)
    requires Ascending(files) && max >= 0
    ensures |Unpinned(Prune(files, max))| <= max
  {
    PrunedUnpinnedList(files, max);
  }

  lemma CreateWithinLimit(tools: Tools, s: State, description: string, isAuto: bool, now: int)
    requires Valid(s) && s.config.Some?
    ensures WithinLimit(Create(tools, s, description, isAuto, now))
  {
    var made := NewBackup(tools, s, s.config.value, description, isAuto, now);
    AppendFresh(s.files, made);
    PruneWithinLimit(s.files + [made], s.max);
  }

  lemma FewerUnpinned(files: seq<Backup>, later: seq<Backup>)
    requires Ascending(files) && Ascending(later)
    requires forall b :: b in later && !b.pinned ==> b in files
    ensures |Unpinned(later)| <= |Unpinned(files)|
  {
    UnpinnedSorted(files);
    UnpinnedSorted(later);
    DescendingSize(Unpinned(files));
    DescendingSize(Unpinned(later));
    SubsetSize(Elements(Unpinned(later)), Elements(Unpinned(files)));
  }

  lemma PinFewerUnpinned(files: seq<Backup>, version: int)
    requires Ascending(files)
    ensures |Unpinned(SetPinned(files, version, true))| <= |Unpinned(files)|
  {
    var later := SetPinned(files, version, true);
    SetPinnedKeeps(files, version, true);
    forall b | b in later && !b.pinned
      ensures b in files
    {
      PinUntouched(files, version, true, b);
    }
    FewerUnpinned(files, later);
  }

  lemma StepWithinLimit(tools: Tools, s: State, op: Op, now: int)
    requires Valid(s) && WithinLimit(s) && !op.OpUnpin? && !op.OpReopen?
    ensures WithinLimit(Step(tools, s, op, now))
  {
    match op
    case OpCreate(d, isAuto) =>
      if s.config.Some? {
        CreateWithinLimit(tools, s, d, isAuto, now);
      }
    case OpCreatePinned(d) =>
      if s.config.Some? {
        CreateWithinLimit(tools, s, d, false, now);
        CreateStep(tools, s, d, false, now);
        PinFewerUnpinned(Create(tools, s, d, false, now).files, NextVersion(s.files));
      }
    case OpPin(v) => PinFewerUnpinned(s.files, v);
    case OpDelete(v) =>
      WithoutKeepsOrder(s.files, v);
      FewerUnpinned(s.files, Without(s.files, v));
    case OpSetMax(max) =>
      if max > 0 {
        SetMaxApplies(s, max);
      }
    case OpRestore(v, autoMigrate) =>
      if s.config.Some? && Find(s.files, v).Some? {
        CreateWithinLimit(tools, s, BEFORE_RESTORE, true, now);
      }
    case OpEdit(_) =>
  }

  /** From then on the limit holds through every run that neither unpins nor opens a new manager. */
  lemma {:induction false} RunWithinLimit(tools: Tools, s: State, ops: seq<Op>, clock: seq<int>)
    requires Valid(s) && WithinLimit(s) && |clock| == |ops|
    requires forall op :: op in ops ==> !op.OpUnpin? && !op.OpReopen?
    ensures WithinLimit(Run(tools, s, ops, clock))
    decreases |ops|
  {
    if ops != [] {
      assert ops[0] in ops;
      StepKeeps(tools, s, ops[0], clock[0]);
      StepWithinLimit(tools, s, ops[0], clock[0]);
      RunWithinLimit(tools, Step(tools, s, ops[0], clock[0]), ops[1..], clock[1..]);
    }
  }

  /** One deletion frees a number exactly when the newest backup is the one deleted. */
  lemma DeleteFreesVersionIff(s: State, version: int)
    requires Valid(s) && Find(s.files, version).Some?
    ensures var after := Without(s.files, version);
            NextVersion(after) <= version <==> version == s.files[|s.files| - 1].version
    ensures version != s.files[|s.files| - 1].version ==>
              NextVersion(Without(s.files, version)) == NextVersion(s.files)
  {
    FindNothingIff(s.files, version);
    LastAfterDelete(s.files, version);
    NextIsFresh(s.files);
    NextIsFresh(Without(s.files, version));
  }

  lemma LastAfterDelete(files: seq<Backup>, version: int)
    requires Ascending(files) && files != []
    ensures var after, last := Without(files, version), files[|files| - 1];
            Ascending(after)
            && (if version == last.version
                then after != [] ==> after[|after| - 1].version < version
                else after != [] && after[|after| - 1] == last)
  {
    var last, init := files[|files| - 1], files[..|files| - 1];
    assert Ascending(Without(files, version)) by {
      WithoutKeepsOrder(files, version);
    }
    if version == last.version {
      assert Without(files, version) == Without(init, version);
      OlderThan(files, Without(init, version), version);
    }
  }

  lemma OlderThan(files: seq<Backup>, after: seq<Backup>, version: int)
    requires Ascending(files) && files != [] && after == Without(files[..|files| - 1], version)
    ensures after != [] ==> after[|after| - 1].version < files[|files| - 1].version
  {
    var init := files[..|files| - 1];
    FilterMembers(init, (b: Backup) => b.version != version);
    if after != [] {
      var i :| 0 <= i < |init| && init[i] == after[|after| - 1];
      assert files[i].version < files[|files| - 1].version;
    }
  }

  // ----- How long an unpinned backup lasts -----

  ghost function NewerThan(files: seq<Backup>, version: int): set<Backup> {
    set x | x in files && !x.pinned && x.version > version
  }

  predicate SameApartFromPin(x: Backup, y: Backup) {
    x.(pinned := y.pinned) == y
  }

  ghost predicate Holds(files: seq<Backup>, b: Backup) {
    exists x :: x in files && SameApartFromPin(x, b)
  }

  /** An operation can add one unpinned backup by making it or by unpinning it. */
  function Cost(s: State, op: Op): nat {
    if Creates(s, op) || op.OpUnpin? then 1 else 0
  }

  ghost function Pressure(tools: Tools, s: State, ops: seq<Op>, clock: seq<int>): nat
    requires |clock| == |ops|
    decreases |ops|
  {
    if ops == [] then 0
    else Cost(s, ops[0]) + Pressure(tools, Step(tools, s, ops[0], clock[0]), ops[1..], clock[1..])
  }

  /** No operation brings the limit below `floor`. */
  ghost predicate LimitsStay(ops: seq<Op>, floor: int) {
    forall op :: op in ops ==> LimitStays(op, floor)
  }

  predicate LimitStays(op: Op, floor: int) {
    match op
    case OpSetMax(max) => max <= 0 || max >= floor
    case OpReopen(max) => Limit(max) >= floor
    case _ => true
  }

  lemma OneMore(xs: set<Backup>, ys: set<Backup>, extra: Backup)
    requires xs <= ys + {extra}
    ensures |xs| <= |ys| + 1
  {
    SubsetSize(xs, ys + {extra});
  }

  lemma {:induction false} SubsetSize(xs: set<Backup>, ys: set<Backup>)
    requires xs <= ys
    ensures |xs| <= |ys|
  {
    if xs != {} {
      var x :| x in xs;
      SubsetSize(xs - {x}, ys - {x});
    }
  }

  /** The files hold the backup, with at most `n` newer unpinned ones. */
  ghost predicate Ranked(files: seq<Backup>, b: Backup, n: int) {
    Holds(files, b) && |NewerThan(files, b.version)| <= n
  }

  lemma PruneRanked(files: seq<Backup>, max: int, b: Backup, n: int)
    requires Ascending(files) && Ranked(files, b, n) && n < max
    ensures Ranked(Prune(files, max), b, n)
  {
    PruneKeepsOrder(files, max);
    var x :| x in files && SameApartFromPin(x, b);
    assert Newer(files, x) == NewerThan(files, b.version);
    assert x in Prune(files, max);
    SubsetSize(NewerThan(Prune(files, max), b.version), NewerThan(files, b.version));
  }

  lemma AppendRanked(files: seq<Backup>, made: Backup, b: Backup, n: int)
    requires Ranked(files, b, n)
    ensures Ranked(files + [made], b, n + 1)
  {
    var x :| x in files && SameApartFromPin(x, b);
    assert x in files + [made];
    OneMore(NewerThan(files + [made], b.version), NewerThan(files, b.version), made);
  }

  lemma PinHolds(files: seq<Backup>, version: int, pinned: bool, b: Backup)
    requires Holds(files, b)
    ensures Holds(SetPinned(files, version, pinned), b)
  {
    var later := SetPinned(files, version, pinned);
    var x :| x in files && SameApartFromPin(x, b);
    var i :| 0 <= i < |files| && files[i] == x;
    assert later[i] in later && SameApartFromPin(later[i], b);
  }

  /** What is in the list after (un)pinning, other than the touched backup, was there before. */
  lemma PinUntouched(files: seq<Backup>, version: int, pinned: bool, y: Backup)
    requires y in SetPinned(files, version, pinned)
    ensures y.version != version ==> y in files
    ensures y.version == version ==> y.pinned == pinned
  {
  }

  lemma SameVersionSame(files: seq<Backup>, x: Backup, y: Backup)
    requires Ascending(files) && x in files && y in files && x.version == y.version
    ensures x == y
  {
  }

  lemma PinRanked(files: seq<Backup>, version: int, pinned: bool, b: Backup, n: int)
    requires Ascending(files) && Ranked(files, b, n)
    ensures Ranked(SetPinned(files, version, pinned), b, if pinned then n else n + 1)
  {
    var later := SetPinned(files, version, pinned);
    PinHolds(files, version, pinned, b);
    SetPinnedKeeps(files, version, pinned);
    PinCount(files, later, version, pinned, b.version);
  }

  lemma PinCount(files: seq<Backup>, later: seq<Backup>, version: int, pinned: bool, v: int)
    requires later == SetPinned(files, version, pinned) && Ascending(later)
    ensures |NewerThan(later, v)| <= |NewerThan(files, v)| + (if pinned then 0 else 1)
  {
    var now, before := NewerThan(later, v), NewerThan(files, v);
    forall y | y in now
      ensures y in before || (!pinned && y.version == version)
    {
      PinUntouched(files, version, pinned, y);
    }
    if now <= before {
      SubsetSize(now, before);
    } else {
      var y :| y in now && y !in before;
      forall z | z in now && z !in before
        ensures z == y
      {
        SameVersionSame(later, z, y);
      }
      OneMore(now, before, y);
    }
  }

  lemma DeleteRanked(files: seq<Backup>, version: int, b: Backup, n: int)
    requires Ascending(files) && Ranked(files, b, n) && version != b.version
    ensures Ranked(Without(files, version), b, n)
  {
    WithoutKeepsOrder(files, version);
    var x :| x in files && SameApartFromPin(x, b);
    assert x in Without(files, version);
    SubsetSize(NewerThan(Without(files, version), b.version), NewerThan(files, b.version));
  }

  lemma CreateRanked(
    tools: Tools, s: State, description: string, isAuto: bool, now: int, b: Backup, n: int)
    requires Valid(s) && Ranked(s.files, b, n) && s.config.Some? && n + 1 < s.max
    ensures Ranked(Create(tools, s, description, isAuto, now).files, b, n + 1)
  {
    var made := NewBackup(tools, s, s.config.value, description, isAuto, now);
    AppendFresh(s.files, made);
    AppendRanked(s.files, made, b, n);
    PruneRanked(s.files + [made], s.max, b, n + 1);
  }

  lemma StepRanked(tools: Tools, s: State, op: Op, now: int, b: Backup, n: int, floor: int)
    requires Valid(s) && Ranked(s.files, b, n) && s.max >= floor && LimitStays(op, floor)
    requires n + Cost(s, op) < floor && op != OpDelete(b.version)
    ensures Ranked(Step(tools, s, op, now).files, b, n + Cost(s, op))
    ensures Step(tools, s, op, now).max >= floor
  {
    match op
    case OpCreate(d, isAuto) =>
      if s.config.Some? {
        CreateRanked(tools, s, d, isAuto, now, b, n);
      }
    case OpCreatePinned(d) =>
      if s.config.Some? {
        CreateRanked(tools, s, d, false, now, b, n);
        CreateStep(tools, s, d, false, now);
        PinRanked(Create(tools, s, d, false, now).files, NextVersion(s.files), true, b, n + 1);
      }
    case OpPin(v) => PinRanked(s.files, v, true, b, n);
    case OpUnpin(v) => PinRanked(s.files, v, false, b, n);
    case OpDelete(v) => DeleteRanked(s.files, v, b, n);
    case OpSetMax(max) =>
      if max > 0 {
        PruneRanked(s.files, max, b, n);
      }
    case OpRestore(v, autoMigrate) =>
      if s.config.Some? && Find(s.files, v).Some? {
        CreateRanked(tools, s, BEFORE_RESTORE, true, now, b, n);
      }
    case OpEdit(_) =>
    case OpReopen(_) =>
  }

  /** A backup survives every run that does not delete it and in which the newer unpinned backups,
      those there are and those the run can add, stay fewer than the smallest limit in force. */
  lemma {:induction false} RecentSurvives(
    tools: Tools, s: State, ops: seq<Op>, clock: seq<int>, b: Backup, floor: int)
    requires Valid(s) && |clock| == |ops| && Holds(s.files, b)
    requires s.max >= floor && LimitsStay(ops, floor) && OpDelete(b.version) !in ops
    requires |NewerThan(s.files, b.version)| + Pressure(tools, s, ops, clock) < floor
    ensures Holds(Run(tools, s, ops, clock).files, b)
    decreases |ops|
  {
    if ops != [] {
      assert ops[0] in ops;
      var n := |NewerThan(s.files, b.version)|;
      StepRanked(tools, s, ops[0], clock[0], b, n, floor);
      StepKeeps(tools, s, ops[0], clock[0]);
      RecentSurvives(tools, Step(tools, s, ops[0], clock[0]), ops[1..], clock[1..], b, floor);
    }
  }

  // ----- Restoring -----

  /** Restoring writes the chosen backup's text even when the backup made just before prunes it,
      and the newest backup then holds what was replaced. */
  lemma RestoreIsExact(tools: Tools, s: State, version: int, autoMigrate: bool, now: int)
    requires Valid(s) && Find(s.files, version).Some?
    requires autoMigrate ==> Find(s.files, version).value.schema in ["", CURRENT_SCHEMA]
    ensures var s' := Restore(tools, s, version, autoMigrate, now);
            s'.config == Some(Find(s.files, version).value.content)
            && (s.config.Some? ==>
                  s'.files != [] && s'.files[|s'.files| - 1].content == s.config.value
                  && s'.files[|s'.files| - 1].version == Upcoming(s))
  {
    CreateStep(tools, s, BEFORE_RESTORE, true, now);
  }

  /** The replaced text stays within reach. During any run that makes and unpins together fewer
      backups than the smallest limit in force and does not delete the backup made before the
      restore, restoring that one brings the text back if its schema is the current one; otherwise
      it brings back the migrated text, if migration succeeds. With an empty run this is undoing a
      restore at once. */
  lemma RestoreIsUndoable(
    tools: Tools, s: State, version: int, now: int, ops: seq<Op>, clock: seq<int>, floor: nat,
    later: int)
    requires Valid(s) && s.config.Some? && Find(s.files, version).Some?
    requires |clock| == |ops| && s.max >= floor && LimitsStay(ops, floor)
    requires OpDelete(Upcoming(s)) !in ops
    requires Pressure(tools, Restore(tools, s, version, true, now), ops, clock) < floor
    ensures var s1 := Run(tools, Restore(tools, s, version, true, now), ops, clock);
            var s2 := Restore(tools, s1, Upcoming(s), true, later);
            s2.config == (if SchemaFor(tools, s.config.value) == CURRENT_SCHEMA then s.config
                          else if tools.upgrade(s.config.value).Some?
                            then tools.upgrade(s.config.value)
                          else s1.config)
  {
    var s0 := Restore(tools, s, version, true, now);
    var made := RestoreMakes(tools, s, version, now);
    RecentSurvives(tools, s0, ops, clock, made, floor);
    RunKeepsValid(tools, s0, ops, clock);
    HoldsFinds(Run(tools, s0, ops, clock).files, made);
  }

  lemma RestoreMakes(tools: Tools, s: State, version: int, now: int) returns (made: Backup)
    requires Valid(s) && s.config.Some? && Find(s.files, version).Some?
    ensures var s0 := Restore(tools, s, version, true, now);
            Valid(s0) && s0.max == s.max
            && Holds(s0.files, made) && NewerThan(s0.files, made.version) == {}
    ensures made.version == Upcoming(s) && made.content == s.config.value
    ensures made.schema == SchemaFor(tools, s.config.value)
  {
    CreateStep(tools, s, BEFORE_RESTORE, true, now);
    var files := Create(tools, s, BEFORE_RESTORE, true, now).files;
    made := files[|files| - 1];
    assert made in files && SameApartFromPin(made, made);
  }

  lemma HoldsFinds(files: seq<Backup>, b: Backup)
    requires Ascending(files) && Holds(files, b)
    ensures var found := Find(files, b.version);
            found.Some? && found.value.content == b.content && found.value.schema == b.schema
  {
  }

  /** Restoring keeps its own source exactly when that is pinned or still within the limit after
      the backup made first, if one is made at all. */
  lemma RestoreKeepsSourceIff(tools: Tools, s: State, version: int, autoMigrate: bool, now: int)
    requires Valid(s) && Find(s.files, version).Some?
    ensures var source := Find(s.files, version).value;
            source in Restore(tools, s, version, autoMigrate, now).files
            <==> s.config.None? || source.pinned || |Newer(s.files, source)| + 1 < s.max
  {
    FindNothingIff(s.files, version);
    var source := Find(s.files, version).value;
    if s.config.Some? {
      var made := NewBackup(tools, s, s.config.value, BEFORE_RESTORE, true, now);
      AppendFresh(s.files, made);
      PruneKeepsOrder(s.files + [made], s.max);
      RetainedAfterAppend(s.files, made, s.max, source);
    }
  }

  lemma RetainedAfterAppend(files: seq<Backup>, made: Backup, max: int, b: Backup)
    requires Ascending(files + [made]) && !made.pinned && b in files
    ensures Retained(files + [made], max, b) <==> b.pinned || |Newer(files, b)| + 1 < max
  {
    var all := files + [made];
    var i :| 0 <= i < |files| && files[i] == b;
    assert all[i].version < all[|files|].version;
    forall j | 0 <= j < |files|
      ensures files[j].version < made.version
    {
      assert all[j].version < all[|files|].version;
    }
    assert Newer(all, b) == Newer(files, b) + {made};
  }

  /** With a limit of one, restoring an unpinned backup always prunes it. */
  lemma RestoreMayPruneItsSource(tools: Tools, s: State, version: int, now: int)
    requires Valid(s) && s.config.Some? && s.max == 1
    requires Find(s.files, version).Some? && !Find(s.files, version).value.pinned
    ensures Find(s.files, version).value !in Restore(tools, s, version, true, now).files
  {
    RestoreKeepsSourceIff(tools, s, version, true, now);
  }
}
