/** The status view of a staged configuration against the running one
    (internal/api/config_diff.go). Five sections go through the same three loops, each with its
    own key; two items count as equal when their JSON texts are. */
module ConfigDiff {
  import opened Prelude
  import opened ConfigModel

  datatype Status = Live | PendingAdd | PendingEdit | PendingDelete

  datatype Item<T> = Item(value: T, status: Status)

  /** How a section identifies and compares its items. */
  datatype Codec<!T> = Codec(key: T -> string, json: T -> string)

  // ----- One section -----

  /** The lookup table the source builds: of items with equal keys the last one stays. */
  function KeyMap<T>(c: Codec<T>, xs: seq<T>): map<string, T> {
    if xs == [] then map[] else KeyMap(c, xs[..|xs| - 1])[c.key(xs[|xs| - 1]) := xs[|xs| - 1]]
  }

  function StatusOf<T>(c: Codec<T>, running: map<string, T>, x: T): Status {
    if c.key(x) !in running then PendingAdd
    else if c.json(running[c.key(x)]) == c.json(x) then Live
    else PendingEdit
  }

  function Statuses<T>(c: Codec<T>, staged: seq<T>, running: seq<T>): seq<Item<T>> {
    Map(staged, x => Item(x, StatusOf(c, KeyMap(c, running), x)))
  }

  function Gone<T>(c: Codec<T>, staged: seq<T>): T -> bool {
    x => c.key(x) !in KeyMap(c, staged)
  }

  function Deleted<T>(c: Codec<T>, staged: seq<T>, running: seq<T>): seq<Item<T>> {
    Map(Filter(running, Gone(c, staged)), x => Item(x, PendingDelete))
  }

  function Diff<T>(c: Codec<T>, staged: seq<T>, running: seq<T>): seq<Item<T>> {
    Statuses(c, staged, running) + Deleted(c, staged, running)
  }

  function AllPending<T>(xs: seq<T>): seq<Item<T>> {
    Map(xs, x => Item(x, PendingAdd))
  }

  predicate AnyPending<T>(items: seq<Item<T>>) {
    exists i :: 0 <= i < |items| && items[i].status != Live
  }

  method BuildMap<T>(c: Codec<T>, xs: seq<T>) returns (m: map<string, T>)
    ensures m == KeyMap(c, xs)
  {
    m := map[];
    for i := 0 to |xs|
      invariant m == KeyMap(c, xs[..i])
    {
      assert xs[..i + 1][..i] == xs[..i];
      m := m[c.key(xs[i]) := xs[i]];
    }
    assert xs[..|xs|] == xs;
  }

  method ComputeStatuses<T>(c: Codec<T>, staged: seq<T>, running: seq<T>)
    returns (result: seq<Item<T>>)
    ensures result == Statuses(c, staged, running)
  {
    var runningMap := BuildMap(c, running);
    result := [];
    for i := 0 to |staged|
      invariant result == Statuses(c, staged[..i], running)
    {
      var x := staged[i];
      assert Statuses(c, staged[..i + 1], running)
          == Statuses(c, staged[..i], running) + [Item(x, StatusOf(c, runningMap, x))];
      if c.key(x) in runningMap {
        if c.json(runningMap[c.key(x)]) == c.json(x) {
          result := result + [Item(x, Live)];
        } else {
          result := result + [Item(x, PendingEdit)];
        }
      } else {
        result := result + [Item(x, PendingAdd)];
      }
    }
    assert staged[..|staged|] == staged;
  }

  method FindDeleted<T>(c: Codec<T>, staged: seq<T>, running: seq<T>)
    returns (deleted: seq<Item<T>>)
    ensures deleted == Deleted(c, staged, running)
  {
    var stagedMap := BuildMap(c, staged);
    deleted := [];
    for i := 0 to |running|
      invariant deleted == Deleted(c, staged, running[..i])
    {
      assert running[..i + 1] == running[..i] + [running[i]];
      FilterSnoc(running[..i], running[i], Gone(c, staged));
      if c.key(running[i]) !in stagedMap {
        deleted := deleted + [Item(running[i], PendingDelete)];
      }
    }
    assert running[..|running|] == running;
  }

  method WrapAllPending<T>(xs: seq<T>) returns (result: seq<Item<T>>)
    ensures result == AllPending(xs)
  {
    result := [];
    for i := 0 to |xs|
      invariant result == AllPending(xs[..i])
    {
      result := result + [Item(xs[i], PendingAdd)];
    }
    assert xs[..|xs|] == xs;
  }

  method HasPending<T>(items: seq<Item<T>>) returns (found: bool)
    ensures found <==> AnyPending(items)
  {
    for i := 0 to |items|
      invariant forall j :: 0 <= j < i ==> items[j].status == Live
    {
      if items[i].status != Live {
        return true;
      }
    }
    return false;
  }

  /** Where a key occurs last in a list. */
  ghost predicate LastWith<T>(c: Codec<T>, xs: seq<T>, k: string, j: int) {
    0 <= j < |xs| && c.key(xs[j]) == k && forall i :: j < i < |xs| ==> c.key(xs[i]) != k
  }

  lemma {:induction false} KeyMapIsLast<T>(c: Codec<T>, xs: seq<T>, k: string)
    ensures k in KeyMap(c, xs) <==> exists j :: 0 <= j < |xs| && c.key(xs[j]) == k
    ensures forall j :: LastWith(c, xs, k, j) ==> k in KeyMap(c, xs) && KeyMap(c, xs)[k] == xs[j]
  {
    if xs != [] {
      var init, last := xs[..|xs| - 1], xs[|xs| - 1];
      KeyMapIsLast(c, init, k);
      assert forall j :: 0 <= j < |init| ==> init[j] == xs[j];
      forall j | LastWith(c, xs, k, j)
        ensures k in KeyMap(c, xs) && KeyMap(c, xs)[k] == xs[j]
      {
        if j < |init| {
          assert LastWith(c, init, k, j);
        }
      }
    }
  }

  /** What the statuses mean: a staged item is an addition when no running item has its key, and
      otherwise live or an edit as the last such item equals it or not; after the staged items come
      the deletions, one for each running item whose key is not staged. */
  lemma StatusMeans<T>(c: Codec<T>, staged: seq<T>, running: seq<T>, i: nat)
    requires i < |staged|
    ensures var item, k := Diff(c, staged, running)[i], c.key(staged[i]);
            item.value == staged[i]
            && (item.status == PendingAdd
                <==> forall j :: 0 <= j < |running| ==> c.key(running[j]) != k)
            && (forall j :: LastWith(c, running, k, j) ==>
                  item.status == if c.json(running[j]) == c.json(staged[i]) then Live
                                 else PendingEdit)
  {
    KeyMapIsLast(c, running, c.key(staged[i]));
  }

  predicate NotStaged<T>(c: Codec<T>, staged: seq<T>, x: T) {
    forall j :: 0 <= j < |staged| ==> c.key(staged[j]) != c.key(x)
  }

  /** And exactly the running items whose key is not staged follow as deletions, in order. */
  lemma DeletionsMean<T>(c: Codec<T>, staged: seq<T>, running: seq<T>)
    ensures var gone := Diff(c, staged, running)[|staged|..];
            Values(gone) == Filter(running, x => NotStaged(c, staged, x))
            && forall i :: 0 <= i < |gone| ==> gone[i].status == PendingDelete
  {
    forall x | x in running
      ensures Gone(c, staged)(x) == NotStaged(c, staged, x)
    {
      KeyMapIsLast(c, staged, c.key(x));
    }
    FilterSame(running, Gone(c, staged), x => NotStaged(c, staged, x));
    assert Diff(c, staged, running)[|staged|..] == Deleted(c, staged, running);
  }

  // ----- The diff is a patch -----

  ghost predicate DistinctKeys<T>(c: Codec<T>, xs: seq<T>) {
    forall i, j :: 0 <= i < j < |xs| ==> c.key(xs[i]) != c.key(xs[j])
  }

  predicate NotDeleted<T>(item: Item<T>) {
    item.status != PendingDelete
  }

  function Values<T>(items: seq<Item<T>>): seq<T> {
    Map(items, (item: Item<T>) => item.value)
  }

  /** Leaving out what will be deleted gives the staged list back, in order. */
  lemma DropDeletesGivesStaged<T>(c: Codec<T>, staged: seq<T>, running: seq<T>)
    ensures Values(Filter(Diff(c, staged, running), NotDeleted)) == staged
  {
    var kept, gone := Statuses(c, staged, running), Deleted(c, staged, running);
    FilterAppend(kept, gone, NotDeleted);
    FilterAll(kept, NotDeleted);
    FilterNone(gone, NotDeleted);
  }

  type JsonTable = map<string, string>

  function JsonOf<T>(c: Codec<T>, xs: seq<T>): JsonTable {
    map k | k in KeyMap(c, xs) :: c.json(KeyMap(c, xs)[k])
  }

  /** Carrying out one status on a table of items by key. */
  function Patch<T>(c: Codec<T>, table: JsonTable, item: Item<T>): JsonTable {
    match item.status
    case Live => table
    case PendingAdd => table[c.key(item.value) := c.json(item.value)]
    case PendingEdit => table[c.key(item.value) := c.json(item.value)]
    case PendingDelete => table - {c.key(item.value)}
  }

  function PatchAll<T>(c: Codec<T>, table: JsonTable, items: seq<Item<T>>): JsonTable {
    if items == [] then table
    else Patch(c, PatchAll(c, table, items[..|items| - 1]), items[|items| - 1])
  }

  lemma {:induction false} PatchAppend<T>(
    c: Codec<T>, table: JsonTable, xs: seq<Item<T>>, ys: seq<Item<T>>)
    ensures PatchAll(c, table, xs + ys) == PatchAll(c, PatchAll(c, table, xs), ys)
  {
    if ys == [] {
      assert xs + ys == xs;
    } else {
      PatchAppend(c, table, xs, ys[..|ys| - 1]);
      assert (xs + ys)[..|xs + ys| - 1] == xs + ys[..|ys| - 1];
    }
  }

  lemma {:induction false} KeyMapKeys<T>(c: Codec<T>, xs: seq<T>)
    ensures forall k :: k in KeyMap(c, xs) <==> exists i :: 0 <= i < |xs| && c.key(xs[i]) == k
    ensures forall k :: k in KeyMap(c, xs) ==>
              KeyMap(c, xs)[k] in xs && c.key(KeyMap(c, xs)[k]) == k
  {
    if xs != [] {
      var init, last := xs[..|xs| - 1], xs[|xs| - 1];
      KeyMapKeys(c, init);
      assert forall i :: 0 <= i < |init| ==> xs[i] == init[i];
    }
  }

  lemma {:induction false} KeyMapFinds<T>(c: Codec<T>, xs: seq<T>, i: nat)
    requires DistinctKeys(c, xs) && i < |xs|
    ensures c.key(xs[i]) in KeyMap(c, xs) && KeyMap(c, xs)[c.key(xs[i])] == xs[i]
  {
    if i < |xs| - 1 {
      KeyMapFinds(c, xs[..|xs| - 1], i);
    }
  }

  /** An item of the list carries key `k` and a text other than `json`. */
  ghost predicate HasOther<T>(c: Codec<T>, xs: seq<T>, k: string, json: string) {
    exists i :: 0 <= i < |xs| && c.key(xs[i]) == k && c.json(xs[i]) != json
  }

  /** The table entry at `k` once the statuses of the staged items are carried out: the last
      staged item wins, except that a live item leaves an earlier edit of its key in place. */
  ghost predicate PatchedAt<T>(
    c: Codec<T>, table: JsonTable, staged: seq<T>, running: seq<T>, k: string)
  {
    var before, after := JsonOf(c, running), JsonOf(c, staged);
    (k in table <==> k in before || k in after)
    && (k in before && !HasOther(c, staged, k, before[k]) ==> table[k] == before[k])
    && (k in after && !(k in before && before[k] == after[k]) ==> table[k] == after[k])
    && (k in after && k in before && HasOther(c, staged, k, before[k]) ==> table[k] != before[k])
  }

  lemma HasOtherSnoc<T>(c: Codec<T>, xs: seq<T>, k: string, json: string)
    requires xs != []
    ensures HasOther(c, xs, k, json)
        <==> HasOther(c, xs[..|xs| - 1], k, json)
             || (c.key(xs[|xs| - 1]) == k && c.json(xs[|xs| - 1]) != json)
  {
  }

  lemma JsonOfSnoc<T>(c: Codec<T>, xs: seq<T>)
    requires xs != []
    ensures var last := xs[|xs| - 1];
            JsonOf(c, xs) == JsonOf(c, xs[..|xs| - 1])[c.key(last) := c.json(last)]
  {
  }

  lemma {:induction false} PatchStagedAt<T>(c: Codec<T>, staged: seq<T>, running: seq<T>, k: string)
    ensures PatchedAt(c, PatchAll(c, JsonOf(c, running), Statuses(c, staged, running)), staged,
                      running, k)
  {
    var before := JsonOf(c, running);
    if staged != [] {
      var init := staged[..|staged| - 1];
      PatchStagedAt(c, init, running, k);
      var items := Statuses(c, staged, running);
      assert items[..|items| - 1] == Statuses(c, init, running);
      JsonOfSnoc(c, staged);
      KeyMapKeys(c, init);
      if k in before {
        HasOtherSnoc(c, staged, k, before[k]);
      }
    }
  }

  lemma {:induction false} PatchDeletes<T>(
    c: Codec<T>, table: JsonTable, staged: seq<T>, running: seq<T>)
    ensures PatchAll(c, table, Deleted(c, staged, running))
         == map k | k in table && !(exists i :: 0 <= i < |running| && c.key(running[i]) == k
                                                && Gone(c, staged)(running[i])) :: table[k]
  {
    if running != [] {
      var init, last := running[..|running| - 1], running[|running| - 1];
      PatchDeletes(c, table, staged, init);
      var items := Deleted(c, staged, running);
      assert forall i :: 0 <= i < |init| ==> running[i] == init[i];
      if Gone(c, staged)(last) {
        assert items[..|items| - 1] == Deleted(c, staged, init);
      } else {
        assert items == Deleted(c, staged, init);
      }
    }
  }

  /** A staged item equal to the running one follows a different staged item of the same key. */
  ghost predicate EditHidden<T>(c: Codec<T>, staged: seq<T>, running: seq<T>, k: string) {
    var before, after := JsonOf(c, running), JsonOf(c, staged);
    k in before && k in after && before[k] == after[k] && HasOther(c, staged, k, before[k])
  }

  lemma PatchedAtAll<T>(c: Codec<T>, table: JsonTable, staged: seq<T>, running: seq<T>)
    requires forall k :: PatchedAt(c, table, staged, running, k)
    ensures var after := JsonOf(c, staged);
            (forall k :: k in after ==>
                k in table && (table[k] == after[k] <==> !EditHidden(c, staged, running, k)))
            && (forall k :: k in table ==> k in JsonOf(c, running) || k in after)
  {
    forall k
      ensures var after := JsonOf(c, staged);
              (k in after ==>
                 k in table && (table[k] == after[k] <==> !EditHidden(c, staged, running, k)))
              && (k in table ==> k in JsonOf(c, running) || k in after)
    {
      assert PatchedAt(c, table, staged, running, k);
    }
  }

  /** Carrying out all statuses on the table of running items, which holds the last item of each
      key, yields the table of the staged ones exactly when no staged edit is hidden by a later
      item of the same key. */
  lemma DiffIsPatchIff<T>(c: Codec<T>, staged: seq<T>, running: seq<T>)
    ensures PatchAll(c, JsonOf(c, running), Diff(c, staged, running)) == JsonOf(c, staged)
        <==> forall k :: !EditHidden(c, staged, running, k)
  {
    var before, after := JsonOf(c, running), JsonOf(c, staged);
    var items, gone := Statuses(c, staged, running), Deleted(c, staged, running);
    var table := PatchAll(c, before, items);
    var final := PatchAll(c, before, Diff(c, staged, running));
    PatchAppend(c, before, items, gone);
    forall k
      ensures PatchedAt(c, table, staged, running, k)
    {
      PatchStagedAt(c, staged, running, k);
    }
    PatchedAtAll(c, table, staged, running);
    PatchDeletes(c, table, staged, running);
    KeyMapKeys(c, running);
    assert final.Keys == after.Keys;
    assert forall k :: k in after ==> final[k] == table[k];
    assert (forall k :: !EditHidden(c, staged, running, k))
      <==> forall k :: k in after ==> final[k] == after[k];
  }

  /** In particular when the staged keys are distinct. */
  lemma DiffIsPatch<T>(c: Codec<T>, staged: seq<T>, running: seq<T>)
    requires DistinctKeys(c, staged)
    ensures PatchAll(c, JsonOf(c, running), Diff(c, staged, running)) == JsonOf(c, staged)
  {
    forall i: nat | i < |staged|
      ensures var k := c.key(staged[i]);
              k in JsonOf(c, staged) && JsonOf(c, staged)[k] == c.json(staged[i])
    {
      KeyMapFinds(c, staged, i);
    }
    DiffIsPatchIff(c, staged, running);
  }

  /** An instance: of two staged items with one key the first is an edit, and the second equals the
      running item, so the edit stays behind. */
  lemma HiddenEdit<T>(c: Codec<T>, a: T, b: T)
    requires c.key(a) == c.key(b) && c.json(a) != c.json(b)
    ensures PatchAll(c, JsonOf(c, [b]), Diff(c, [a, b], [b])) != JsonOf(c, [a, b])
  {
    TwoOfOneKey(c, a, b);
    assert c.key([a, b][0]) == c.key(b) && c.json([a, b][0]) != c.json(b);
    assert EditHidden(c, [a, b], [b], c.key(b));
    DiffIsPatchIff(c, [a, b], [b]);
  }

  lemma TwoOfOneKey<T>(c: Codec<T>, a: T, b: T)
    requires c.key(a) == c.key(b)
    ensures KeyMap(c, [b]) == map[c.key(b) := b] && KeyMap(c, [a, b]) == map[c.key(b) := b]
  {
  }

  // ----- Carrying the statuses out item by item -----

  function WithKey<T>(c: Codec<T>, k: string): T -> bool {
    x => c.key(x) == k
  }

  /** What one status leaves of the running items: a live one leaves all of its key as they are. */
  function Carried<T>(c: Codec<T>, running: seq<T>, item: Item<T>): seq<T> {
    match item.status
    case Live => Filter(running, WithKey(c, c.key(item.value)))
    case PendingAdd => [item.value]
    case PendingEdit => [item.value]
    case PendingDelete => []
  }

  function CarryOut<T>(c: Codec<T>, running: seq<T>, items: seq<Item<T>>): seq<T> {
    if items == [] then []
    else
      CarryOut(c, running, items[..|items| - 1]) + Carried(c, running, items[|items| - 1])
  }

  /** The item is reported as live although several running items carry its key. */
  predicate HidesDeletion<T>(c: Codec<T>, running: seq<T>, x: T) {
    StatusOf(c, KeyMap(c, running), x) == Live
    && |Filter(running, WithKey(c, c.key(x)))| > 1
  }

  lemma {:induction false} CarryDeletes<T>(
    c: Codec<T>, running: seq<T>, kept: seq<Item<T>>, gone: seq<Item<T>>)
    requires forall i :: 0 <= i < |gone| ==> gone[i].status == PendingDelete
    ensures CarryOut(c, running, kept + gone) == CarryOut(c, running, kept)
    decreases |gone|
  {
    if gone == [] {
      assert kept + gone == kept;
    } else {
      var init := gone[..|gone| - 1];
      CarryDeletes(c, running, kept, init);
      assert (kept + gone)[..|kept + gone| - 1] == kept + init;
      assert CarryOut(c, running, kept + init) + [] == CarryOut(c, running, kept + init);
    }
  }

  lemma CarriedOne<T>(c: Codec<T>, running: seq<T>, x: T)
    ensures var left := Carried(c, running, Item(x, StatusOf(c, KeyMap(c, running), x)));
            if HidesDeletion(c, running, x) then |left| > 1
            else |left| == 1 && c.json(left[0]) == c.json(x)
  {
  }

  ghost predicate SomeHidden<T>(c: Codec<T>, running: seq<T>, staged: seq<T>) {
    exists i :: 0 <= i < |staged| && HidesDeletion(c, running, staged[i])
  }

  lemma SomeHiddenSnoc<T>(c: Codec<T>, running: seq<T>, init: seq<T>, last: T)
    ensures SomeHidden(c, running, init + [last])
        <==> SomeHidden(c, running, init) || HidesDeletion(c, running, last)
  {
    var all := init + [last];
    assert forall i :: 0 <= i < |init| ==> all[i] == init[i];
    assert all[|init|] == last;
  }

  lemma {:induction false} CarryStaged<T>(c: Codec<T>, staged: seq<T>, running: seq<T>)
    ensures var left := CarryOut(c, running, Statuses(c, staged, running));
            |left| >= |staged|
            && (if SomeHidden(c, running, staged) then |left| > |staged|
                else Jsons(c, left) == Jsons(c, staged))
  {
    if staged != [] {
      var init, last := staged[..|staged| - 1], staged[|staged| - 1];
      var items := Statuses(c, staged, running);
      CarryStaged(c, init, running);
      CarriedOne(c, running, last);
      assert items[..|items| - 1] == Statuses(c, init, running);
      assert staged == init + [last];
      SomeHiddenSnoc(c, running, init, last);
    }
  }

  /** Carried out item by item, the statuses turn the running items into the staged ones exactly
      when no staged item is reported as live while several running items carry its key. */
  lemma DiffRebuildsStagedIff<T>(c: Codec<T>, staged: seq<T>, running: seq<T>)
    ensures SameItems(c, CarryOut(c, running, Diff(c, staged, running)), staged)
        <==> !SomeHidden(c, running, staged)
  {
    var left := CarryOut(c, running, Diff(c, staged, running));
    CarryDeletes(c, running, Statuses(c, staged, running), Deleted(c, staged, running));
    CarryStaged(c, staged, running);
    if SameItems(c, left, staged) {
      SameItemsSameSize(c, left, staged);
    }
  }

  // ----- When nothing is pending -----

  /** The JSON text contains the key fields. */
  ghost predicate Faithful<T(!new)>(c: Codec<T>) {
    forall x, y :: c.json(x) == c.json(y) ==> c.key(x) == c.key(y)
  }

  function Jsons<T>(c: Codec<T>, xs: seq<T>): seq<string> {
    Map(xs, c.json)
  }

  lemma {:induction false} MultisetOfDistinct(xs: seq<string>, v: string)
    requires Distinct(xs)
    ensures multiset(xs)[v] == if v in xs then 1 else 0
  {
    if xs != [] {
      var init, last := xs[..|xs| - 1], xs[|xs| - 1];
      MultisetOfDistinct(init, v);
      assert xs == init + [last];
    }
  }

  lemma SameElementsSameMultiset(xs: seq<string>, ys: seq<string>)
    requires Distinct(xs) && Distinct(ys)
    ensures multiset(xs) == multiset(ys) <==> forall v :: v in xs <==> v in ys
  {
    forall v
      ensures multiset(xs)[v] == (if v in xs then 1 else 0)
      ensures multiset(ys)[v] == (if v in ys then 1 else 0)
    {
      MultisetOfDistinct(xs, v);
      MultisetOfDistinct(ys, v);
    }
    if multiset(xs) == multiset(ys) {
      forall v
        ensures v in xs <==> v in ys
      {
        assert multiset(xs)[v] == multiset(ys)[v];
      }
    }
  }

  lemma QuietMeans<T>(c: Codec<T>, staged: seq<T>, running: seq<T>)
    ensures !AnyPending(Diff(c, staged, running))
        <==> (forall i :: 0 <= i < |staged| ==> StatusOf(c, KeyMap(c, running), staged[i]) == Live)
             && (forall i :: 0 <= i < |running| ==> c.key(running[i]) in KeyMap(c, staged))
  {
    var items, kept, gone :=
      Diff(c, staged, running), Statuses(c, staged, running), Deleted(c, staged, running);
    FilterMembers(running, Gone(c, staged));
    assert forall i :: 0 <= i < |kept| ==> items[i] == kept[i];
    assert forall i :: 0 <= i < |gone| ==> items[|kept| + i] == gone[i];
    if forall i :: 0 <= i < |running| ==> c.key(running[i]) in KeyMap(c, staged) {
      FilterNone(running, Gone(c, staged));
    } else {
      var i :| 0 <= i < |running| && c.key(running[i]) !in KeyMap(c, staged);
      assert running[i] in Filter(running, Gone(c, staged));
      assert gone[0].status == PendingDelete;
    }
  }

  /** Items that share a key are equal. */
  ghost predicate KeyDecides<T>(c: Codec<T>, xs: seq<T>) {
    forall i, j :: 0 <= i < |xs| && 0 <= j < |xs| && c.key(xs[i]) == c.key(xs[j])
                   ==> c.json(xs[i]) == c.json(xs[j])
  }

  /** Whether the table of the running items holds the item. */
  predicate HeldBy<T>(c: Codec<T>, table: JsonTable, x: T) {
    c.key(x) in table && table[c.key(x)] == c.json(x)
  }

  lemma LiveIffHeld<T>(c: Codec<T>, running: seq<T>, x: T)
    ensures StatusOf(c, KeyMap(c, running), x) == Live <==> HeldBy(c, JsonOf(c, running), x)
  {
  }

  /** Every table entry is the text of an item with that key, and every item's key has an entry. */
  lemma TableEntry<T>(c: Codec<T>, xs: seq<T>, k: string)
    ensures k in JsonOf(c, xs) <==> exists i :: 0 <= i < |xs| && c.key(xs[i]) == k
    ensures k in JsonOf(c, xs) ==> exists i :: 0 <= i < |xs| && c.key(xs[i]) == k
                                               && c.json(xs[i]) == JsonOf(c, xs)[k]
  {
    KeyMapKeys(c, xs);
    if k in JsonOf(c, xs) {
      var i :| 0 <= i < |xs| && xs[i] == KeyMap(c, xs)[k];
    }
  }

  /** Nothing is pending exactly when staged items that share a key are equal and both lists give
      the same table by key; of running items that share a key only the last one counts. */
  lemma QuietIff<T>(c: Codec<T>, staged: seq<T>, running: seq<T>)
    ensures !AnyPending(Diff(c, staged, running))
        <==> KeyDecides(c, staged) && JsonOf(c, staged) == JsonOf(c, running)
  {
    var before, after := JsonOf(c, running), JsonOf(c, staged);
    QuietMeans(c, staged, running);
    if KeyDecides(c, staged) && after == before {
      forall i | 0 <= i < |staged|
        ensures StatusOf(c, KeyMap(c, running), staged[i]) == Live
      {
        TableEntry(c, staged, c.key(staged[i]));
        LiveIffHeld(c, running, staged[i]);
      }
      forall i | 0 <= i < |running|
        ensures c.key(running[i]) in KeyMap(c, staged)
      {
        TableEntry(c, running, c.key(running[i]));
      }
    }
    if !AnyPending(Diff(c, staged, running)) {
      forall i | 0 <= i < |staged|
        ensures HeldBy(c, before, staged[i])
      {
        LiveIffHeld(c, running, staged[i]);
      }
      HeldAll(c, staged, running);
    }
  }

  lemma HeldAll<T>(c: Codec<T>, staged: seq<T>, running: seq<T>)
    requires forall i :: 0 <= i < |staged| ==> HeldBy(c, JsonOf(c, running), staged[i])
    requires forall i :: 0 <= i < |running| ==> c.key(running[i]) in KeyMap(c, staged)
    ensures KeyDecides(c, staged) && JsonOf(c, staged) == JsonOf(c, running)
  {
    var before, after := JsonOf(c, running), JsonOf(c, staged);
    forall k
      ensures k in before <==> k in after
      ensures k in before && k in after ==> before[k] == after[k]
    {
      TableEntry(c, running, k);
      TableEntry(c, staged, k);
    }
  }

  /** So the staged configuration can drop a running item without any status showing it: the
      earlier of two running items that share a key is not seen. */
  lemma HiddenDeletion<T>(c: Codec<T>, a: T, b: T)
    requires c.key(a) == c.key(b) && c.json(a) != c.json(b)
    ensures !AnyPending(Diff(c, [b], [a, b]))
    ensures multiset(Jsons(c, [b])) != multiset(Jsons(c, [a, b]))
  {
    TwoOfOneKey(c, a, b);
    QuietIff(c, [b], [a, b]);
    assert |multiset(Jsons(c, [b]))| == 1 && |multiset(Jsons(c, [a, b]))| == 2;
  }

  // ----- When the absence of statuses means the absence of changes -----

  lemma JsonFinds<T>(c: Codec<T>, xs: seq<T>, i: nat)
    requires DistinctKeys(c, xs) && i < |xs|
    ensures HeldBy(c, JsonOf(c, xs), xs[i])
  {
    KeyMapFinds(c, xs, i);
  }

  lemma TextsInTable<T>(c: Codec<T>, xs: seq<T>, ys: seq<T>)
    requires DistinctKeys(c, xs) && JsonOf(c, xs) == JsonOf(c, ys)
    ensures forall v :: v in Jsons(c, xs) ==> v in Jsons(c, ys)
  {
    forall i: nat | i < |xs|
      ensures Jsons(c, xs)[i] in Jsons(c, ys)
    {
      JsonFinds(c, xs, i);
      TableEntry(c, ys, c.key(xs[i]));
      var j :| 0 <= j < |ys| && c.key(ys[j]) == c.key(xs[i])
               && c.json(ys[j]) == JsonOf(c, ys)[c.key(xs[i])];
      assert Jsons(c, ys)[j] == c.json(xs[i]);
    }
  }

  lemma TableInTexts<T(!new)>(c: Codec<T>, xs: seq<T>, ys: seq<T>, k: string)
    requires DistinctKeys(c, ys) && Faithful(c) && k in JsonOf(c, xs)
    requires forall v :: v in Jsons(c, xs) ==> v in Jsons(c, ys)
    ensures k in JsonOf(c, ys) && JsonOf(c, ys)[k] == JsonOf(c, xs)[k]
  {
    TableEntry(c, xs, k);
    var i :| 0 <= i < |xs| && c.key(xs[i]) == k && c.json(xs[i]) == JsonOf(c, xs)[k];
    assert Jsons(c, xs)[i] in Jsons(c, ys);
    var j :| 0 <= j < |ys| && Jsons(c, ys)[j] == Jsons(c, xs)[i];
    JsonFinds(c, ys, j);
  }

  lemma JsonsDistinct<T(!new)>(c: Codec<T>, xs: seq<T>)
    requires DistinctKeys(c, xs) && Faithful(c)
    ensures Distinct(Jsons(c, xs))
  {
  }

  lemma SameTableIffSameItems<T(!new)>(c: Codec<T>, xs: seq<T>, ys: seq<T>)
    requires DistinctKeys(c, xs) && DistinctKeys(c, ys) && Faithful(c)
    ensures JsonOf(c, xs) == JsonOf(c, ys) <==> multiset(Jsons(c, xs)) == multiset(Jsons(c, ys))
  {
    JsonsDistinct(c, xs);
    JsonsDistinct(c, ys);
    SameElementsSameMultiset(Jsons(c, xs), Jsons(c, ys));
    if JsonOf(c, xs) == JsonOf(c, ys) {
      TextsInTable(c, xs, ys);
      TextsInTable(c, ys, xs);
    } else if multiset(Jsons(c, xs)) == multiset(Jsons(c, ys)) {
      SameTexts(c, xs, ys);
    }
  }

  lemma SameTexts<T(!new)>(c: Codec<T>, xs: seq<T>, ys: seq<T>)
    requires DistinctKeys(c, xs) && DistinctKeys(c, ys) && Faithful(c)
    requires forall v :: v in Jsons(c, xs) <==> v in Jsons(c, ys)
    ensures JsonOf(c, xs) == JsonOf(c, ys)
  {
    forall k
      ensures k in JsonOf(c, xs) ==> k in JsonOf(c, ys) && JsonOf(c, ys)[k] == JsonOf(c, xs)[k]
      ensures k in JsonOf(c, ys) ==> k in JsonOf(c, xs)
    {
      if k in JsonOf(c, xs) { TableInTexts(c, xs, ys, k); }
      if k in JsonOf(c, ys) { TableInTexts(c, ys, xs, k); }
    }
  }

  /** With distinct keys on both sides, nothing is pending exactly when both lists hold the same
      items, in whatever order. */
  lemma QuietIffSameItems<T(!new)>(c: Codec<T>, staged: seq<T>, running: seq<T>)
    requires DistinctKeys(c, staged) && DistinctKeys(c, running) && Faithful(c)
    ensures !AnyPending(Diff(c, staged, running))
        <==> multiset(Jsons(c, staged)) == multiset(Jsons(c, running))
  {
    QuietIff(c, staged, running);
    SameTableIffSameItems(c, staged, running);
  }

  /** The last item of each key, in order. */
  function Lasts<T>(c: Codec<T>, xs: seq<T>): seq<T> {
    if xs == [] then []
    else
      var last := xs[|xs| - 1];
      Filter(Lasts(c, xs[..|xs| - 1]), OtherKey(c, c.key(last))) + [last]
  }

  function OtherKey<T>(c: Codec<T>, k: string): T -> bool {
    x => c.key(x) != k
  }

  lemma KeyMapSnoc<T>(c: Codec<T>, xs: seq<T>, x: T)
    ensures KeyMap(c, xs + [x]) == KeyMap(c, xs)[c.key(x) := x]
  {
    assert (xs + [x])[..|xs|] == xs;
  }

  lemma CutTable<T>(table: map<string, T>, k: string, other: string, x: T)
    ensures table[k := x] - {k} == table - {k}
    ensures other != k ==> (table - {k})[other := x] == table[other := x] - {k}
  {
  }

  lemma {:induction false} KeyMapFilter<T>(c: Codec<T>, xs: seq<T>, k: string)
    ensures KeyMap(c, Filter(xs, OtherKey(c, k))) == KeyMap(c, xs) - {k}
  {
    if xs != [] {
      var init, last := xs[..|xs| - 1], xs[|xs| - 1];
      KeyMapFilter(c, init, k);
      KeyMapFilterStep(c, init, last, k, Filter(init, OtherKey(c, k)));
      assert init + [last] == xs;
      KeyMapSnoc(c, init, last);
    }
  }

  lemma KeyMapFilterStep<T>(c: Codec<T>, init: seq<T>, last: T, k: string, rest: seq<T>)
    requires rest == Filter(init, OtherKey(c, k)) && KeyMap(c, rest) == KeyMap(c, init) - {k}
    ensures KeyMap(c, Filter(init + [last], OtherKey(c, k)))
         == KeyMap(c, init)[c.key(last) := last] - {k}
  {
    FilterSnoc(init, last, OtherKey(c, k));
    CutTable(KeyMap(c, init), k, c.key(last), last);
    if c.key(last) == k {
      assert rest + [] == rest;
    } else {
      KeyMapSnoc(c, rest, last);
    }
  }

  ghost predicate KeyAbsent<T>(c: Codec<T>, xs: seq<T>, k: string) {
    forall i :: 0 <= i < |xs| ==> c.key(xs[i]) != k
  }

  lemma DistinctSnoc<T>(c: Codec<T>, xs: seq<T>, x: T)
    ensures DistinctKeys(c, xs + [x]) <==> DistinctKeys(c, xs) && KeyAbsent(c, xs, c.key(x))
  {
    var all := xs + [x];
    assert forall i :: 0 <= i < |xs| ==> all[i] == xs[i];
    assert all[|xs|] == x;
  }

  lemma FilterKeepsAbsent<T>(c: Codec<T>, xs: seq<T>, p: T -> bool, k: string)
    requires forall x :: x in xs && p(x) ==> c.key(x) != k
    ensures KeyAbsent(c, Filter(xs, p), k)
  {
  }

  lemma {:induction false} FilterKeepsDistinct<T>(c: Codec<T>, xs: seq<T>, p: T -> bool)
    requires DistinctKeys(c, xs)
    ensures DistinctKeys(c, Filter(xs, p))
  {
    if xs != [] {
      var init, last := xs[..|xs| - 1], xs[|xs| - 1];
      FilterKeepsDistinct(c, init, p);
      if p(last) {
        forall x | x in init && p(x)
          ensures c.key(x) != c.key(last)
        {
          var i :| 0 <= i < |init| && init[i] == x;
          assert xs[i] == x;
        }
        FilterKeepsAbsent(c, init, p, c.key(last));
        DistinctSnoc(c, Filter(init, p), last);
      } else {
        assert Filter(init, p) + [] == Filter(init, p);
      }
    }
  }

  lemma {:induction false} FilterDrops<T>(xs: seq<T>, p: T -> bool, x: T)
    requires x in xs && !p(x)
    ensures |Filter(xs, p)| < |xs|
  {
    var init, last := xs[..|xs| - 1], xs[|xs| - 1];
    FilterMembers(init, p);
    if p(last) {
      assert xs == init + [last];
      FilterDrops(init, p, x);
    }
  }

  lemma {:induction false} LastsDistinct<T>(c: Codec<T>, xs: seq<T>)
    ensures DistinctKeys(c, Lasts(c, xs))
  {
    if xs != [] {
      var before, last := Lasts(c, xs[..|xs| - 1]), xs[|xs| - 1];
      LastsDistinct(c, xs[..|xs| - 1]);
      FilterKeepsAbsent(c, before, OtherKey(c, c.key(last)), c.key(last));
      FilterKeepsDistinct(c, before, OtherKey(c, c.key(last)));
      DistinctSnoc(c, Filter(before, OtherKey(c, c.key(last))), last);
    }
  }

  lemma {:induction false} LastsTable<T>(c: Codec<T>, xs: seq<T>)
    ensures KeyMap(c, Lasts(c, xs)) == KeyMap(c, xs)
  {
    if xs != [] {
      var before, last := Lasts(c, xs[..|xs| - 1]), xs[|xs| - 1];
      LastsTable(c, xs[..|xs| - 1]);
      KeyMapFilter(c, before, c.key(last));
      var rest := Filter(before, OtherKey(c, c.key(last)));
      assert (rest + [last])[..|rest|] == rest;
    }
  }

  lemma {:induction false} LastsFewer<T>(c: Codec<T>, xs: seq<T>)
    ensures |Lasts(c, xs)| <= |xs|
    ensures |Lasts(c, xs)| == |xs| ==> DistinctKeys(c, xs)
  {
    if xs != [] {
      var init, last := xs[..|xs| - 1], xs[|xs| - 1];
      LastsFewer(c, init);
      LastsOfMore(c, init, c.key(last));
      DistinctSnoc(c, init, last);
      assert init + [last] == xs;
    }
  }

  lemma LastsOfMore<T>(c: Codec<T>, init: seq<T>, k: string)
    ensures var rest := Filter(Lasts(c, init), OtherKey(c, k));
            |rest| <= |Lasts(c, init)|
            && (|rest| == |Lasts(c, init)| ==> KeyAbsent(c, init, k))
  {
    var before := Lasts(c, init);
    FilterMembers(before, OtherKey(c, k));
    KeyMapKeys(c, init);
    if k in KeyMap(c, init) {
      LastsTable(c, init);
      KeyMapKeys(c, before);
      FilterDrops(before, OtherKey(c, k), KeyMap(c, before)[k]);
    }
  }

  lemma DistinctDecides<T>(c: Codec<T>, xs: seq<T>)
    requires DistinctKeys(c, xs)
    ensures KeyDecides(c, xs)
  {
  }

  lemma LastsAreQuiet<T>(c: Codec<T>, running: seq<T>)
    ensures !AnyPending(Diff(c, Lasts(c, running), running))
  {
    LastsDistinct(c, running);
    LastsTable(c, running);
    DistinctDecides(c, Lasts(c, running));
    QuietIff(c, Lasts(c, running), running);
  }

  lemma SameItemsSameSize<T>(c: Codec<T>, xs: seq<T>, ys: seq<T>)
    requires multiset(Jsons(c, xs)) == multiset(Jsons(c, ys))
    ensures |xs| == |ys|
  {
    assert |multiset(Jsons(c, xs))| == |xs| && |multiset(Jsons(c, ys))| == |ys|;
  }

  /** Both lists hold the same items, in whatever order. */
  ghost predicate SameItems<T>(c: Codec<T>, xs: seq<T>, ys: seq<T>) {
    multiset(Jsons(c, xs)) == multiset(Jsons(c, ys))
  }

  lemma LastsTell<T>(c: Codec<T>, running: seq<T>)
    ensures DistinctKeys(c, Lasts(c, running)) && !AnyPending(Diff(c, Lasts(c, running), running))
    ensures SameItems(c, Lasts(c, running), running) ==> DistinctKeys(c, running)
  {
    LastsDistinct(c, running);
    LastsFewer(c, running);
    LastsAreQuiet(c, running);
    if SameItems(c, Lasts(c, running), running) {
      SameItemsSameSize(c, Lasts(c, running), running);
    }
  }

  /** No status means no change for every well-keyed staged list exactly when the running keys are
      distinct. */
  lemma QuietTellsAllIff<T(!new)>(c: Codec<T>, running: seq<T>)
    requires Faithful(c)
    ensures (forall staged :: DistinctKeys(c, staged) && !AnyPending(Diff(c, staged, running))
                              ==> SameItems(c, staged, running))
        <==> DistinctKeys(c, running)
  {
    if DistinctKeys(c, running) {
      forall staged | DistinctKeys(c, staged) && !AnyPending(Diff(c, staged, running))
        ensures SameItems(c, staged, running)
      {
        QuietIffSameItems(c, staged, running);
      }
    } else {
      LastsTell(c, running);
    }
  }

  /** An unchanged list is reported as unchanged exactly when items that share a key are equal. */
  lemma UnchangedIsQuietIff<T>(c: Codec<T>, xs: seq<T>)
    ensures !AnyPending(Diff(c, xs, xs)) <==> KeyDecides(c, xs)
  {
    QuietIff(c, xs, xs);
  }

  /** The branch for a missing running configuration agrees with diffing against an empty one. */
  lemma NilRunningIsEmptyRunning<T>(c: Codec<T>, staged: seq<T>)
    ensures AllPending(staged) == Diff(c, staged, [])
    ensures AnyPending(AllPending(staged)) <==> staged != []
  {
    if staged != [] {
      assert AllPending(staged)[0].status == PendingAdd;
    }
  }

  // ----- All five sections -----

  datatype NATRule = NATRule(name: string, body: string)
  datatype IPSet = IPSet(name: string, body: string)
  datatype Route = Route(destination: string, body: string)

  datatype Config = Config(
    policies: seq<Policy>, natRules: seq<NATRule>, zones: seq<Zone>, ipsets: seq<IPSet>,
    routes: seq<Route>)

  datatype ConfigWithStatus = ConfigWithStatus(
    policies: seq<Item<Policy>>, natRules: seq<Item<NATRule>>, zones: seq<Item<Zone>>,
    ipsets: seq<Item<IPSet>>, routes: seq<Item<Route>>, hasPendingChanges: bool)

  /** The JSON marshaller, per section. */
  datatype Json = Json(
    policy: Policy -> string, natRule: NATRule -> string, zone: Zone -> string,
    ipset: IPSet -> string, route: Route -> string)

  function PolicyKey(p: Policy): string {
    p.from + "->" + p.to
  }

  function Policies(j: Json): Codec<Policy> { Codec(PolicyKey, j.policy) }
  function NatRules(j: Json): Codec<NATRule> { Codec((r: NATRule) => r.name, j.natRule) }
  function Zones(j: Json): Codec<Zone> { Codec((z: Zone) => z.name, j.zone) }
  function IpSets(j: Json): Codec<IPSet> { Codec((s: IPSet) => s.name, j.ipset) }
  function Routes(j: Json): Codec<Route> { Codec((r: Route) => r.destination, j.route) }

  /** What tells the items of each section apart. */
  lemma SectionKeys(j: Json, p: Policy, n: NATRule, z: Zone, s: IPSet, r: Route)
    ensures Policies(j).key(p) == p.from + "->" + p.to && NatRules(j).key(n) == n.name
    ensures Zones(j).key(z) == z.name && IpSets(j).key(s) == s.name
    ensures Routes(j).key(r) == r.destination
    ensures Policies(j).json == j.policy && NatRules(j).json == j.natRule && Zones(j).json == j.zone
    ensures IpSets(j).json == j.ipset && Routes(j).json == j.route
  {
  }

  predicate Pending(v: ConfigWithStatus) {
    AnyPending(v.policies) || AnyPending(v.natRules) || AnyPending(v.zones) || AnyPending(v.ipsets)
    || AnyPending(v.routes)
  }

  function View(j: Json, staged: Config, running: Config): ConfigWithStatus {
    var v := ConfigWithStatus(
      Diff(Policies(j), staged.policies, running.policies),
      Diff(NatRules(j), staged.natRules, running.natRules),
      Diff(Zones(j), staged.zones, running.zones),
      Diff(IpSets(j), staged.ipsets, running.ipsets),
      Diff(Routes(j), staged.routes, running.routes), false);
    v.(hasPendingChanges := Pending(v))
  }

  const EMPTY := Config([], [], [], [], [])

  method Section<T>(c: Codec<T>, staged: seq<T>, running: seq<T>) returns (items: seq<Item<T>>)
    ensures items == Diff(c, staged, running)
  {
    var kept := ComputeStatuses(c, staged, running);
    var gone := FindDeleted(c, staged, running);
    items := kept + gone;
  }

  /** Diffing against a missing running configuration is diffing against the empty one. */
  method BuildConfigWithStatus(j: Json, staged: Option<Config>, running: Option<Config>)
    returns (v: Option<ConfigWithStatus>)
    ensures v.Some? <==> staged.Some?
    ensures v.Some? ==>
              v.value == View(j, staged.value, if running.Some? then running.value else EMPTY)
  {
    if staged.None? {
      return None;
    }
    var view := CompareSections(j, staged.value, running);
    return Some(view);
  }

  method CompareSections(j: Json, staged: Config, running: Option<Config>)
    returns (v: ConfigWithStatus)
    ensures v == View(j, staged, if running.Some? then running.value else EMPTY)
  {
    if running.None? {
      var policies := WrapAllPending(staged.policies);
      var rules := WrapAllPending(staged.natRules);
      var zones := WrapAllPending(staged.zones);
      var ipsets := WrapAllPending(staged.ipsets);
      var routes := WrapAllPending(staged.routes);
      NilRunningIsEmptyRunning(Policies(j), staged.policies);
      NilRunningIsEmptyRunning(NatRules(j), staged.natRules);
      NilRunningIsEmptyRunning(Zones(j), staged.zones);
      NilRunningIsEmptyRunning(IpSets(j), staged.ipsets);
      NilRunningIsEmptyRunning(Routes(j), staged.routes);
      return ConfigWithStatus(policies, rules, zones, ipsets, routes,
                              |staged.policies| > 0 || |staged.natRules| > 0 || |staged.zones| > 0
                              || |staged.ipsets| > 0 || |staged.routes| > 0);
    }
    var policies := Section(Policies(j), staged.policies, running.value.policies);
    var rules := Section(NatRules(j), staged.natRules, running.value.natRules);
    var zones := Section(Zones(j), staged.zones, running.value.zones);
    var ipsets := Section(IpSets(j), staged.ipsets, running.value.ipsets);
    var routes := Section(Routes(j), staged.routes, running.value.routes);
    var p := HasPending(policies);
    var n := HasPending(rules);
    var z := HasPending(zones);
    var i := HasPending(ipsets);
    var r := HasPending(routes);
    v := ConfigWithStatus(policies, rules, zones, ipsets, routes, p || n || z || i || r);
  }

  ghost predicate WellKeyed(j: Json, c: Config) {
    DistinctKeys(Policies(j), c.policies) && DistinctKeys(NatRules(j), c.natRules)
    && DistinctKeys(Zones(j), c.zones) && DistinctKeys(IpSets(j), c.ipsets)
    && DistinctKeys(Routes(j), c.routes)
  }

  ghost predicate AllFaithful(j: Json) {
    Faithful(Policies(j)) && Faithful(NatRules(j)) && Faithful(Zones(j)) && Faithful(IpSets(j))
    && Faithful(Routes(j))
  }

  ghost predicate SameTable<T>(c: Codec<T>, staged: seq<T>, running: seq<T>) {
    KeyDecides(c, staged) && JsonOf(c, staged) == JsonOf(c, running)
  }

  /** The global flag is off exactly when in each section staged items that share a key are equal
      and both sides give the same table by key. */
  lemma FlagOffIff(j: Json, staged: Config, running: Config)
    ensures !View(j, staged, running).hasPendingChanges
        <==> SameTable(Policies(j), staged.policies, running.policies)
             && SameTable(NatRules(j), staged.natRules, running.natRules)
             && SameTable(Zones(j), staged.zones, running.zones)
             && SameTable(IpSets(j), staged.ipsets, running.ipsets)
             && SameTable(Routes(j), staged.routes, running.routes)
  {
    QuietIff(Policies(j), staged.policies, running.policies);
    QuietIff(NatRules(j), staged.natRules, running.natRules);
    QuietIff(Zones(j), staged.zones, running.zones);
    QuietIff(IpSets(j), staged.ipsets, running.ipsets);
    QuietIff(Routes(j), staged.routes, running.routes);
  }

  ghost predicate SameSections(j: Json, c: Config, d: Config) {
    SameItems(Policies(j), c.policies, d.policies) && SameItems(NatRules(j), c.natRules, d.natRules)
    && SameItems(Zones(j), c.zones, d.zones) && SameItems(IpSets(j), c.ipsets, d.ipsets)
    && SameItems(Routes(j), c.routes, d.routes)
  }

  /** With distinct keys on both sides that is: all five sections are equal up to reordering. */
  lemma NoPendingChangesIff(j: Json, staged: Config, running: Config)
    requires WellKeyed(j, staged) && WellKeyed(j, running) && AllFaithful(j)
    ensures !View(j, staged, running).hasPendingChanges <==> SameSections(j, staged, running)
  {
    QuietIffSameItems(Policies(j), staged.policies, running.policies);
    QuietIffSameItems(NatRules(j), staged.natRules, running.natRules);
    QuietIffSameItems(Zones(j), staged.zones, running.zones);
    QuietIffSameItems(IpSets(j), staged.ipsets, running.ipsets);
    QuietIffSameItems(Routes(j), staged.routes, running.routes);
  }

  function LastSections(j: Json, c: Config): Config {
    Config(Lasts(Policies(j), c.policies), Lasts(NatRules(j), c.natRules), Lasts(Zones(j), c.zones),
           Lasts(IpSets(j), c.ipsets), Lasts(Routes(j), c.routes))
  }

  lemma LastSectionsQuiet(j: Json, running: Config)
    ensures WellKeyed(j, LastSections(j, running))
    ensures !View(j, LastSections(j, running), running).hasPendingChanges
    ensures SameSections(j, LastSections(j, running), running) ==> WellKeyed(j, running)
  {
    LastsTell(Policies(j), running.policies);
    LastsTell(NatRules(j), running.natRules);
    LastsTell(Zones(j), running.zones);
    LastsTell(IpSets(j), running.ipsets);
    LastsTell(Routes(j), running.routes);
  }

  /** The flag can be trusted, for every well-keyed staged configuration, exactly when the running
      one is well keyed in every section. */
  lemma FlagTellsAllIff(j: Json, running: Config)
    requires AllFaithful(j)
    ensures (forall staged :: WellKeyed(j, staged) && !View(j, staged, running).hasPendingChanges
                              ==> SameSections(j, staged, running))
        <==> WellKeyed(j, running)
  {
    if WellKeyed(j, running) {
      forall staged | WellKeyed(j, staged) && !View(j, staged, running).hasPendingChanges
        ensures SameSections(j, staged, running)
      {
        NoPendingChangesIff(j, staged, running);
      }
    } else {
      LastSectionsQuiet(j, running);
    }
  }

  /** Two different policies for one pair of zones: comparing the configuration with itself shows a
      change, and taking the first policy out of the staged side shows none. */
  lemma TwoPoliciesOfOnePair(j: Json, p: Policy, q: Policy)
    requires p.from == q.from && p.to == q.to && j.policy(p) != j.policy(q)
    ensures var both, one := EMPTY.(policies := [p, q]), EMPTY.(policies := [q]);
            View(j, both, both).hasPendingChanges && !View(j, one, both).hasPendingChanges
  {
    var both, one := EMPTY.(policies := [p, q]), EMPTY.(policies := [q]);
    var c := Policies(j);
    assert c.key(both.policies[0]) == c.key(both.policies[1]);
    UnchangedIsQuietIff(c, both.policies);
    HiddenDeletion(c, p, q);
  }

  // ----- The policy key -----

  const ARROW := "->"

  predicate HasArrow(s: string) {
    exists i :: 0 <= i < |s| - 1 && s[i] == '-' && s[i + 1] == '>'
  }

  /** The key of `p`, cut at a later arrow, gives the pair of `q`: `middle` stands between. */
  predicate CutsLater(p: Policy, q: Policy, middle: string) {
    q.from == p.from + ARROW + middle && p.to == middle + ARROW + q.to
  }

  predicate SharesKey(p: Policy, q: Policy) {
    PolicyKey(p) == PolicyKey(q) && (p.from, p.to) != (q.from, q.to)
  }

  ghost predicate Collide(p: Policy, q: Policy) {
    exists middle :: CutsLater(p, q, middle) || CutsLater(q, p, middle)
  }

  lemma CutSharesKey(p: Policy, q: Policy, middle: string)
    requires CutsLater(p, q, middle)
    ensures PolicyKey(p) == PolicyKey(q) && p.from != q.from
    ensures HasArrow(q.from) && HasArrow(p.to)
  {
    assert PolicyKey(p) == p.from + ARROW + middle + ARROW + q.to;
    assert |q.from| > |p.from|;
    assert q.from[|p.from|] == '-' && q.from[|p.from| + 1] == '>';
    assert p.to[|middle|] == '-' && p.to[|middle| + 1] == '>';
  }

  lemma LongerSideCuts(p: Policy, q: Policy) returns (middle: string)
    requires |p.from| < |q.from| && PolicyKey(p) == PolicyKey(q)
    ensures CutsLater(p, q, middle)
  {
    var k, n, m := PolicyKey(p), |p.from|, |q.from|;
    assert p.from == k[..n] && k[n] == '-' && k[n + 1] == '>' && p.to == k[n + 2..];
    assert q.from == k[..m] && k[m] == '-' && k[m + 1] == '>' && q.to == k[m + 2..];
    middle := k[n + 2..m];
    assert k[..m] == k[..n] + ARROW + middle;
    assert k[n + 2..] == middle + ARROW + k[m + 2..];
  }

  /** Two different pairs share a key exactly when one key, cut at a later arrow, gives the other
      pair. */
  lemma PolicyKeySharedIff(p: Policy, q: Policy)
    ensures SharesKey(p, q) <==> Collide(p, q)
    ensures Collide(p, q) ==>
              (HasArrow(p.from) && HasArrow(q.to)) || (HasArrow(q.from) && HasArrow(p.to))
  {
    if middle :| CutsLater(p, q, middle) {
      CutSharesKey(p, q, middle);
    } else if middle :| CutsLater(q, p, middle) {
      CutSharesKey(q, p, middle);
    } else if PolicyKey(p) == PolicyKey(q) {
      if |p.from| < |q.from| {
        var middle := LongerSideCuts(p, q);
      } else if |q.from| < |p.from| {
        var middle := LongerSideCuts(q, p);
      } else {
        var k := PolicyKey(p);
        assert p.from == k[..|p.from|] == q.from;
        assert p.to == k[|p.from| + 2..] == q.to;
      }
    }
  }

  /** So the key tells pairs apart when no source zone contains an arrow. */
  lemma PolicyKeyInjective(p: Policy, q: Policy)
    requires !HasArrow(p.from) && !HasArrow(q.from) && PolicyKey(p) == PolicyKey(q)
    ensures p.from == q.from && p.to == q.to
  {
    PolicyKeySharedIff(p, q);
  }

  /** A policy's key can stand for another pair exactly when one of its zone names contains an
      arrow. */
  lemma PolicyKeyCollision(q: Policy)
    ensures (exists p :: SharesKey(p, q)) <==> HasArrow(q.from) || HasArrow(q.to)
  {
    if p :| SharesKey(p, q) {
      PolicyKeySharedIff(p, q);
    }
    if HasArrow(q.from) {
      var p := CutAtFrom(q);
    } else if HasArrow(q.to) {
      var p := CutAtTo(q);
    }
  }

  lemma CutAtFrom(q: Policy) returns (p: Policy)
    requires HasArrow(q.from)
    ensures SharesKey(p, q)
  {
    var i :| 0 <= i < |q.from| - 1 && q.from[i] == '-' && q.from[i + 1] == '>';
    var middle := q.from[i + 2..];
    p := q.(from := q.from[..i], to := middle + ARROW + q.to);
    assert q.from == p.from + ARROW + middle;
    CutSharesKey(p, q, middle);
  }

  lemma CutAtTo(q: Policy) returns (p: Policy)
    requires HasArrow(q.to)
    ensures SharesKey(p, q)
  {
    var i :| 0 <= i < |q.to| - 1 && q.to[i] == '-' && q.to[i + 1] == '>';
    var middle := q.to[..i];
    p := q.(from := q.from + ARROW + middle, to := q.to[i + 2..]);
    assert q.to == middle + ARROW + p.to;
    CutSharesKey(q, p, middle);
  }
}
