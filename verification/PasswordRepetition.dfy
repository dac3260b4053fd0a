/** The repetition test of the password policy (internal/auth/password.go). The source searches
    blocks of up to twenty bytes; only lengths two to four can ever decide. */
module PasswordRepetition {

  type Byte = b: int | 0 <= b < 256

  type Bytes = seq<Byte>

  /** Go's byte arithmetic wraps. */
  function Successor(b: Byte): Byte {
    (b + 1) % 256
  }

  ghost predicate TripleAt(p: Bytes, i: int) {
    0 <= i < |p| - 2 && p[i] == p[i + 1] == p[i + 2]
  }

  /** A block of the given length at `i` is followed at once by itself. */
  ghost predicate DoubledAt(p: Bytes, length: nat, i: int) {
    0 <= i <= |p| - 2 * length && p[i..i + length] == p[i + length..i + 2 * length]
  }

  ghost predicate Doubled(p: Bytes, length: nat) {
    exists i :: DoubledAt(p, length, i)
  }

  /** The block at `i` occurs again at `j`, without overlap. */
  ghost predicate RecursAt(p: Bytes, length: nat, i: int, j: int) {
    0 <= i && i + length <= j <= |p| - length && p[i..i + length] == p[j..j + length]
  }

  ghost predicate Recurs(p: Bytes, length: nat) {
    exists i, j :: RecursAt(p, length, i, j)
  }

  ghost predicate RisesAt(p: Bytes, i: int) {
    0 <= i < |p| - 1 && p[i + 1] == Successor(p[i])
  }

  /** Four bytes in ascending sequence, modulo 256. */
  ghost predicate ClimbAt(p: Bytes, i: int) {
    RisesAt(p, i) && RisesAt(p, i + 1) && RisesAt(p, i + 2)
  }

  /** The condition, free of the search's bounds. */
  ghost predicate Repetitive(p: Bytes) {
    (exists i :: TripleAt(p, i)) || Doubled(p, 2) || Doubled(p, 3) || Recurs(p, 4)
    || exists i :: ClimbAt(p, i)
  }

  function Min(a: int, b: int): int {
    if a < b then a else b
  }

  method HasExcessiveRepetition(p: Bytes) returns (found: bool)
    ensures found <==> Repetitive(p)
  {
    if |p| < 3 {
      TooShort(p);
      return false;
    }
    for i := 0 to |p| - 2
      invariant forall k :: 0 <= k < i ==> !TripleAt(p, k)
    {
      if p[i] == p[i + 1] && p[i] == p[i + 2] {
        assert TripleAt(p, i);
        return true;
      }
    }
    var longest := Min(20, |p| / 2);
    var doubled := FindDoubled(p, longest);
    var recurs := FindRecurring(p, longest);
    SearchBoundsDoNotMatter(p, 20);
    if doubled || recurs {
      return true;
    }
    found := FindClimb(p);
  }

  method FindDoubled(p: Bytes, longest: nat) returns (found: bool)
    requires longest <= |p| / 2
    ensures found <==> exists length: nat :: 2 <= length <= longest && Doubled(p, length)
  {
    var length := longest;
    while length >= 2
      invariant length <= longest
      invariant forall l: nat :: 2 <= l && length < l <= longest ==> !Doubled(p, l)
    {
      var i := 0;
      while i <= |p| - length * 2
        invariant 0 <= i
        invariant forall k :: 0 <= k < i ==> !DoubledAt(p, length, k)
      {
        if p[i..i + length] == p[i + length..i + length * 2] {
          assert DoubledAt(p, length, i);
          assert Doubled(p, length);
          return true;
        }
        i := i + 1;
      }
      length := length - 1;
    }
    return false;
  }

  ghost predicate OccursAt(s: Bytes, block: Bytes, j: int) {
    0 <= j <= |s| - |block| && s[j..j + |block|] == block
  }

  /** strings.Contains. */
  method Contains(s: Bytes, block: Bytes) returns (found: bool)
    ensures found <==> exists j :: OccursAt(s, block, j)
  {
    var j := 0;
    while j <= |s| - |block|
      invariant 0 <= j
      invariant forall k :: 0 <= k < j ==> !OccursAt(s, block, k)
    {
      if s[j..j + |block|] == block {
        assert OccursAt(s, block, j);
        return true;
      }
      j := j + 1;
    }
    return false;
  }

  lemma TailHolds(p: Bytes, length: nat, i: nat, j: int)
    requires i + length <= |p|
    ensures OccursAt(p[i + length..], p[i..i + length], j)
        <==> RecursAt(p, length, i, i + length + j)
  {
  }

  method RecursFrom(p: Bytes, length: nat, i: nat) returns (found: bool)
    requires i + length <= |p|
    ensures found <==> exists j :: RecursAt(p, length, i, j)
  {
    found := Contains(p[i + length..], p[i..i + length]);
    forall j
      ensures OccursAt(p[i + length..], p[i..i + length], j - (i + length))
          <==> RecursAt(p, length, i, j)
    {
      TailHolds(p, length, i, j - (i + length));
    }
    if found {
      ghost var j :| OccursAt(p[i + length..], p[i..i + length], j);
      TailHolds(p, length, i, j);
    }
  }

  method FindRecurring(p: Bytes, longest: nat) returns (found: bool)
    ensures found <==> exists length: nat :: 4 <= length <= longest && Recurs(p, length)
  {
    var length := longest;
    while length >= 4
      invariant length <= longest
      invariant forall l: nat :: 4 <= l && length < l <= longest ==> !Recurs(p, l)
    {
      var i := 0;
      while i <= |p| - length
        invariant 0 <= i
        invariant forall k, j :: 0 <= k < i ==> !RecursAt(p, length, k, j)
      {
        var here := RecursFrom(p, length, i);
        if here {
          assert Recurs(p, length);
          return true;
        }
        i := i + 1;
      }
      length := length - 1;
    }
    return false;
  }

  method FindClimb(p: Bytes) returns (found: bool)
    ensures found <==> exists i :: ClimbAt(p, i)
  {
    var count := 0;
    var i := 0;
    while i < |p| - 1
      invariant 0 <= i && 0 <= count <= 2 && count <= i
      invariant |p| > 0 ==> i <= |p| - 1
      invariant forall k :: i - count <= k < i ==> RisesAt(p, k)
      invariant count == 2 || i == count || !RisesAt(p, i - count - 1)
      invariant forall k :: k + 2 < i ==> !ClimbAt(p, k)
    {
      if p[i + 1] == Successor(p[i]) {
        count := count + 1;
        assert RisesAt(p, i);
        if count >= 3 {
          assert ClimbAt(p, i - 2);
          return true;
        }
      } else {
        count := 0;
      }
      i := i + 1;
    }
    return false;
  }

  lemma TooShort(p: Bytes)
    requires |p| < 3
    ensures !Repetitive(p)
  {
  }

  /** A longer adjacent or distant repetition contains one of length four, and blocks of length
      two to four always fit below half the password: any cap of four or more, twenty included,
      gives the same answer as no cap. */
  lemma SearchBoundsDoNotMatter(p: Bytes, cap: nat)
    requires cap >= 4
    ensures (exists l: nat :: 2 <= l <= Min(cap, |p| / 2) && Doubled(p, l))
            || (exists l: nat :: 4 <= l <= Min(cap, |p| / 2) && Recurs(p, l))
        <==> Doubled(p, 2) || Doubled(p, 3) || Recurs(p, 4)
  {
    forall l: nat | 4 <= l && Doubled(p, l)
      ensures Recurs(p, 4)
    {
      var i :| DoubledAt(p, l, i);
      Shorten(p, l, i, i + l);
    }
    forall l: nat | 4 <= l && Recurs(p, l)
      ensures Recurs(p, 4)
    {
      var i, j :| RecursAt(p, l, i, j);
      Shorten(p, l, i, j);
    }
  }

  lemma Shorten(p: Bytes, length: nat, i: int, j: int)
    requires length >= 4 && RecursAt(p, length, i, j)
    ensures Recurs(p, 4)
  {
    assert p[i..i + length][..4] == p[i..i + 4];
    assert p[j..j + length][..4] == p[j..j + 4];
    assert RecursAt(p, 4, i, j);
  }
}
