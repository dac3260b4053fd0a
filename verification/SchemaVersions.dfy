/** Schema versions: parsing, printing and order (internal/config/version.go). */
module SchemaVersions {
  import opened Prelude
  import opened Strings

  datatype Version = Version(major: int, minor: int) {
    /** Both components fit Go's int. */
    predicate Representable() {
      IsInt(major) && IsInt(minor)
    }
  }

  function Parse(s: string): Result<Version> {
    if s == "" then Ok(Version(1, 0))
    else
      var parts := Split(s, '.');
      if |parts| != 2 then Err("invalid version format")
      else
        match (Atoi(parts[0]), Atoi(parts[1]))
        case (None, _) => Err("invalid major version")
        case (Some(_), None) => Err("invalid minor version")
        case (Some(major), Some(minor)) => Ok(Version(major, minor))
  }

  function Print(v: Version): string {
    Itoa(v.major) + "." + Itoa(v.minor)
  }

  function Compare(v: Version, w: Version): int {
    if v.major < w.major then -1
    else if v.major > w.major then 1
    else if v.minor < w.minor then -1
    else if v.minor > w.minor then 1
    else 0
  }

  predicate NeedsMigration(v: Version, target: Version) {
    Compare(v, target) < 0
  }

  /** Printing and parsing are inverse on every version Go can represent. */
  lemma ParsePrint(v: Version)
    requires v.Representable()
    ensures Parse(Print(v)) == Ok(v)
  {
    var a, b := Itoa(v.major), Itoa(v.minor);
    ItoaChars(v.major);
    ItoaChars(v.minor);
    SplitPlain(b, '.');
    SplitAt(a, '.', b);
    assert Print(v) == a + ['.'] + b;
    AtoiOfItoa(v.major);
    AtoiOfItoa(v.minor);
  }

  /** `s` is two decimal integers with one dot between them. */
  ghost predicate IsDotted(s: string, major: int, minor: int) {
    exists a, b :: '.' !in a && '.' !in b && s == a + "." + b
                   && Atoi(a) == Some(major) && Atoi(b) == Some(minor)
  }

  /** What parses, and to what: a missing version is 1.0; any other text must be two integers with
      a dot between them, the major one first. */
  lemma ParseIff(s: string, v: Version)
    ensures Parse("") == Ok(Version(1, 0))
    ensures s != "" ==> (Parse(s) == Ok(v) <==> IsDotted(s, v.major, v.minor))
  {
    var parts := Split(s, '.');
    if |parts| == 2 {
      JoinSplit(s, '.');
      assert Join(parts, '.') == parts[0] + ['.'] + Join(parts[1..], '.');
      assert s == parts[0] + "." + parts[1];
    }
    if IsDotted(s, v.major, v.minor) {
      var a, b :| '.' !in a && '.' !in b && s == a + "." + b
                  && Atoi(a) == Some(v.major) && Atoi(b) == Some(v.minor);
      SplitPlain(b, '.');
      SplitAt(a, '.', b);
      assert s == a + ['.'] + b;
      assert parts == [a, b];
    }
  }

  /** Whatever parses is representable, and printing normalises the text without changing it. */
  lemma PrintNormalises(s: string)
    ensures Parse(s).Ok? ==>
              Parse(s).value.Representable() && Parse(Print(Parse(s).value)) == Parse(s)
  {
    if Parse(s).Ok? {
      ParsePrint(Parse(s).value);
    }
  }

  lemma CompareIsTotalOrder(u: Version, v: Version, w: Version)
    ensures Compare(u, v) == 0 <==> u == v
    ensures Compare(u, v) == -Compare(v, u)
    ensures Compare(u, v) <= 0 && Compare(v, w) <= 0 ==> Compare(u, w) <= 0
    ensures Compare(u, v) == -1 <==> u.major < v.major || (u.major == v.major && u.minor < v.minor)
    ensures -1 <= Compare(u, v) <= 1
  {
  }
}
