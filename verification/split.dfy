/** Splitting a sequence at its last separator, the way `rpartition` does. */
module Split {
  import opened Options

  function RPartition<T(==)>(s: seq<T>, sep: T): Option<(seq<T>, seq<T>)> {
    if s == [] then None
    else if s[|s| - 1] == sep then Some((s[..|s| - 1], []))
    else match RPartition(s[..|s| - 1], sep)
      case None => None
      case Some(parts) => Some((parts.0, parts.1 + [s[|s| - 1]]))
  }

  /** A join splits back into its parts when the back holds no separator. */
  lemma {:induction false} RPartitionJoin<T>(a: seq<T>, sep: T, b: seq<T>)
    requires sep !in b
    ensures RPartition(a + [sep] + b, sep) == Some((a, b))
  {
    var s := a + [sep] + b;
    if b == [] {
      assert s == a + [sep] && s[..|s| - 1] == a;
    } else {
      assert s[..|s| - 1] == a + [sep] + b[..|b| - 1] && b == b[..|b| - 1] + [s[|s| - 1]];
      RPartitionJoin(a, sep, b[..|b| - 1]);
    }
  }

  /** And only then: the back of a split never holds one. */
  lemma {:induction false} RPartitionParts<T>(s: seq<T>, sep: T)
    ensures var r := RPartition(s, sep);
      && (r.Some? <==> sep in s)
      && (r.Some? ==> s == r.value.0 + [sep] + r.value.1 && sep !in r.value.1)
  {
    if s != [] {
      assert s == s[..|s| - 1] + [s[|s| - 1]];
      if s[|s| - 1] != sep { RPartitionParts(s[..|s| - 1], sep); }
    }
  }
}
