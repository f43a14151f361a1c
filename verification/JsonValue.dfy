/** Parsed JSON documents as the library presents them: an object is a list of members, repeated keys included. */
module JsonValue {
  import opened Options

  datatype Json =
    | Null
    | Bool(b: bool)
    | Number(n: int)
    | Real
    | Text(s: string)
    | Array(items: seq<Json>)
    | Object(members: Members)

  type Members = seq<(string, Json)>

  const UINT64_LIMIT: nat := 0x1_0000_0000_0000_0000

  /** The number is stored as an unsigned 64-bit integer. */
  predicate IsUint(j: Json) { j.Number? && 0 <= j.n < UINT64_LIMIT }

  /** The value of the first member with the key. */
  function Find(members: Members, key: string): Option<Json> {
    if members == [] then None
    else if members[0].0 == key then Some(members[0].1)
    else Find(members[1..], key)
  }

  function Get(j: Json, key: string): Option<Json> { if j.Object? then Find(j.members, key) else None }

  function Keys(members: Members): set<string> { set m | m in members :: m.0 }

  predicate DistinctKeys(members: Members) { forall i, j | 0 <= i < j < |members| :: members[i].0 != members[j].0 }

  lemma {:induction false} FindSome(members: Members, key: string)
    ensures Find(members, key).Some? <==> key in Keys(members)
    ensures Find(members, key).Some? ==> (key, Find(members, key).value) in members
  {
    if members != [] {
      FindSome(members[1..], key);
      assert members == [members[0]] + members[1..];
    }
  }

  lemma {:induction false} FindDistinct(members: Members, m: (string, Json))
    requires DistinctKeys(members) && m in members
    ensures Find(members, m.0) == Some(m.1)
  {
    assert members == [members[0]] + members[1..];
    if members[0].0 == m.0 {
      var i :| 0 <= i < |members| && members[i] == m;
      assert i == 0;
    } else {
      FindDistinct(members[1..], m);
    }
  }

  lemma {:induction false} KeysBounded(members: Members)
    ensures |Keys(members)| <= |members|
    ensures |Keys(members)| == |members| ==> DistinctKeys(members)
  {
    if members == [] {
      assert Keys(members) == {};
    } else {
      var init, last := members[..|members| - 1], members[|members| - 1];
      KeysBounded(init);
      assert members == init + [last];
      assert Keys(members) == Keys(init) + {last.0};
      if |Keys(members)| == |members| {
        assert last.0 !in Keys(init);
        forall i | 0 <= i < |init| ensures members[i].0 != last.0 {
          assert members[i] in init;
        }
      }
    }
  }

  lemma SubsetOfSameSize(a: set<string>, b: set<string>)
    requires a <= b && |b| <= |a|
    ensures a == b
  {
    if a != b {
      var x :| x in b && x !in a;
      SmallerWithout(a, b, x);
    }
  }

  lemma {:induction false} SmallerWithout(a: set<string>, b: set<string>, x: string)
    requires a <= b && x in b && x !in a
    ensures |a| < |b|
    decreases a
  {
    if a != {} {
      var y :| y in a;
      SmallerWithout(a - {y}, b - {y}, x);
    }
  }

  /** By counting: an object with as many members as known names, all of them present, repeats no key and has no
      other. */
  lemma CountedKeys(members: Members, known: set<string>)
    requires known <= Keys(members) && |members| == |known|
    ensures Keys(members) == known && DistinctKeys(members)
  {
    KeysBounded(members);
    SubsetOfSameSize(known, Keys(members));
  }
}
