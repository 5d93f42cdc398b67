/** What several models need of sequences. */
module Sequences {

  function Elements<T(==)>(s: seq<T>): set<T> {
    set x | x in s
  }

  /** The sequences one after another. */
  function Flatten<T>(parts: seq<seq<T>>): seq<T> {
    if parts == [] then [] else parts[0] + Flatten(parts[1..])
  }

  lemma {:induction false} FlattenAppend<T>(parts: seq<seq<T>>, last: seq<T>)
    ensures Flatten(parts + [last]) == Flatten(parts) + last
    decreases |parts|
  {
    if parts == [] {
      assert [last][1..] == [] && [] + [last] == [last];
      assert Flatten([last]) == last + Flatten([]);
    } else {
      assert (parts + [last])[1..] == parts[1..] + [last];
      FlattenAppend(parts[1..], last);
    }
  }

  lemma {:induction false} FlattenHasAll<T>(parts: seq<seq<T>>, x: T)
    ensures x in Flatten(parts) <==> exists j :: 0 <= j < |parts| && x in parts[j]
  {
    if parts != [] {
      FlattenHasAll(parts[1..], x);
      if x in parts[0] || x in Flatten(parts[1..]) {
        if x !in parts[0] {
          var j :| 0 <= j < |parts[1..]| && x in parts[1..][j];
          assert parts[j + 1] == parts[1..][j];
        }
      }
      if exists j :: 0 <= j < |parts| && x in parts[j] {
        var j :| 0 <= j < |parts| && x in parts[j];
        assert j > 0 ==> parts[1..][j - 1] == parts[j];
      }
    }
  }
}
