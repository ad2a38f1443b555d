/** `Array.prototype.filter` and `find`, and the facts about them the tables
    and the board use. */
module Seqs {
  import opened Wrappers

  /** `s.filter(keep)`: the elements satisfying `keep`, in their original order. */
  function Filter<T(!new)>(s: seq<T>, keep: T -> bool): (r: seq<T>)
    ensures |r| <= |s|
    ensures forall x :: x in r <==> x in s && keep(x)
    ensures forall i :: 0 <= i < |r| ==> keep(r[i])
    ensures forall i, j :: 0 <= i < j < |r| ==> InOrder(s, r[i], r[j])
    decreases |s|
  {
    if s == [] then []
    else
      var rest := Filter(s[1..], keep);
      if keep(s[0]) then
        FilterConsInOrder(s, rest);
        [s[0]] + rest
      else
        assert forall i, j :: 0 <= i < j < |rest| ==> InOrder(s, rest[i], rest[j]) by {
          forall i, j | 0 <= i < j < |rest| ensures InOrder(s, rest[i], rest[j]) {
            var a, b :| 0 <= a < b < |s[1..]| && rest[i] == s[1..][a] && rest[j] == s[1..][b];
            assert s[a + 1] == rest[i] && s[b + 1] == rest[j];
          }
        }
        rest
  }

  /** `x` occurs in `s` strictly before an occurrence of `y`. */
  ghost predicate InOrder<T>(s: seq<T>, x: T, y: T) {
    exists a, b :: 0 <= a < b < |s| && x == s[a] && y == s[b]
  }

  lemma FilterConsInOrder<T(!new)>(s: seq<T>, rest: seq<T>)
    requires s != []
    requires forall x :: x in rest ==> x in s[1..]
    requires forall i, j :: 0 <= i < j < |rest| ==> InOrder(s[1..], rest[i], rest[j])
    ensures forall i, j :: 0 <= i < j < |[s[0]] + rest| ==> InOrder(s, ([s[0]] + rest)[i], ([s[0]] + rest)[j])
  {
    var r := [s[0]] + rest;
    forall i, j | 0 <= i < j < |r| ensures InOrder(s, r[i], r[j]) {
      if i == 0 {
        assert r[j] in s[1..];
        var b :| 0 <= b < |s[1..]| && s[1..][b] == r[j];
        assert s[0] == r[i] && s[b + 1] == r[j];
      } else {
        assert r[i] == rest[i - 1] && r[j] == rest[j - 1];
        var a, b :| 0 <= a < b < |s[1..]| && rest[i - 1] == s[1..][a] && rest[j - 1] == s[1..][b];
        assert s[a + 1] == r[i] && s[b + 1] == r[j];
      }
    }
  }

  /** Filtering keeps every pairwise relation that holds between earlier and
      later elements of the input. */
  lemma FilterKeepsPairwise<T(!new)>(s: seq<T>, keep: T -> bool, rel: (T, T) -> bool)
    requires forall a, b :: 0 <= a < b < |s| ==> rel(s[a], s[b])
    ensures var r := Filter(s, keep); forall i, j :: 0 <= i < j < |r| ==> rel(r[i], r[j])
  {
    var r := Filter(s, keep);
    forall i, j | 0 <= i < j < |r| ensures rel(r[i], r[j]) {
      assert InOrder(s, r[i], r[j]);
      var a, b :| 0 <= a < b < |s| && r[i] == s[a] && r[j] == s[b];
    }
  }

  /** The number of elements satisfying `keep`. */
  function Count<T(!new)>(s: seq<T>, keep: T -> bool): nat {
    |Filter(s, keep)|
  }

  /** Filtering distributes over concatenation. */
  lemma {:induction false} FilterAppend<T(!new)>(s: seq<T>, t: seq<T>, keep: T -> bool)
    ensures Filter(s + t, keep) == Filter(s, keep) + Filter(t, keep)
    decreases |s|
  {
    if s == [] {
      assert s + t == t;
    } else {
      assert (s + t)[1..] == s[1..] + t;
      assert (s + t)[0] == s[0];
      FilterAppend(s[1..], t, keep);
    }
  }

  /** Nothing is kept when no element satisfies `keep`. */
  lemma {:induction false} FilterNoneKept<T(!new)>(s: seq<T>, keep: T -> bool)
    requires forall x :: x in s ==> !keep(x)
    ensures Filter(s, keep) == []
    decreases |s|
  {
    if s != [] {
      assert s[0] in s;
      FilterNoneKept(s[1..], keep);
    }
  }

  /** The index `s.find(p)` stops at: the first element satisfying `p`. */
  function FirstIndex<T>(s: seq<T>, p: T -> bool): (r: Option<nat>)
    ensures r.Some? ==> r.value < |s| && p(s[r.value]) && forall j :: 0 <= j < r.value ==> !p(s[j])
    ensures r.None? <==> forall j :: 0 <= j < |s| ==> !p(s[j])
  {
    if s == [] then None
    else if p(s[0]) then Some(0)
    else
      match FirstIndex(s[1..], p)
      case None => None
      case Some(k) => Some(k + 1)
  }
}
