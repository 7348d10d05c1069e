/** The list of known nodes: unordered until it is searched, then sorted and searched by halving. */
module NodeNames {

  type Name = nat

  predicate Ascending(s: seq<Name>) {
    forall i, j | 0 <= i < j < |s| :: s[i] < s[j]
  }

  predicate Distinct(s: seq<Name>) {
    forall i, j | 0 <= i < j < |s| :: s[i] != s[j]
  }

  function Names(s: seq<Name>): set<Name> {
    set x | x in s
  }

  // ---------------------------------------------------------------- sorting

  function Insert(s: seq<Name>, x: Name): (r: seq<Name>)
    ensures multiset(r) == multiset(s) + multiset{x}
  {
    if s == [] then [x]
    else if x <= s[0] then [x] + s
    else
      assert s == [s[0]] + s[1..];
      [s[0]] + Insert(s[1..], x)
  }

  /** What qsort with nl_compare makes of the names. */
  function Sorted(s: seq<Name>): (r: seq<Name>)
    ensures multiset(r) == multiset(s)
  {
    if s == [] then []
    else
      assert s == [s[0]] + s[1..];
      Insert(Sorted(s[1..]), s[0])
  }

  lemma {:induction false} InsertAscending(s: seq<Name>, x: Name)
    requires Ascending(s) && x !in s
    ensures Ascending(Insert(s, x))
  {
    if s != [] && x > s[0] {
      InsertAscending(s[1..], x);
      var t := Insert(s[1..], x);
      forall k | 0 <= k < |t|
        ensures s[0] < t[k]
      {
        assert t[k] in multiset(t);
        assert t[k] == x || t[k] in multiset(s[1..]);
      }
    }
  }

  lemma SameMembers(s: seq<Name>, t: seq<Name>)
    requires multiset(s) == multiset(t)
    ensures forall x :: x in s <==> x in t
    ensures Names(s) == Names(t) && |s| == |t|
  {
    forall x
      ensures x in s <==> x in t
    {
      assert x in s <==> x in multiset(s);
      assert x in t <==> x in multiset(t);
    }
    assert |multiset(s)| == |s| && |multiset(t)| == |t|;
  }

  lemma {:induction false} SortedAscending(s: seq<Name>)
    requires Distinct(s)
    ensures Ascending(Sorted(s)) && Names(Sorted(s)) == Names(s)
  {
    SameMembers(Sorted(s), s);
    if s != [] {
      SortedAscending(s[1..]);
      SameMembers(Sorted(s[1..]), s[1..]);
      InsertAscending(Sorted(s[1..]), s[0]);
    }
  }

  /** A set of names has one ascending list. */
  lemma {:induction false} AscendingUnique(s: seq<Name>, t: seq<Name>)
    requires Ascending(s) && Ascending(t) && Names(s) == Names(t)
    ensures s == t
  {
    assert s != [] ==> s[0] in Names(t);
    assert t != [] ==> t[0] in Names(s);
    if s != [] && t != [] {
      assert s[0] in t && t[0] in s;
      var i :| 0 <= i < |t| && t[i] == s[0];
      var j :| 0 <= j < |s| && s[j] == t[0];
      assert s[0] == t[0];
      forall x
        ensures x in s[1..] <==> x in t[1..]
      {
        assert x in Names(s) <==> x in Names(t);
        RestOf(s, x);
        RestOf(t, x);
      }
      assert Names(s[1..]) == Names(t[1..]);
      AscendingUnique(s[1..], t[1..]);
      assert s == [s[0]] + s[1..] && t == [t[0]] + t[1..];
    }
  }

  lemma RestOf(s: seq<Name>, x: Name)
    requires s != [] && Ascending(s)
    ensures x in s[1..] <==> x in s && x != s[0]
  {
    if x in s && x != s[0] {
      var i :| 0 <= i < |s| && s[i] == x;
      assert s[1..][i - 1] == x;
    }
  }

  // ---------------------------------------------------------------- the list

  class NodeList {
    var nodes: seq<Name>
    var unsorted: bool

    ghost predicate Valid()
      reads this
    {
      Distinct(nodes) && (!unsorted ==> Ascending(nodes))
    }

    constructor ()
      ensures Valid() && nodes == []
    {
      nodes, unsorted := [], false;
    }

    method Sort()
      requires Valid()
      modifies this
      ensures Valid() && !unsorted && Names(nodes) == Names(old(nodes)) && |nodes| == |old(nodes)|
    {
      SortedAscending(nodes);
      SameMembers(Sorted(nodes), nodes);
      nodes := Sorted(nodes);
      unsorted := false;
    }

    /** The rank of a name among the names in the list, -1 if it is not there. */
    method Index(node: Name) returns (i: int)
      requires Valid()
      modifies this
      ensures Valid() && !unsorted && Names(nodes) == Names(old(nodes)) && |nodes| == |old(nodes)|
      ensures !old(unsorted) ==> nodes == old(nodes)
      ensures -1 <= i < |nodes|
      ensures i == -1 <==> node !in Names(nodes)
      ensures i >= 0 ==> nodes[i] == node && forall k | 0 <= k < |nodes| :: nodes[k] < node <==> k < i
    {
      if unsorted {
        Sort();
      }
      var lb, ub := 0, |nodes|;
      while lb < ub
        invariant 0 <= lb <= ub <= |nodes|
        invariant forall k | 0 <= k < lb :: nodes[k] < node
        invariant forall k | ub <= k < |nodes| :: node < nodes[k]
      {
        var mid := (lb + ub) / 2;
        if node < nodes[mid] {
          ub := mid;
        } else if node > nodes[mid] {
          lb := mid + 1;
        } else {
          return mid;
        }
      }
      i := -1;
    }

    method Add(node: Name)
      requires Valid()
      modifies this
      ensures Valid() && Names(nodes) == Names(old(nodes)) + {node}
    {
      var i := Index(node);
      if i != -1 {
        return;
      }
      nodes := nodes + [node];
      unsorted := true;
    }
  }
}
