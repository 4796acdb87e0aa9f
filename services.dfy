// The list of client service names that hold a reference on the provider.
// It is an ordered list with duplicates: every AddReference appends, and the
// two removals are those of Qt's list type, removeOne (the first occurrence)
// and removeAll (every occurrence).
module Services {

  type ServiceName = string

  /** The distinct names in the list. */
  function Names(s: seq<ServiceName>): set<ServiceName>
  {
    set x | x in s
  }

  /** Position of the first occurrence of `x` in `s`. */
  function FirstIndex(s: seq<ServiceName>, x: ServiceName): (i: nat)
    requires x in s
    ensures i < |s| && s[i] == x && x !in s[..i]
  {
    if s[0] == x then 0 else 1 + FirstIndex(s[1..], x)
  }

  /** The list without its first occurrence of `x`; unchanged when `x` does not occur. */
  function RemoveOne(s: seq<ServiceName>, x: ServiceName): (r: seq<ServiceName>)
    ensures x !in s ==> r == s
    ensures x in s ==> |r| == |s| - 1
  {
    if s == [] then []
    else if s[0] == x then s[1..]
    else [s[0]] + RemoveOne(s[1..], x)
  }

  /** The list without any occurrence of `x`. */
  function RemoveAll(s: seq<ServiceName>, x: ServiceName): (r: seq<ServiceName>)
    ensures |r| <= |s|
  {
    if s == [] then []
    else if s[0] == x then RemoveAll(s[1..], x)
    else [s[0]] + RemoveAll(s[1..], x)
  }

  /** removeOne takes away exactly one occurrence of `x`, if there is one, and nothing else. */
  lemma {:induction false} RemoveOneCounts(s: seq<ServiceName>, x: ServiceName)
    ensures multiset(RemoveOne(s, x)) == multiset(s) - multiset{x}
  {
    if s != [] {
      var t := s[1..];
      assert s == [s[0]] + t;
      assert multiset(s) == multiset{s[0]} + multiset(t);
      if s[0] == x {
        assert RemoveOne(s, x) == t;
      } else {
        assert RemoveOne(s, x) == [s[0]] + RemoveOne(t, x);
        RemoveOneCounts(t, x);
        assert multiset(RemoveOne(s, x)) == multiset{s[0]} + (multiset(t) - multiset{x});
      }
    }
  }

  /** removeAll takes away every occurrence of `x` and nothing else. */
  lemma {:induction false} RemoveAllCounts(s: seq<ServiceName>, x: ServiceName)
    ensures multiset(RemoveAll(s, x)) == multiset(s)[x := 0]
  {
    if s != [] {
      assert s == [s[0]] + s[1..];
      RemoveAllCounts(s[1..], x);
    }
  }

  /** Deleting position j + 1 of a non-empty list is deleting position j of its tail, behind its head. */
  lemma DeleteBehindHead(s: seq<ServiceName>, j: nat)
    requires j + 1 < |s|
    ensures s[..j + 1] + s[j + 2..] == [s[0]] + (s[1..][..j] + s[1..][j + 1..])
  {
    assert s[..j + 1] == [s[0]] + s[1..][..j];
    assert s[j + 2..] == s[1..][j + 1..];
  }

  /** removeOne deletes the first occurrence and keeps the order of everything else. */
  lemma {:induction false} RemoveOneFirst(s: seq<ServiceName>, x: ServiceName)
    requires x in s
    ensures RemoveOne(s, x) == s[..FirstIndex(s, x)] + s[FirstIndex(s, x) + 1..]
  {
    if s[0] == x {
      assert s[..0] + s[1..] == s[1..];
    } else {
      var t := s[1..];
      assert x in t;
      RemoveOneFirst(t, x);
      DeleteBehindHead(s, FirstIndex(t, x));
    }
  }

  /** removeOne of a name leaves that name in the list iff it occurred at least twice. */
  lemma RemoveOneKeepsName(s: seq<ServiceName>, x: ServiceName)
    ensures x in RemoveOne(s, x) <==> multiset(s)[x] >= 2
  {
    var r := RemoveOne(s, x);
    RemoveOneCounts(s, x);
    assert x in r <==> x in multiset(r);
  }

  /** Appending a name adds exactly that name to the distinct names. */
  lemma NamesAppend(s: seq<ServiceName>, x: ServiceName)
    ensures Names(s + [x]) == Names(s) + {x}
  {
    assert forall y :: y in s + [x] <==> y in s || y == x;
  }

  /** After removeOne, the distinct names lose `x` exactly when no occurrence of `x` is left. */
  lemma NamesRemoveOne(s: seq<ServiceName>, x: ServiceName)
    ensures Names(RemoveOne(s, x)) == if x in RemoveOne(s, x) then Names(s) else Names(s) - {x}
  {
    var r := RemoveOne(s, x);
    RemoveOneCounts(s, x);
    forall y
      ensures y in Names(r) <==> y in (if x in r then Names(s) else Names(s) - {x})
    {
      assert y in r <==> y in multiset(r);
      assert y in s <==> y in multiset(s);
    }
  }

  /** After removeAll, the distinct names are the old ones without `x`. */
  lemma NamesRemoveAll(s: seq<ServiceName>, x: ServiceName)
    ensures Names(RemoveAll(s, x)) == Names(s) - {x}
  {
    var r := RemoveAll(s, x);
    RemoveAllCounts(s, x);
    forall y
      ensures y in Names(r) <==> y in Names(s) - {x}
    {
      assert y in r <==> y in multiset(r);
      assert y in s <==> y in multiset(s);
    }
  }
}
