/** Shared vocabulary: optional values, the order the repository sorts names by, and
    the sorted listing of a set that its handlers return. */
module Common {

  datatype Option<+T> = None | Some(value: T)

  /** Lexicographic order on strings, the order of Go's `<` and of `sort.Strings`. */
  predicate StrLess(a: string, b: string) {
    if b == [] then false
    else if a == [] then true
    else if a[0] != b[0] then a[0] < b[0]
    else StrLess(a[1..], b[1..])
  }

  lemma {:induction false} StrLessTransitive(a: string, b: string, c: string)
    requires StrLess(a, b) && StrLess(b, c)
    ensures StrLess(a, c)
  {
    if a != [] && a[0] == b[0] && b[0] == c[0] {
      StrLessTransitive(a[1..], b[1..], c[1..]);
    }
  }

  lemma {:induction false} StrLessTotal(a: string, b: string)
    ensures a != b ==> StrLess(a, b) || StrLess(b, a)
    ensures StrLess(a, b) ==> !StrLess(b, a) && a != b
  {
    if a != [] && b != [] && a[0] == b[0] {
      StrLessTotal(a[1..], b[1..]);
      assert a == [a[0]] + a[1..] && b == [b[0]] + b[1..];
    }
  }

  /** The first difference decides: a prefix comes first, or the string with the smaller
      character. */
  lemma {:induction false} StrLessAt(a: string, b: string, k: nat)
    requires k <= |a| && k <= |b| && a[..k] == b[..k]
    requires if k < |a| then k < |b| && a[k] < b[k] else k < |b|
    ensures StrLess(a, b)
  {
    if k > 0 {
      assert a[0] == a[..k][0] == b[..k][0] == b[0];
      assert a[1..][..k - 1] == a[..k][1..] == b[1..][..k - 1];
      StrLessAt(a[1..], b[1..], k - 1);
    }
  }

  ghost predicate StrictlySorted(s: seq<string>) {
    forall i, j :: 0 <= i < j < |s| ==> StrLess(s[i], s[j])
  }

  /** `s` is the sorted listing of exactly the members of `members`. */
  ghost predicate Lists(s: seq<string>, members: set<string>) {
    StrictlySorted(s) && forall x :: x in s <==> x in members
  }

  /** A set has one sorted listing, so a result produced by sorting does not depend on
      the order in which a map was iterated. */
  lemma {:induction false} SortedListingUnique(s: seq<string>, t: seq<string>, members: set<string>)
    requires Lists(s, members) && Lists(t, members)
    ensures s == t
  {
    assert (s != [] ==> s[0] in s) && (t != [] ==> t[0] in t);
    if s != [] && t != [] {
      HeadIsLeast(s, members);
      HeadIsLeast(t, members);
      StrLessTotal(s[0], t[0]);
      TailLists(s, members);
      TailLists(t, members);
      SortedListingUnique(s[1..], t[1..], members - {s[0]});
      assert s == [s[0]] + s[1..] && t == [t[0]] + t[1..];
    }
  }

  lemma HeadIsLeast(s: seq<string>, members: set<string>)
    requires Lists(s, members) && s != []
    ensures s[0] in members
    ensures forall x :: x in members ==> x == s[0] || StrLess(s[0], x)
  {
    assert s[0] in s;
    forall x | x in members ensures x == s[0] || StrLess(s[0], x) {
      assert x in s;
      var i :| 0 <= i < |s| && s[i] == x;
    }
  }

  lemma TailLists(s: seq<string>, members: set<string>)
    requires Lists(s, members) && s != []
    ensures Lists(s[1..], members - {s[0]})
  {
    var t := s[1..];
    forall x ensures x in t <==> x in members - {s[0]} {
      if x in t {
        var i :| 0 <= i < |t| && t[i] == x;
        assert s[i + 1] == x;
        StrLessTotal(s[0], x);
        assert x in s;
      }
      if x in members - {s[0]} {
        assert x in s;
        var i :| 0 <= i < |s| && s[i] == x;
        assert t[i - 1] == x;
      }
    }
  }

  lemma InsertedSorted(s: seq<string>, x: string, k: nat)
    requires StrictlySorted(s) && k <= |s|
    requires forall i :: 0 <= i < k ==> StrLess(s[i], x)
    requires forall i :: k <= i < |s| ==> StrLess(x, s[i])
    ensures StrictlySorted(s[..k] + [x] + s[k..])
  {
    hide StrLess;
  }

  /** Inserts a new name at its place in a sorted listing. */
  method InsertSorted(s: seq<string>, x: string, ghost members: set<string>) returns (t: seq<string>)
    requires Lists(s, members) && x !in members
    ensures Lists(t, members + {x})
  {
    hide StrLess;
    var k := 0;
    while k < |s| && StrLess(s[k], x)
      invariant 0 <= k <= |s|
      invariant forall i :: 0 <= i < k ==> StrLess(s[i], x)
    {
      k := k + 1;
    }
    t := s[..k] + [x] + s[k..];
    forall i | k <= i < |s| ensures StrLess(x, s[i]) {
      assert s[k] in s && s[k] != x;
      StrLessTotal(x, s[k]);
      if k < i { StrLessTransitive(x, s[k], s[i]); }
    }
    InsertedSorted(s, x, k);
    hide StrictlySorted;
    forall y ensures y in t <==> y in members + {x} {
      assert s == s[..k] + s[k..];
    }
  }

  /** The members of a set as a sorted slice (`sortedSetMembers`, and every
      "collect the keys of a map, then `sort.Strings`" in the handlers). The set is
      consumed in arbitrary order, as Go's map iteration is. */
  method SortedMembers(values: set<string>) returns (keys: seq<string>)
    ensures Lists(keys, values)
  {
    keys := [];
    var todo := values;
    while todo != {}
      invariant todo <= values
      invariant Lists(keys, values - todo)
      decreases |todo|
    {
      var x :| x in todo;
      var done := values - todo;
      keys := InsertSorted(keys, x, done);
      todo := todo - {x};
      assert values - todo == done + {x};
    }
    assert values - todo == values;
  }
}
