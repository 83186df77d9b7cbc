/** Sorting by name, as `qsort` with a comparison by strcmp does it. */
module Sorting {
  import opened Names

  ghost predicate Sorted<T>(s: seq<T>, name: T -> string) {
    forall j, k :: 0 <= j < k < |s| ==> Less(name(s[j]), name(s[k]))
  }

  ghost predicate Distinct<T>(s: seq<T>, name: T -> string) {
    forall j, k :: 0 <= j < k < |s| ==> name(s[j]) != name(s[k])
  }

  function Insert<T>(e: T, s: seq<T>, name: T -> string): (r: seq<T>)
    ensures multiset(r) == multiset(s) + multiset{e}
  {
    if s == [] then [e]
    else if Less(name(e), name(s[0])) then
      [e] + s
    else
      assert s == [s[0]] + s[1..];
      [s[0]] + Insert(e, s[1..], name)
  }

  function Sort<T>(s: seq<T>, name: T -> string): (r: seq<T>)
    ensures multiset(r) == multiset(s)
    ensures |r| == |s|
  {
    if s == [] then []
    else
      assert s == [s[0]] + s[1..];
      var r := Insert(s[0], Sort(s[1..], name), name);
      assert |r| == |multiset(r)| == |multiset(s)|;
      r
  }

  lemma {:induction false} InsertSorted<T>(e: T, s: seq<T>, name: T -> string)
    requires Sorted(s, name) && forall x :: x in s ==> name(x) != name(e)
    ensures Sorted(Insert(e, s, name), name)
  {
    if s == [] {
    } else if Less(name(e), name(s[0])) {
      forall k | 0 < k < |s| ensures Less(name(e), name(s[k])) {
        LessTransitive(name(e), name(s[0]), name(s[k]));
      }
    } else {
      InsertSorted(e, s[1..], name);
      var r := Insert(e, s[1..], name);
      assert s[0] in s;
      LessTotal(name(e), name(s[0]));
      forall k | 0 <= k < |r| ensures Less(name(s[0]), name(r[k])) {
        assert r[k] in multiset(r);
        if r[k] != e {
          assert r[k] in s[1..];
        }
      }
    }
  }

  /** Entries with distinct names end up strictly increasing. */
  lemma {:induction false} SortSorts<T>(s: seq<T>, name: T -> string)
    requires Distinct(s, name)
    ensures Sorted(Sort(s, name), name)
  {
    if s != [] {
      SortSorts(s[1..], name);
      forall x | x in Sort(s[1..], name) ensures name(x) != name(s[0]) {
        assert x in multiset(Sort(s[1..], name));
        assert x in s[1..];
      }
      InsertSorted(s[0], Sort(s[1..], name), name);
    }
  }

  lemma SortMembers<T>(s: seq<T>, name: T -> string)
    ensures forall e :: e in Sort(s, name) <==> e in s
  {
    forall e ensures e in Sort(s, name) <==> e in s {
      assert e in multiset(Sort(s, name)) <==> e in multiset(s);
    }
  }
}
