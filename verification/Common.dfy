/**
 Vocabulary shared by every component: optional values, instants, the byte-wise
 order on names that `sort.Strings` uses, and sequences without repetition.
 */
module Common {

  datatype Option<+T> = None | Some(value: T)

  /** An instant in nanoseconds. The source's zero `time.Time` is `None` where it has a meaning. */
  type Time = int

  const MINUTE: Time := 60_000_000_000
  const HOUR: Time := 60 * MINUTE

  function Max(a: int, b: int): int { if a < b then b else a }

  function Min(a: int, b: int): int { if b < a then b else a }

  // ---------------------------------------------------------------- sequences

  ghost predicate Distinct<T(!new)>(s: seq<T>) {
    forall i, j :: 0 <= i < j < |s| ==> s[i] != s[j]
  }

  function Elems<T>(s: seq<T>): set<T> { set x | x in s }

  lemma DistinctSize<T(!new)>(s: seq<T>)
    requires Distinct(s)
    ensures |Elems(s)| == |s|
  {
    if s != [] {
      var t := s[..|s| - 1];
      assert Elems(s) == Elems(t) + {s[|s| - 1]};
      DistinctSize(t);
    }
  }

  // ------------------------------------------------------------ order on names

  predicate StrLe(a: string, b: string) {
    if a == "" then true
    else if b == "" then false
    else if a[0] != b[0] then a[0] < b[0]
    else StrLe(a[1..], b[1..])
  }

  lemma {:induction false} StrTotal(a: string, b: string)
    ensures StrLe(a, b) || StrLe(b, a)
  {
    if a != "" && b != "" && a[0] == b[0] {
      StrTotal(a[1..], b[1..]);
    }
  }

  lemma {:induction false} StrAntisymmetric(a: string, b: string)
    requires StrLe(a, b) && StrLe(b, a)
    ensures a == b
  {
    if a != "" && b != "" {
      StrAntisymmetric(a[1..], b[1..]);
      assert a == [a[0]] + a[1..] && b == [b[0]] + b[1..];
    }
  }

  lemma {:induction false} StrTransitive(a: string, b: string, c: string)
    requires StrLe(a, b) && StrLe(b, c)
    ensures StrLe(a, c)
  {
    if a != "" && b != "" && c != "" && a[0] == b[0] && b[0] == c[0] {
      StrTransitive(a[1..], b[1..], c[1..]);
    }
  }

  /** Ascending, without repetition: what sorting the keys of a Go map yields. */
  ghost predicate Ascending(s: seq<string>) {
    forall i, j :: 0 <= i < j < |s| ==> StrLe(s[i], s[j]) && s[i] != s[j]
  }

  function Insert(x: string, s: seq<string>): (r: seq<string>)
    ensures multiset(r) == multiset(s) + multiset{x}
    ensures forall y :: y in r <==> y == x || y in s
  {
    if s == [] then [x]
    else if StrLe(x, s[0]) then [x] + s
    else
      assert s == [s[0]] + s[1..];
      [s[0]] + Insert(x, s[1..])
  }

  /** `sort.Strings`. */
  function SortStrings(s: seq<string>): (r: seq<string>)
    ensures multiset(r) == multiset(s)
    ensures forall y :: y in r <==> y in s
  {
    if s == [] then []
    else
      assert s == s[..|s| - 1] + [s[|s| - 1]];
      Insert(s[|s| - 1], SortStrings(s[..|s| - 1]))
  }

  lemma {:induction false} InsertAscending(x: string, s: seq<string>)
    requires Ascending(s) && x !in s
    ensures Ascending(Insert(x, s))
  {
    if s == [] {
    } else if StrLe(x, s[0]) {
      forall j | 0 <= j < |s| ensures StrLe(x, s[j]) && x != s[j] {
        if j > 0 { StrTransitive(x, s[0], s[j]); }
      }
    } else {
      StrTotal(x, s[0]);
      InsertAscending(x, s[1..]);
      var t := Insert(x, s[1..]);
      forall j | 0 <= j < |t| ensures StrLe(s[0], t[j]) && s[0] != t[j] {
        if t[j] != x {
          assert t[j] in s[1..];
          var k :| 0 <= k < |s[1..]| && s[1..][k] == t[j];
          assert s[k + 1] == t[j];
        }
      }
      ConsAscending(s[0], t);
    }
  }

  lemma ConsAscending(x: string, t: seq<string>)
    requires Ascending(t)
    requires forall j :: 0 <= j < |t| ==> StrLe(x, t[j]) && x != t[j]
    ensures Ascending([x] + t)
  {
    var u := [x] + t;
    forall i, j | 0 <= i < j < |u| ensures StrLe(u[i], u[j]) && u[i] != u[j] {
      assert u[j] == t[j - 1];
      if i > 0 { assert u[i] == t[i - 1]; }
    }
  }

  lemma {:induction false} SortAscending(s: seq<string>)
    requires Distinct(s)
    ensures Ascending(SortStrings(s))
  {
    if s != [] {
      var t := s[..|s| - 1];
      SortAscending(t);
      InsertAscending(s[|s| - 1], SortStrings(t));
    }
  }

  /** A set of names has one ascending listing, so map iteration order never shows in it. */
  lemma {:induction false} AscendingUnique(a: seq<string>, b: seq<string>)
    requires Ascending(a) && Ascending(b) && Elems(a) == Elems(b)
    ensures a == b
  {
    if a == [] {
      ElemsNonempty(b);
    } else {
      assert a[0] in Elems(a);
      assert b[0] in Elems(b);
      var i :| 0 <= i < |b| && b[i] == a[0];
      var j :| 0 <= j < |a| && a[j] == b[0];
      if i > 0 && j > 0 { StrAntisymmetric(a[0], b[0]); }
      assert a[0] == b[0];
      forall x ensures x in Elems(a[1..]) <==> x in Elems(b[1..]) {
        TailElems(a, x);
        TailElems(b, x);
      }
      AscendingUnique(a[1..], b[1..]);
      assert a == [a[0]] + a[1..] && b == [b[0]] + b[1..];
    }
  }

  lemma ElemsNonempty(s: seq<string>)
    ensures s != [] ==> Elems(s) != {}
  {
    if s != [] { assert s[0] in Elems(s); }
  }

  lemma TailElems(s: seq<string>, x: string)
    requires Ascending(s) && s != []
    ensures x in Elems(s[1..]) <==> x in Elems(s) && x != s[0]
  {
    if x in Elems(s) && x != s[0] {
      var i :| 0 <= i < |s| && s[i] == x;
      assert s[1..][i - 1] == x;
    }
    if x in Elems(s[1..]) {
      var i :| 0 <= i < |s[1..]| && s[1..][i] == x;
      assert s[i + 1] == x;
    }
  }

  ghost predicate IsListing(r: seq<string>, names: set<string>) { Ascending(r) && Elems(r) == names }

  lemma {:induction false} ListingExists(names: set<string>)
    ensures exists r :: IsListing(r, names)
  {
    if names == {} {
      assert IsListing([], names);
    } else {
      var x :| x in names;
      ListingExists(names - {x});
      var t :| IsListing(t, names - {x});
      assert x !in Elems(t);
      InsertAscending(x, t);
      assert forall y :: y in Insert(x, t) <==> y == x || y in Elems(t);
      assert IsListing(Insert(x, t), names);
    }
  }

  /** The ascending listing of a set, independent of how the set is walked. */
  ghost function Listing(names: set<string>): (r: seq<string>)
    ensures Ascending(r) && Elems(r) == names
  {
    ListingExists(names);
    var r :| IsListing(r, names);
    r
  }

  method SortKeys(names: set<string>) returns (r: seq<string>)
    ensures r == Listing(names)
  {
    hide Listing, SortStrings, Ascending;
    var keys := Collect(names);
    SortAscending(keys);
    r := SortStrings(keys);
    assert Elems(r) == names;
    AscendingUnique(r, Listing(names));
  }

  /** The elements of a set, in whatever order they come up. */
  method Collect(names: set<string>) returns (acc: seq<string>)
    ensures Distinct(acc) && Elems(acc) == names
  {
    acc := [];
    var todo := names;
    while todo != {}
      invariant Distinct(acc) && Elems(acc) + todo == names && Elems(acc) !! todo
      decreases |todo|
    {
      var x :| x in todo;
      assert x !in Elems(acc);
      todo, acc := todo - {x}, acc + [x];
    }
  }
}
