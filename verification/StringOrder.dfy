/** Go's bytewise string order, and the one ascending listing of a finite set
    of strings. */
module StringOrder {
  import opened Collections

  predicate Less(a: string, b: string) {
    b != [] && (a == [] || a[0] < b[0] || (a[0] == b[0] && Less(a[1..], b[1..])))
  }

  lemma {:induction false} LessTotal(a: string, b: string)
    ensures a == b || Less(a, b) || Less(b, a)
  {
    if a != [] && b != [] && a[0] == b[0] {
      LessTotal(a[1..], b[1..]);
      assert a[1..] == b[1..] ==> [a[0]] + a[1..] == [b[0]] + b[1..];
    }
  }

  lemma {:induction false} LessTransitive(a: string, b: string, c: string)
    requires Less(a, b) && Less(b, c)
    ensures Less(a, c)
  {
    if a != [] && a[0] == b[0] == c[0] {
      LessTransitive(a[1..], b[1..], c[1..]);
    }
  }

  lemma {:induction false} LessIrreflexive(a: string)
    ensures !Less(a, a)
  {
    if a != [] {
      LessIrreflexive(a[1..]);
    }
  }

  lemma LessAsymmetric(a: string, b: string)
    requires Less(a, b)
    ensures !Less(b, a)
  {
    if Less(b, a) {
      LessTransitive(a, b, a);
      LessIrreflexive(a);
    }
  }

  lemma NotLessTransitive(a: string, b: string, c: string)
    requires !Less(b, a) && !Less(c, b)
    ensures !Less(c, a)
  {
    LessTotal(b, a);
    if Less(c, a) && a != b {
      LessTransitive(c, a, b);
    }
  }

  ghost predicate BeforeAt(a: string, b: string, k: nat) {
    k <= |a| && k < |b| && a[..k] == b[..k] && (k == |a| || a[k] < b[k])
  }

  lemma {:induction false} BeforeIsLess(a: string, b: string, k: nat)
    requires BeforeAt(a, b, k)
    ensures Less(a, b)
  {
    if k > 0 {
      assert a[..k][0] == b[..k][0];
      assert a[1..][..k - 1] == a[..k][1..] && b[1..][..k - 1] == b[..k][1..];
      BeforeIsLess(a[1..], b[1..], k - 1);
    }
  }

  lemma {:induction false} LessIsBefore(a: string, b: string) returns (k: nat)
    requires Less(a, b)
    ensures BeforeAt(a, b, k)
  {
    if a == [] || a[0] < b[0] {
      k := 0;
    } else {
      var j := LessIsBefore(a[1..], b[1..]);
      k := j + 1;
      assert a[..k] == [a[0]] + a[1..][..j] && b[..k] == [b[0]] + b[1..][..j];
    }
  }

  /** One string comes before another if it is a proper beginning of it, or has
      the smaller character where they first differ. */
  lemma LessMeans(a: string, b: string)
    ensures Less(a, b) <==>
              exists k :: 0 <= k <= |a| && k < |b| && a[..k] == b[..k] && (k == |a| || a[k] < b[k])
  {
    if Less(a, b) {
      var k := LessIsBefore(a, b);
    }
    if k :| 0 <= k <= |a| && k < |b| && a[..k] == b[..k] && (k == |a| || a[k] < b[k]) {
      BeforeIsLess(a, b, k);
    }
  }

  predicate StrictlySorted(s: seq<string>) {
    forall i, j :: 0 <= i < j < |s| ==> Less(s[i], s[j])
  }

  lemma NoElements(s: seq<string>)
    ensures Elements(s) == {} ==> s == []
  {
    if s != [] {
      assert s[0] in Elements(s);
    }
  }

  /** An ascending listing is determined by its elements. */
  lemma {:induction false} ListingUnique(s: seq<string>, t: seq<string>)
    requires StrictlySorted(s) && StrictlySorted(t) && Elements(s) == Elements(t)
    ensures s == t
  {
    if s == [] {
      NoElements(t);
    } else {
      assert s[0] in Elements(s);
      var j :| 0 <= j < |t| && t[j] == s[0];
      assert t[0] in Elements(t);
      var i :| 0 <= i < |s| && s[i] == t[0];
      if i > 0 && j > 0 {
        assert Less(s[0], s[i]) && Less(t[0], t[j]);
        LessTransitive(s[0], t[0], s[0]);
        LessIrreflexive(s[0]);
        assert false;
      }
      TailElements(s);
      TailElements(t);
      ListingUnique(s[1..], t[1..]);
      assert s == [s[0]] + s[1..] && t == [t[0]] + t[1..];
    }
  }

  lemma TailElements(s: seq<string>)
    requires s != [] && StrictlySorted(s)
    ensures StrictlySorted(s[1..]) && Elements(s[1..]) == Elements(s) - {s[0]}
  {
    forall i | 1 <= i < |s|
      ensures s[i] != s[0]
    {
      assert Less(s[0], s[i]);
      LessIrreflexive(s[0]);
    }
    forall x | x in Elements(s) && x != s[0]
      ensures x in s[1..]
    {
      var i :| 0 <= i < |s| && s[i] == x;
      assert s[1..][i - 1] == x;
    }
  }

  predicate IsLeast(m: string, names: set<string>) {
    m in names && forall n :: n in names && n != m ==> Less(m, n)
  }

  lemma {:induction false} FindLeast(names: set<string>) returns (m: string)
    requires names != {}
    ensures IsLeast(m, names)
  {
    hide Less;
    m :| m in names;
    if names != {m} {
      var rest := names - {m};
      var m' := FindLeast(rest);
      LessTotal(m, m');
      assert forall n :: n in names && n != m && n != m' ==> n in rest && Less(m', n);
      if Less(m', m) {
        m := m';
      } else {
        forall n | n in names && n != m && n != m'
          ensures Less(m, n)
        {
          LessTransitive(m, m', n);
        }
      }
    }
  }

  ghost function Least(names: set<string>): (m: string)
    requires names != {}
    ensures IsLeast(m, names)
  {
    assert exists m :: IsLeast(m, names) by {
      var m := FindLeast(names);
    }
    var m :| IsLeast(m, names);
    m
  }

  /** The elements of `names` in ascending order. */
  ghost function Listing(names: set<string>): (s: seq<string>)
    ensures StrictlySorted(s) && Elements(s) == names && |s| == |names|
  {
    if names == {} then []
    else
      var m := Least(names);
      var rest := Listing(names - {m});
      ConsListing(m, rest, names);
      [m] + rest
  }

  lemma ConsListing(m: string, rest: seq<string>, names: set<string>)
    requires IsLeast(m, names) && StrictlySorted(rest) && Elements(rest) == names - {m}
    ensures StrictlySorted([m] + rest) && Elements([m] + rest) == names
  {
    hide Less;
    var s := [m] + rest;
    assert s[0] == m;
    assert forall i :: 1 <= i < |s| ==> s[i] == rest[i - 1] && s[i] in Elements(rest);
    forall n | n in names
      ensures n in s
    {
      if n != m {
        assert n in Elements(rest);
        var i :| 0 <= i < |rest| && rest[i] == n;
        assert s[i + 1] == n;
      }
    }
  }

  lemma SameMembers<T>(s: seq<T>, t: seq<T>)
    requires multiset(s) == multiset(t)
    ensures forall x :: x in s <==> x in t
  {
    assert forall x :: x in s <==> x in multiset(s);
    assert forall x :: x in t <==> x in multiset(t);
  }

  /** A listing as long as its set of elements repeats nothing. */
  lemma {:induction false} NoRepeats(s: seq<string>)
    requires |s| == |Elements(s)|
    ensures forall i, j :: 0 <= i < j < |s| ==> s[i] != s[j]
  {
    if s != [] {
      var front, x := s[..|s| - 1], s[|s| - 1];
      ElementsFront(s);
      ElementsBound(front);
      NoRepeats(front);
      assert x !in Elements(front);
      assert forall i :: 0 <= i < |front| ==> front[i] == s[i] && s[i] != x;
    }
  }

  lemma ElementsFront(s: seq<string>)
    requires s != []
    ensures Elements(s) == Elements(s[..|s| - 1]) + {s[|s| - 1]}
  {
  }

  lemma {:induction false} ElementsBound(s: seq<string>)
    ensures |Elements(s)| <= |s|
  {
    if s != [] {
      ElementsBound(s[..|s| - 1]);
      ElementsFront(s);
    }
  }

  /** Sorting any repetition-free arrangement of a set gives its listing. */
  lemma SortedIsListing(s: seq<string>, names: set<string>)
    requires |s| == |names| && Elements(s) == names
    requires forall i, j :: 0 <= i < j < |s| ==> !Less(s[j], s[i])
    ensures s == Listing(names)
  {
    hide Less;
    NoRepeats(s);
    forall i, j | 0 <= i < j < |s|
      ensures Less(s[i], s[j])
    {
      LessTotal(s[i], s[j]);
    }
    ListingUnique(s, Listing(names));
  }
}
