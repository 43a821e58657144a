/**
  The orders that std::map, std::set and std::sort impose in the source: byte strings are
  compared lexicographically, and a sorted container without duplicates is one fixed
  sequence for each set of elements.
 */
module Ordering {

  /** One byte of a std::string, and a std::string. */
  type Byte = c: char | c as int < 256 witness 'a'
  type Bytes = seq<Byte>

  /** std::string's operator<. */
  predicate Less(a: Bytes, b: Bytes)
  {
    if b == [] then false
    else if a == [] then true
    else a[0] < b[0] || (a[0] == b[0] && Less(a[1..], b[1..]))
  }

  ghost predicate StrictTotalOrder<T(!new)>(less: (T, T) -> bool)
  {
    && (forall x :: !less(x, x))
    && (forall x, y, z :: less(x, y) && less(y, z) ==> less(x, z))
    && (forall x, y :: x == y || less(x, y) || less(y, x))
  }

  lemma {:induction false} LessIrreflexive(a: Bytes)
    ensures !Less(a, a)
  {
    if a != [] {
      LessIrreflexive(a[1..]);
    }
  }

  lemma {:induction false} LessTransitive(a: Bytes, b: Bytes, c: Bytes)
    requires Less(a, b) && Less(b, c)
    ensures Less(a, c)
  {
    if a != [] && a[0] == b[0] && b[0] == c[0] {
      LessTransitive(a[1..], b[1..], c[1..]);
    }
  }

  lemma {:induction false} LessConnected(a: Bytes, b: Bytes)
    ensures a == b || Less(a, b) || Less(b, a)
  {
    if a != [] && b != [] && a[0] == b[0] {
      LessConnected(a[1..], b[1..]);
      assert a == [a[0]] + a[1..] && b == [b[0]] + b[1..];
    }
  }

  lemma LessIsStrictTotalOrder()
    ensures StrictTotalOrder(Less)
  {
    forall x: Bytes ensures !Less(x, x) { LessIrreflexive(x); }
    forall x: Bytes, y: Bytes, z: Bytes | Less(x, y) && Less(y, z) ensures Less(x, z) {
      LessTransitive(x, y, z);
    }
    forall x: Bytes, y: Bytes ensures x == y || Less(x, y) || Less(y, x) { LessConnected(x, y); }
  }

  /** Lexicographic: a proper prefix comes first, and otherwise the first byte that differs decides. */
  lemma {:induction false} LessIsLexicographic(a: Bytes, b: Bytes)
    ensures Less(a, b) <==>
            || (|a| < |b| && a == b[..|a|])
            || exists k :: 0 <= k < |a| && k < |b| && a[..k] == b[..k] && a[k] as int < b[k] as int
  {
    if a != [] && b != [] {
      if a[0] == b[0] {
        var s, t := a[1..], b[1..];
        LessIsLexicographic(s, t);
        assert a == [a[0]] + s && b == [b[0]] + t;
        if |s| < |t| && s == t[..|s|] {
          assert a == b[..|a|];
        }
        if k :| 0 <= k < |s| && k < |t| && s[..k] == t[..k] && s[k] as int < t[k] as int {
          assert a[..k + 1] == [a[0]] + s[..k] && b[..k + 1] == [b[0]] + t[..k];
        }
        if |a| < |b| && a == b[..|a|] {
          assert s == t[..|s|];
        }
        if k :| 0 <= k < |a| && k < |b| && a[..k] == b[..k] && a[k] as int < b[k] as int {
          assert k > 0;
          assert s[..k - 1] == a[..k][1..] && t[..k - 1] == b[..k][1..];
        }
      } else {
        assert a[0] as int < b[0] as int ==> a[..0] == b[..0];
        forall k | 0 < k <= |a| && k <= |b| ensures a[..k] != b[..k] {
          assert a[..k][0] != b[..k][0];
        }
      }
    }
  }

  /** Sorted with no two equal neighbours: what std::set iterates and what sort + unique leaves. */
  predicate StrictlySorted<T>(less: (T, T) -> bool, s: seq<T>)
  {
    forall i, j :: 0 <= i < j < |s| ==> less(s[i], s[j])
  }

  ghost function Elements<T>(s: seq<T>): set<T>
  {
    set x | x in s
  }

  ghost predicate NoDuplicates<T>(s: seq<T>)
  {
    forall i, j :: 0 <= i < j < |s| ==> s[i] != s[j]
  }

  lemma NoDuplicatesGrow<T>(s: seq<T>, x: T)
    ensures NoDuplicates(s + [x]) <==> NoDuplicates(s) && x !in Elements(s)
    ensures Elements(s + [x]) == Elements(s) + {x}
  {
    var longer := s + [x];
    if NoDuplicates(longer) {
      forall i | 0 <= i < |s| ensures s[i] != x {
        assert longer[i] != longer[|s|];
      }
      forall i, j | 0 <= i < j < |s| ensures s[i] != s[j] {
        assert longer[i] != longer[j];
      }
    }
  }

  lemma Associative<T>(a: seq<T>, b: seq<T>, c: seq<T>)
    ensures a + (b + c) == a + b + c
  {
  }

  lemma TakeAll<T>(s: seq<T>)
    ensures s[..|s|] == s
  {
  }

  lemma TakeMore<T>(s: seq<T>, i: nat)
    requires i < |s|
    ensures s[..i + 1] == s[..i] + [s[i]]
    ensures Elements(s[..i + 1]) == Elements(s[..i]) + {s[i]}
  {
    assert s[..i + 1] == s[..i] + [s[i]];
  }

  lemma Concatenated<T>(s: seq<T>, t: seq<T>)
    ensures Elements(s + t) == Elements(s) + Elements(t)
  {
  }

  lemma NoElements<T>(s: seq<T>)
    ensures s == [] <==> Elements(s) == {}
  {
    if s != [] { assert s[0] in Elements(s); }
  }

  /** A strictly sorted sequence is determined by its elements. */
  lemma {:induction false} StrictlySortedUnique<T(!new)>(less: (T, T) -> bool, s: seq<T>, t: seq<T>)
    requires StrictTotalOrder(less)
    requires StrictlySorted(less, s) && StrictlySorted(less, t)
    requires Elements(s) == Elements(t)
    ensures s == t
  {
    NoElements(s);
    NoElements(t);
    if s != [] && t != [] {
      FirstIsLeast(less, s, t);
      FirstIsLeast(less, t, s);
      assert s[0] == t[0];
      TailElements(less, s);
      TailElements(less, t);
      StrictlySortedUnique(less, s[1..], t[1..]);
      assert s == [s[0]] + s[1..] && t == [t[0]] + t[1..];
    }
  }

  lemma FirstIsLeast<T(!new)>(less: (T, T) -> bool, s: seq<T>, t: seq<T>)
    requires StrictTotalOrder(less) && StrictlySorted(less, s)
    requires s != [] && t != [] && Elements(s) == Elements(t)
    ensures s[0] == t[0] || less(s[0], t[0])
  {
    assert t[0] in Elements(t);
    var i :| 0 <= i < |s| && s[i] == t[0];
  }

  lemma TailElements<T(!new)>(less: (T, T) -> bool, s: seq<T>)
    requires StrictTotalOrder(less) && StrictlySorted(less, s) && s != []
    ensures Elements(s[1..]) == Elements(s) - {s[0]}
    ensures StrictlySorted(less, s[1..])
  {
    forall x | x in Elements(s) && x != s[0] ensures x in s[1..] {
      var i :| 0 <= i < |s| && s[i] == x;
      assert s[1..][i - 1] == x;
    }
  }

  /** Inserts into a strictly sorted sequence unless the element is already there. */
  function Insert<T(==)>(less: (T, T) -> bool, s: seq<T>, x: T): (r: seq<T>)
  {
    if s == [] then [x]
    else if s[0] == x then s
    else if less(x, s[0]) then [x] + s
    else [s[0]] + Insert(less, s[1..], x)
  }

  lemma {:induction false} InsertSorts<T(!new)>(less: (T, T) -> bool, s: seq<T>, x: T)
    requires StrictTotalOrder(less) && StrictlySorted(less, s)
    ensures StrictlySorted(less, Insert(less, s, x))
    ensures Elements(Insert(less, s, x)) == Elements(s) + {x}
  {
    if s == [] {
    } else if s[0] == x {
    } else if less(x, s[0]) {
      assert forall y :: y in [x] + s <==> y == x || y in s;
    } else {
      InsertSorts(less, s[1..], x);
      TailElements(less, s);
      var r := Insert(less, s[1..], x);
      assert Elements(r) == Elements(s[1..]) + {x};
      forall j | 0 <= j < |r| ensures less(s[0], r[j]) {
        assert r[j] in Elements(r);
        if r[j] != x {
          var i :| 0 <= i < |s[1..]| && s[1..][i] == r[j];
          assert s[i + 1] == r[j];
        }
      }
      assert Elements([s[0]] + r) == {s[0]} + Elements(r);
    }
  }

  /** std::sort followed by std::unique: the strictly sorted sequence of the elements of s. */
  method SortUnique<T(==,!new)>(less: (T, T) -> bool, s: seq<T>) returns (r: seq<T>)
    requires StrictTotalOrder(less)
    ensures StrictlySorted(less, r) && Elements(r) == Elements(s)
  {
    r := [];
    for i := 0 to |s|
      invariant StrictlySorted(less, r)
      invariant Elements(r) == Elements(s[..i])
    {
      InsertSorts(less, r, s[i]);
      r := Insert(less, r, s[i]);
      assert s[..i + 1] == s[..i] + [s[i]];
    }
    assert s[..|s|] == s;
  }

  /** The elements of a set, in any order. */
  method ListOf<T(==)>(s: set<T>) returns (r: seq<T>)
    ensures Elements(r) == s
  {
    r := [];
    var rest := s;
    while rest != {}
      invariant Elements(r) + rest == s
    {
      var x :| x in rest;
      assert Elements(r + [x]) == Elements(r) + {x};
      r, rest := r + [x], rest - {x};
    }
  }
}
