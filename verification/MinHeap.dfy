/** A std::priority_queue with std::greater, seen as a multiset whose top is its least element,
    and the ascending order in which a std::map walks its keys. */
module MinHeap {
  lemma {:induction false} FindLeast(s: set<nat>) returns (m: nat)
    requires s != {}
    ensures m in s && forall x: nat :: x in s ==> m <= x
  {
    m :| m in s;
    var rest := s - {m};
    if rest != {} {
      var r := FindLeast(rest);
      assert s == rest + {m};
      if r < m {
        m := r;
      }
    }
  }

  lemma LeastExists(s: set<nat>)
    requires s != {}
    ensures exists m: nat :: m in s && forall x: nat :: x in s ==> m <= x
  {
    var m := FindLeast(s);
  }

  function Least(s: set<nat>): (m: nat)
    requires s != {}
    ensures m in s && forall x: nat :: x in s ==> m <= x
  {
    LeastExists(s);
    var m: nat :| m in s && forall x: nat :: x in s ==> m <= x;
    m
  }

  function Elements(h: multiset<nat>): (s: set<nat>)
    ensures forall x: nat :: x in s <==> x in h
  {
    set x: nat | x in h
  }

  function Top(h: multiset<nat>): (m: nat)
    requires |h| > 0
    ensures m in h && forall x: nat :: x in h ==> m <= x
  {
    assert Elements(h) != {} by {
      var x: nat :| x in h;
      assert x in Elements(h);
    }
    Least(Elements(h))
  }

  function Pop(h: multiset<nat>): (r: multiset<nat>)
    requires |h| > 0
    ensures |r| == |h| - 1 && r <= h
  {
    var top := Top(h);
    h[top := h[top] - 1]
  }

  function Push(h: multiset<nat>, x: nat): (r: multiset<nat>)
    ensures |r| == |h| + 1
  {
    h[x := h[x] + 1]
  }

  predicate NoDuplicates(s: seq<nat>) {
    forall i, j :: 0 <= i < j < |s| ==> s[i] != s[j]
  }

  lemma NoDuplicatesPush(s: seq<nat>, x: nat)
    ensures NoDuplicates(s + [x]) <==> NoDuplicates(s) && x !in s
    ensures ToSet(s + [x]) == ToSet(s) + {x}
  {
    var t := s + [x];
    assert t[..|s|] == s && t[|s|] == x;
    if NoDuplicates(t) {
      forall i, j | 0 <= i < j < |s| ensures s[i] != s[j] {
        assert t[i] != t[j];
      }
      forall i | 0 <= i < |s| ensures s[i] != x {
        assert t[i] != t[|s|];
      }
    }
    if NoDuplicates(s) && x !in s {
      forall i, j | 0 <= i < j < |t| ensures t[i] != t[j] {
        assert t[i] == s[i] && t[i] in s;
      }
    }
    forall y: nat ensures y in t <==> y in s || y == x {
      if y in s {
        var i :| 0 <= i < |s| && s[i] == y;
        assert t[i] == y;
      }
      assert t[|s|] == x;
    }
  }

  predicate Ascending(s: seq<nat>) {
    forall i, j :: 0 <= i < j < |s| ==> s[i] < s[j]
  }

  function ToSet(s: seq<nat>): (r: set<nat>)
    ensures forall x: nat :: x in r <==> x in s
  {
    set x: nat | x in s
  }

  lemma AscendingHasNoDuplicates(s: seq<nat>)
    requires Ascending(s)
    ensures NoDuplicates(s)
  {
  }

  /** Appending an element that exceeds all others keeps the order. */
  lemma AscendingPush(s: seq<nat>, x: nat)
    requires Ascending(s) && forall y: nat :: y in s ==> y < x
    ensures Ascending(s + [x]) && ToSet(s + [x]) == ToSet(s) + {x}
  {
    forall i | 0 <= i < |s| ensures s[i] < x {
      assert s[i] in s;
    }
  }

  lemma LeastFirst(keys: set<nat>, m: nat, rest: seq<nat>)
    requires m in keys && (forall x: nat :: x in keys ==> m <= x)
    requires |rest| == |keys - {m}| && (forall x: nat :: x in rest <==> x in keys - {m}) && Ascending(rest)
    ensures |[m] + rest| == |keys| && (forall x: nat :: x in [m] + rest <==> x in keys) && Ascending([m] + rest)
  {
    assert |keys - {m}| == |keys| - 1;
    var all := [m] + rest;
    forall i, j | 0 <= i < j < |all| ensures all[i] < all[j] {
      assert all[j] in rest;
    }
  }

  /** The keys of a std::map in iteration order. */
  function SortedKeys(keys: set<nat>): (s: seq<nat>)
    ensures |s| == |keys|
    ensures forall x: nat :: x in s <==> x in keys
    ensures Ascending(s)
  {
    if keys == {} then [] else
      var m := Least(keys);
      var rest := SortedKeys(keys - {m});
      LeastFirst(keys, m, rest);
      [m] + rest
  }

  /** The heap filled by std::iota with `from`, ..., `from + count - 1`. */
  function Iota(from: nat, count: nat): (h: multiset<nat>)
    ensures forall x: nat :: h[x] == if from <= x < from + count then 1 else 0
    ensures |h| == count
    decreases count
  {
    if count == 0 then multiset{} else Iota(from, count - 1)[from + count - 1 := 1]
  }

  lemma MultisetOfSetSize(s: set<nat>)
    ensures |multiset(s)| == |s|
  {
  }

  /** A heap without repetitions that holds [0, n) without `used` has n - |used| elements. */
  lemma ComplementSize(h: multiset<nat>, used: set<nat>, n: nat)
    requires forall x: nat :: h[x] == if x < n && x !in used then 1 else 0
    requires forall x: nat :: x in used ==> x < n
    ensures |h| + |used| == n
  {
    assert h + multiset(used) == Iota(0, n);
    MultisetOfSetSize(used);
  }

  /** Two maps that differ at most in one key. */
  lemma MapUpdated<V>(before: map<nat, V>, after: map<nat, V>, key: nat)
    requires key in before && after.Keys == before.Keys
    requires forall k :: k in before && k != key ==> after[k] == before[k]
    ensures after == before[key := after[key]]
  {
  }

  lemma {:induction false} AscendingSize(s: seq<nat>)
    requires Ascending(s)
    ensures |ToSet(s)| == |s|
    decreases |s|
  {
    if s != [] {
      var init, last := s[..|s| - 1], s[|s| - 1];
      AscendingSize(init);
      assert s == init + [last];
      assert ToSet(s) == ToSet(init) + {last};
      assert last !in init;
    } else {
      assert ToSet(s) == {};
    }
  }

  /** Position i of an ascending sequence has i smaller elements. */
  lemma SmallerElements(s: seq<nat>, i: nat)
    requires Ascending(s) && i < |s|
    ensures |set x: nat | x in s && x < s[i]| == i
  {
    AscendingSize(s[..i]);
    forall x: nat ensures x in s && x < s[i] <==> x in s[..i] {
      if x in s && x < s[i] {
        var k :| 0 <= k < |s| && s[k] == x;
        assert k < i;
        assert s[..i][k] == x;
      }
    }
    assert (set x: nat | x in s && x < s[i]) == ToSet(s[..i]);
  }
}
