/**
 The ordering the engine gives its rules: descending `priority`, stable among
 equal priorities. `SortByPriority` is the specification (an insertion sort on
 sequences), `SortByPriorityInPlace` sorts an array in place and is proved to
 produce exactly that sequence, and `StableSortIsUnique` shows that every
 stable descending sort produces the same sequence, so the choice of stable
 algorithm does not matter.
 */
module PrioritySort {
  import opened RuleTypes

  /** Priorities never increase along the sequence. */
  predicate SortedDesc(s: seq<Rule>) {
    forall i, j :: 0 <= i < j < |s| ==> s[i].priority >= s[j].priority
  }

  /** The rules of priority `p`, in their order in `s`. */
  function WithPriority(s: seq<Rule>, p: int): seq<Rule> {
    if s == [] then []
    else if s[0].priority == p then [s[0]] + WithPriority(s[1..], p)
    else WithPriority(s[1..], p)
  }

  /** Places `x` after every trailing rule of `t` whose priority is at least its own. */
  function Insert(t: seq<Rule>, x: Rule): seq<Rule> {
    if t == [] then [x]
    else if t[|t| - 1].priority >= x.priority then t + [x]
    else Insert(t[..|t| - 1], x) + [t[|t| - 1]]
  }

  /** Insertion sort, taking the input from left to right. */
  function SortByPriority(s: seq<Rule>): seq<Rule> {
    if s == [] then [] else Insert(SortByPriority(s[..|s| - 1]), s[|s| - 1])
  }

  // ---------------------------------------------------------------------------
  // Facts about the filter
  // ---------------------------------------------------------------------------

  lemma {:induction false} WithPriorityConcat(a: seq<Rule>, b: seq<Rule>, p: int)
    ensures WithPriority(a + b, p) == WithPriority(a, p) + WithPriority(b, p)
  {
    if a == [] {
      assert a + b == b;
    } else {
      assert (a + b)[1..] == a[1..] + b;
      WithPriorityConcat(a[1..], b, p);
    }
  }

  lemma {:induction false} WithPriorityMember(s: seq<Rule>, p: int, x: Rule)
    ensures x in WithPriority(s, p) ==> x in s && x.priority == p
  {
    if s != [] {
      WithPriorityMember(s[1..], p, x);
    }
  }

  // ---------------------------------------------------------------------------
  // Insertion
  // ---------------------------------------------------------------------------

  lemma {:induction false} InsertMultiset(t: seq<Rule>, x: Rule)
    ensures multiset(Insert(t, x)) == multiset(t) + multiset{x}
  {
    if t != [] && t[|t| - 1].priority < x.priority {
      var init := t[..|t| - 1];
      InsertMultiset(init, x);
      assert t == init + [t[|t| - 1]];
    }
  }

  lemma {:induction false} InsertSorted(t: seq<Rule>, x: Rule)
    requires SortedDesc(t)
    ensures SortedDesc(Insert(t, x))
  {
    if t != [] && t[|t| - 1].priority < x.priority {
      var init, last := t[..|t| - 1], t[|t| - 1];
      InsertSorted(init, x);
      InsertMultiset(init, x);
      var r := Insert(init, x);
      forall i | 0 <= i < |r| ensures r[i].priority >= last.priority {
        assert r[i] in multiset(init) + multiset{x};
        if r[i] in init {
          var k :| 0 <= k < |init| && init[k] == r[i];
          assert t[k] == r[i];
        }
      }
    }
  }

  lemma {:induction false} InsertWithPriority(t: seq<Rule>, x: Rule, p: int)
    ensures WithPriority(Insert(t, x), p)
            == WithPriority(t, p) + (if x.priority == p then [x] else [])
  {
    if t == [] {
      assert WithPriority([x], p) == (if x.priority == p then [x] else []) + WithPriority([], p);
    } else {
      var init, last := t[..|t| - 1], t[|t| - 1];
      assert t == init + [last];
      assert WithPriority([x], p) == (if x.priority == p then [x] else []) + WithPriority([], p);
      assert WithPriority([last], p) == (if last.priority == p then [last] else []) + WithPriority([], p);
      if last.priority >= x.priority {
        WithPriorityConcat(t, [x], p);
      } else {
        InsertWithPriority(init, x, p);
        WithPriorityConcat(Insert(init, x), [last], p);
        WithPriorityConcat(init, [last], p);
      }
    }
  }

  /** Inserting at position `j` is the same as `Insert` when `j` is the point where
      the rules of lower priority than `x` begin. */
  lemma {:induction false} InsertAt(t: seq<Rule>, x: Rule, j: nat)
    requires j <= |t|
    requires j == 0 || t[j - 1].priority >= x.priority
    requires forall k :: j <= k < |t| ==> t[k].priority < x.priority
    ensures Insert(t, x) == t[..j] + [x] + t[j..]
    decreases |t|
  {
    if t == [] {
    } else if j == |t| {
      assert t[..j] == t;
    } else {
      var init := t[..|t| - 1];
      InsertAt(init, x, j);
      assert init[..j] == t[..j];
      assert init[j..] + [t[|t| - 1]] == t[j..];
    }
  }

  // ---------------------------------------------------------------------------
  // The sort: ordered, a permutation, stable, and the only such arrangement
  // ---------------------------------------------------------------------------

  lemma {:induction false} SortByPriorityIsSorted(s: seq<Rule>)
    ensures SortedDesc(SortByPriority(s))
  {
    if s != [] {
      SortByPriorityIsSorted(s[..|s| - 1]);
      InsertSorted(SortByPriority(s[..|s| - 1]), s[|s| - 1]);
    }
  }

  lemma {:induction false} SortByPriorityIsPermutation(s: seq<Rule>)
    ensures multiset(SortByPriority(s)) == multiset(s)
    ensures |SortByPriority(s)| == |s|
  {
    if s != [] {
      var init, last := s[..|s| - 1], s[|s| - 1];
      SortByPriorityIsPermutation(init);
      InsertMultiset(SortByPriority(init), last);
      assert s == init + [last];
    }
  }

  /** Stability: the rules of each priority keep their relative input order. */
  lemma {:induction false} SortByPriorityIsStable(s: seq<Rule>, p: int)
    ensures WithPriority(SortByPriority(s), p) == WithPriority(s, p)
  {
    if s == [] {
    } else {
      var init, last := s[..|s| - 1], s[|s| - 1];
      SortByPriorityIsStable(init, p);
      InsertWithPriority(SortByPriority(init), last, p);
      assert s == init + [last];
      WithPriorityConcat(init, [last], p);
      assert WithPriority([last], p) == (if last.priority == p then [last] else []) + WithPriority([], p);
    }
  }

  lemma WithPriorityHead(s: seq<Rule>)
    requires s != []
    ensures WithPriority(s, s[0].priority) == [s[0]] + WithPriority(s[1..], s[0].priority)
  {
  }

  /** Two descending sequences that agree on the rules of every priority are equal. */
  lemma {:induction false} SortedUnique(a: seq<Rule>, b: seq<Rule>)
    requires SortedDesc(a) && SortedDesc(b)
    requires forall p :: WithPriority(a, p) == WithPriority(b, p)
    ensures a == b
    decreases |a| + |b|
  {
    if a == [] || b == [] {
      if a != [] {
        WithPriorityHead(a);
        assert false;
      } else if b != [] {
        WithPriorityHead(b);
        assert false;
      }
    } else {
      var pa, pb := a[0].priority, b[0].priority;
      WithPriorityHead(a);
      WithPriorityHead(b);
      WithPriorityMember(a, pb, b[0]);
      WithPriorityMember(b, pa, a[0]);
      assert b[0] in WithPriority(a, pb);
      assert a[0] in WithPriority(b, pa);
      var ka :| 0 <= ka < |a| && a[ka] == b[0];
      var kb :| 0 <= kb < |b| && b[kb] == a[0];
      assert pa >= pb && pb >= pa;
      assert a[0] == WithPriority(a, pa)[0] == WithPriority(b, pa)[0] == b[0];
      forall p ensures WithPriority(a[1..], p) == WithPriority(b[1..], p) {
        assert WithPriority(a, p) == WithPriority(b, p);
        if p == pa {
          assert WithPriority(a, p) == [a[0]] + WithPriority(a[1..], p);
          assert WithPriority(b, p) == [b[0]] + WithPriority(b[1..], p);
          assert WithPriority(a[1..], p) == WithPriority(a, p)[1..];
          assert WithPriority(b[1..], p) == WithPriority(b, p)[1..];
        } else {
          assert WithPriority(a, p) == WithPriority(a[1..], p);
          assert WithPriority(b, p) == WithPriority(b[1..], p);
        }
      }
      SortedUnique(a[1..], b[1..]);
      assert a == [a[0]] + a[1..];
      assert b == [b[0]] + b[1..];
    }
  }

  /** Any arrangement of `s` that is descending and stable is `SortByPriority(s)`. */
  lemma StableSortIsUnique(s: seq<Rule>, out: seq<Rule>)
    requires SortedDesc(out)
    requires forall p :: WithPriority(out, p) == WithPriority(s, p)
    ensures out == SortByPriority(s)
  {
    SortByPriorityIsSorted(s);
    forall p ensures WithPriority(out, p) == WithPriority(SortByPriority(s), p) {
      SortByPriorityIsStable(s, p);
    }
    SortedUnique(out, SortByPriority(s));
  }

  // ---------------------------------------------------------------------------
  // The in-place sort
  // ---------------------------------------------------------------------------

  /** Moves `a[i]` left past the rules of `a[..i]` whose priority is strictly lower. */
  method InsertInPlace(a: array<Rule>, i: nat)
    requires i < a.Length
    modifies a
    ensures a[..i + 1] == Insert(old(a[..i]), old(a[i]))
    ensures a[i + 1..] == old(a[i + 1..])
  {
    ghost var t := a[..i];
    ghost var rest := a[i + 1..];
    var x := a[i];
    var j := i;
    while j > 0 && a[j - 1].priority < x.priority
      invariant 0 <= j <= i
      invariant a[..j] == t[..j]
      invariant a[j + 1..i + 1] == t[j..i]
      invariant a[i + 1..] == rest
      invariant forall k :: j <= k < i ==> t[k].priority < x.priority
    {
      a[j] := a[j - 1];
      j := j - 1;
    }
    a[j] := x;
    InsertAt(t, x, j);
    assert a[..i + 1] == a[..j] + [x] + a[j + 1..i + 1];
  }

  /** Sorts `a` in place by descending priority, keeping the order of equal priorities:
      each rule in turn is shifted left past the sorted rules of strictly lower priority. */
  method SortByPriorityInPlace(a: array<Rule>)
    modifies a
    ensures a[..] == SortByPriority(old(a[..]))
  {
    ghost var input := a[..];
    var i := 0;
    while i < a.Length
      invariant 0 <= i <= a.Length
      invariant a[..i] == SortByPriority(input[..i])
      invariant a[i..] == input[i..]
    {
      InsertInPlace(a, i);
      assert input[..i + 1][..i] == input[..i];
      assert input[i] == input[i..][0];
      i := i + 1;
    }
    assert input[..a.Length] == input;
  }
}
