/** `Entity.Sort`: entities ordered by lower-cased name with the comparator
    `c1 > c2 ? 1 : c1 < c2 ? -1 : 0`. The specification is a stable insertion sort on
    sequences; the method sorts an array in place and is proved to produce exactly that
    sequence. */
module EntitySort {
  import opened Strings
  import opened Entities

  /** The sort key: the lower-cased name. */
  function Key(e: Entity): string
  {
    ToLower(e.name)
  }

  /** No entity's key is smaller than the key of an entity before it. */
  predicate SortedByKey(es: seq<Entity>)
  {
    forall i, j :: 0 <= i < j < |es| ==> !Less(Key(es[j]), Key(es[i]))
  }

  /** x placed after the last entity whose key it is not smaller than. */
  function Insert(es: seq<Entity>, x: Entity): seq<Entity>
    decreases |es|
  {
    if es == [] || !Less(Key(x), Key(es[|es| - 1])) then es + [x]
    else Insert(es[..|es| - 1], x) + [es[|es| - 1]]
  }

  /** The entities in the order a stable sort by Key leaves them. */
  function SortedByName(es: seq<Entity>): seq<Entity>
    decreases |es|
  {
    if es == [] then [] else Insert(SortedByName(es[..|es| - 1]), es[|es| - 1])
  }

  lemma {:induction false} InsertPermutes(es: seq<Entity>, x: Entity)
    ensures multiset(Insert(es, x)) == multiset(es) + multiset{x}
    decreases |es|
  {
    if es != [] && Less(Key(x), Key(es[|es| - 1])) {
      var init, last := es[..|es| - 1], es[|es| - 1];
      assert es == init + [last];
      InsertPermutes(init, x);
    }
  }

  lemma {:induction false} InsertSorted(es: seq<Entity>, x: Entity)
    requires SortedByKey(es)
    ensures SortedByKey(Insert(es, x))
    decreases |es|
  {
    if es == [] {
    } else if !Less(Key(x), Key(es[|es| - 1])) {
      AppendSorted(es, x);
    } else {
      var init, last := es[..|es| - 1], es[|es| - 1];
      SortedInit(es);
      InsertSorted(init, x);
      InsertPermutes(init, x);
      InsertBeforeLast(es, x);
    }
  }

  /** Dropping the last entity keeps a sequence sorted. */
  lemma SortedInit(es: seq<Entity>)
    requires es != [] && SortedByKey(es)
    ensures SortedByKey(es[..|es| - 1])
  {
    var init := es[..|es| - 1];
    forall i, j | 0 <= i < j < |init| ensures !Less(Key(init[j]), Key(init[i])) {
      assert init[i] == es[i] && init[j] == es[j];
    }
  }

  /** x goes last when its key is not smaller than the last key. */
  lemma AppendSorted(es: seq<Entity>, x: Entity)
    requires es != [] && SortedByKey(es) && !Less(Key(x), Key(es[|es| - 1]))
    ensures SortedByKey(es + [x])
  {
    var last := es[|es| - 1];
    var r := es + [x];
    forall i, j | 0 <= i < j < |r| ensures !Less(Key(r[j]), Key(r[i])) {
      if j == |es| && i < |es| - 1 {
        assert r[i] == es[i] && r[j] == x;
        NotGreaterTransitive(Key(es[i]), Key(last), Key(x));
      } else if j < |es| {
        assert r[i] == es[i] && r[j] == es[j];
      }
    }
  }

  /** The last entity stays last when x's key is smaller than its own. */
  lemma InsertBeforeLast(es: seq<Entity>, x: Entity)
    requires es != [] && SortedByKey(es) && Less(Key(x), Key(es[|es| - 1]))
    requires SortedByKey(Insert(es[..|es| - 1], x))
    requires multiset(Insert(es[..|es| - 1], x)) == multiset(es[..|es| - 1]) + multiset{x}
    ensures SortedByKey(Insert(es, x))
  {
    var init, last := es[..|es| - 1], es[|es| - 1];
    var p := Insert(init, x);
    var r := p + [last];
    assert Insert(es, x) == r;
    forall i, j | 0 <= i < j < |r| ensures !Less(Key(r[j]), Key(r[i])) {
      if j == |p| {
        var y := p[i];
        assert r[i] == y && r[j] == last;
        assert y in multiset(p);
        assert y in multiset(init) || y == x;
        if y == x {
          LessAsymmetric(Key(x), Key(last));
        } else {
          var n :| 0 <= n < |init| && init[n] == y;
          assert es[n] == y;
        }
      } else {
        assert r[i] == p[i] && r[j] == p[j];
      }
    }
  }

  /** The sort is ordered by key ... */
  lemma {:induction false} SortedByNameIsSorted(es: seq<Entity>)
    ensures SortedByKey(SortedByName(es))
    decreases |es|
  {
    if es != [] {
      SortedByNameIsSorted(es[..|es| - 1]);
      InsertSorted(SortedByName(es[..|es| - 1]), es[|es| - 1]);
    }
  }

  /** ... and a permutation of its input. */
  lemma {:induction false} SortedByNamePermutes(es: seq<Entity>)
    ensures multiset(SortedByName(es)) == multiset(es)
    decreases |es|
  {
    if es != [] {
      var init, last := es[..|es| - 1], es[|es| - 1];
      assert es == init + [last];
      SortedByNamePermutes(init);
      InsertPermutes(SortedByName(init), last);
    }
  }

  /** Sorting an already sorted list changes nothing. */
  lemma {:induction false} SortedByNameKeepsSorted(es: seq<Entity>)
    requires SortedByKey(es)
    ensures SortedByName(es) == es
    decreases |es|
  {
    if es != [] {
      var init, last := es[..|es| - 1], es[|es| - 1];
      SortedInit(es);
      SortedByNameKeepsSorted(init);
      assert SortedByName(es) == Insert(init, last);
      if |init| > 0 {
        assert !Less(Key(es[|es| - 1]), Key(es[|es| - 2]));
        assert init[|init| - 1] == es[|es| - 2];
      }
      assert Insert(init, last) == init + [last];
      assert es == init + [last];
    }
  }

  /** One step of Insert: moving x before an element whose key is greater. */
  lemma InsertStep(p: seq<Entity>, x: Entity, j: nat)
    requires 0 < j <= |p| && Less(Key(x), Key(p[j - 1]))
    ensures Insert(p[..j], x) + p[j..] == Insert(p[..j - 1], x) + p[j - 1..]
  {
    assert p[..j][..j - 1] == p[..j - 1];
    assert p[j - 1..] == [p[j - 1]] + p[j..];
  }

  /** Moves a[i] left past every greater key in the sorted prefix a[..i]. */
  method InsertAt(a: array<Entity>, i: int)
    requires 0 <= i < a.Length
    modifies a
    ensures a[..i + 1] == Insert(old(a[..i]), old(a[i]))
    ensures a[i + 1..] == old(a[i + 1..])
  {
    var x := a[i];
    ghost var p, rest := a[..i], a[i + 1..];
    var j := i;
    assert p[..j] == p && p[j..] == [];
    assert a[..] == p[..j] + [x] + p[j..] + rest;
    while j > 0 && Less(Key(x), Key(a[j - 1]))
      invariant 0 <= j <= i
      invariant a[..] == p[..j] + [x] + p[j..] + rest
      invariant Insert(p, x) == Insert(p[..j], x) + p[j..]
    {
      ShiftStep(p, x, rest, j);
      InsertStep(p, x, j);
      ghost var before := a[..];
      a[j] := a[j - 1];
      a[j - 1] := x;
      assert a[..] == before[j := before[j - 1]][j - 1 := x];
      j := j - 1;
    }
    InsertStop(p, x, j);
    assert a[..i + 1] == (Insert(p, x) + rest)[..i + 1];
  }

  /** Where the scan stops, x goes in between the smaller and the greater keys. */
  lemma InsertStop(p: seq<Entity>, x: Entity, j: nat)
    requires j <= |p| && (j == 0 || !Less(Key(x), Key(p[j - 1])))
    requires Insert(p, x) == Insert(p[..j], x) + p[j..]
    ensures Insert(p, x) == p[..j] + [x] + p[j..] && |Insert(p, x)| == |p| + 1
  {
    assert p[..j] == [] || !Less(Key(x), Key(p[..j][j - 1]));
  }

  /** Moving the gap left by one: the element before it moves up into it. */
  lemma ShiftStep<T>(p: seq<T>, x: T, rest: seq<T>, j: nat)
    requires 0 < j <= |p|
    ensures var s := p[..j] + [x] + p[j..] + rest;
            s[j - 1] == p[j - 1] && s[j := p[j - 1]][j - 1 := x] == p[..j - 1] + [x] + p[j - 1..] + rest
  {
    var s := p[..j] + [x] + p[j..] + rest;
    var t := p[..j - 1] + [x] + p[j - 1..] + rest;
    assert |s| == |t|;
    forall k | 0 <= k < |s|
      ensures s[j := p[j - 1]][j - 1 := x][k] == t[k]
    {
      if k < j - 1 {
        assert s[k] == p[k] && t[k] == p[k];
      } else if k > j {
        assert s[k] == t[k];
      }
    }
  }

  /** `entities.sort(cmp)`: an insertion sort in place. */
  method Sort(a: array<Entity>)
    modifies a
    ensures a[..] == SortedByName(old(a[..]))
  {
    ghost var input := a[..];
    var i := 0;
    while i < a.Length
      invariant 0 <= i <= a.Length
      invariant a[..i] == SortedByName(input[..i])
      invariant a[i..] == input[i..]
    {
      assert input[..i + 1][..i] == input[..i] && input[i] == a[i];
      assert SortedByName(input[..i + 1]) == Insert(SortedByName(input[..i]), input[i]);
      ghost var tail := a[i + 1..];
      assert tail == input[i + 1..];
      InsertAt(a, i);
      assert a[i + 1..] == tail;
      i := i + 1;
    }
    assert input[..a.Length] == input;
  }
}
