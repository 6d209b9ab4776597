/** String operations of the JavaScript runtime that the registry and the template code
    rely on: `indexOf`, `startsWith`, `endsWith`, `split`, `replace` with a string pattern,
    ASCII case mapping, code-unit ordering, and a decimal rendering of naturals. */
module Strings {
  import opened Wrappers

  /** p occurs in t starting at index i. */
  predicate OccursAt(t: string, i: int, p: string)
  {
    0 <= i && i + |p| <= |t| && t[i..i + |p|] == p
  }

  /** First index at or after i where p occurs in t (`t.indexOf(p, i)`). */
  function IndexFrom(t: string, p: string, i: nat): (r: Option<nat>)
    ensures r.Some? ==> i <= r.value && OccursAt(t, r.value, p)
    ensures r.Some? ==> forall j :: i <= j < r.value ==> !OccursAt(t, j, p)
    ensures r.None? ==> forall j :: i <= j ==> !OccursAt(t, j, p)
    decreases |t| - i
  {
    if i + |p| > |t| then None
    else if t[i..i + |p|] == p then Some(i)
    else IndexFrom(t, p, i + 1)
  }

  /** `t.indexOf(p)`, with None standing for -1. */
  function IndexOf(t: string, p: string): (r: Option<nat>)
    ensures r.Some? ==> OccursAt(t, r.value, p) && forall j :: 0 <= j < r.value ==> !OccursAt(t, j, p)
    ensures r.None? ==> forall j :: !OccursAt(t, j, p)
  {
    IndexFrom(t, p, 0)
  }

  /** `t.indexOf(p) > -1`. */
  predicate Contains(t: string, p: string)
  {
    IndexOf(t, p).Some?
  }

  lemma ContainsIff(t: string, p: string)
    ensures Contains(t, p) <==> exists j :: OccursAt(t, j, p)
  {
  }

  predicate StartsWith(t: string, p: string)
  {
    |p| <= |t| && t[..|p|] == p
  }

  predicate EndsWith(t: string, p: string)
  {
    |p| <= |t| && t[|t| - |p|..] == p
  }

  /** The text before the first occurrence of sep, or all of t (`t.split(sep)[0]`). */
  function Before(t: string, sep: string): (r: string)
    requires |sep| > 0
    ensures StartsWith(t, r)
    ensures IndexOf(t, sep).None? ==> r == t
    ensures IndexOf(t, sep).Some? ==> OccursAt(t, |r|, sep)
    ensures !Contains(r, sep)
  {
    match IndexOf(t, sep)
    case None => t
    case Some(i) =>
      assert forall j :: OccursAt(t[..i], j, sep) ==> OccursAt(t, j, sep) by {
        forall j | OccursAt(t[..i], j, sep) ensures OccursAt(t, j, sep) {
          assert t[..i][j..j + |sep|] == t[j..j + |sep|];
        }
      }
      t[..i]
  }

  /** The text after the first occurrence of sep, if sep occurs at all. */
  function After(t: string, sep: string): (r: Option<string>)
    requires |sep| > 0
    ensures r.None? <==> !Contains(t, sep)
    ensures r.Some? ==> t == Before(t, sep) + sep + r.value
  {
    match IndexOf(t, sep)
    case None => None
    case Some(i) =>
      assert t == t[..i] + t[i..i + |sep|] + t[i + |sep|..];
      Some(t[i + |sep|..])
  }

  /** The second piece of `t.split(sep)`: the text between the first and the second
      occurrence of sep; "" (JavaScript's falsy `undefined`) when sep does not occur. */
  function SecondPiece(t: string, sep: string): (r: string)
    requires |sep| > 0
    ensures !Contains(t, sep) ==> r == ""
    ensures Contains(t, sep) ==> r == Before(After(t, sep).value, sep)
  {
    match After(t, sep)
    case None => ""
    case Some(rest) => Before(rest, sep)
  }

  /** `t.replace(p, v)` with a string pattern: only the first occurrence is replaced. */
  function ReplaceFirst(t: string, p: string, v: string): (r: string)
    requires |p| > 0
    ensures !Contains(t, p) ==> r == t
    ensures Contains(t, p) ==> r == Before(t, p) + v + After(t, p).value
  {
    match IndexOf(t, p)
    case None => t
    case Some(i) => t[..i] + v + t[i + |p|..]
  }

  /** Every '#' and '~' removed (`content.replace(/#|~/g, '')`). */
  function StripMarkers(s: string): (r: string)
    ensures forall c :: c in r <==> c in s && c != '#' && c != '~'
    ensures |r| <= |s|
  {
    if s == [] then []
    else (if s[0] == '#' || s[0] == '~' then [] else [s[0]]) + StripMarkers(s[1..])
  }

  lemma {:induction false} StripMarkersAppend(a: string, b: string)
    ensures StripMarkers(a + b) == StripMarkers(a) + StripMarkers(b)
    decreases |a|
  {
    if a == [] {
      assert a + b == b;
    } else {
      assert (a + b)[0] == a[0] && (a + b)[1..] == a[1..] + b;
      StripMarkersAppend(a[1..], b);
    }
  }

  lemma {:induction false} StripMarkersIdentity(s: string)
    requires '#' !in s && '~' !in s
    ensures StripMarkers(s) == s
    decreases |s|
  {
    if s != [] {
      assert s[0] in s;
      assert forall c :: c in s[1..] ==> c in s;
      StripMarkersIdentity(s[1..]);
    }
  }

  function LowerChar(c: char): char
  {
    if 'A' <= c <= 'Z' then (c as int + 32) as char else c
  }

  function UpperChar(c: char): char
  {
    if 'a' <= c <= 'z' then (c as int - 32) as char else c
  }

  /** `s.toLowerCase()` restricted to the ASCII letters. */
  function ToLower(s: string): (r: string)
    ensures |r| == |s| && forall i :: 0 <= i < |s| ==> r[i] == LowerChar(s[i])
  {
    seq(|s|, i requires 0 <= i < |s| => LowerChar(s[i]))
  }

  /** `s.toUpperCase()` restricted to the ASCII letters. */
  function ToUpper(s: string): (r: string)
    ensures |r| == |s| && forall i :: 0 <= i < |s| ==> r[i] == UpperChar(s[i])
  {
    seq(|s|, i requires 0 <= i < |s| => UpperChar(s[i]))
  }

  function Digit(d: nat): (c: char)
    requires d < 10
  {
    ('0' as int + d) as char
  }

  /** The decimal digits of n, most significant first. */
  function Decimal(n: nat): (r: string)
    ensures 1 <= |r|
    ensures (|r| == 1) == (n < 10)
    ensures forall i :: 0 <= i < |r| ==> '0' <= r[i] <= '9'
  {
    if n < 10 then [Digit(n)] else Decimal(n / 10) + [Digit(n % 10)]
  }

  /** Distinct naturals have distinct decimal renderings. */
  lemma {:induction false} DecimalInjective(a: nat, b: nat)
    requires Decimal(a) == Decimal(b)
    ensures a == b
    decreases a
  {
    if a >= 10 && b >= 10 {
      var da, db := Decimal(a), Decimal(b);
      assert da[|da| - 1] == Digit(a % 10) && db[|db| - 1] == Digit(b % 10);
      assert Decimal(a / 10) == da[..|da| - 1] == db[..|db| - 1] == Decimal(b / 10);
      DecimalInjective(a / 10, b / 10);
    }
  }

  /** JavaScript's `<` on strings: lexicographic order of the characters. */
  predicate Less(a: string, b: string)
    decreases |a|
  {
    0 < |b| && (|a| == 0 || a[0] < b[0] || (a[0] == b[0] && Less(a[1..], b[1..])))
  }

  lemma {:induction false} LessIrreflexive(a: string)
    ensures !Less(a, a)
    decreases |a|
  {
    if 0 < |a| { LessIrreflexive(a[1..]); }
  }

  lemma {:induction false} LessTransitive(a: string, b: string, c: string)
    requires Less(a, b) && Less(b, c)
    ensures Less(a, c)
    decreases |a|
  {
    if 0 < |a| && a[0] == b[0] && b[0] == c[0] {
      LessTransitive(a[1..], b[1..], c[1..]);
    }
  }

  lemma {:induction false} LessTotal(a: string, b: string)
    requires a != b
    ensures Less(a, b) || Less(b, a)
    decreases |a|
  {
    if 0 < |a| && 0 < |b| && a[0] == b[0] {
      assert a == [a[0]] + a[1..] && b == [b[0]] + b[1..];
      LessTotal(a[1..], b[1..]);
    }
  }

  lemma {:induction false} LessAsymmetric(a: string, b: string)
    requires Less(a, b)
    ensures !Less(b, a)
    decreases |a|
  {
    if 0 < |a| && a[0] == b[0] { LessAsymmetric(a[1..], b[1..]); }
  }

  /** "Not greater" is a total preorder; the comparator of a sort is built on it. */
  lemma NotGreaterTransitive(a: string, b: string, c: string)
    requires !Less(b, a) && !Less(c, b)
    ensures !Less(c, a)
  {
    if a != b && b != c {
      LessTotal(a, b);
      LessTotal(b, c);
      LessTransitive(a, b, c);
      LessAsymmetric(a, c);
    }
  }
}

/** Sequence helpers shared by the template code. */
module Seqs {

  predicate Distinct<T(==)>(xs: seq<T>)
  {
    forall i, j :: 0 <= i < j < |xs| ==> xs[i] != xs[j]
  }

  /** Index of the first occurrence of x in xs. */
  function FirstIndex<T(==)>(xs: seq<T>, x: T): (k: nat)
    requires x in xs
    ensures k < |xs| && xs[k] == x && x !in xs[..k]
  {
    if xs[0] == x then 0
    else
      var k := FirstIndex(xs[1..], x);
      assert xs[..k + 1] == [xs[0]] + xs[1..][..k];
      k + 1
  }

  /** The distinct elements of xs, each at the place of its first occurrence
      (JavaScript's `[...new Set(xs)]`). */
  function Dedupe<T(==)>(xs: seq<T>): (r: seq<T>)
    ensures Distinct(r)
    ensures forall i :: 0 <= i < |r| ==> r[i] in xs
    ensures forall i :: 0 <= i < |xs| ==> xs[i] in r
    decreases |xs|
  {
    if xs == [] then []
    else
      var init, last := xs[..|xs| - 1], xs[|xs| - 1];
      assert xs == init + [last];
      Dedupe(init) + (if last in init then [] else [last])
  }

  lemma DedupeSnoc<T>(xs: seq<T>, x: T)
    ensures Dedupe(xs + [x]) == Dedupe(xs) + (if x in xs then [] else [x])
  {
    assert (xs + [x])[..|xs|] == xs;
  }

  /** Elements keep the relative order of their first occurrences. */
  lemma {:induction false} DedupeFirstOccurrenceOrder<T>(xs: seq<T>, i: nat, j: nat)
    requires i < j < |Dedupe(xs)|
    ensures FirstIndex(xs, Dedupe(xs)[i]) < FirstIndex(xs, Dedupe(xs)[j])
    decreases |xs|
  {
    var init, last := xs[..|xs| - 1], xs[|xs| - 1];
    assert xs == init + [last];
    DedupeSnoc(init, last);
    var d := Dedupe(init);
    FirstIndexPrefix(init, last, Dedupe(xs)[i]);
    if j < |d| {
      FirstIndexPrefix(init, last, Dedupe(xs)[j]);
      DedupeFirstOccurrenceOrder(init, i, j);
    } else {
      assert Dedupe(xs)[j] == last && last !in init;
      assert FirstIndex(xs, last) == |init|;
    }
  }

  lemma FirstIndexPrefix<T>(init: seq<T>, last: T, x: T)
    requires x in init
    ensures FirstIndex(init + [last], x) == FirstIndex(init, x) < |init|
  {
    var k := FirstIndex(init, x);
    var xs := init + [last];
    assert xs[k] == x;
    assert xs[..k] == init[..k];
    FirstIndexUnique(xs, x, k);
  }

  lemma FirstIndexLeast<T>(xs: seq<T>, x: T, l: nat)
    requires l < |xs| && xs[l] == x
    ensures FirstIndex(xs, x) <= l
  {
    var k := FirstIndex(xs, x);
    assert forall t :: 0 <= t < k ==> xs[..k][t] == xs[t];
  }

  lemma FirstIndexUnique<T>(xs: seq<T>, x: T, k: nat)
    requires k < |xs| && xs[k] == x && x !in xs[..k]
    ensures FirstIndex(xs, x) == k
  {
    var f := FirstIndex(xs, x);
    assert forall j :: 0 <= j < k ==> xs[..k][j] == xs[j];
    assert forall j :: 0 <= j < f ==> xs[..f][j] == xs[j];
    assert forall j :: 0 <= j < k ==> xs[j] != x;
    assert forall j :: 0 <= j < f ==> xs[j] != x;
  }

  /** f applied to each element, in order. */
  function Map<T, U>(xs: seq<T>, f: T -> U): (r: seq<U>)
    ensures |r| == |xs| && forall k :: 0 <= k < |xs| ==> r[k] == f(xs[k])
  {
    seq(|xs|, k requires 0 <= k < |xs| => f(xs[k]))
  }

  lemma MapSnoc<T, U>(xs: seq<T>, x: T, f: T -> U)
    ensures Map(xs + [x], f) == Map(xs, f) + [f(x)]
  {
    assert forall k :: 0 <= k < |xs| ==> (xs + [x])[k] == xs[k];
  }

  lemma AppendAssoc<T>(x: seq<T>, y: seq<T>, z: seq<T>)
    ensures (x + y) + z == x + (y + z)
  {
  }

  /** Overwriting a key again after updating another key. */
  lemma UpdateAgain<K, V>(mp: map<K, V>, a: K, b: K, x: V, y: V, x': V)
    requires a != b
    ensures mp[a := x][b := y][a := x'] == mp[a := x'][b := y]
  {
  }

  /** The concatenation of f(x) for each x of xs, in order. */
  function ConcatMap<T, U>(xs: seq<T>, f: T -> seq<U>): seq<U>
  {
    if xs == [] then [] else ConcatMap(xs[..|xs| - 1], f) + f(xs[|xs| - 1])
  }

  lemma ConcatMapOne<T, U>(x: T, f: T -> seq<U>)
    ensures ConcatMap([x], f) == f(x)
  {
    assert [x][..0] == [];
  }

  /** Every element of the concatenation comes from some x of xs. */
  lemma {:induction false} ConcatMapFrom<T, U>(xs: seq<T>, f: T -> seq<U>, y: U) returns (i: nat)
    requires y in ConcatMap(xs, f)
    ensures i < |xs| && y in f(xs[i])
  {
    var init := xs[..|xs| - 1];
    if y in ConcatMap(init, f) {
      i := ConcatMapFrom(init, f, y);
      assert init[i] == xs[i];
    } else {
      i := |xs| - 1;
    }
  }

  /** Every element of every f(x) is in the concatenation. */
  lemma {:induction false} ConcatMapCollects<T, U>(xs: seq<T>, f: T -> seq<U>, i: nat, y: U)
    requires i < |xs| && y in f(xs[i])
    ensures y in ConcatMap(xs, f)
  {
    var init := xs[..|xs| - 1];
    if i < |init| {
      assert init[i] == xs[i];
      ConcatMapCollects(init, f, i, y);
    }
  }

  lemma {:induction false} ConcatMapEmpty<T, U>(xs: seq<T>, f: T -> seq<U>)
    requires forall i :: 0 <= i < |xs| ==> f(xs[i]) == []
    ensures ConcatMap(xs, f) == []
  {
    if xs != [] {
      ConcatMapEmpty(xs[..|xs| - 1], f);
    }
  }

  lemma {:induction false} ConcatMapAppend<T, U>(a: seq<T>, b: seq<T>, f: T -> seq<U>)
    ensures ConcatMap(a + b, f) == ConcatMap(a, f) + ConcatMap(b, f)
    decreases |b|
  {
    if b == [] {
      assert a + b == a;
    } else {
      var init := b[..|b| - 1];
      assert (a + b)[..|a + b| - 1] == a + init;
      assert (a + b)[|a + b| - 1] == b[|b| - 1];
      ConcatMapAppend(a, init, f);
      var x, y, z := ConcatMap(a, f), ConcatMap(init, f), f(b[|b| - 1]);
      AppendAssoc(x, y, z);
    }
  }

  /** Some x of xs satisfies p. */
  predicate AnyOf<T>(xs: seq<T>, p: T -> bool)
  {
    xs != [] && (AnyOf(xs[..|xs| - 1], p) || p(xs[|xs| - 1]))
  }

  lemma AnyOfOne<T>(x: T, p: T -> bool)
    ensures AnyOf([x], p) == p(x)
  {
    assert [x][..0] == [];
  }

  lemma {:induction false} AnyOfAppend<T>(a: seq<T>, b: seq<T>, p: T -> bool)
    ensures AnyOf(a + b, p) <==> AnyOf(a, p) || AnyOf(b, p)
    decreases |b|
  {
    if b == [] {
      assert a + b == a;
    } else {
      var init := b[..|b| - 1];
      assert (a + b)[..|a + b| - 1] == a + init;
      assert (a + b)[|a + b| - 1] == b[|b| - 1];
      AnyOfAppend(a, init, p);
    }
  }

  lemma {:induction false} AnyOfIff<T>(xs: seq<T>, p: T -> bool)
    ensures AnyOf(xs, p) <==> exists i :: 0 <= i < |xs| && p(xs[i])
  {
    if xs != [] {
      var init := xs[..|xs| - 1];
      AnyOfIff(init, p);
      if AnyOf(init, p) {
        var i :| 0 <= i < |init| && p(init[i]);
        assert xs[i] == init[i];
      }
      if exists i :: 0 <= i < |xs| && p(xs[i]) {
        var i :| 0 <= i < |xs| && p(xs[i]);
        if i < |init| {
          assert init[i] == xs[i];
        }
      }
    }
  }
}
