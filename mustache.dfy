/** The placeholder scanner behind `GetArgumentNames`: the global match of
    `{{\s*[\w\.]+\s*}}` over a string, each match reduced to its first run of
    `[\w\.]`, the names then made unique in first-occurrence order. White space, name
    characters and braces are pairwise disjoint, so the regular expression cannot
    backtrack into a different match than the greedy reading given by `MatchAt`
    (`MatchAtIsTheRegexMatch` proves this against a declarative definition). */
module Mustache {
  import opened Wrappers
  import opened Seqs

  /** `\s`: ECMAScript white space and line terminators. */
  predicate IsSpace(c: char)
  {
    c == '\t' || c == '\n' || c == '\U{000B}' || c == '\U{000C}' || c == '\r' || c == ' '
    || c == '\U{00A0}' || c == '\U{1680}' || ('\U{2000}' <= c <= '\U{200A}')
    || c == '\U{2028}' || c == '\U{2029}' || c == '\U{202F}' || c == '\U{205F}'
    || c == '\U{3000}' || c == '\U{FEFF}'
  }

  /** `[\w\.]`: ASCII letters, digits, `_` and `.`. */
  predicate IsNameChar(c: char)
  {
    'a' <= c <= 'z' || 'A' <= c <= 'Z' || '0' <= c <= '9' || c == '_' || c == '.'
  }

  /** A non-empty run of name characters. */
  predicate NameRun(n: string)
  {
    |n| > 0 && forall i {:trigger IsNameChar(n[i])} :: 0 <= i < |n| ==> IsNameChar(n[i])
  }

  predicate AllSpaces(s: string, from: int, to: int)
    requires 0 <= from <= to <= |s|
  {
    forall k {:trigger IsSpace(s[k])} :: from <= k < to ==> IsSpace(s[k])
  }

  /** The regular expression matched at `start`: `{{`, spaces up to `nameStart`, the
      name up to `nameEnd`, spaces, `}}` ending just before `end`. */
  predicate RegexMatch(s: string, start: int, nameStart: int, nameEnd: int, end: int)
  {
    0 <= start && start + 2 <= nameStart < nameEnd <= end - 2 && end <= |s|
    && s[start] == '{' && s[start + 1] == '{'
    && AllSpaces(s, start + 2, nameStart)
    && NameRun(s[nameStart..nameEnd])
    && AllSpaces(s, nameEnd, end - 2)
    && s[end - 2] == '}' && s[end - 1] == '}'
  }

  /** One match: where it starts, where its name lies, where it ends. */
  datatype Match = Match(start: nat, nameStart: nat, nameEnd: nat, end: nat)

  /** End of the run of white space that starts at i. */
  function SkipSpaces(s: string, i: nat): (r: nat)
    requires i <= |s|
    ensures i <= r <= |s|
    decreases |s| - i
  {
    if i < |s| && IsSpace(s[i]) then SkipSpaces(s, i + 1) else i
  }

  /** End of the run of name characters that starts at i. */
  function SkipName(s: string, i: nat): (r: nat)
    requires i <= |s|
    ensures i <= r <= |s|
    decreases |s| - i
  {
    if i < |s| && IsNameChar(s[i]) then SkipName(s, i + 1) else i
  }

  /** SkipSpaces passes only white space and stops at the first other character. */
  lemma {:induction false} SkipSpacesSpec(s: string, i: nat)
    requires i <= |s|
    ensures AllSpaces(s, i, SkipSpaces(s, i))
    ensures SkipSpaces(s, i) == |s| || !IsSpace(s[SkipSpaces(s, i)])
    decreases |s| - i
  {
    if i < |s| && IsSpace(s[i]) {
      SkipSpacesSpec(s, i + 1);
    }
  }

  /** SkipName passes only name characters and stops at the first other character. */
  lemma {:induction false} SkipNameSpec(s: string, i: nat)
    requires i <= |s|
    ensures forall k {:trigger IsNameChar(s[k])} :: i <= k < SkipName(s, i) ==> IsNameChar(s[k])
    ensures SkipName(s, i) == |s| || !IsNameChar(s[SkipName(s, i)])
    decreases |s| - i
  {
    if i < |s| && IsNameChar(s[i]) {
      SkipNameSpec(s, i + 1);
    }
  }

  /** The match of the regular expression at position i, read greedily. */
  function MatchAt(s: string, i: nat): (r: Option<Match>)
    ensures r.Some? ==> r.value.start == i
    ensures r.Some? ==> i + 2 <= r.value.nameStart < r.value.nameEnd <= r.value.end - 2 && r.value.end <= |s|
  {
    if i + 2 <= |s| && s[i] == '{' && s[i + 1] == '{' then
      var a := SkipSpaces(s, i + 2);
      var b := SkipName(s, a);
      var c := SkipSpaces(s, b);
      if a < b && c + 2 <= |s| && s[c] == '}' && s[c + 1] == '}' then Some(Match(i, a, b, c + 2))
      else None
    else None
  }

  /** A greedy match is a match of the regular expression. */
  lemma MatchAtMatches(s: string, i: nat)
    requires MatchAt(s, i).Some?
    ensures var m := MatchAt(s, i).value; RegexMatch(s, i, m.nameStart, m.nameEnd, m.end)
  {
    var m := MatchAt(s, i).value;
    var a := SkipSpaces(s, i + 2);
    SkipSpacesSpec(s, i + 2);
    var b := SkipName(s, a);
    SkipNameSpec(s, a);
    SkipSpacesSpec(s, b);
    assert NameRun(s[a..b]) by {
      forall k | 0 <= k < b - a ensures IsNameChar(s[a..b][k]) {
        assert s[a..b][k] == s[a + k];
        assert IsNameChar(s[a + k]);
      }
    }
  }

  /** The name a match contributes, `x.match(/[\w\.]+/)[0]` of the matched text. */
  function NameOf(s: string, m: Match): string
    requires m.nameStart <= m.nameEnd <= |s|
  {
    s[m.nameStart..m.nameEnd]
  }

  /** `s.match(/{{\s*[\w\.]+\s*}}/g)` from position i on: left to right, resuming after
      each match. */
  function Scan(s: string, i: nat): (r: seq<Match>)
    ensures forall k :: 0 <= k < |r| ==>
              i <= r[k].start && r[k].start + 2 <= r[k].nameStart < r[k].nameEnd <= r[k].end - 2 && r[k].end <= |s|
    decreases |s| - i
  {
    if i >= |s| then []
    else match MatchAt(s, i)
      case Some(m) => [m] + Scan(s, m.end)
      case None => Scan(s, i + 1)
  }

  /** Each match the scan reports is the match found at its start. */
  lemma {:induction false} ScanMatches(s: string, i: nat, k: nat)
    requires k < |Scan(s, i)|
    ensures MatchAt(s, Scan(s, i)[k].start) == Some(Scan(s, i)[k])
    decreases |s| - i
  {
    if MatchAt(s, i).Some? {
      var m := MatchAt(s, i).value;
      assert Scan(s, i) == [m] + Scan(s, m.end);
      if k > 0 {
        ScanMatches(s, m.end, k - 1);
        assert Scan(s, i)[k] == Scan(s, m.end)[k - 1];
      }
    } else {
      assert Scan(s, i) == Scan(s, i + 1);
      ScanMatches(s, i + 1, k);
    }
  }

  /** The names of a sequence of matches, in order. */
  function NamesOf(s: string, ms: seq<Match>): (r: seq<string>)
    requires forall k :: 0 <= k < |ms| ==> ms[k].nameStart <= ms[k].nameEnd <= |s|
    ensures |r| == |ms| && forall k :: 0 <= k < |ms| ==> r[k] == NameOf(s, ms[k])
  {
    seq(|ms|, k requires 0 <= k < |ms| => NameOf(s, ms[k]))
  }

  /** Every name the global match finds, repetitions included (`GetVarNames` keeps them). */
  function ScanNames(s: string): seq<string>
  {
    NamesFrom(s, 0)
  }

  /** The names of the matches the global match finds from position i on. */
  function NamesFrom(s: string, i: nat): seq<string>
    decreases |s| - i, 1
  {
    if i >= |s| then [] else NamesAt(s, i)
  }

  /** The names from position i on, trying a match at i first. */
  function NamesAt(s: string, i: nat): seq<string>
    requires i < |s|
    decreases |s| - i, 0
  {
    match MatchAt(s, i)
    case Some(m) => [NameOf(s, m)] + NamesFrom(s, m.end)
    case None => NamesFrom(s, i + 1)
  }

  /** The names are those of the scanned matches, one per match, in order. */
  lemma {:induction false} NamesFromScan(s: string, i: nat)
    ensures NamesFrom(s, i) == NamesOf(s, Scan(s, i))
    decreases |s| - i
  {
    if i < |s| {
      assert NamesFrom(s, i) == NamesAt(s, i);
      match MatchAt(s, i)
      case Some(m) =>
        NamesFromScan(s, m.end);
        assert NamesAt(s, i) == [NameOf(s, m)] + NamesFrom(s, m.end);
        assert Scan(s, i) == [m] + Scan(s, m.end);
        NamesOfCons(s, m, Scan(s, m.end));
      case None =>
        NamesFromScan(s, i + 1);
        assert NamesAt(s, i) == NamesFrom(s, i + 1);
        assert Scan(s, i) == Scan(s, i + 1);
    }
  }

  lemma NamesOfCons(s: string, m: Match, ms: seq<Match>)
    requires m.nameStart <= m.nameEnd <= |s|
    requires forall k :: 0 <= k < |ms| ==> ms[k].nameStart <= ms[k].nameEnd <= |s|
    ensures NamesOf(s, [m] + ms) == [NameOf(s, m)] + NamesOf(s, ms)
  {
    assert forall k :: 0 < k < |ms| + 1 ==> ([m] + ms)[k] == ms[k - 1];
  }

  /** `GetArgumentNames`: each name once, in the order of its first occurrence. */
  function GetArgumentNames(s: string): seq<string>
  {
    Dedupe(ScanNames(s))
  }

  /** A name occurs in s when some match at some position carries it. */
  ghost predicate NameOccurs(s: string, n: string)
  {
    exists p: nat :: NamedMatchAt(s, p, n)
  }

  /** A match carrying name n starts at p. */
  predicate NamedMatchAt(s: string, p: nat, n: string)
  {
    MatchAt(s, p).Some? && NameOf(s, MatchAt(s, p).value) == n
  }

  /** No match carrying name n starts at or before p. */
  ghost predicate NoNamedMatchUpTo(s: string, p: nat, n: string)
  {
    forall q: nat :: q <= p && MatchAt(s, q).Some? ==> NameOf(s, MatchAt(s, q).value) != n
  }

  lemma SkipSpacesStops(s: string, i: nat, j: nat)
    requires i <= j <= |s| && AllSpaces(s, i, j) && (j == |s| || !IsSpace(s[j]))
    ensures SkipSpaces(s, i) == j
    decreases j - i
  {
  }

  lemma SkipNameStops(s: string, i: nat, j: nat)
    requires i <= j <= |s| && (forall k :: i <= k < j ==> IsNameChar(s[k]))
    requires j == |s| || !IsNameChar(s[j])
    ensures SkipName(s, i) == j
    decreases j - i
  {
  }

  /** The greedy reading finds exactly the regular expression's match: there is one
      whenever the expression matches at i, and it has the same bounds. */
  lemma MatchAtIsTheRegexMatch(s: string, i: nat, a: int, b: int, e: int)
    requires RegexMatch(s, i, a, b, e)
    ensures MatchAt(s, i) == Some(Match(i, a, b, e))
  {
    assert IsNameChar(s[a..b][0]);
    SkipSpacesStops(s, i + 2, a);
    forall k | a <= k < b ensures IsNameChar(s[k]) {
      assert s[k] == s[a..b][k - a] && IsNameChar(s[a..b][k - a]);
    }
    if b < e - 2 {
      assert IsSpace(s[b]);
    }
    SkipNameStops(s, a, b);
    SkipSpacesStops(s, b, e - 2);
  }

  /** Inside a match no other match can start: after its opening `{{` come only white
      space, name characters and `}`. */
  lemma {:induction false} NoOverlap(s: string, i: nat, p: nat)
    requires MatchAt(s, i).Some? && i < p < MatchAt(s, i).value.end
    ensures MatchAt(s, p).None?
  {
    var m := MatchAt(s, i).value;
    MatchAtMatches(s, i);
    if p == i + 1 {
      if m.nameStart == i + 2 {
        assert s[m.nameStart..m.nameEnd][0] == s[i + 2];
        assert IsNameChar(s[p + 1]);
      } else {
        assert IsSpace(s[p + 1]);
      }
    } else if p < m.nameStart {
      assert IsSpace(s[p]);
    } else if p < m.nameEnd {
      assert s[m.nameStart..m.nameEnd][p - m.nameStart] == s[p];
      assert IsNameChar(s[p]);
    } else if p < m.end - 2 {
      assert IsSpace(s[p]);
    } else {
      assert s[p] == '}';
    }
  }

  /** Every match at or after i is found by the scan from i. */
  lemma {:induction false} ScanComplete(s: string, i: nat, p: nat)
    requires i <= p && MatchAt(s, p).Some?
    ensures MatchAt(s, p).value in Scan(s, i)
    decreases |s| - i
  {
    if i < p {
      if MatchAt(s, i).Some? {
        var m := MatchAt(s, i).value;
        if p < m.end {
          NoOverlap(s, i, p);
        } else {
          assert Scan(s, i) == [m] + Scan(s, m.end);
          ScanComplete(s, m.end, p);
        }
      } else {
        assert Scan(s, i) == Scan(s, i + 1);
        ScanComplete(s, i + 1, p);
      }
    }
  }

  /** The scan reports matches in strictly increasing positions. */
  lemma {:induction false} ScanOrdered(s: string, i: nat)
    ensures forall k, l :: 0 <= k < l < |Scan(s, i)| ==> Scan(s, i)[k].end <= Scan(s, i)[l].start
    decreases |s| - i
  {
    if i < |s| {
      var r := Scan(s, i);
      if MatchAt(s, i).Some? {
        var m := MatchAt(s, i).value;
        var t := Scan(s, m.end);
        assert r == [m] + t;
        ScanOrdered(s, m.end);
        forall k, l | 0 <= k < l < |r| ensures r[k].end <= r[l].start {
          assert r[l] == t[l - 1];
          if k > 0 {
            assert r[k] == t[k - 1];
          }
        }
      } else {
        assert r == Scan(s, i + 1);
        ScanOrdered(s, i + 1);
      }
    }
  }

  /** A name is returned exactly when some `{{ … }}` match in s carries it. */
  lemma ScanNameOccurs(s: string, k: nat)
    requires k < |Scan(s, 0)|
    ensures k < |ScanNames(s)| && NamedMatchAt(s, Scan(s, 0)[k].start, ScanNames(s)[k])
  {
    NamesFromScan(s, 0);
    ScanMatches(s, 0, k);
  }

  lemma OccurringNameScanned(s: string, p: nat)
    requires MatchAt(s, p).Some?
    ensures NameOf(s, MatchAt(s, p).value) in ScanNames(s)
  {
    NamesFromScan(s, 0);
    ScanComplete(s, 0, p);
    var k :| 0 <= k < |Scan(s, 0)| && Scan(s, 0)[k] == MatchAt(s, p).value;
    assert ScanNames(s)[k] == NameOf(s, MatchAt(s, p).value);
  }

  lemma ArgumentNamesAreTheOccurringNames(s: string, n: string)
    ensures n in GetArgumentNames(s) <==> NameOccurs(s, n)
  {
    NamesFromScan(s, 0);
    if n in GetArgumentNames(s) {
      var k :| 0 <= k < |ScanNames(s)| && ScanNames(s)[k] == n;
      ScanNameOccurs(s, k);
    }
    if NameOccurs(s, n) {
      var p: nat :| NamedMatchAt(s, p, n);
      OccurringNameScanned(s, p);
    }
  }

  /** Every returned name is a non-empty run of word characters and dots. */
  lemma ArgumentNamesAreNameRuns(s: string)
    ensures forall n :: n in GetArgumentNames(s) ==> NameRun(n)
  {
    NamesFromScan(s, 0);
    forall n | n in GetArgumentNames(s) ensures NameRun(n) {
      var k :| 0 <= k < |ScanNames(s)| && ScanNames(s)[k] == n;
      ScanNameOccurs(s, k);
      MatchAtMatches(s, Scan(s, 0)[k].start);
    }
  }

  /** `[]` exactly when the string holds no match at all. */
  lemma ArgumentNamesEmpty(s: string)
    ensures GetArgumentNames(s) == [] <==> forall p: nat :: MatchAt(s, p).None?
  {
    NamesFromScan(s, 0);
    if GetArgumentNames(s) != [] {
      assert ScanNames(s)[0] in GetArgumentNames(s);
      ScanNameOccurs(s, 0);
    }
    if exists p: nat :: MatchAt(s, p).Some? {
      var p: nat :| MatchAt(s, p).Some?;
      OccurringNameScanned(s, p);
    }
  }

  /** A later scan index is a later position. */
  lemma ScanIndexOrder(s: string, k: nat, l: nat)
    requires k <= l < |Scan(s, 0)|
    ensures Scan(s, 0)[k].start <= Scan(s, 0)[l].start
    ensures k < l ==> Scan(s, 0)[k].start < Scan(s, 0)[l].start
  {
    ScanOrdered(s, 0);
  }

  /** No match carrying a name starts before the match at that name's first index in
      the scan. */
  lemma FirstScanIndexIsFirstPosition(s: string, n: string, q: nat)
    requires n in ScanNames(s) && MatchAt(s, q).Some?
    ensures NameOf(s, MatchAt(s, q).value) == n ==>
              FirstIndex(ScanNames(s), n) < |Scan(s, 0)| && Scan(s, 0)[FirstIndex(ScanNames(s), n)].start <= q
  {
    NamesFromScan(s, 0);
    if NameOf(s, MatchAt(s, q).value) == n {
      ScanComplete(s, 0, q);
      var l :| 0 <= l < |Scan(s, 0)| && Scan(s, 0)[l] == MatchAt(s, q).value;
      FirstIndexLeast(ScanNames(s), n, l);
      ScanIndexOrder(s, FirstIndex(ScanNames(s), n), l);
    }
  }

  /** Names come in the order of their first occurrence in the text: the i-th name
      occurs at a position before any occurrence of the j-th. */
  lemma ArgumentNamesInTextOrder(s: string, i: nat, j: nat)
    requires i < j < |GetArgumentNames(s)|
    ensures exists p: nat :: NamedMatchAt(s, p, GetArgumentNames(s)[i]) && NoNamedMatchUpTo(s, p, GetArgumentNames(s)[j])
  {
    NamesFromScan(s, 0);
    var names, ms, all := GetArgumentNames(s), Scan(s, 0), ScanNames(s);
    DedupeFirstOccurrenceOrder(all, i, j);
    var ki, kj := FirstIndex(all, names[i]), FirstIndex(all, names[j]);
    var p := ms[ki].start;
    ScanMatches(s, 0, ki);
    ScanIndexOrder(s, ki, kj);
    forall q: nat | q <= p && MatchAt(s, q).Some?
      ensures NameOf(s, MatchAt(s, q).value) != names[j]
    {
      FirstScanIndexIsFirstPosition(s, names[j], q);
    }
    assert NamedMatchAt(s, p, names[i]) && NoNamedMatchUpTo(s, p, names[j]);
  }

  /** Without two adjacent opening braces nothing matches. */
  lemma {:induction false} ScanNeedsOpening(s: string, i: nat)
    requires forall k :: 0 <= k < |s| - 1 ==> !(s[k] == '{' && s[k + 1] == '{')
    ensures Scan(s, i) == []
    decreases |s| - i
  {
    if i < |s| {
      assert MatchAt(s, i).None?;
      ScanNeedsOpening(s, i + 1);
    }
  }

  /** A match is at least five characters long (`{{x}}`). */
  lemma {:induction false} ScanNeedsLength(s: string, i: nat)
    requires |s| < 5
    ensures Scan(s, i) == []
    decreases |s| - i
  {
    if i < |s| {
      assert MatchAt(s, i).None?;
      ScanNeedsLength(s, i + 1);
    }
  }
}
