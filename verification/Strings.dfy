/** Byte order on strings, sorting, trimming, splitting and joining: the parts of Go's `strings`
    and `sort` packages the modelled code leans on. Text is a sequence of characters of one byte each, and letter case
    and white space are those of ASCII. Sorting is insertion sort; what matters is that the result is ordered, has the
    same members as often, and that there is only one strictly ascending list of a set of strings, so that nothing
    depends on the order in which things were found. */
module Strings {

  /** `strings.TrimSpace` and its "nothing left" test, on the ASCII white space. */
  predicate IsSpace(c: char) {
    c == ' ' || c == '\t' || c == '\n' || c == '\r' || c == '\U{000B}' || c == '\U{000C}'
  }

  predicate Blank(s: string) {
    forall i :: 0 <= i < |s| ==> IsSpace(s[i])
  }

  function TrimLeft(s: string): string {
    if s == "" || !IsSpace(s[0]) then s else TrimLeft(s[1..])
  }

  function TrimRight(s: string): string {
    if s == "" || !IsSpace(s[|s| - 1]) then s else TrimRight(s[..|s| - 1])
  }

  function TrimSpace(s: string): string {
    TrimRight(TrimLeft(s))
  }

  lemma {:induction false} TrimLeftCuts(s: string)
    ensures var r := TrimLeft(s);
      |r| <= |s| && r == s[|s| - |r|..] && Blank(s[..|s| - |r|]) && (r == "" || !IsSpace(r[0]))
  {
    hide IsSpace;
    if s != "" && IsSpace(s[0]) {
      TrimLeftCuts(s[1..]);
      var r := TrimLeft(s);
      var n := |s| - |r|;
      assert s[1..][n - 1..] == s[n..];
      assert s[..n] == [s[0]] + s[1..][..n - 1];
    }
  }

  lemma {:induction false} TrimRightCuts(s: string)
    ensures var r := TrimRight(s); r <= s && Blank(s[|r|..]) && (r == "" || !IsSpace(r[|r| - 1]))
  {
    if s != "" && IsSpace(s[|s| - 1]) {
      var n := |s| - 1;
      TrimRightCuts(s[..n]);
      var r := TrimRight(s);
      assert s == s[..n] + [s[n]];
      assert s[|r|..] == s[..n][|r|..] + [s[n]];
    } else {
      assert s[|s|..] == "";
    }
  }

  /** What trimming leaves is a part of the text, and is empty or not blank. */
  lemma Trimmed(s: string)
    ensures TrimSpace(s) == "" <==> Blank(s)
    ensures TrimSpace(s) == "" || !Blank(TrimSpace(s))
    ensures exists from, to :: 0 <= from <= to <= |s| && TrimSpace(s) == s[from..to]
  {
    hide TrimLeft, TrimRight;
    TrimLeftCuts(s);
    var l := TrimLeft(s);
    TrimRightCuts(l);
    var from, r := |s| - |l|, TrimRight(l);
    assert s == s[..from] + l;
    assert r == s[from..from + |r|];
    assert r != "" ==> l[|r| - 1] == r[|r| - 1];
  }

  /** `strings.Contains`. */
  predicate Contains(s: string, part: string) {
    part <= s || (s != "" && Contains(s[1..], part))
  }

  /** `strings.HasSuffix`. */
  predicate HasSuffix(s: string, suffix: string) {
    |suffix| <= |s| && s[|s| - |suffix|..] == suffix
  }

  /** The place of the first `c`, or the length. */
  function IndexOf(s: string, c: char): (r: nat)
    ensures r <= |s| && c !in s[..r] && (r < |s| ==> s[r] == c)
  {
    if s == "" then 0
    else if s[0] == c then 0
    else
      var r := IndexOf(s[1..], c);
      assert s[..r + 1] == [s[0]] + s[1..][..r];
      r + 1
  }

  /** `strings.EqualFold` on ASCII. */
  function LowerChar(c: char): char {
    if 'A' <= c <= 'Z' then (c as int + 32) as char else c
  }

  function Lower(s: string): (r: string)
    ensures |r| == |s|
    ensures forall i :: 0 <= i < |s| ==> r[i] == LowerChar(s[i])
  {
    seq(|s|, i requires 0 <= i < |s| => LowerChar(s[i]))
  }

  predicate EqualFold(a: string, b: string) {
    Lower(a) == Lower(b)
  }

  /** Strict byte order. */
  predicate Less(a: string, b: string) {
    if b == "" then false
    else if a == "" then true
    else if a[0] != b[0] then a[0] < b[0]
    else Less(a[1..], b[1..])
  }

  predicate AtMost(a: string, b: string) {
    a == b || Less(a, b)
  }

  lemma {:induction false} LessTotal(a: string, b: string)
    ensures a == b || Less(a, b) || Less(b, a)
  {
    if a != "" && b != "" && a[0] == b[0] {
      LessTotal(a[1..], b[1..]);
      assert a == [a[0]] + a[1..] && b == [b[0]] + b[1..];
    }
  }

  /** A proper prefix comes first; otherwise the first different character decides. */
  ghost predicate Precedes(a: string, b: string, k: nat) {
    k <= |a| && k < |b| && a[..k] == b[..k] && (k == |a| || a[k] < b[k])
  }

  lemma {:induction false} LessExactlyWhen(a: string, b: string)
    ensures Less(a, b) <==> exists k: nat :: Precedes(a, b, k)
  {
    if a == "" || b == "" || a[0] != b[0] {
      if Less(a, b) { assert Precedes(a, b, 0); }
      if k: nat :| Precedes(a, b, k) {
        assert k > 0 ==> a[..k][0] == b[..k][0];
      }
    } else {
      LessExactlyWhen(a[1..], b[1..]);
      if Less(a, b) {
        var k: nat :| Precedes(a[1..], b[1..], k);
        assert a[..k + 1] == [a[0]] + a[1..][..k] && b[..k + 1] == [b[0]] + b[1..][..k];
        assert Precedes(a, b, k + 1);
      }
      if k: nat :| Precedes(a, b, k) {
        assert k > 0;
        assert a[1..][..k - 1] == a[..k][1..] && b[1..][..k - 1] == b[..k][1..];
        assert Precedes(a[1..], b[1..], k - 1);
      }
    }
  }

  lemma {:induction false} LessIrreflexive(a: string)
    ensures !Less(a, a)
  {
    if a != "" { LessIrreflexive(a[1..]); }
  }

  lemma {:induction false} LessTransitive(a: string, b: string, c: string)
    requires Less(a, b) && Less(b, c)
    ensures Less(a, c)
  {
    if a != "" && a[0] == b[0] && b[0] == c[0] {
      LessTransitive(a[1..], b[1..], c[1..]);
    }
  }

  lemma {:induction false} LessBehind(s: string, a: string, b: string)
    requires Less(a, b)
    ensures Less(s + a, s + b)
  {
    if s == "" {
      assert s + a == a && s + b == b;
    } else {
      assert (s + a)[1..] == s[1..] + a && (s + b)[1..] == s[1..] + b;
      LessBehind(s[1..], a, b);
    }
  }

  ghost predicate Ordered(s: seq<string>) {
    forall i, j :: 0 <= i < j < |s| ==> AtMost(s[i], s[j])
  }

  /** Sorted without repetition. */
  ghost predicate Ascending(s: seq<string>) {
    forall i, j :: 0 <= i < j < |s| ==> Less(s[i], s[j])
  }

  ghost predicate Distinct<T>(s: seq<T>) {
    forall i, j :: 0 <= i < j < |s| ==> s[i] != s[j]
  }

  function Elements<T>(s: seq<T>): set<T> {
    set x | x in s
  }

  /** First occurrences, in order. */
  function Unique<T(==,!new)>(items: seq<T>): (r: seq<T>)
    ensures forall x :: x in r <==> x in items
    ensures Distinct(r)
    ensures items != [] ==> r != [] && r[0] == items[0]
  {
    if items == [] then []
    else
      var last := items[|items| - 1];
      var r := Unique(items[..|items| - 1]);
      assert items == items[..|items| - 1] + [last];
      if last in r then r else r + [last]
  }

  lemma InsertKeepsOrder(x: string, s: seq<string>, t: seq<string>)
    requires Ordered(s) && s != [] && Less(s[0], x) && Ordered(t) && multiset(t) == multiset(s[1..]) + multiset{x}
    ensures Ordered([s[0]] + t)
  {
    forall k | 0 <= k < |t| ensures AtMost(s[0], t[k]) {
      assert t[k] in multiset(t);
      assert t[k] in multiset(s[1..]) || t[k] == x;
    }
  }

  lemma FirstIsLeast(x: string, s: seq<string>)
    requires Ordered(s) && s != [] && !Less(s[0], x)
    ensures Ordered([x] + s)
  {
    LessTotal(x, s[0]);
    forall k | 0 <= k < |s| ensures AtMost(x, s[k]) {
      if x != s[0] && s[k] != s[0] { LessTransitive(x, s[0], s[k]); }
    }
  }

  /** `sort.Strings`. */
  function Insert(x: string, s: seq<string>): (r: seq<string>)
    requires Ordered(s)
    ensures Ordered(r)
    ensures multiset(r) == multiset(s) + multiset{x}
  {
    if s == [] then [x]
    else
      assert s == [s[0]] + s[1..];
      if Less(s[0], x) then
        var t := Insert(x, s[1..]);
        InsertKeepsOrder(x, s, t);
        [s[0]] + t
      else
        FirstIsLeast(x, s);
        [x] + s
  }

  function Sort(s: seq<string>): (r: seq<string>)
    ensures Ordered(r)
    ensures multiset(r) == multiset(s)
    ensures forall x :: x in r <==> x in s
  {
    if s == [] then []
    else
      assert s == [s[0]] + s[1..];
      var r := Insert(s[0], Sort(s[1..]));
      assert forall x :: x in r <==> x in multiset(r);
      assert forall x :: x in s <==> x in multiset(s);
      r
  }

  lemma DistinctSplits<T>(s: seq<T>)
    requires s != []
    ensures Distinct(s) <==> s[0] !in s[1..] && Distinct(s[1..])
  {
    if s[0] !in s[1..] && Distinct(s[1..]) {
      forall i, j | 0 <= i < j < |s| ensures s[i] != s[j] {
        assert s[1..][j - 1] == s[j];
        if i > 0 { assert s[1..][i - 1] == s[i]; }
      }
    }
  }

  lemma CountSplits<T>(s: seq<T>, x: T)
    requires s != []
    ensures multiset(s)[x] == multiset(s[1..])[x] + if x == s[0] then 1 else 0
    ensures x in s <==> x == s[0] || x in s[1..]
    ensures x in s <==> multiset(s)[x] > 0
  {
    assert s == [s[0]] + s[1..];
  }

  lemma NothingRepeats<T>(s: seq<T>)
    requires s == []
    ensures Distinct(s)
  {
  }

  lemma {:induction false} DistinctByMultiset<T>(s: seq<T>)
    ensures Distinct(s) <==> forall x :: x in s ==> multiset(s)[x] == 1
  {
    hide Distinct;
    if s == [] {
      assert Distinct(s) by { NothingRepeats(s); }
    } else {
      DistinctSplits(s);
      DistinctByMultiset(s[1..]);
      forall x ensures multiset(s)[x] == multiset(s[1..])[x] + if x == s[0] then 1 else 0 { CountSplits(s, x); }
      forall x ensures x in s <==> x == s[0] || x in s[1..] { CountSplits(s, x); }
      assert s[0] in s[1..] <==> multiset(s[1..])[s[0]] > 0;
    }
  }

  /** Sorting a list without repetition gives a strictly ascending one. */
  lemma SortDistinct(s: seq<string>)
    requires Distinct(s)
    ensures Ascending(Sort(s))
  {
    var r := Sort(s);
    DistinctByMultiset(s);
    DistinctByMultiset(r);
    assert forall i, j :: 0 <= i < j < |r| ==> AtMost(r[i], r[j]) && r[i] != r[j];
  }

  /** Sorted, and each string once. */
  function SortedOnce(s: seq<string>): (r: seq<string>)
    ensures Ascending(r) && Distinct(r) && forall x :: x in r <==> x in s
  {
    SortDistinct(Unique(s));
    assert Distinct(Sort(Unique(s))) by {
      DistinctByMultiset(Unique(s));
      DistinctByMultiset(Sort(Unique(s)));
    }
    Sort(Unique(s))
  }

  /** A set of strings has one ascending listing, so the order of discovery cannot matter. */
  lemma {:induction false} AscendingIsUnique(a: seq<string>, b: seq<string>)
    requires Ascending(a) && Ascending(b)
    requires forall x :: x in a <==> x in b
    ensures a == b
  {
    assert b == [] || b[0] in b;
    if a == [] {
      assert b == [];
    } else {
      assert a[0] in b && b[0] in a;
      var j :| 0 <= j < |b| && b[j] == a[0];
      var i :| 0 <= i < |a| && a[i] == b[0];
      if j > 0 && i > 0 {
        LessTransitive(a[0], a[i], a[0]);
        LessIrreflexive(a[0]);
      }
      if j > 0 || i > 0 { LessIrreflexive(a[0]); }
      forall x ensures x in a[1..] <==> x in b[1..] {
        LessIrreflexive(a[0]);
        assert x in a[1..] <==> x in a && x != a[0] by {
          if x in a && x != a[0] { var k :| 0 <= k < |a| && a[k] == x; assert a[1..][k - 1] == x; }
          if x in a[1..] {
            var k :| 0 <= k < |a[1..]| && a[1..][k] == x;
            assert a[k + 1] == x && Less(a[0], a[k + 1]);
          }
        }
        assert x in b[1..] <==> x in b && x != b[0] by {
          if x in b && x != b[0] { var k :| 0 <= k < |b| && b[k] == x; assert b[1..][k - 1] == x; }
          if x in b[1..] {
            var k :| 0 <= k < |b[1..]| && b[1..][k] == x;
            assert b[k + 1] == x && Less(b[0], b[k + 1]);
          }
        }
      }
      AscendingIsUnique(a[1..], b[1..]);
      assert a == [a[0]] + a[1..] && b == [b[0]] + b[1..];
    }
  }

  function Join(parts: seq<string>, sep: char): string {
    if parts == [] then ""
    else if |parts| == 1 then parts[0]
    else parts[0] + [sep] + Join(parts[1..], sep)
  }

  /** `strings.Split` on one character: always at least one part. */
  function Split(s: string, sep: char): (r: seq<string>)
    ensures |r| >= 1
    ensures forall i :: 0 <= i < |r| ==> sep !in r[i]
    ensures Join(r, sep) == s
  {
    if s == "" then [""]
    else
      var t := Split(s[1..], sep);
      if s[0] == sep then
        assert ([""] + t)[1..] == t;
        [""] + t
      else
        assert ([[s[0]] + t[0]] + t[1..])[1..] == t[1..];
        [[s[0]] + t[0]] + t[1..]
  }
}
