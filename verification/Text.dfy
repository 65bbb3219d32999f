/** Text order: lexicographic comparison of sequences, and sets of names put in ascending order. */
module Text {

  /** What a comparison function must satisfy to be a total preorder. */
  ghost predicate TotalPreorder<T(!new)>(cmp: (T, T) -> int) {
    && (forall x :: cmp(x, x) == 0)
    && (forall x, y :: cmp(x, y) <= 0 <==> cmp(y, x) >= 0)
    && (forall x, y, z :: cmp(x, y) <= 0 && cmp(y, z) <= 0 ==> cmp(x, z) <= 0)
  }

  /** Compares element by element; a proper prefix comes first. */
  function Lex<T>(cmp: (T, T) -> int, a: seq<T>, b: seq<T>): int {
    if |a| == 0 then
      if |b| == 0 then 0 else -1
    else if |b| == 0 then
      1
    else
      var c := cmp(a[0], b[0]);
      if c != 0 then c else Lex(cmp, a[1..], b[1..])
  }

  lemma {:induction false} LexReflexive<T(!new)>(cmp: (T, T) -> int, a: seq<T>)
    requires TotalPreorder(cmp)
    ensures Lex(cmp, a, a) == 0
  {
    if |a| > 0 {
      LexReflexive(cmp, a[1..]);
    }
  }

  lemma {:induction false} LexReverses<T(!new)>(cmp: (T, T) -> int, a: seq<T>, b: seq<T>)
    requires TotalPreorder(cmp)
    ensures Lex(cmp, a, b) <= 0 <==> Lex(cmp, b, a) >= 0
  {
    if |a| > 0 && |b| > 0 {
      assert cmp(a[0], b[0]) <= 0 <==> cmp(b[0], a[0]) >= 0;
      assert cmp(b[0], a[0]) <= 0 <==> cmp(a[0], b[0]) >= 0;
      LexReverses(cmp, a[1..], b[1..]);
    }
  }

  lemma {:induction false} LexTransitive<T(!new)>(cmp: (T, T) -> int, a: seq<T>, b: seq<T>, c: seq<T>)
    requires TotalPreorder(cmp)
    requires Lex(cmp, a, b) <= 0 && Lex(cmp, b, c) <= 0
    ensures Lex(cmp, a, c) <= 0
  {
    if |a| > 0 && |b| > 0 && |c| > 0 {
      var x, y, z := a[0], b[0], c[0];
      assert cmp(x, y) <= 0 && cmp(y, z) <= 0 ==> cmp(x, z) <= 0;
      if cmp(x, z) == 0 {
        // A tie end to end is a tie in the middle.
        assert cmp(z, x) <= 0 <==> cmp(x, z) >= 0;
        assert cmp(y, z) <= 0 && cmp(z, x) <= 0 ==> cmp(y, x) <= 0;
        assert cmp(z, x) <= 0 && cmp(x, y) <= 0 ==> cmp(z, y) <= 0;
        assert cmp(y, x) <= 0 <==> cmp(x, y) >= 0;
        assert cmp(z, y) <= 0 <==> cmp(y, z) >= 0;
        LexTransitive(cmp, a[1..], b[1..], c[1..]);
      }
    }
  }

  function CompareInt(a: int, b: int): int {
    if a < b then -1 else if a > b then 1 else 0
  }

  function CompareChar(a: char, b: char): int {
    if a < b then -1 else if a > b then 1 else 0
  }

  /** Byte-wise text order, as strings.Compare and SQLite's default collation use it. */
  function CompareText(a: string, b: string): int {
    Lex(CompareChar, a, b)
  }

  lemma {:induction false} TiesAreEqual<T(!new)>(cmp: (T, T) -> int, a: seq<T>, b: seq<T>)
    requires forall x, y :: cmp(x, y) == 0 <==> x == y
    ensures Lex(cmp, a, b) == 0 <==> a == b
  {
    if |a| > 0 && |b| > 0 {
      TiesAreEqual(cmp, a[1..], b[1..]);
      assert a == [a[0]] + a[1..] && b == [b[0]] + b[1..];
    }
  }

  lemma TextIsTotalOrder()
    ensures TotalPreorder(CompareText)
    ensures forall a, b :: CompareText(a, b) == 0 <==> a == b
  {
    assert TotalPreorder(CompareChar);
    forall a ensures CompareText(a, a) == 0 {
      LexReflexive(CompareChar, a);
    }
    forall a, b ensures CompareText(a, b) <= 0 <==> CompareText(b, a) >= 0 {
      LexReverses(CompareChar, a, b);
    }
    forall a, b, c | CompareText(a, b) <= 0 && CompareText(b, c) <= 0 ensures CompareText(a, c) <= 0 {
      LexTransitive(CompareChar, a, b, c);
    }
    forall a, b | CompareText(a, b) == 0 ensures a == b {
      TiesAreEqual(CompareChar, a, b);
    }
  }

  /** Of two different texts exactly one comes first. */
  lemma TextOrder(a: string, b: string)
    ensures a == b <==> CompareText(a, b) == 0
    ensures CompareText(a, b) < 0 <==> CompareText(b, a) > 0
  {
    TextIsTotalOrder();
  }

  /** Coming first passes on. */
  lemma TextPrecedes(a: string, b: string, c: string)
    ensures CompareText(a, b) <= 0 && CompareText(b, c) <= 0 ==> CompareText(a, c) <= 0
    ensures CompareText(a, b) < 0 && CompareText(b, c) < 0 ==> CompareText(a, c) < 0
  {
    TextIsTotalOrder();
    if CompareText(a, b) < 0 && CompareText(b, c) < 0 && CompareText(a, c) == 0 {
      assert a == c;
      TextOrder(a, b);
    }
  }

  /** Up to i the sequences are the same; there a has ended, or comes first. */
  ghost predicate BeforeAt<T(!new)>(cmp: (T, T) -> int, a: seq<T>, b: seq<T>, i: int) {
    0 <= i <= |a| && i < |b| && a[..i] == b[..i] && (i == |a| || cmp(a[i], b[i]) < 0)
  }

  lemma {:induction false} LexMeans<T(!new)>(cmp: (T, T) -> int, a: seq<T>, b: seq<T>)
    requires forall x, y :: cmp(x, y) == 0 <==> x == y
    ensures Lex(cmp, a, b) < 0 <==> exists i :: BeforeAt(cmp, a, b, i)
  {
    if |a| == 0 {
      assert |b| > 0 ==> BeforeAt(cmp, a, b, 0);
    } else if |b| > 0 {
      if a[0] != b[0] {
        assert cmp(a[0], b[0]) < 0 ==> BeforeAt(cmp, a, b, 0);
        forall i | 0 < i <= |a| && i < |b| ensures a[..i] != b[..i] {
          assert a[..i][0] != b[..i][0];
        }
      } else {
        LexMeans(cmp, a[1..], b[1..]);
        forall i ensures BeforeAt(cmp, a, b, i + 1) <==> BeforeAt(cmp, a[1..], b[1..], i) {
          BeforeShifts(cmp, a, b, i);
        }
        if i :| BeforeAt(cmp, a, b, i) {
          assert BeforeAt(cmp, a[1..], b[1..], i - 1);
        }
        if i :| BeforeAt(cmp, a[1..], b[1..], i) {
          assert BeforeAt(cmp, a, b, i + 1);
        }
      }
    }
  }

  lemma BeforeShifts<T(!new)>(cmp: (T, T) -> int, a: seq<T>, b: seq<T>, i: int)
    requires |a| > 0 && |b| > 0 && a[0] == b[0] && cmp(a[0], a[0]) == 0
    ensures BeforeAt(cmp, a, b, i + 1) <==> BeforeAt(cmp, a[1..], b[1..], i)
  {
    if 0 <= i < |a| && i < |b| - 1 {
      assert a[..i + 1] == [a[0]] + a[1..][..i] && b[..i + 1] == [b[0]] + b[1..][..i];
      assert a[1..][..i] == a[..i + 1][1..] && b[1..][..i] == b[..i + 1][1..];
    }
  }

  /** a comes before b by the characters: a proper prefix, or smaller where they first differ. */
  ghost predicate TextBefore(a: string, b: string) {
    exists i | 0 <= i <= |a| && i < |b| :: a[..i] == b[..i] && (i == |a| || a[i] < b[i])
  }

  lemma TextMeans(a: string, b: string)
    ensures CompareText(a, b) < 0 <==> TextBefore(a, b)
  {
    LexMeans(CompareChar, a, b);
    if i :| BeforeAt(CompareChar, a, b, i) {
      assert i == |a| || a[i] < b[i];
    }
    if i :| 0 <= i <= |a| && i < |b| && a[..i] == b[..i] && (i == |a| || a[i] < b[i]) {
      assert BeforeAt(CompareChar, a, b, i);
    }
  }

  lemma AscendingMeans(s: seq<string>)
    ensures Ascending(s) <==> forall i, j | 0 <= i < j < |s| :: TextBefore(s[i], s[j])
  {
    hide CompareText, TextBefore;
    forall i, j | 0 <= i < j < |s| ensures CompareText(s[i], s[j]) < 0 <==> TextBefore(s[i], s[j]) {
      TextMeans(s[i], s[j]);
    }
  }

  /** The least name is before all others. */
  lemma LeastMeans(s: set<string>, x: string)
    requires s != {} && x in s
    ensures x == Least(s) <==> forall y | y in s && y != x :: TextBefore(x, y)
  {
    hide TextBefore;
    forall y ensures TextBefore(x, y) <==> CompareText(x, y) < 0 {
      TextMeans(x, y);
    }
    TextIsTotalOrder();
    if forall y | y in s && y != x :: TextBefore(x, y) {
      assert IsLeast(x, s);
      LeastIsUnique(s, x, Least(s));
    }
  }

  predicate IsLeast(x: string, s: set<string>) {
    x in s && forall y | y in s :: CompareText(x, y) <= 0
  }

  lemma {:induction false} LeastExists(s: set<string>)
    requires s != {}
    ensures exists x :: IsLeast(x, s)
    decreases |s|
  {
    TextIsTotalOrder();
    var a :| a in s;
    var rest := s - {a};
    if rest == {} {
      assert s == {a};
      assert IsLeast(a, s);
    } else {
      LeastExists(rest);
      var b :| IsLeast(b, rest);
      if CompareText(a, b) <= 0 {
        assert IsLeast(a, s);
      } else {
        assert IsLeast(b, s);
      }
    }
  }

  lemma LeastIsUnique(s: set<string>, x: string, y: string)
    requires IsLeast(x, s) && IsLeast(y, s)
    ensures x == y
  {
    TextIsTotalOrder();
  }

  function Least(s: set<string>): (x: string)
    requires s != {}
    ensures IsLeast(x, s)
  {
    LeastExists(s);
    assert forall x, y | IsLeast(x, s) && IsLeast(y, s) :: x == y by {
      forall x, y | IsLeast(x, s) && IsLeast(y, s) ensures x == y { LeastIsUnique(s, x, y); }
    }
    var x :| x in s && IsLeast(x, s);
    x
  }

  predicate Ascending(s: seq<string>) {
    forall i, j | 0 <= i < j < |s| :: CompareText(s[i], s[j]) < 0
  }

  lemma LeastAscends(x: string, s: set<string>, rest: seq<string>)
    requires IsLeast(x, s) && Ascending(rest)
    requires forall y | y in rest :: y in s && y != x
    ensures Ascending([x] + rest)
  {
    var r := [x] + rest;
    forall j | 0 < j < |r| ensures CompareText(x, r[j]) < 0 {
      assert r[j] in rest;
      TextOrder(x, r[j]);
    }
  }

  /** The members of a set in ascending text order. */
  function InOrder(s: set<string>): (r: seq<string>)
    ensures forall x :: x in r <==> x in s
    ensures Ascending(r)
    ensures |r| == |s|
    decreases |s|
  {
    if s == {} then
      []
    else
      var x := Least(s);
      var rest := InOrder(s - {x});
      LeastAscends(x, s, rest);
      [x] + rest
  }

  /** The first of an ascending sequence is before all others. */
  lemma FirstIsBelow(a: seq<string>, x: string)
    requires Ascending(a) && |a| > 0
    ensures x in a[1..] ==> CompareText(a[0], x) < 0 && x != a[0]
    ensures x in a <==> x == a[0] || x in a[1..]
  {
    TextOrder(a[0], a[0]);
    assert a == [a[0]] + a[1..];
  }

  /** A set can be put in ascending order in one way only. */
  lemma {:induction false} AscendingIsUnique(a: seq<string>, b: seq<string>)
    requires Ascending(a) && Ascending(b)
    requires forall x :: x in a <==> x in b
    ensures a == b
  {
    if |a| > 0 {
      assert a[0] in b;
      if |b| > 0 {
        assert b[0] in a;
      }
    }
    assert |a| == 0 ==> |b| == 0 by {
      if |b| > 0 {
        assert b[0] in a;
      }
    }
    if |a| > 0 {
      FirstIsBelow(a, b[0]);
      FirstIsBelow(b, a[0]);
      TextOrder(a[0], b[0]);
      assert a[0] in a && b[0] in b;
      forall x ensures x in a[1..] <==> x in b[1..] {
        FirstIsBelow(a, x);
        FirstIsBelow(b, x);
      }
      AscendingIsUnique(a[1..], b[1..]);
      assert a == [a[0]] + a[1..] && b == [b[0]] + b[1..];
    }
  }

  /** Keeps the elements of s that are in c. */
  function Filter(s: seq<string>, c: set<string>): (r: seq<string>)
    ensures forall x :: x in r <==> x in s && x in c
  {
    if |s| == 0 then
      []
    else
      var rest := Filter(s[..|s| - 1], c);
      var x := s[|s| - 1];
      assert s == s[..|s| - 1] + [x];
      if x in c then rest + [x] else rest
  }

  lemma {:induction false} FilterAscends(s: seq<string>, c: set<string>)
    requires Ascending(s)
    ensures Ascending(Filter(s, c))
  {
    if |s| > 0 {
      var front, x := s[..|s| - 1], s[|s| - 1];
      FilterAscends(front, c);
      assert forall y | y in Filter(front, c) :: CompareText(y, x) < 0;
    }
  }

  /** Ordering a part of a set is the same as filtering the ordered whole. */
  lemma OrderOfPart(part: set<string>, whole: set<string>)
    requires part <= whole
    ensures Filter(InOrder(whole), part) == InOrder(part)
  {
    FilterAscends(InOrder(whole), part);
    AscendingIsUnique(Filter(InOrder(whole), part), InOrder(part));
  }
}
