/**
 What version precedence means: an independent definition on the numbers and identifiers of a semantic version, how they
 are written, and that comparing the texts decides exactly this.
 */
module Precedence {
  import opened Wrappers
  import opened Text
  import opened Versions

  /** A semantic version without its build metadata. */
  datatype Semantic = Semantic(major: nat, minor: nat, patch: nat, prerelease: seq<Identifier>)

  // How versions are written

  function Digit(n: nat): char
    requires n < 10
  {
    ('0' as int + n) as char
  }

  /** A number without leading zeros. */
  function Decimal(n: nat): string {
    if n < 10 then [Digit(n)] else Decimal(n / 10) + [Digit(n % 10)]
  }

  /** Letters, digits and hyphens. */
  predicate IsLabel(s: string) {
    s != "" && forall c | c in s :: '0' <= c <= '9' || 'a' <= c <= 'z' || 'A' <= c <= 'Z' || c == '-'
  }

  /** A label that is not all digits. */
  predicate IsWord(s: string) {
    IsLabel(s) && exists c | c in s :: !('0' <= c <= '9')
  }

  predicate IsWritable(x: Identifier) { x.Alphanumeric? ==> IsWord(x.s) }

  function Written(x: Identifier): string {
    match x
    case Numeric(n) => Decimal(n)
    case Alphanumeric(s) => s
  }

  function Joined(parts: seq<string>): string
    requires |parts| > 0
  {
    if |parts| == 1 then parts[0] else parts[0] + "." + Joined(parts[1..])
  }

  function AllWritten(xs: seq<Identifier>): (parts: seq<string>)
    ensures |parts| == |xs| && forall i | 0 <= i < |xs| :: parts[i] == Written(xs[i])
  {
    if |xs| == 0 then [] else [Written(xs[0])] + AllWritten(xs[1..])
  }

  function Core(v: Semantic): string {
    Decimal(v.major) + "." + (Decimal(v.minor) + "." + Decimal(v.patch))
  }

  predicate IsSemantic(v: Semantic) {
    forall x | x in v.prerelease :: IsWritable(x)
  }

  /** The version as text, with the identifiers of its build metadata, if any. */
  function Spelled(v: Semantic, build: seq<string>): string {
    Core(v) + (if v.prerelease == [] then "" else "-" + Joined(AllWritten(v.prerelease)))
        + (if build == [] then "" else "+" + Joined(build))
  }

  predicate IsBuild(build: seq<string>) {
    forall part | part in build :: IsLabel(part)
  }

  /** The text of a semantic version. */
  ghost predicate IsSemanticText(s: string) {
    exists v, build :: IsSemantic(v) && IsBuild(build) && s == Spelled(v, build)
  }

  // Which comes first

  predicate NumbersBefore(v: Semantic, w: Semantic) {
    || v.major < w.major
    || (v.major == w.major && v.minor < w.minor)
    || (v.major == w.major && v.minor == w.minor && v.patch < w.patch)
  }

  /** Numbers by value, before words; words by their characters. */
  ghost predicate IdentifierBefore(x: Identifier, y: Identifier) {
    match (x, y)
    case (Numeric(m), Numeric(n)) => m < n
    case (Numeric(_), Alphanumeric(_)) => true
    case (Alphanumeric(_), Numeric(_)) => false
    case (Alphanumeric(s), Alphanumeric(t)) => TextBefore(s, t)
  }

  /** The first identifier that differs decides; fewer identifiers come first. */
  ghost predicate IdentifiersBefore(xs: seq<Identifier>, ys: seq<Identifier>) {
    exists i | 0 <= i <= |xs| && i < |ys| :: xs[..i] == ys[..i] && (i == |xs| || IdentifierBefore(xs[i], ys[i]))
  }

  /** A prerelease comes before its release. */
  ghost predicate Before(v: Semantic, w: Semantic) {
    || NumbersBefore(v, w)
    || (&& v.major == w.major && v.minor == w.minor && v.patch == w.patch
        && v.prerelease != [] && (w.prerelease == [] || IdentifiersBefore(v.prerelease, w.prerelease)))
  }

  // Reading what is written

  lemma {:induction false} DecimalReads(n: nat)
    ensures |Decimal(n)| > 0 && (forall c | c in Decimal(n) :: IsDigit(c)) && DigitsValue(Decimal(n)) == n
    ensures Decimal(n)[0] == '0' ==> n == 0
    ensures n < 10 ==> |Decimal(n)| == 1
    ensures n > 0 ==> Decimal(n)[0] != '0'
  {
    var s := Decimal(n);
    if n < 10 {
      assert s[..0] == "" && DigitsValue("") == 0;
      assert DigitsValue(s) == 10 * DigitsValue(s[..0]) + (s[0] as int - '0' as int);
    } else {
      DecimalReads(n / 10);
      assert s[..|s| - 1] == Decimal(n / 10) && s[|s| - 1] == Digit(n % 10);
    }
  }

  lemma NumberReads(n: nat)
    ensures NumberOf(Decimal(n)) == Some(n) && '.' !in Decimal(n) && '-' !in Decimal(n) && '+' !in Decimal(n)
    ensures AllDigits(Decimal(n)) && IsIdentifier(Decimal(n))
  {
    DecimalReads(n);
  }

  lemma {:induction false} SplitDotsJoins(s: string, t: string)
    requires '.' !in s
    ensures SplitDots(s + "." + t) == [s] + SplitDots(t)
  {
    var whole := s + "." + t;
    if |s| == 0 {
      assert whole[1..] == t;
    } else {
      assert s[0] in s && whole[1..] == s[1..] + "." + t;
      SplitDotsJoins(s[1..], t);
      assert s == [s[0]] + s[1..];
    }
  }

  lemma {:induction false} NoDots(s: string)
    requires '.' !in s
    ensures SplitDots(s) == [s]
  {
    if |s| > 0 {
      assert s[0] in s;
      NoDots(s[1..]);
      assert s == [s[0]] + s[1..];
    }
  }

  lemma {:induction false} JoinedReads(parts: seq<string>)
    requires |parts| > 0 && forall part | part in parts :: '.' !in part
    ensures SplitDots(Joined(parts)) == parts
  {
    if |parts| == 1 {
      NoDots(parts[0]);
    } else {
      JoinedReads(parts[1..]);
      SplitDotsJoins(parts[0], Joined(parts[1..]));
    }
  }

  lemma {:induction false} JoinedHas(parts: seq<string>, c: char)
    requires |parts| > 0 && c in Joined(parts)
    ensures c == '.' || exists part | part in parts :: c in part
  {
    if |parts| > 1 && c in Joined(parts[1..]) {
      JoinedHas(parts[1..], c);
    }
  }

  lemma CoreReads(v: Semantic)
    ensures CoreOf(SplitDots(Core(v))) == Some([v.major, v.minor, v.patch])
    ensures '-' !in Core(v) && '+' !in Core(v)
  {
    var x, y, z := Decimal(v.major), Decimal(v.minor), Decimal(v.patch);
    NumberReads(v.major);
    NumberReads(v.minor);
    NumberReads(v.patch);
    SplitDotsJoins(x, y + "." + z);
    SplitDotsJoins(y, z);
    NoDots(z);
    assert SplitDots(Core(v)) == [x, y, z];
  }

  lemma IdentifierReads(x: Identifier)
    requires IsWritable(x)
    ensures PrereleaseIdentifier(Written(x)) == Some(x) && '.' !in Written(x) && '+' !in Written(x)
  {
    if x.Numeric? {
      NumberReads(x.n);
    }
  }

  lemma {:induction false} IdentifiersRead(xs: seq<Identifier>)
    requires forall x | x in xs :: IsWritable(x)
    ensures PrereleaseOf(AllWritten(xs)) == Some(xs)
    ensures forall part | part in AllWritten(xs) :: '.' !in part && '+' !in part
  {
    hide PrereleaseIdentifier, Written;
    if |xs| > 0 {
      var first, rest := Written(xs[0]), AllWritten(xs[1..]);
      IdentifierReads(xs[0]);
      IdentifiersRead(xs[1..]);
      assert AllWritten(xs) == [first] + rest;
      FirstIdentifier(first, rest);
      assert xs == [xs[0]] + xs[1..];
    }
  }

  lemma FirstIdentifier(first: string, rest: seq<string>)
    requires PrereleaseIdentifier(first).Some? && PrereleaseOf(rest).Some?
    ensures PrereleaseOf([first] + rest) == Some([PrereleaseIdentifier(first).value] + PrereleaseOf(rest).value)
  {
    hide PrereleaseIdentifier;
    assert ([first] + rest)[1..] == rest;
  }

  lemma PrereleaseReads(xs: seq<Identifier>)
    requires |xs| > 0 && forall x | x in xs :: IsWritable(x)
    ensures PrereleaseOf(SplitDots(Joined(AllWritten(xs)))) == Some(xs) && '+' !in Joined(AllWritten(xs))
  {
    hide Joined, SplitDots, PrereleaseOf, AllWritten;
    IdentifiersRead(xs);
    JoinedReads(AllWritten(xs));
    if '+' in Joined(AllWritten(xs)) {
      JoinedHas(AllWritten(xs), '+');
    }
  }

  lemma BuildReads(build: seq<string>)
    requires |build| > 0 && IsBuild(build)
    ensures IsBuildMetadata(Joined(build))
  {
    JoinedReads(build);
  }

  /** Reading a written version gives its numbers and identifiers back. */
  lemma SpelledReads(v: Semantic, build: seq<string>)
    requires IsSemantic(v) && IsBuild(build)
    ensures RankOf(Spelled(v, build)) == Ranked([v.major, v.minor, v.patch], v.prerelease)
  {
    hide PrereleaseIdentifier, CoreOf, IsBuildMetadata, Core, Joined, CutAt, PrereleaseOf, SplitDots, AllWritten;
    CoreReads(v);
    var core := Core(v);
    var visible := core + (if v.prerelease == [] then "" else "-" + Joined(AllWritten(v.prerelease)));
    if v.prerelease == [] {
      assert visible == core;
      NoCut(core, '-');
    } else {
      PrereleaseReads(v.prerelease);
      assert visible == core + "-" + Joined(AllWritten(v.prerelease));
      CutAtJoins(core, Joined(AllWritten(v.prerelease)), '-');
    }
    assert '+' !in visible;
    if build == [] {
      assert Spelled(v, build) == visible;
      NoCut(visible, '+');
    } else {
      BuildReads(build);
      assert Spelled(v, build) == visible + "+" + Joined(build);
      CutAtJoins(visible, Joined(build), '+');
    }
    assert CutAt(Spelled(v, build), '+') == (visible, if build == [] then None else Some(Joined(build)));
  }

  // Writing what is read

  lemma {:induction false} CutAtSplits(s: string, c: char)
    ensures var (before, after) := CutAt(s, c);
      && c !in before
      && s == before + (if after.None? then "" else [c] + after.value)
  {
    if |s| > 0 && s[0] != c {
      CutAtSplits(s[1..], c);
      assert s == [s[0]] + s[1..];
    }
  }

  lemma {:induction false} SplitDotsWrites(s: string)
    ensures Joined(SplitDots(s)) == s
  {
    if |s| > 0 {
      SplitDotsWrites(s[1..]);
      var rest := SplitDots(s[1..]);
      assert s == [s[0]] + s[1..];
      if s[0] == '.' {
        assert ([""] + rest)[1..] == rest;
      } else {
        var parts := [[s[0]] + rest[0]] + rest[1..];
        assert parts[1..] == rest[1..];
        assert |parts| == 1 ==> rest == [rest[0]];
      }
    }
  }

  lemma {:induction false} DigitsArePositive(s: string)
    requires AllDigits(s) && s[0] != '0'
    ensures DigitsValue(s) > 0
  {
    if |s| == 1 {
      assert s[..0] == "";
      assert s[0] in s;
    } else {
      var front, last := s[..|s| - 1], s[|s| - 1];
      assert front[0] == s[0] && last in s && IsDigit(last);
      DigitsArePositive(front);
      assert DigitsValue(s) == 10 * DigitsValue(front) + (last as int - '0' as int);
    }
  }

  lemma {:induction false} NumberWrites(s: string)
    requires AllDigits(s) && !HasLeadingZero(s)
    ensures Decimal(DigitsValue(s)) == s
  {
    var last := s[|s| - 1];
    assert last in s && IsDigit(last);
    var digit := last as int - '0' as int;
    assert Digit(digit) == last;
    if |s| == 1 {
      assert s[..0] == "" && DigitsValue(s) == digit;
    } else {
      var front := s[..|s| - 1];
      assert front[0] == s[0];
      NumberWrites(front);
      DigitsArePositive(front);
      assert DigitsValue(s) == 10 * DigitsValue(front) + digit;
      assert s == front + [last];
    }
  }

  lemma IdentifierWrites(s: string)
    requires PrereleaseIdentifier(s).Some?
    ensures IsWritable(PrereleaseIdentifier(s).value) && Written(PrereleaseIdentifier(s).value) == s
  {
    if AllDigits(s) {
      NumberWrites(s);
    }
  }

  lemma {:induction false} IdentifiersWrite(parts: seq<string>)
    requires PrereleaseOf(parts).Some?
    ensures AllWritten(PrereleaseOf(parts).value) == parts
    ensures forall x | x in PrereleaseOf(parts).value :: IsWritable(x)
  {
    hide PrereleaseIdentifier, Written, IsWritable;
    if |parts| > 0 {
      IdentifierWrites(parts[0]);
      IdentifiersWrite(parts[1..]);
      var xs := PrereleaseOf(parts).value;
      assert xs[1..] == PrereleaseOf(parts[1..]).value;
    }
  }

  lemma CoreWrites(s: string, v: Semantic)
    requires CoreOf(SplitDots(s)).Some? && CoreOf(SplitDots(s)).value == [v.major, v.minor, v.patch]
    ensures Core(v) == s
  {
    hide DigitsValue, Decimal;
    var parts := SplitDots(s);
    SplitDotsWrites(s);
    NumberWrites(parts[0]);
    NumberWrites(parts[1]);
    NumberWrites(parts[2]);
    var core: seq<int> := [DigitsValue(parts[0]), DigitsValue(parts[1]), DigitsValue(parts[2])];
    assert CoreOf(parts).value == core;
    assert core[0] == v.major && core[1] == v.minor && core[2] == v.patch;
    assert parts[1..] == [parts[1], parts[2]] && parts[1..][1..] == [parts[2]];
    assert Joined(parts) == parts[0] + "." + Joined(parts[1..]);
    assert Joined(parts[1..]) == parts[1] + "." + Joined(parts[1..][1..]);
  }

  lemma PrereleaseWrites(s: string)
    requires PrereleaseOf(SplitDots(s)).Some?
    ensures var xs := PrereleaseOf(SplitDots(s)).value;
      |xs| > 0 && Joined(AllWritten(xs)) == s && forall x | x in xs :: IsWritable(x)
  {
    hide PrereleaseIdentifier, Written, IsWritable;
    IdentifiersWrite(SplitDots(s));
    SplitDotsWrites(s);
  }

  lemma BuildWrites(s: string)
    requires IsBuildMetadata(s)
    ensures Joined(SplitDots(s)) == s && IsBuild(SplitDots(s))
  {
    SplitDotsWrites(s);
  }

  /** A text that has a rank is the text of a semantic version. */
  lemma RankedIsSpelled(s: string)
    requires RankOf(s).Ranked?
    ensures IsSemanticText(s)
  {
    hide PrereleaseIdentifier, IsBuildMetadata, Core, Joined, CutAt, PrereleaseOf, SplitDots, AllWritten, IsWritable;
    var (visible, build) := CutAt(s, '+');
    var (numbers, prerelease) := CutAt(visible, '-');
    CutAtSplits(s, '+');
    CutAtSplits(visible, '-');
    var core := CoreOf(SplitDots(numbers)).value;
    var xs := if prerelease.None? then [] else PrereleaseOf(SplitDots(prerelease.value)).value;
    var v := Semantic(core[0], core[1], core[2], xs);
    var parts := if build.None? then [] else SplitDots(build.value);
    CoreWrites(numbers, v);
    if prerelease.Some? {
      PrereleaseWrites(prerelease.value);
    }
    if build.Some? {
      BuildWrites(build.value);
    }
    assert s == Spelled(v, parts);
  }

  // Precedence

  lemma LexUnfolds(a: seq<int>, b: seq<int>)
    requires |a| > 0 && |b| > 0
    ensures Lex(CompareInt, a, b) ==
            if a[0] < b[0] then -1 else if a[0] > b[0] then 1 else Lex(CompareInt, a[1..], b[1..])
  {
  }

  lemma NumbersMean(a: seq<int>, b: seq<int>)
    requires |a| == 3 && |b| == 3
    ensures Lex(CompareInt, a, b) < 0 <==>
            a[0] < b[0] || (a[0] == b[0] && a[1] < b[1]) || (a[0] == b[0] && a[1] == b[1] && a[2] < b[2])
    ensures Lex(CompareInt, a, b) == 0 <==> a[0] == b[0] && a[1] == b[1] && a[2] == b[2]
  {
    hide Lex;
    var a1, b1 := a[1..], b[1..];
    var a2, b2 := a1[1..], b1[1..];
    LexUnfolds(a, b);
    LexUnfolds(a1, b1);
    LexUnfolds(a2, b2);
    LexEnds(a2[1..], b2[1..]);
  }

  lemma LexEnds(a: seq<int>, b: seq<int>)
    requires |a| == 0 && |b| == 0
    ensures Lex(CompareInt, a, b) == 0
  {
  }

  lemma IdentifierMeans(x: Identifier, y: Identifier)
    ensures CompareIdentifiers(x, y) < 0 <==> IdentifierBefore(x, y)
    ensures CompareIdentifiers(x, y) == 0 <==> x == y
  {
    hide CompareText, TextBefore;
    if x.Alphanumeric? && y.Alphanumeric? {
      TextMeans(x.s, y.s);
      TextOrder(x.s, y.s);
    }
  }

  lemma IdentifiersMean(xs: seq<Identifier>, ys: seq<Identifier>)
    ensures Lex(CompareIdentifiers, xs, ys) < 0 <==> IdentifiersBefore(xs, ys)
    ensures Lex(CompareIdentifiers, xs, ys) == 0 <==> xs == ys
  {
    hide CompareIdentifiers, IdentifierBefore;
    forall x, y
      ensures CompareIdentifiers(x, y) < 0 <==> IdentifierBefore(x, y)
      ensures CompareIdentifiers(x, y) == 0 <==> x == y
    {
      IdentifierMeans(x, y);
    }
    LexMeans(CompareIdentifiers, xs, ys);
    TiesAreEqual(CompareIdentifiers, xs, ys);
    if i :| BeforeAt(CompareIdentifiers, xs, ys, i) {
      assert i == |xs| || IdentifierBefore(xs[i], ys[i]);
    }
    if i :| 0 <= i <= |xs| && i < |ys| && xs[..i] == ys[..i] && (i == |xs| || IdentifierBefore(xs[i], ys[i])) {
      assert BeforeAt(CompareIdentifiers, xs, ys, i);
    }
  }

  /** Comparing two semantic versions decides exactly their precedence, whatever their build metadata. */
  lemma ComparisonMeans(v: Semantic, w: Semantic, build: seq<string>, other: seq<string>)
    requires IsSemantic(v) && IsSemantic(w) && IsBuild(build) && IsBuild(other)
    ensures CompareVersions(Spelled(v, build), Spelled(w, other)) < 0 <==> Before(v, w)
    ensures CompareVersions(Spelled(v, build), Spelled(w, other)) == 0 <==> v == w
  {
    hide RankOf, Spelled, Lex, IdentifiersBefore;
    SpelledReads(v, build);
    SpelledReads(w, other);
    NumbersMean([v.major, v.minor, v.patch], [w.major, w.minor, w.patch]);
    IdentifiersMean(v.prerelease, w.prerelease);
  }

  /** A version that is not semantic comes before every one that is, and ties with the others like it. */
  lemma OthersComeFirst(s: string, t: string)
    requires !IsSemanticText(s)
    ensures CompareVersions(s, t) <= 0
    ensures CompareVersions(s, t) < 0 <==> IsSemanticText(t)
  {
    hide RankOf, Spelled, IsSemantic, IsBuild;
    if RankOf(s).Ranked? {
      RankedIsSpelled(s);
    }
    if RankOf(t).Ranked? {
      RankedIsSpelled(t);
    } else if IsSemanticText(t) {
      var v, build :| IsSemantic(v) && IsBuild(build) && t == Spelled(v, build);
      SpelledReads(v, build);
    }
  }
}
