/**
 Extension versions and their precedence.

 CompareVersions follows sections 9 to 11 of Semantic Versioning 2.0.0 for versions with all three
 numbers, which is what ValidVersion demands. A version that passes ValidVersion but is not semantic
 (a leading zero, an empty prerelease identifier) ranks below every semantic version and ties with the others like it.
 */
module Versions {
  import opened Text
  import opened Wrappers

  /** A prerelease identifier: digits only, or anything else. */
  datatype Identifier = Numeric(n: nat) | Alphanumeric(s: string)

  /** What decides precedence; build metadata is gone. */
  datatype Rank = Unranked | Ranked(core: seq<int>, prerelease: seq<Identifier>)

  predicate IsDigit(c: char) { '0' <= c <= '9' }

  predicate IsIdentifierChar(c: char) {
    IsDigit(c) || 'a' <= c <= 'z' || 'A' <= c <= 'Z' || c == '-'
  }

  predicate AllDigits(s: string) {
    |s| > 0 && forall c | c in s :: IsDigit(c)
  }

  predicate HasLeadingZero(s: string) { |s| > 1 && s[0] == '0' }

  function DigitsValue(s: string): nat
    requires forall c | c in s :: IsDigit(c)
  {
    if |s| == 0 then 0
    else
      assert s[|s| - 1] in s && IsDigit(s[|s| - 1]);
      10 * DigitsValue(s[..|s| - 1]) + (s[|s| - 1] as int - '0' as int)
  }

  function NumberOf(s: string): Option<nat> {
    if AllDigits(s) && !HasLeadingZero(s) then Some(DigitsValue(s)) else None
  }

  /** Everything before the first c, and what follows it when there is one. */
  function CutAt(s: string, c: char): (string, Option<string>) {
    if |s| == 0 then ("", None)
    else if s[0] == c then ("", Some(s[1..]))
    else var (before, after) := CutAt(s[1..], c); ([s[0]] + before, after)
  }

  function SplitDots(s: string): (parts: seq<string>)
    ensures |parts| > 0
  {
    if |s| == 0 then [""]
    else
      var rest := SplitDots(s[1..]);
      if s[0] == '.' then [""] + rest else [[s[0]] + rest[0]] + rest[1..]
  }

  predicate IsIdentifier(s: string) {
    |s| > 0 && forall c | c in s :: IsIdentifierChar(c)
  }

  function PrereleaseIdentifier(s: string): Option<Identifier> {
    if !IsIdentifier(s) then None
    else if !AllDigits(s) then Some(Alphanumeric(s))
    else match NumberOf(s)
      case Some(n) => Some(Numeric(n))
      case None => None
  }

  function PrereleaseOf(parts: seq<string>): Option<seq<Identifier>> {
    if |parts| == 0 then Some([])
    else match (PrereleaseIdentifier(parts[0]), PrereleaseOf(parts[1..]))
      case (Some(first), Some(rest)) => Some([first] + rest)
      case _ => None
  }

  function CoreOf(parts: seq<string>): Option<seq<int>> {
    if |parts| != 3 then None
    else match (NumberOf(parts[0]), NumberOf(parts[1]), NumberOf(parts[2]))
      case (Some(major), Some(minor), Some(patch)) => Some([major, minor, patch])
      case _ => None
  }

  function RankOf(version: string): Rank {
    var (visible, build) := CutAt(version, '+');
    var (numbers, prerelease) := CutAt(visible, '-');
    var buildOk := build.None? || IsBuildMetadata(build.value);
    var identifiers := if prerelease.None? then Some([]) else PrereleaseOf(SplitDots(prerelease.value));
    match (CoreOf(SplitDots(numbers)), identifiers)
    case (Some(core), Some(ids)) => if buildOk then Ranked(core, ids) else Unranked
    case _ => Unranked
  }

  function CompareIdentifiers(a: Identifier, b: Identifier): int {
    match (a, b)
    case (Numeric(m), Numeric(n)) => CompareInt(m, n)
    case (Numeric(_), Alphanumeric(_)) => -1
    case (Alphanumeric(_), Numeric(_)) => 1
    case (Alphanumeric(s), Alphanumeric(t)) => CompareText(s, t)
  }

  function ComparePrereleases(a: seq<Identifier>, b: seq<Identifier>): int {
    if |a| == 0 && |b| == 0 then 0
    else if |a| == 0 then 1
    else if |b| == 0 then -1
    else Lex(CompareIdentifiers, a, b)
  }

  function CompareRanks(a: Rank, b: Rank): int {
    match (a, b)
    case (Unranked, Unranked) => 0
    case (Unranked, Ranked(_, _)) => -1
    case (Ranked(_, _), Unranked) => 1
    case (Ranked(c, p), Ranked(d, q)) =>
      var core := Lex(CompareInt, c, d);
      if core != 0 then core else ComparePrereleases(p, q)
  }

  function CompareVersions(a: string, b: string): int {
    CompareRanks(RankOf(a), RankOf(b))
  }

  lemma IdentifiersAreOrdered()
    ensures TotalPreorder(CompareIdentifiers)
  {
    TextIsTotalOrder();
    assert forall x: string, y: string :: CompareText(x, y) <= 0 <==> CompareText(y, x) >= 0;
  }

  lemma PrereleasesAreOrdered(a: seq<Identifier>, b: seq<Identifier>, c: seq<Identifier>)
    ensures ComparePrereleases(a, a) == 0
    ensures ComparePrereleases(a, b) <= 0 <==> ComparePrereleases(b, a) >= 0
    ensures ComparePrereleases(a, b) <= 0 && ComparePrereleases(b, c) <= 0 ==> ComparePrereleases(a, c) <= 0
  {
    IdentifiersAreOrdered();
    LexReflexive(CompareIdentifiers, a);
    LexReverses(CompareIdentifiers, a, b);
    if Lex(CompareIdentifiers, a, b) <= 0 && Lex(CompareIdentifiers, b, c) <= 0 {
      LexTransitive(CompareIdentifiers, a, b, c);
    }
  }

  lemma CoresAreOrdered(a: seq<int>, b: seq<int>, c: seq<int>)
    ensures Lex(CompareInt, a, a) == 0
    ensures Lex(CompareInt, a, b) <= 0 <==> Lex(CompareInt, b, a) >= 0
    ensures Lex(CompareInt, a, b) <= 0 && Lex(CompareInt, b, c) <= 0 ==> Lex(CompareInt, a, c) <= 0
  {
    assert TotalPreorder(CompareInt);
    LexReflexive(CompareInt, a);
    LexReverses(CompareInt, a, b);
    if Lex(CompareInt, a, b) <= 0 && Lex(CompareInt, b, c) <= 0 {
      LexTransitive(CompareInt, a, b, c);
    }
  }

  lemma RanksAreOrdered(a: Rank, b: Rank, c: Rank)
    ensures CompareRanks(a, a) == 0
    ensures CompareRanks(a, b) <= 0 <==> CompareRanks(b, a) >= 0
    ensures CompareRanks(a, b) <= 0 && CompareRanks(b, c) <= 0 ==> CompareRanks(a, c) <= 0
  {
    if a.Ranked? {
      CoresAreOrdered(a.core, a.core, a.core);
      PrereleasesAreOrdered(a.prerelease, a.prerelease, a.prerelease);
    }
    if a.Ranked? && b.Ranked? {
      CoresAreOrdered(a.core, b.core, a.core);
      CoresAreOrdered(b.core, a.core, b.core);
      PrereleasesAreOrdered(a.prerelease, b.prerelease, a.prerelease);
      if c.Ranked? {
        CoresAreOrdered(a.core, b.core, c.core);
        CoresAreOrdered(c.core, a.core, b.core);
        CoresAreOrdered(b.core, c.core, a.core);
        CoresAreOrdered(c.core, b.core, a.core);
        PrereleasesAreOrdered(a.prerelease, b.prerelease, c.prerelease);
      }
    }
  }

  /** CompareVersions is a total preorder. It is not a total order: see BuildMetadataTies. */
  lemma CompareVersionsIsPreorder(a: string, b: string, c: string)
    ensures CompareVersions(a, a) == 0
    ensures CompareVersions(a, b) <= 0 <==> CompareVersions(b, a) >= 0
    ensures CompareVersions(a, b) <= 0 && CompareVersions(b, c) <= 0 ==> CompareVersions(a, c) <= 0
  {
    RanksAreOrdered(RankOf(a), RankOf(b), RankOf(c));
  }

  lemma {:induction false} CutAtJoins(s: string, t: string, c: char)
    requires c !in s
    ensures CutAt(s + [c] + t, c) == (s, Some(t))
  {
    var whole := s + [c] + t;
    if |s| == 0 {
      assert whole[1..] == t;
    } else {
      assert s[0] in s && whole[1..] == s[1..] + [c] + t;
      CutAtJoins(s[1..], t, c);
      assert s == [s[0]] + s[1..];
    }
  }

  /** Build metadata: identifiers separated by dots. */
  predicate IsBuildMetadata(s: string) {
    forall part | part in SplitDots(s) :: IsIdentifier(part)
  }

  /** Versions that differ only in valid build metadata tie, so a limit may keep either. */
  lemma BuildMetadataTies(version: string, build1: string, build2: string)
    requires '+' !in version && IsBuildMetadata(build1) && IsBuildMetadata(build2)
    ensures CompareVersions(version + "+" + build1, version + "+" + build2) == 0
  {
    CutAtJoins(version, build1, '+');
    CutAtJoins(version, build2, '+');
    assert RankOf(version + "+" + build1) == RankOf(version + "+" + build2);
    CompareVersionsIsPreorder(version + "+" + build1, version + "+" + build1, version + "+" + build1);
  }

  /** A prerelease comes before the release it announces. */
  lemma PrereleaseIsOlder(version: string, prerelease: string)
    requires '+' !in version && '-' !in version && '+' !in prerelease && RankOf(version).Ranked?
    requires PrereleaseOf(SplitDots(prerelease)).Some?
    ensures CompareVersions(version + "-" + prerelease, version) < 0
  {
    var whole := version + "-" + prerelease;
    NoCut(version, '+');
    NoCut(version, '-');
    NoCut(whole, '+');
    CutAtJoins(version, prerelease, '-');
    var core := CoreOf(SplitDots(version)).value;
    assert RankOf(version) == Ranked(core, []);
    var identifiers := PrereleaseOf(SplitDots(prerelease)).value;
    assert RankOf(whole) == Ranked(core, identifiers);
    PrereleaseIsNotEmpty(SplitDots(prerelease));
    CoresAreOrdered(core, core, core);
  }

  lemma PrereleaseIsNotEmpty(parts: seq<string>)
    requires |parts| > 0 && PrereleaseOf(parts).Some?
    ensures |PrereleaseOf(parts).value| > 0
  {
  }

  lemma {:induction false} NoCut(s: string, c: char)
    requires c !in s
    ensures CutAt(s, c) == (s, None)
  {
    if |s| > 0 {
      assert s[0] in s;
      NoCut(s[1..], c);
      assert s == [s[0]] + s[1..];
    }
  }

  lemma {:induction false} OnePart(s: string)
    requires forall c | c in s :: IsIdentifierChar(c)
    ensures SplitDots(s) == [s]
  {
    if |s| > 0 {
      assert s[0] in s;
      OnePart(s[1..]);
      assert s == [s[0]] + s[1..];
    }
  }
}
