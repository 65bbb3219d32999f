/** Package identity, records, remembered files, and the status a record deserves. */
module Inventory {
  import opened Text

  /** Identity as Inspect reports it: ID and platform are already lower case. */
  datatype Key = Key(id: string, version: string, platform: string)

  /** SHA-256 and size; equal hashes mean equal bytes, hence equal sizes. */
  datatype Digest = Digest(sha: string, size: nat)

  datatype Status = Stored | Pending | Missing | Conflict | Deleted

  datatype Record = Record(key: Key, digest: Digest, filename: string, status: Status)

  /** The bytes of a file, as far as Inspect tells: rejected, or a package with these exact bytes. */
  datatype Contents = Invalid | Valid(key: Key, digest: Digest)

  /** A regular VSIX file of the directory, or a remembered one: what the files table says of it. */
  datatype File = File(size: nat, mtime: int, contents: Contents)

  type Directory = map<string, File>
  type Packages = map<Key, Record>

  /** The mtime of a file remembered without being looked at. */
  const UNKNOWN_TIME: int := -1

  function KeyText(k: Key): string { k.id + "@" + k.version + "@" + k.platform }

  function CanonicalName(k: Key): string { k.id + "-" + k.version + "-" + k.platform + ".vsix" }

  predicate PlainKey(k: Key) { '@' !in k.id && '@' !in k.version && '@' !in k.platform }

  lemma SplitAtIsUnique(a: string, b: string, c: string, d: string, sep: char)
    requires sep !in a && sep !in c
    requires a + [sep] + b == c + [sep] + d
    ensures a == c && b == d
  {
    var x, y := a + [sep] + b, c + [sep] + d;
    assert x[|a|] == sep && forall i | 0 <= i < |a| :: x[i] == a[i] && a[i] in a;
    assert y[|c|] == sep && forall i | 0 <= i < |c| :: y[i] == c[i] && c[i] in c;
    assert x[..|a|] == a && y[..|c|] == c;
    assert x[|a| + 1..] == b && y[|c| + 1..] == d;
  }

  /** No component of a valid identity contains '@', so the key text names one identity. */
  lemma KeyTextIsInjective(j: Key, k: Key)
    requires PlainKey(j) && PlainKey(k)
    requires KeyText(j) == KeyText(k)
    ensures j == k
  {
    assert KeyText(j) == j.id + "@" + (j.version + "@" + j.platform);
    assert KeyText(k) == k.id + "@" + (k.version + "@" + k.platform);
    SplitAtIsUnique(j.id, j.version + "@" + j.platform, k.id, k.version + "@" + k.platform, '@');
    SplitAtIsUnique(j.version, j.platform, k.version, k.platform, '@');
  }

  /** Versions and platforms may contain '-', so two identities can share a canonical file name. */
  lemma CanonicalNamesCollide(id: string, version: string, middle: string, platform: string)
    ensures CanonicalName(Key(id, version + "-" + middle, platform)) ==
        CanonicalName(Key(id, version, middle + "-" + platform))
    ensures Key(id, version + "-" + middle, platform) != Key(id, version, middle + "-" + platform)
  {
    var a, b := Key(id, version + "-" + middle, platform), Key(id, version, middle + "-" + platform);
    assert CanonicalName(a) == id + "-" + version + "-" + middle + "-" + platform + ".vsix";
    assert CanonicalName(b) == id + "-" + version + "-" + middle + "-" + platform + ".vsix";
    assert |a.version| == |b.version| + 1 + |middle|;
  }

  lemma SplitAtLastIsUnique(a: string, b: string, c: string, d: string, sep: char)
    requires sep !in b && sep !in d
    requires a + [sep] + b == c + [sep] + d
    ensures a == c && b == d
  {
    var x, y := a + [sep] + b, c + [sep] + d;
    assert x[|a|] == sep && forall i | |a| < i < |x| :: x[i] == b[i - |a| - 1] && b[i - |a| - 1] in b;
    assert y[|c|] == sep && forall i | |c| < i < |y| :: y[i] == d[i - |c| - 1] && d[i - |c| - 1] in d;
    assert x[..|a|] == a && y[..|c|] == c;
    assert x[|a| + 1..] == b && y[|c| + 1..] == d;
  }

  /** Without '-' in version and platform, canonical names keep identities apart. */
  lemma CanonicalNamesApart(j: Key, k: Key)
    requires '-' !in j.version && '-' !in j.platform && '-' !in k.version && '-' !in k.platform
    requires CanonicalName(j) == CanonicalName(k)
    ensures j == k
  {
    var x, y := j.id + "-" + j.version + "-" + j.platform, k.id + "-" + k.version + "-" + k.platform;
    assert CanonicalName(j)[..|x|] == x && CanonicalName(k)[..|y|] == y;
    SplitAtLastIsUnique(j.id + "-" + j.version, j.platform, k.id + "-" + k.version, k.platform, '-');
    SplitAtLastIsUnique(j.id, j.version, k.id, k.version, '-');
  }

  predicate Holds(f: File, k: Key) { f.contents.Valid? && f.contents.key == k }

  /** The files of a directory that hold a key, with the bytes of each. */
  function Copies(dir: Directory, k: Key): map<string, Digest> {
    map n | n in dir && Holds(dir[n], k) :: dir[n].contents.digest
  }

  predicate AllMatch(copies: map<string, Digest>, digest: Digest) {
    forall n | n in copies :: copies[n] == digest
  }

  /** The status of a record follows from the files holding its identity. */
  function Settled(p: Record, copies: map<string, Digest>): Record {
    if copies.Keys == {} then
      p.(status := Missing)
    else if !AllMatch(copies, p.digest) then
      p.(status := Conflict)
    else
      p.(status := Stored, filename := if p.filename in copies then p.filename else Least(copies.Keys))
  }

  /** Deleted records keep their status whatever the directory holds. */
  function SettledRecord(p: Record, dir: Directory): Record {
    if p.status.Deleted? then p else Settled(p, Copies(dir, p.key))
  }

  /** A record already is what the files say: nothing would change if it were settled. */
  predicate Agrees(p: Record, dir: Directory) {
    if p.status.Deleted? then
      forall n | n in Copies(dir, p.key) :: Copies(dir, p.key)[n] != p.digest
    else
      Settled(p, Copies(dir, p.key)) == p
  }

  /**
   What a record says after settling: missing without files of its identity, in conflict if one of them differs, and
   else stored under its own file name if that is one of them, or under the first of them by name.
   */
  lemma SettledMeans(p: Record, dir: Directory)
    requires !p.status.Deleted?
    ensures var r := SettledRecord(p, dir);
      var held := set n | n in dir && dir[n].contents.Valid? && dir[n].contents.key == p.key;
      && r.key == p.key && r.digest == p.digest
      && (r.status.Missing? <==> held == {})
      && (r.status.Conflict? <==> exists n | n in held :: dir[n].contents.digest != p.digest)
      && (r.status.Stored? <==> held != {} && forall n | n in held :: dir[n].contents.digest == p.digest)
      && (p.filename in held || !r.status.Stored? ==> r.filename == p.filename)
      && (r.status.Stored? && p.filename !in held ==>
            r.filename in held && forall n | n in held && n != r.filename :: TextBefore(r.filename, n))
  {
    hide TextBefore;
    var copies := Copies(dir, p.key);
    var held := set n | n in dir && dir[n].contents.Valid? && dir[n].contents.key == p.key;
    assert copies.Keys == held;
    if copies.Keys != {} {
      LeastMeans(copies.Keys, Least(copies.Keys));
    }
  }

  lemma SettledIsIdempotent(p: Record, copies: map<string, Digest>)
    ensures Settled(Settled(p, copies), copies) == Settled(p, copies)
  {
  }

  /** A stored record that agrees with the files names one of them, and all of them match it. */
  lemma StoredNamesACopy(p: Record, dir: Directory)
    requires p.status.Stored? && Agrees(p, dir)
    ensures p.filename in Copies(dir, p.key) && AllMatch(Copies(dir, p.key), p.digest)
    ensures p.filename in dir && dir[p.filename].contents == Valid(p.key, p.digest)
  {
    var copies := Copies(dir, p.key);
    assert Settled(p, copies) == p;
    assert copies[p.filename] == p.digest;
  }

  /** Exact bytes of a package recorded as deleted. */
  predicate Condemned(packages: Packages, c: Contents) {
    c.Valid? && c.key in packages && packages[c.key].status.Deleted? && packages[c.key].digest == c.digest
  }

  /** The walk accepts a file unopened: unchanged, or adopted and still of the recorded size. */
  predicate Accepts(row: File, f: File) {
    row.size == f.size && (row.mtime == f.mtime || row.mtime == UNKNOWN_TIME)
  }

  /** A package first seen in file n is pending until every file with its identity is known. */
  function Enter(packages: Packages, disk: Directory, n: string): Packages {
    if n in disk && disk[n].contents.Valid? && disk[n].contents.key !in packages then
      var c := disk[n].contents;
      packages[c.key := Record(c.key, c.digest, n, Pending)]
    else
      packages
  }

  function EnterAll(packages: Packages, disk: Directory, names: seq<string>): Packages {
    if |names| == 0 then packages
    else Enter(EnterAll(packages, disk, names[..|names| - 1]), disk, names[|names| - 1])
  }

  predicate Known(packages: Packages, disk: Directory, names: seq<string>) {
    forall n | n in names :: n in disk && disk[n].contents.Valid? ==> disk[n].contents.key in packages
  }

  lemma {:induction false} EnterAllJoins(packages: Packages, disk: Directory, a: seq<string>, b: seq<string>)
    ensures EnterAll(packages, disk, a + b) == EnterAll(EnterAll(packages, disk, a), disk, b)
  {
    if |b| == 0 {
      assert a + b == a;
    } else {
      var c := a + b;
      assert c[..|c| - 1] == a + b[..|b| - 1] && c[|c| - 1] == b[|b| - 1];
      EnterAllJoins(packages, disk, a, b[..|b| - 1]);
    }
  }

  /** The i-th name is the first of these files that holds the key. */
  ghost predicate IsFirst(disk: Directory, names: seq<string>, i: int, k: Key) {
    && 0 <= i < |names| && names[i] in disk && Holds(disk[names[i]], k)
    && forall j | 0 <= j < i :: !(names[j] in disk && Holds(disk[names[j]], k))
  }

  /** Known records stay; a new package is pending under the first file seen with it, with the bytes of that file. */
  lemma {:induction false} EnterAllKeeps(packages: Packages, disk: Directory, names: seq<string>)
    ensures packages.Keys <= EnterAll(packages, disk, names).Keys
    ensures forall k | k in packages :: EnterAll(packages, disk, names)[k] == packages[k]
    ensures Known(EnterAll(packages, disk, names), disk, names)
    ensures forall k | k in EnterAll(packages, disk, names) && k !in packages ::
              var p := EnterAll(packages, disk, names)[k];
              p.key == k && p.status == Pending && p.filename in names && p.filename in disk
              && disk[p.filename].contents == Valid(k, p.digest)
              && exists i :: IsFirst(disk, names, i, k) && names[i] == p.filename
  {
    if |names| > 0 {
      var front, n := names[..|names| - 1], names[|names| - 1];
      EnterAllKeeps(packages, disk, front);
      assert names == front + [n];
      var before, after := EnterAll(packages, disk, front), EnterAll(packages, disk, names);
      forall k | k in after && k !in packages
        ensures exists i :: IsFirst(disk, names, i, k) && names[i] == after[k].filename
      {
        if k in before {
          var i :| IsFirst(disk, front, i, k) && front[i] == before[k].filename;
          assert IsFirst(disk, names, i, k);
        } else {
          NotKnownMeansNotSeen(before, disk, front, k);
          assert IsFirst(disk, names, |front|, k);
        }
      }
    }
  }

  lemma NotKnownMeansNotSeen(packages: Packages, disk: Directory, names: seq<string>, k: Key)
    requires Known(packages, disk, names) && k !in packages
    ensures forall j | 0 <= j < |names| :: !(names[j] in disk && Holds(disk[names[j]], k))
  {
  }

  lemma {:induction false} EnterAllKnown(packages: Packages, disk: Directory, names: seq<string>)
    requires Known(packages, disk, names)
    ensures EnterAll(packages, disk, names) == packages
  {
    if |names| > 0 {
      assert names[|names| - 1] in names;
      EnterAllKnown(packages, disk, names[..|names| - 1]);
    }
  }

  /** Files whose package is known already add nothing, so they may be skipped. */
  lemma {:induction false} EnterAllSkips(packages: Packages, disk: Directory, names: seq<string>, c: set<string>)
    requires forall n | n in names && n !in c :: n in disk && disk[n].contents.Valid? ==>
        disk[n].contents.key in packages
    ensures EnterAll(packages, disk, Filter(names, c)) == EnterAll(packages, disk, names)
  {
    if |names| > 0 {
      var front, n := names[..|names| - 1], names[|names| - 1];
      assert n in names;
      EnterAllSkips(packages, disk, front, c);
      EnterAllKeeps(packages, disk, front);
    }
  }

  /** Seeing the same files again, after others, enters nothing new. */
  lemma EnterAllAgain(packages: Packages, disk: Directory, before: seq<string>, batch: seq<string>, after: seq<string>)
    requires Known(packages, disk, before)
    ensures EnterAll(EnterAll(packages, disk, batch), disk, before + batch + after) ==
        EnterAll(packages, disk, before + batch + after)
  {
    var entered := EnterAll(packages, disk, batch);
    EnterAllKeeps(packages, disk, batch);
    EnterAllJoins(packages, disk, before + batch, after);
    EnterAllJoins(packages, disk, before, batch);
    EnterAllKnown(packages, disk, before);
    EnterAllJoins(entered, disk, before + batch, after);
    EnterAllKnown(entered, disk, before + batch);
  }

  // The declarative result of a scan, free of the files table, the queue and the order of batches.

  /** Every record after a scan: known packages and those first seen in listing order, settled from the directory. */
  function ScannedRecords(packages: Packages, disk: Directory, listing: seq<string>): Packages {
    var entered := EnterAll(packages, disk, listing);
    map k | k in entered :: SettledRecord(entered[k], disk)
  }

  /** The directory after a scan: leftovers of deleted packages are gone. */
  function ScannedDirectory(packages: Packages, disk: Directory): Directory {
    map n | n in disk && !Condemned(packages, disk[n].contents) :: disk[n]
  }
}
