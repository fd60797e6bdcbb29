/** Backup artifacts: the checksum file and the verification of a directory (backup-artifact.ts), and
    publication that a crash may stop anywhere: rename within a mount, and copies to an object
    store with a final marker (backup-storage.service.ts). */
module Artifact {
  import opened Options
  import opened JsText

  const DUMP := "database.dump"
  const UPLOADS := "uploads.tar.gz"
  const MANIFEST := "manifest.json"
  const CHECKSUMS := "SHA256SUMS"

  const REQUIRED_FILES := [DUMP, UPLOADS, MANIFEST]
  const ARTIFACT_FILES := [DUMP, UPLOADS, MANIFEST, CHECKSUMS]

  // -------------------------------------------------------------- the checksum file

  predicate IsHexDigit(c: char) { '0' <= c <= '9' || 'a' <= c <= 'f' }

  predicate IsDigest(s: string) { |s| == 64 && forall i | 0 <= i < 64 :: IsHexDigit(s[i]) }

  /** One line: 64 hexadecimal digits, two spaces, one of the three names. */
  function ParseLine(line: string): (entry: Option<(string, string)>)
    ensures entry.Some? ==> IsDigest(entry.value.1) && entry.value.0 in REQUIRED_FILES
  {
    if |line| >= 66 && IsDigest(line[..64]) && line[64..66] == "  " && line[66..] in REQUIRED_FILES
    then Some((line[66..], line[..64])) else None
  }

  /** `split("\n")`. */
  function Lines(s: string): (lines: seq<string>)
    ensures lines != []
  {
    if s == [] then [""]
    else
      var rest := Lines(s[1..]);
      if s[0] == '\n' then [""] + rest else [[s[0]] + rest[0]] + rest[1..]
  }

  /** The entries of the first n lines, unless a line is malformed or repeats a name. */
  function Entries(lines: seq<string>, n: nat): Option<map<string, string>>
    requires n <= |lines|
  {
    if n == 0 then Some(map[])
    else
      var before, entry := Entries(lines, n - 1), ParseLine(TrimEnd(lines[n - 1]));
      if before.None? || entry.None? || entry.value.0 in before.value then None
      else Some(before.value[entry.value.0 := entry.value.1])
  }

  function Parsed(content: string): Option<map<string, string>> {
    var lines := Lines(TrimEnd(content));
    var entries := Entries(lines, |lines|);
    if entries.Some? && |entries.value| == |REQUIRED_FILES| then entries else None
  }

  method ParseChecksums(content: string) returns (result: Option<map<string, string>>)
    ensures result == Parsed(content)
    ensures result.Some? ==> result.value.Keys == {DUMP, UPLOADS, MANIFEST} && forall f | f in result.value :: IsDigest(result.value[f])
  {
    var lines := Lines(TrimEnd(content));
    var found: map<string, string> := map[];
    for i := 0 to |lines|
      invariant Entries(lines, i) == Some(found)
      invariant forall f | f in found :: f in REQUIRED_FILES && IsDigest(found[f])
    {
      var entry := ParseLine(TrimEnd(lines[i]));
      if entry.None? || entry.value.0 in found {
        Failed(lines, i + 1, |lines|);
        return None;
      }
      found := found[entry.value.0 := entry.value.1];
    }
    if |found| != |REQUIRED_FILES| { return None; }
    ThreeNames(found.Keys);
    return Some(found);
  }

  /** `/^([a-f0-9]{64})  (database\.dump|uploads\.tar\.gz|manifest\.json)$/`. */
  lemma ParseLineMeans(line: string, name: string, digest: string)
    ensures ParseLine(line) == Some((name, digest)) <==>
            && line == digest + "  " + name
            && (name == "database.dump" || name == "uploads.tar.gz" || name == "manifest.json")
            && |digest| == 64 && forall c | c in digest :: c in "0123456789abcdef"
  {
    assert IsDigest(digest) <==> |digest| == 64 && forall c | c in digest :: c in "0123456789abcdef" by {
      forall c ensures IsHexDigit(c) <==> c in "0123456789abcdef" { HexDigits(c); }
      hide IsHexDigit;
      if |digest| == 64 && forall c | c in digest :: c in "0123456789abcdef" {
        forall i | 0 <= i < 64 ensures IsHexDigit(digest[i]) { assert digest[i] in digest; }
      }
    }
    hide IsDigest;
    if |line| >= 66 && line[64..66] == "  " { assert line == line[..64] + "  " + line[66..]; }
    if line == digest + "  " + name && |digest| == 64 {
      assert line[..64] == digest && line[64..66] == "  " && line[66..] == name;
    }
  }

  lemma HexDigits(c: char)
    ensures IsHexDigit(c) <==> c in "0123456789abcdef"
  {
  }

  function Unlines(lines: seq<string>): string
    requires lines != []
  {
    if |lines| == 1 then lines[0] else lines[0] + "\n" + Unlines(lines[1..])
  }

  /** Splitting at line feeds: the lines have none, and joined with them they are the text. */
  lemma {:induction false} LinesMean(s: string)
    ensures Unlines(Lines(s)) == s
    ensures forall line | line in Lines(s) :: '\n' !in line
  {
    if s != [] {
      var rest := Lines(s[1..]);
      LinesMean(s[1..]);
      if s[0] == '\n' {
        assert ([""] + rest)[1..] == rest;
      } else {
        assert ([[s[0]] + rest[0]] + rest[1..])[1..] == rest[1..];
        assert rest[0] in rest;
        assert [s[0]] + s[1..] == s;
      }
    }
  }

  lemma {:induction false} Failed(lines: seq<string>, k: nat, n: nat)
    requires k <= n <= |lines| && Entries(lines, k).None?
    ensures Entries(lines, n).None?
  {
    if k < n { Failed(lines, k, n - 1); }
  }

  lemma ThreeNames(names: set<string>)
    requires |names| == 3 && forall f | f in names :: f in REQUIRED_FILES
    ensures names == {DUMP, UPLOADS, MANIFEST}
  {
    var all := {DUMP, UPLOADS, MANIFEST};
    assert |all| <= 3 && names <= all;
    Subset(names, all);
  }

  lemma {:induction false} Subset(a: set<string>, b: set<string>)
    requires a <= b && |b| <= |a|
    ensures a == b
  {
    if a != {} {
      var x :| x in a;
      Subset(a - {x}, b - {x});
    }
  }

  function ChecksumLine(digest: string, name: string): string { digest + "  " + name }

  /** The file that is written: three lines, each ended by a line feed. */
  function ChecksumText(dump: string, uploads: string, manifest: string): string {
    ChecksumLine(dump, DUMP) + "\n" + (ChecksumLine(uploads, UPLOADS) + "\n" + ChecksumLine(manifest, MANIFEST)) + "\n"
  }

  lemma LineParses(digest: string, name: string)
    requires IsDigest(digest) && name in REQUIRED_FILES
    ensures ParseLine(ChecksumLine(digest, name)) == Some((name, digest))
    ensures TrimEnd(ChecksumLine(digest, name)) == ChecksumLine(digest, name)
    ensures forall i | 0 <= i < |ChecksumLine(digest, name)| :: ChecksumLine(digest, name)[i] != '\n'
    ensures var line := ChecksumLine(digest, name); line != [] && !IsSpace(line[|line| - 1])
  {
    var line := ChecksumLine(digest, name);
    assert line[..64] == digest && line[64..66] == "  " && line[66..] == name;
    assert name == DUMP || name == UPLOADS || name == MANIFEST;
    assert line[|line| - 1] == name[|name| - 1];
    assert forall i | 0 <= i < |line| :: line[i] == if i < 64 then digest[i] else if i < 66 then ' ' else name[i - 66];
  }

  lemma {:induction false} FirstLine(line: string, rest: string)
    requires forall i | 0 <= i < |line| :: line[i] != '\n'
    ensures Lines(line + "\n" + rest) == [line] + Lines(rest)
    decreases |line|
  {
    var s := line + "\n" + rest;
    if line == [] {
      assert s == "\n" + rest && s[1..] == rest;
    } else {
      assert s[1..] == line[1..] + "\n" + rest;
      FirstLine(line[1..], rest);
      assert [line[0]] + line[1..] == line;
    }
  }

  lemma {:induction false} LastLine(line: string)
    requires forall i | 0 <= i < |line| :: line[i] != '\n'
    ensures Lines(line) == [line]
    decreases |line|
  {
    if line != [] {
      LastLine(line[1..]);
      assert [line[0]] + line[1..] == line;
    }
  }

  lemma TrimEndOfText(body: string)
    requires body != [] && TrimEnd(body) == body
    ensures TrimEnd(body + "\n") == body
  {
    assert (body + "\n")[..|body|] == body;
  }

  /** The checksum file that is written parses back to the same three digests. */
  lemma ChecksumsRoundTrip(dump: string, uploads: string, manifest: string)
    requires IsDigest(dump) && IsDigest(uploads) && IsDigest(manifest)
    ensures Parsed(ChecksumText(dump, uploads, manifest)) == Some(map[DUMP := dump, UPLOADS := uploads, MANIFEST := manifest])
  {
    hide IsDigest, ParseLine, ChecksumLine, IsSpace;
    var a, b, c := ChecksumLine(dump, DUMP), ChecksumLine(uploads, UPLOADS), ChecksumLine(manifest, MANIFEST);
    LineParses(dump, DUMP);
    LineParses(uploads, UPLOADS);
    LineParses(manifest, MANIFEST);
    var body := a + "\n" + (b + "\n" + c);
    LastCharacter(a + "\n" + (b + "\n"), c);
    assert body == a + "\n" + (b + "\n") + c;
    TrimEndOfText(body);
    FirstLine(a, b + "\n" + c);
    FirstLine(b, c);
    LastLine(c);
    assert Lines(body) == [a, b, c];
    ThreeEntries([a, b, c], dump, uploads, manifest);
    var all := map[DUMP := dump, UPLOADS := uploads, MANIFEST := manifest];
    assert DUMP != UPLOADS && DUMP != MANIFEST && UPLOADS != MANIFEST;
    assert |all| == 3;
    assert Parsed(body + "\n") == Some(all);
  }

  lemma LastCharacter(front: string, line: string)
    requires line != [] && !IsSpace(line[|line| - 1])
    ensures TrimEnd(front + line) == front + line
  {
    assert (front + line)[|front + line| - 1] == line[|line| - 1];
  }

  lemma ThreeEntries(lines: seq<string>, dump: string, uploads: string, manifest: string)
    requires IsDigest(dump) && IsDigest(uploads) && IsDigest(manifest)
    requires lines == [ChecksumLine(dump, DUMP), ChecksumLine(uploads, UPLOADS), ChecksumLine(manifest, MANIFEST)]
    ensures Entries(lines, 3) == Some(map[DUMP := dump, UPLOADS := uploads, MANIFEST := manifest])
  {
    LineParses(dump, DUMP);
    LineParses(uploads, UPLOADS);
    LineParses(manifest, MANIFEST);
    assert Entries(lines, 0) == Some(map[]);
    assert Entries(lines, 1) == Some(map[DUMP := dump]);
    assert Entries(lines, 2) == Some(map[DUMP := dump, UPLOADS := uploads]);
  }

  // ---------------------------------------------------------- verifying a directory

  /** The contents of a directory, by file name. */
  type Directory = map<string, string>

  datatype Entry = Entry(path: string, size: nat, sha256: string)

  datatype Manifest = Manifest(backupId: string, createdAt: string, files: seq<Entry>)

  /** The hash function, and the JSON text of a manifest with its schema. */
  datatype Runtime = Runtime(sha: string -> string, encode: Manifest -> string, decode: string -> Option<Manifest>)

  predicate ValidManifest(m: Manifest) {
    |m.files| == 2 && forall i | 0 <= i < 2 :: m.files[i].path in {DUMP, UPLOADS} && IsDigest(m.files[i].sha256)
  }

  ghost predicate Faithful(rt: Runtime) {
    && (forall content :: IsDigest(rt.sha(content)))
    && (forall m | ValidManifest(m) :: rt.decode(rt.encode(m)) == Some(m))
    && (forall text | rt.decode(text).Some? :: ValidManifest(rt.decode(text).value))
  }

  predicate HasFiles(d: Directory) { forall f | f in ARTIFACT_FILES :: f in d }

  predicate Matches(rt: Runtime, d: Directory, e: Entry) {
    e.path in d && e.size == |d[e.path]| && e.sha256 == rt.sha(d[e.path])
  }

  predicate ChecksumsHold(rt: Runtime, d: Directory)
    requires HasFiles(d)
  {
    var expected := Parsed(d[CHECKSUMS]);
    expected.Some? && forall f | f in REQUIRED_FILES :: f in expected.value && expected.value[f] == rt.sha(d[f])
  }

  predicate ManifestHolds(rt: Runtime, d: Directory)
    requires HasFiles(d)
  {
    var manifest := rt.decode(d[MANIFEST]);
    && manifest.Some?
    && (forall i | 0 <= i < |manifest.value.files| :: Matches(rt, d, manifest.value.files[i]))
    && |set i | 0 <= i < |manifest.value.files| :: manifest.value.files[i].path| == 2
  }

  predicate Verifies(rt: Runtime, d: Directory) {
    HasFiles(d) && ChecksumsHold(rt, d) && ManifestHolds(rt, d)
  }

  method VerifyBackupDirectory(rt: Runtime, d: Directory) returns (accepted: bool)
    ensures accepted <==> Verifies(rt, d)
  {
    for i := 0 to |ARTIFACT_FILES|
      invariant forall k | 0 <= k < i :: ARTIFACT_FILES[k] in d
    {
      if ARTIFACT_FILES[i] !in d { return false; }
    }
    assert HasFiles(d);
    assert CHECKSUMS == ARTIFACT_FILES[3] && MANIFEST == ARTIFACT_FILES[2];
    assert forall k | 0 <= k < |REQUIRED_FILES| :: REQUIRED_FILES[k] == ARTIFACT_FILES[k];
    var expected := ParseChecksums(d[CHECKSUMS]);
    if expected.None? { return false; }
    for i := 0 to |REQUIRED_FILES|
      invariant forall k | 0 <= k < i :: expected.value[REQUIRED_FILES[k]] == rt.sha(d[REQUIRED_FILES[k]])
    {
      if expected.value[REQUIRED_FILES[i]] != rt.sha(d[REQUIRED_FILES[i]]) { return false; }
    }
    var manifest := rt.decode(d[MANIFEST]);
    if manifest.None? { return false; }
    var files := manifest.value.files;
    for i := 0 to |files|
      invariant forall k | 0 <= k < i :: Matches(rt, d, files[k])
    {
      if !(files[i].path in d && files[i].size == |d[files[i].path]| && files[i].sha256 == rt.sha(d[files[i].path])) { return false; }
    }
    var paths := set i | 0 <= i < |files| :: files[i].path;
    return |paths| == 2;
  }

  function Describe(rt: Runtime, path: string, content: string): Entry {
    Entry(path, |content|, rt.sha(content))
  }

  /** The directory that `createLocalBackupArtifact` writes around a dump and an archive. */
  function Created(rt: Runtime, dump: string, uploads: string, backupId: string, createdAt: string): Directory {
    var manifest := rt.encode(Manifest(backupId, createdAt, [Describe(rt, DUMP, dump), Describe(rt, UPLOADS, uploads)]));
    map[DUMP := dump, UPLOADS := uploads, MANIFEST := manifest,
        CHECKSUMS := ChecksumText(rt.sha(dump), rt.sha(uploads), rt.sha(manifest))]
  }

  /** Undamaged, it always passes its own verification, and it holds what it was made from. */
  lemma CreatedVerifies(rt: Runtime, dump: string, uploads: string, backupId: string, createdAt: string)
    requires Faithful(rt)
    ensures var d := Created(rt, dump, uploads, backupId, createdAt);
            && Verifies(rt, d)
            && d.Keys == {"database.dump", "uploads.tar.gz", "manifest.json", "SHA256SUMS"}
            && d["database.dump"] == dump && d["uploads.tar.gz"] == uploads
            && rt.decode(d["manifest.json"]).Some?
            && rt.decode(d["manifest.json"]).value.backupId == backupId && rt.decode(d["manifest.json"]).value.createdAt == createdAt
  {
    hide IsDigest, Parsed, ChecksumText;
    var d := Created(rt, dump, uploads, backupId, createdAt);
    var m := Manifest(backupId, createdAt, [Describe(rt, DUMP, dump), Describe(rt, UPLOADS, uploads)]);
    assert DUMP != UPLOADS && DUMP != MANIFEST && UPLOADS != MANIFEST && |CHECKSUMS| == 10 && |DUMP| == 13 && |UPLOADS| == 14 && |MANIFEST| == 13;
    ChecksumsRoundTrip(rt.sha(dump), rt.sha(uploads), rt.sha(d[MANIFEST]));
    assert ValidManifest(m);
    assert (set i | 0 <= i < |m.files| :: m.files[i].path) == {DUMP, UPLOADS} by { assert m.files[0].path == DUMP && m.files[1].path == UPLOADS; }
    assert ManifestHolds(rt, d);
    assert ChecksumsHold(rt, d);
  }

  /** With the checksum file unchanged, no other hash of any of the three files passes. */
  lemma DamageIsNoticed(rt: Runtime, d: Directory, damaged: Directory, f: string)
    requires Verifies(rt, d) && f in REQUIRED_FILES && HasFiles(damaged) && damaged[CHECKSUMS] == d[CHECKSUMS]
    requires rt.sha(damaged[f]) != rt.sha(d[f])
    ensures !Verifies(rt, damaged)
  {
  }

  lemma VerifiesByFiles(rt: Runtime, d: Directory, copy: Directory)
    requires Faithful(rt) && Verifies(rt, d) && HasFiles(copy) && forall f | f in ARTIFACT_FILES :: copy[f] == d[f]
    ensures Verifies(rt, copy)
  {
    assert d[CHECKSUMS] == copy[CHECKSUMS] && d[MANIFEST] == copy[MANIFEST];
    var files := rt.decode(d[MANIFEST]).value.files;
    forall i | 0 <= i < |files| ensures Matches(rt, copy, files[i]) {
      assert Matches(rt, d, files[i]) && files[i].path in ARTIFACT_FILES;
    }
  }

  // -------------------------------------------------------- publication by renaming

  datatype Place = Partial(name: nat) | Final(name: nat)

  datatype Phase = Writing | Checked

  /** One mount: its directories, and the publication under way for each artifact name. */
  datatype Mount = Mount(dirs: map<Place, Directory>, publishers: map<nat, Phase>)

  datatype MountStep =
    | StartCreate(name: nat)
    | StartCopy(name: nat)
    | WriteFile(name: nat, file: string, content: string)
    | Check(name: nat)
    | Rename(name: nat)
    | Discard(name: nat)
    | Die(name: nat)

  /** One file-system operation; a file may be written torn or wrong, and a step that its code would
      not reach changes nothing. */
  function Operate(rt: Runtime, m: Mount, step: MountStep): Mount {
    var n := step.name;
    match step
    case StartCreate(_) =>
      if n in m.publishers || Partial(n) in m.dirs then m
      else Mount(m.dirs[Partial(n) := map[]], m.publishers[n := Writing])
    case StartCopy(_) =>
      if n in m.publishers || Final(n) in m.dirs then m
      else Mount(m.dirs[Partial(n) := map[]], m.publishers[n := Writing])
    case WriteFile(_, file, content) =>
      if n in m.publishers && m.publishers[n].Writing? && Partial(n) in m.dirs then
        m.(dirs := m.dirs[Partial(n) := m.dirs[Partial(n)][file := content]])
      else m
    case Check(_) =>
      if !(n in m.publishers && m.publishers[n].Writing?) then m
      else if Partial(n) in m.dirs && Verifies(rt, m.dirs[Partial(n)]) then m.(publishers := m.publishers[n := Checked])
      else m.(publishers := m.publishers - {n})
    case Rename(_) =>
      if !(n in m.publishers && m.publishers[n].Checked?) then m
      else if Final(n) in m.dirs || Partial(n) !in m.dirs then m.(publishers := m.publishers - {n})
      else Mount(m.dirs[Final(n) := m.dirs[Partial(n)]] - {Partial(n)}, m.publishers - {n})
    case Discard(_) =>
      if n in m.publishers then Mount(m.dirs - {Partial(n)}, m.publishers - {n}) else m
    case Die(_) => m.(publishers := m.publishers - {n})
  }

  function OperateAll(rt: Runtime, m: Mount, steps: seq<MountStep>): Mount
    decreases |steps|
  {
    if steps == [] then m else OperateAll(rt, Operate(rt, m, steps[0]), steps[1..])
  }

  predicate MountSound(rt: Runtime, m: Mount) {
    && (forall p | p in m.dirs && p.Final? :: Verifies(rt, m.dirs[p]))
    && (forall n | n in m.publishers && m.publishers[n].Checked? :: Partial(n) in m.dirs && Verifies(rt, m.dirs[Partial(n)]))
  }

  lemma OperateKeepsSound(rt: Runtime, m: Mount, step: MountStep)
    requires MountSound(rt, m)
    ensures MountSound(rt, Operate(rt, m, step))
  {
    hide Verifies;
  }

  lemma FinalStays(rt: Runtime, m: Mount, step: MountStep, n: nat)
    requires Final(n) in m.dirs
    ensures Final(n) in Operate(rt, m, step).dirs && Operate(rt, m, step).dirs[Final(n)] == m.dirs[Final(n)]
  {
    hide Verifies;
  }

  lemma SoundMeans(rt: Runtime, m: Mount, n: nat)
    requires MountSound(rt, m) && Final(n) in m.dirs
    ensures HasFiles(m.dirs[Final(n)]) && Verifies(rt, m.dirs[Final(n)])
  {
  }

  /** After any prefix of any interleaving of publications, with crashes and torn writes, every
      directory under a final name has all four files and passes verification, and a directory that
      has its final name keeps its contents. */
  lemma {:induction false} FinalNamesVerify(rt: Runtime, m: Mount, steps: seq<MountStep>)
    requires MountSound(rt, m)
    ensures var after := OperateAll(rt, m, steps);
            && (forall n: nat | Final(n) in after.dirs :: HasFiles(after.dirs[Final(n)]) && Verifies(rt, after.dirs[Final(n)]))
            && (forall n: nat | Final(n) in m.dirs :: Final(n) in after.dirs && after.dirs[Final(n)] == m.dirs[Final(n)])
    decreases |steps|
  {
    hide Operate, Verifies, HasFiles, MountSound;
    if steps != [] {
      var next := Operate(rt, m, steps[0]);
      OperateKeepsSound(rt, m, steps[0]);
      forall n: nat | Final(n) in m.dirs ensures Final(n) in next.dirs && next.dirs[Final(n)] == m.dirs[Final(n)] {
        FinalStays(rt, m, steps[0], n);
      }
      FinalNamesVerify(rt, next, steps[1..]);
    } else {
      forall n: nat | Final(n) in m.dirs ensures HasFiles(m.dirs[Final(n)]) && Verifies(rt, m.dirs[Final(n)]) { SoundMeans(rt, m, n); }
    }
  }

  lemma WriteOne(rt: Runtime, m: Mount, n: nat, file: string, content: string)
    requires n in m.publishers && m.publishers[n].Writing? && Partial(n) in m.dirs
    ensures Operate(rt, m, WriteFile(n, file, content)) == m.(dirs := m.dirs[Partial(n) := m.dirs[Partial(n)][file := content]])
  {
  }

  /** The four files written one after the other, and a start. */
  function Written(rt: Runtime, m: Mount, n: nat, start: MountStep, d: Directory): Mount
    requires d.Keys == {DUMP, UPLOADS, MANIFEST, CHECKSUMS}
  {
    var a := Operate(rt, Operate(rt, m, start), WriteFile(n, DUMP, d[DUMP]));
    var b := Operate(rt, a, WriteFile(n, UPLOADS, d[UPLOADS]));
    Operate(rt, Operate(rt, b, WriteFile(n, MANIFEST, d[MANIFEST])), WriteFile(n, CHECKSUMS, d[CHECKSUMS]))
  }

  lemma WrittenMeans(rt: Runtime, m: Mount, n: nat, start: MountStep, d: Directory)
    requires d.Keys == {DUMP, UPLOADS, MANIFEST, CHECKSUMS} && n !in m.publishers && Final(n) !in m.dirs
    requires start == StartCopy(n) || (start == StartCreate(n) && Partial(n) !in m.dirs)
    ensures Written(rt, m, n, start, d) == Mount(m.dirs[Partial(n) := d], m.publishers[n := Writing])
  {
    var s0 := Mount(m.dirs[Partial(n) := map[]], m.publishers[n := Writing]);
    assert Operate(rt, m, start) == s0;
    hide Operate;
    WriteOne(rt, s0, n, DUMP, d[DUMP]);
    var s1 := Operate(rt, s0, WriteFile(n, DUMP, d[DUMP]));
    WriteOne(rt, s1, n, UPLOADS, d[UPLOADS]);
    var s2 := Operate(rt, s1, WriteFile(n, UPLOADS, d[UPLOADS]));
    WriteOne(rt, s2, n, MANIFEST, d[MANIFEST]);
    var s3 := Operate(rt, s2, WriteFile(n, MANIFEST, d[MANIFEST]));
    WriteOne(rt, s3, n, CHECKSUMS, d[CHECKSUMS]);
    var files := map[DUMP := d[DUMP], UPLOADS := d[UPLOADS], MANIFEST := d[MANIFEST], CHECKSUMS := d[CHECKSUMS]];
    assert files == d;
    assert s1.dirs[Partial(n)] == map[DUMP := d[DUMP]];
    assert Written(rt, m, n, start, d).dirs == m.dirs[Partial(n) := d];
  }

  /** Creating or copying a sound artifact without interruption puts exactly it under its final name, and
      nothing else changes; a stale partial directory does not get in the way of a copy. */
  lemma PublicationSucceeds(rt: Runtime, m: Mount, n: nat, start: MountStep, d: Directory)
    requires d.Keys == {DUMP, UPLOADS, MANIFEST, CHECKSUMS} && Verifies(rt, d)
    requires n !in m.publishers && Final(n) !in m.dirs
    requires start == StartCopy(n) || (start == StartCreate(n) && Partial(n) !in m.dirs)
    ensures var after := Operate(rt, Operate(rt, Written(rt, m, n, start, d), Check(n)), Rename(n));
            after.dirs == m.dirs[Final(n) := d] - {Partial(n)} && after.publishers == m.publishers
  {
    WrittenMeans(rt, m, n, start, d);
    Renamed(rt, m, n, d);
  }

  lemma Renamed(rt: Runtime, m: Mount, n: nat, d: Directory)
    requires Verifies(rt, d) && n !in m.publishers && Final(n) !in m.dirs
    ensures var written := Mount(m.dirs[Partial(n) := d], m.publishers[n := Writing]);
            var after := Operate(rt, Operate(rt, written, Check(n)), Rename(n));
            after.dirs == m.dirs[Final(n) := d] - {Partial(n)} && after.publishers == m.publishers
  {
    hide Operate, Verifies;
    CheckPasses(rt, Mount(m.dirs[Partial(n) := d], m.publishers[n := Writing]), n);
    var checked := Mount(m.dirs[Partial(n) := d], m.publishers[n := Checked]);
    assert m.publishers[n := Writing][n := Checked] == m.publishers[n := Checked];
    RenamePublishes(rt, checked, n);
    assert checked.publishers - {n} == m.publishers;
    assert m.dirs[Partial(n) := d][Final(n) := d] - {Partial(n)} == m.dirs[Final(n) := d] - {Partial(n)};
  }

  lemma CheckPasses(rt: Runtime, m: Mount, n: nat)
    requires n in m.publishers && m.publishers[n].Writing? && Partial(n) in m.dirs && Verifies(rt, m.dirs[Partial(n)])
    ensures Operate(rt, m, Check(n)) == m.(publishers := m.publishers[n := Checked])
  {
    hide Verifies;
  }

  lemma RenamePublishes(rt: Runtime, m: Mount, n: nat)
    requires n in m.publishers && m.publishers[n].Checked? && Partial(n) in m.dirs && Final(n) !in m.dirs
    ensures Operate(rt, m, Rename(n)) == Mount(m.dirs[Final(n) := m.dirs[Partial(n)]] - {Partial(n)}, m.publishers - {n})
  {
  }

  // ------------------------------------------------------ publication to an object store

  const MARKER := "COMPLETE"

  datatype Upload =
    | Uploading(artifact: Directory, done: nat)
    | Copying(artifact: Directory, done: nat)
    | Marked(artifact: Directory)
    | Failing(artifact: Directory)

  datatype Bucket = Bucket(objects: map<(Place, string), string>, publishers: map<nat, Upload>)

  datatype BucketStep =
    | Begin(name: nat, artifact: Directory, deleted: bool)
    | UploadNext(name: nat)
    | CopyNext(name: nat)
    | Mark(name: nat, checksum: string)
    | CleanUp(name: nat)
    | FailPartial(name: nat, deleted: bool)
    | FailFinal(name: nat, deleted: bool)
    | Vanish(name: nat)

  /** Deleting everything under a prefix, as one bulk request. */
  function WithoutPrefix(objects: map<(Place, string), string>, prefix: Place): map<(Place, string), string> {
    map k | k in objects && k.0 != prefix :: objects[k]
  }

  /** One request of `publish`.  After an error it asks for both prefixes to be deleted, one after the
      other, and goes on even if a deletion fails; if the artifact exists, for the partial one only.  A step that its code would not reach changes nothing. */
  function Send(rt: Runtime, b: Bucket, step: BucketStep): Bucket {
    var n := step.name;
    match step
    case Begin(_, artifact, deleted) =>
      if n in b.publishers || !Verifies(rt, artifact) then b
      else if (Final(n), MARKER) in b.objects then b.(objects := if deleted then WithoutPrefix(b.objects, Partial(n)) else b.objects)
      else b.(publishers := b.publishers[n := Uploading(artifact, 0)])
    case UploadNext(_) =>
      if !(n in b.publishers && b.publishers[n].Uploading? && b.publishers[n].done < 4) then b
      else
        var a, k := b.publishers[n].artifact, b.publishers[n].done;
        if ARTIFACT_FILES[k] !in a then b
        else
          Bucket(b.objects[(Partial(n), ARTIFACT_FILES[k]) := a[ARTIFACT_FILES[k]]],
                 b.publishers[n := if k == 3 then Copying(a, 0) else Uploading(a, k + 1)])
    case CopyNext(_) =>
      if !(n in b.publishers && b.publishers[n].Copying? && b.publishers[n].done < 4) then b
      else
        var a, k := b.publishers[n].artifact, b.publishers[n].done;
        if (Partial(n), ARTIFACT_FILES[k]) !in b.objects then b
        else
          Bucket(b.objects[(Final(n), ARTIFACT_FILES[k]) := b.objects[(Partial(n), ARTIFACT_FILES[k])]],
                 b.publishers[n := Copying(a, k + 1)])
    case Mark(_, checksum) =>
      if !(n in b.publishers && b.publishers[n].Copying? && b.publishers[n].done == 4) then b
      else Bucket(b.objects[(Final(n), MARKER) := checksum], b.publishers[n := Marked(b.publishers[n].artifact)])
    case CleanUp(_) =>
      if n in b.publishers && b.publishers[n].Marked? then Bucket(WithoutPrefix(b.objects, Partial(n)), b.publishers - {n}) else b
    case FailPartial(_, deleted) =>
      if n !in b.publishers || b.publishers[n].Failing? then b
      else
        Bucket(if deleted then WithoutPrefix(b.objects, Partial(n)) else b.objects,
               b.publishers[n := Failing(b.publishers[n].artifact)])
    case FailFinal(_, deleted) =>
      if n in b.publishers && b.publishers[n].Failing? then
        Bucket(if deleted then WithoutPrefix(b.objects, Final(n)) else b.objects, b.publishers - {n})
      else b
    case Vanish(_) => b.(publishers := b.publishers - {n})
  }

  function SendAll(rt: Runtime, b: Bucket, steps: seq<BucketStep>): Bucket
    decreases |steps|
  {
    if steps == [] then b else SendAll(rt, Send(rt, b, steps[0]), steps[1..])
  }

  /** The first k files of the artifact lie under this prefix. */
  predicate Stored(b: Bucket, prefix: Place, artifact: Directory, k: nat)
    requires k <= 4
  {
    forall i | 0 <= i < k :: ARTIFACT_FILES[i] in artifact && (prefix, ARTIFACT_FILES[i]) in b.objects
                              && b.objects[(prefix, ARTIFACT_FILES[i])] == artifact[ARTIFACT_FILES[i]]
  }

  predicate UploadSound(rt: Runtime, b: Bucket, n: nat, u: Upload) {
    && Verifies(rt, u.artifact)
    && (u.Uploading? ==> u.done < 4 && Stored(b, Partial(n), u.artifact, u.done))
    && (u.Copying? ==> u.done <= 4 && Stored(b, Partial(n), u.artifact, 4) && Stored(b, Final(n), u.artifact, u.done))
    && (u.Uploading? || u.Copying? ==> (Final(n), MARKER) !in b.objects)
  }

  /** The four files under a final prefix, as the directory that a download makes of them. */
  function Downloaded(b: Bucket, n: nat): Directory {
    map f | f in ARTIFACT_FILES && (Final(n), f) in b.objects :: b.objects[(Final(n), f)]
  }

  predicate Complete(rt: Runtime, b: Bucket, n: nat) {
    (Final(n), MARKER) in b.objects ==> HasFiles(Downloaded(b, n)) && Verifies(rt, Downloaded(b, n))
  }

  ghost predicate BucketSound(rt: Runtime, b: Bucket) {
    && (forall n | n in b.publishers :: UploadSound(rt, b, n, b.publishers[n]))
    && (forall n: nat :: Complete(rt, b, n))
  }

  /** A request touches only the prefixes of its own artifact. */
  lemma OtherNamesUntouched(rt: Runtime, b: Bucket, step: BucketStep, p: Place, f: string)
    requires p.name != step.name
    ensures var c := Send(rt, b, step);
            && ((p, f) in c.objects <==> (p, f) in b.objects)
            && ((p, f) in b.objects ==> c.objects[(p, f)] == b.objects[(p, f)])
            && (p.name in c.publishers <==> p.name in b.publishers)
            && (p.name in b.publishers ==> c.publishers[p.name] == b.publishers[p.name])
  {
    hide Verifies;
  }

  lemma OthersStaySound(rt: Runtime, b: Bucket, step: BucketStep, n: nat)
    requires step.name != n && n in b.publishers && UploadSound(rt, b, n, b.publishers[n])
    ensures n in Send(rt, b, step).publishers && UploadSound(rt, Send(rt, b, step), n, b.publishers[n])
    ensures Send(rt, b, step).publishers[n] == b.publishers[n]
  {
    hide Verifies, Send;
    var c := Send(rt, b, step);
    forall p: Place, f | p.name == n
      ensures ((p, f) in c.objects <==> (p, f) in b.objects) && ((p, f) in b.objects ==> c.objects[(p, f)] == b.objects[(p, f)])
    {
      OtherNamesUntouched(rt, b, step, p, f);
    }
    OtherNamesUntouched(rt, b, step, Partial(n), "");
  }

  lemma OwnUploadStep(rt: Runtime, b: Bucket, step: BucketStep)
    requires step.UploadNext? && step.name in b.publishers && UploadSound(rt, b, step.name, b.publishers[step.name])
    ensures step.name in Send(rt, b, step).publishers
    ensures UploadSound(rt, Send(rt, b, step), step.name, Send(rt, b, step).publishers[step.name])
  {
    hide Verifies;
  }

  lemma OwnCopyStep(rt: Runtime, b: Bucket, step: BucketStep)
    requires step.CopyNext? && step.name in b.publishers && UploadSound(rt, b, step.name, b.publishers[step.name])
    ensures step.name in Send(rt, b, step).publishers
    ensures UploadSound(rt, Send(rt, b, step), step.name, Send(rt, b, step).publishers[step.name])
  {
    hide Verifies;
    MarkerIsNoFile();
  }

  lemma MarkerIsNoFile()
    ensures forall i | 0 <= i < 4 :: ARTIFACT_FILES[i] != MARKER
  {
  }

  lemma UploadSoundStep(rt: Runtime, b: Bucket, step: BucketStep, n: nat)
    requires BucketSound(rt, b) && n in Send(rt, b, step).publishers
    ensures UploadSound(rt, Send(rt, b, step), n, Send(rt, b, step).publishers[n])
  {
    hide Verifies;
    if n in b.publishers { assert UploadSound(rt, b, n, b.publishers[n]); }
    if step.name != n {
      OtherNamesUntouched(rt, b, step, Partial(n), "");
      OthersStaySound(rt, b, step, n);
    } else if step.UploadNext? {
      OwnUploadStep(rt, b, step);
    } else if step.CopyNext? {
      OwnCopyStep(rt, b, step);
    }
  }

  lemma DownloadUntouched(rt: Runtime, b: Bucket, step: BucketStep, n: nat)
    requires step.name != n
    ensures Downloaded(Send(rt, b, step), n) == Downloaded(b, n)
    ensures (Final(n), MARKER) in Send(rt, b, step).objects <==> (Final(n), MARKER) in b.objects
  {
    hide Send;
    forall f ensures (Final(n), f) in Send(rt, b, step).objects <==> (Final(n), f) in b.objects { OtherNamesUntouched(rt, b, step, Final(n), f); }
    forall f | (Final(n), f) in b.objects ensures Send(rt, b, step).objects[(Final(n), f)] == b.objects[(Final(n), f)] {
      OtherNamesUntouched(rt, b, step, Final(n), f);
    }
  }

  /** The marker is only written over four full copies. */
  lemma MarkStep(rt: Runtime, b: Bucket, n: nat, checksum: string)
    requires Faithful(rt) && n in b.publishers && UploadSound(rt, b, n, b.publishers[n])
    requires b.publishers[n].Copying? && b.publishers[n].done == 4
    ensures Complete(rt, Send(rt, b, Mark(n, checksum)), n)
  {
    hide Verifies;
    var a, c := b.publishers[n].artifact, Send(rt, b, Mark(n, checksum));
    MarkerIsNoFile();
    forall f | f in ARTIFACT_FILES ensures f in Downloaded(c, n) && f in a && Downloaded(c, n)[f] == a[f] {
      var i :| 0 <= i < 4 && ARTIFACT_FILES[i] == f;
    }
    VerifiesByFiles(rt, a, Downloaded(c, n));
  }

  lemma CompleteStep(rt: Runtime, b: Bucket, step: BucketStep, n: nat)
    requires Faithful(rt) && BucketSound(rt, b)
    ensures Complete(rt, Send(rt, b, step), n)
  {
    hide Verifies;
    assert Complete(rt, b, n);
    if step.name != n {
      DownloadUntouched(rt, b, step, n);
    } else {
      if n in b.publishers { assert UploadSound(rt, b, n, b.publishers[n]); }
      if step.Mark? && n in b.publishers && b.publishers[n].Copying? && b.publishers[n].done == 4 {
        MarkStep(rt, b, n, step.checksum);
      } else {
        OwnOtherStep(rt, b, step);
      }
    }
  }

  /** Its own other requests leave a marked prefix alone, or delete it with its marker. */
  lemma OwnOtherStep(rt: Runtime, b: Bucket, step: BucketStep)
    requires step.name in b.publishers ==> UploadSound(rt, b, step.name, b.publishers[step.name])
    requires !(step.Mark? && step.name in b.publishers && b.publishers[step.name].Copying? && b.publishers[step.name].done == 4)
    ensures var c, n := Send(rt, b, step), step.name;
            (Final(n), MARKER) in c.objects ==> (Final(n), MARKER) in b.objects && Downloaded(c, n) == Downloaded(b, n)
  {
    hide Verifies;
    MarkerIsNoFile();
  }

  /** After any prefix of any interleaving of uploads, failures and crashes, a prefix with the marker
      holds four full copies that pass verification when downloaded. */
  lemma {:induction false} MarkerMeansComplete(rt: Runtime, b: Bucket, steps: seq<BucketStep>)
    requires Faithful(rt) && BucketSound(rt, b)
    ensures BucketSound(rt, SendAll(rt, b, steps))
    ensures var after := SendAll(rt, b, steps);
            forall n: nat | (Final(n), MARKER) in after.objects :: HasFiles(Downloaded(after, n)) && Verifies(rt, Downloaded(after, n))
    decreases |steps|
  {
    hide Send;
    if steps != [] {
      var c := Send(rt, b, steps[0]);
      forall n | n in c.publishers ensures UploadSound(rt, c, n, c.publishers[n]) { UploadSoundStep(rt, b, steps[0], n); }
      forall n: nat ensures Complete(rt, c, n) { CompleteStep(rt, b, steps[0], n); }
      MarkerMeansComplete(rt, c, steps[1..]);
    } else {
      forall n: nat | (Final(n), MARKER) in b.objects ensures HasFiles(Downloaded(b, n)) && Verifies(rt, Downloaded(b, n)) {
        assert Complete(rt, b, n);
      }
    }
  }

  // ----------------------------------------------- and what it achieves undisturbed

  type Objects = map<(Place, string), string>

  function WithFile(objects: Objects, prefix: Place, a: Directory, k: nat): Objects
    requires k < 4 && ARTIFACT_FILES[k] in a
  {
    objects[(prefix, ARTIFACT_FILES[k]) := a[ARTIFACT_FILES[k]]]
  }

  /** The first k files of the artifact added under a prefix. */
  function WithFiles(objects: Objects, prefix: Place, a: Directory, k: nat): Objects
    requires k <= 4 && forall i | 0 <= i < k :: ARTIFACT_FILES[i] in a
  {
    if k == 0 then objects else WithFile(WithFiles(objects, prefix, a, k - 1), prefix, a, k - 1)
  }

  lemma {:induction false} WithFilesMeans(objects: Objects, prefix: Place, a: Directory, k: nat)
    requires k <= 4 && forall i | 0 <= i < k :: ARTIFACT_FILES[i] in a
    ensures var after := WithFiles(objects, prefix, a, k);
            && (forall i | 0 <= i < k :: (prefix, ARTIFACT_FILES[i]) in after && after[(prefix, ARTIFACT_FILES[i])] == a[ARTIFACT_FILES[i]])
            && (forall key: (Place, string) | key.0 != prefix :: (key in after <==> key in objects) && (key in objects ==> after[key] == objects[key]))
            && (forall key | key in after :: key in objects || (key.0 == prefix && key.1 in ARTIFACT_FILES))
  {
    if k > 0 {
      WithFilesMeans(objects, prefix, a, k - 1);
      FilesDiffer();
    }
  }

  lemma FilesDiffer()
    ensures forall i, j | 0 <= i < j < 4 :: ARTIFACT_FILES[i] != ARTIFACT_FILES[j]
  {
    assert DUMP[0] == 'd' && UPLOADS[0] == 'u' && MANIFEST[0] == 'm' && CHECKSUMS[0] == 'S';
  }

  function Repeat(rt: Runtime, b: Bucket, step: BucketStep, k: nat): Bucket {
    if k == 0 then b else Send(rt, Repeat(rt, b, step, k - 1), step)
  }

  lemma HasAll(a: Directory)
    requires HasFiles(a)
    ensures forall i | 0 <= i < 4 :: ARTIFACT_FILES[i] in a
  {
  }

  lemma {:induction false} UploadsTo(rt: Runtime, b: Bucket, n: nat, a: Directory, k: nat)
    requires k <= 4 && (forall i | 0 <= i < 4 :: ARTIFACT_FILES[i] in a) && n in b.publishers && b.publishers[n] == Uploading(a, 0)
    ensures var after := Repeat(rt, b, UploadNext(n), k);
            && after.objects == WithFiles(b.objects, Partial(n), a, k)
            && after.publishers == b.publishers[n := if k == 4 then Copying(a, 0) else Uploading(a, k)]
  {
    hide ARTIFACT_FILES, Send, WithFile;
    if k > 0 {
      UploadsTo(rt, b, n, a, k - 1);
      UploadOne(rt, Repeat(rt, b, UploadNext(n), k - 1), n, a, k - 1);
    }
  }

  lemma UploadOne(rt: Runtime, b: Bucket, n: nat, a: Directory, k: nat)
    requires k < 4 && ARTIFACT_FILES[k] in a && n in b.publishers && b.publishers[n] == Uploading(a, k)
    ensures var after := Send(rt, b, UploadNext(n));
            && after.objects == WithFile(b.objects, Partial(n), a, k)
            && after.publishers == b.publishers[n := if k == 3 then Copying(a, 0) else Uploading(a, k + 1)]
  {
    hide ARTIFACT_FILES, Verifies;
  }

  lemma {:induction false} CopiesTo(rt: Runtime, b: Bucket, n: nat, a: Directory, k: nat)
    requires k <= 4 && (forall i | 0 <= i < 4 :: ARTIFACT_FILES[i] in a) && n in b.publishers && b.publishers[n] == Copying(a, 0)
    requires Stored(b, Partial(n), a, 4)
    ensures var after := Repeat(rt, b, CopyNext(n), k);
            && after.objects == WithFiles(b.objects, Final(n), a, k)
            && after.publishers == b.publishers[n := Copying(a, k)]
  {
    hide ARTIFACT_FILES, Send, WithFile;
    if k > 0 {
      CopiesTo(rt, b, n, a, k - 1);
      WithFilesMeans(b.objects, Final(n), a, k - 1);
      CopyOne(rt, Repeat(rt, b, CopyNext(n), k - 1), n, a, k - 1);
    }
  }

  lemma CopyOne(rt: Runtime, b: Bucket, n: nat, a: Directory, k: nat)
    requires k < 4 && ARTIFACT_FILES[k] in a && n in b.publishers && b.publishers[n] == Copying(a, k)
    requires (Partial(n), ARTIFACT_FILES[k]) in b.objects && b.objects[(Partial(n), ARTIFACT_FILES[k])] == a[ARTIFACT_FILES[k]]
    ensures var after := Send(rt, b, CopyNext(n));
            && after.objects == WithFile(b.objects, Final(n), a, k)
            && after.publishers == b.publishers[n := Copying(a, k + 1)]
  {
    hide ARTIFACT_FILES, Verifies;
  }

  /** Every request of an upload that nothing interrupts. */
  function Published(rt: Runtime, b: Bucket, n: nat, a: Directory, checksum: string): Bucket {
    Send(rt, Send(rt, Copied(rt, b, n, a), Mark(n, checksum)), CleanUp(n))
  }

  function Copied(rt: Runtime, b: Bucket, n: nat, a: Directory): Bucket {
    Repeat(rt, Repeat(rt, Send(rt, b, Begin(n, a, true)), UploadNext(n), 4), CopyNext(n), 4)
  }

  /** It leaves the four files and the marker under the final prefix, nothing under the partial one, and
      everything else alone. */
  lemma UploadSucceeds(rt: Runtime, b: Bucket, n: nat, a: Directory, checksum: string)
    requires n !in b.publishers && (Final(n), MARKER) !in b.objects && Verifies(rt, a)
    ensures var after := Published(rt, b, n, a, checksum);
            && after.publishers == b.publishers
            && (forall f | f in ARTIFACT_FILES :: (Final(n), f) in after.objects && f in a && after.objects[(Final(n), f)] == a[f])
            && (Final(n), "COMPLETE") in after.objects && after.objects[(Final(n), "COMPLETE")] == checksum
            && (forall f :: (Partial(n), f) !in after.objects)
            && (forall key: (Place, string) | key.0.name != n :: (key in after.objects <==> key in b.objects) && (key in b.objects ==> after.objects[key] == b.objects[key]))
  {
    MarkerIsNoFile();
    hide ARTIFACT_FILES, Verifies, WithFiles, Send, Copied;
    CopiedMeans(rt, b, n, a);
    var copied := Copied(rt, b, n, a);
    var first := WithFiles(b.objects, Partial(n), a, 4);
    WithFilesMeans(b.objects, Partial(n), a, 4);
    WithFilesMeans(first, Final(n), a, 4);
    MarkedMeans(rt, copied, n, a, checksum);
    var marked := Send(rt, copied, Mark(n, checksum));
    CleanedUp(rt, marked, n, a);
    forall f | f in ARTIFACT_FILES
      ensures f in a && f != MARKER && (Final(n), f) in copied.objects && copied.objects[(Final(n), f)] == a[f]
    {
      var i :| 0 <= i < |ARTIFACT_FILES| && ARTIFACT_FILES[i] == f;
      assert |ARTIFACT_FILES| == 4 by { FourFiles(); }
    }
  }

  lemma FourFiles()
    ensures |ARTIFACT_FILES| == 4
  {
  }

  /** The state before the marker. */
  lemma CopiedMeans(rt: Runtime, b: Bucket, n: nat, a: Directory)
    requires n !in b.publishers && (Final(n), MARKER) !in b.objects && Verifies(rt, a)
    ensures forall i | 0 <= i < 4 :: ARTIFACT_FILES[i] in a
    ensures var after := Copied(rt, b, n, a);
            && after.objects == WithFiles(WithFiles(b.objects, Partial(n), a, 4), Final(n), a, 4)
            && after.publishers == b.publishers[n := Copying(a, 4)]
  {
    HasAll(a);
    BeginOne(rt, b, n, a);
    hide ARTIFACT_FILES, Verifies, Repeat, Send, WithFiles, Stored;
    var begun := Send(rt, b, Begin(n, a, true));
    UploadedMeans(rt, begun, n, a);
    CopiesTo(rt, Repeat(rt, begun, UploadNext(n), 4), n, a, 4);
    ThreeUpdates(b.publishers, n, Uploading(a, 0), Copying(a, 0), Copying(a, 4));
  }

  lemma ThreeUpdates<K, V>(m: map<K, V>, k: K, x: V, y: V, z: V)
    ensures m[k := x][k := y][k := z] == m[k := z]
  {
  }

  lemma UploadedMeans(rt: Runtime, b: Bucket, n: nat, a: Directory)
    requires n in b.publishers && b.publishers[n] == Uploading(a, 0) && forall i | 0 <= i < 4 :: ARTIFACT_FILES[i] in a
    ensures var uploaded := Repeat(rt, b, UploadNext(n), 4);
            && uploaded.objects == WithFiles(b.objects, Partial(n), a, 4)
            && uploaded.publishers == b.publishers[n := Copying(a, 0)]
            && Stored(uploaded, Partial(n), a, 4)
  {
    hide ARTIFACT_FILES, Verifies, Repeat, Send, WithFiles;
    UploadsTo(rt, b, n, a, 4);
    WithFilesMeans(b.objects, Partial(n), a, 4);
  }

  lemma BeginOne(rt: Runtime, b: Bucket, n: nat, a: Directory)
    requires n !in b.publishers && (Final(n), MARKER) !in b.objects && Verifies(rt, a)
    ensures var after := Send(rt, b, Begin(n, a, true));
            after.objects == b.objects && after.publishers == b.publishers[n := Uploading(a, 0)]
  {
    hide Verifies;
  }

  lemma MarkedMeans(rt: Runtime, b: Bucket, n: nat, a: Directory, checksum: string)
    requires n in b.publishers && b.publishers[n] == Copying(a, 4)
    ensures Send(rt, b, Mark(n, checksum)) == Bucket(b.objects[(Final(n), MARKER) := checksum], b.publishers[n := Marked(a)])
  {
    hide ARTIFACT_FILES, Verifies;
  }

  lemma CleanedUp(rt: Runtime, b: Bucket, n: nat, a: Directory)
    requires n in b.publishers && b.publishers[n] == Marked(a)
    ensures Send(rt, b, CleanUp(n)) == Bucket(WithoutPrefix(b.objects, Partial(n)), b.publishers - {n})
  {
  }

  /** After an error whose deletions succeed, nothing is left of the artifact under either prefix, and
      everything else is as it was. */
  lemma FailureCleansUp(rt: Runtime, b: Bucket, n: nat)
    requires n in b.publishers && !b.publishers[n].Failing?
    ensures var after := Send(rt, Send(rt, b, FailPartial(n, true)), FailFinal(n, true));
            && after.publishers == b.publishers - {n}
            && (forall key: (Place, string) | key.0.name == n :: key !in after.objects)
            && (forall key: (Place, string) | key.0.name != n :: (key in after.objects <==> key in b.objects) && (key in b.objects ==> after.objects[key] == b.objects[key]))
  {
    hide Verifies;
    var failing := Send(rt, b, FailPartial(n, true));
    var after := Send(rt, failing, FailFinal(n, true));
    assert after.objects == WithoutPrefix(WithoutPrefix(b.objects, Partial(n)), Final(n));
    assert after.publishers == b.publishers - {n};
  }
}
