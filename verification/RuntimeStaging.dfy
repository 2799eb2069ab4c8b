/** lifecycle_install.rs `stage_runtime`: immutable versioned runtime directories.

    The managed root maps directory names to directories. `crashes` records every state it has been in, `boot` where
    the current start of the app begins, and `staged` which manifest each version was staged for. */
module RuntimeStaging {
  import opened Text
  import opened AtomicFile

  const REQUIRED_BINARIES := ["sessions", "sessionsd", "sessions-runner"]

  datatype Manifest = Manifest(schemaVersion: nat, runtimeVersion: string, target: string, binaries: map<string, string>)

  predicate HexDigit(c: char) { '0' <= c <= '9' || 'a' <= c <= 'f' || 'A' <= c <= 'F' }

  predicate VersionText(s: string) { forall i :: 0 <= i < |s| ==> IsVersionCharacter(s[i]) }

  predicate IsVersion(s: string) { 0 < |s| <= 128 && VersionText(s) }

  // validate_manifest
  predicate ValidManifest(m: Manifest) {
    && m.schemaVersion == 1
    && m.target == "darwin-arm64"
    && IsVersion(m.runtimeVersion)
    && |m.binaries| == |REQUIRED_BINARIES|
    && (forall b :: b in REQUIRED_BINARIES ==>
          && b in m.binaries && |m.binaries[b]| == 64
          && forall i :: 0 <= i < 64 ==> HexDigit(m.binaries[b][i]))
  }

  // A valid manifest names the three binaries and nothing else.
  lemma ManifestNamesExactlyTheBinaries(m: Manifest)
    requires ValidManifest(m)
    ensures m.binaries.Keys == set b | b in REQUIRED_BINARIES
  {
    var required := set b | b in REQUIRED_BINARIES;
    assert REQUIRED_BINARIES[0] in required && REQUIRED_BINARIES[1] in required && REQUIRED_BINARIES[2] in required;
    assert |REQUIRED_BINARIES[0]| == 8 && |REQUIRED_BINARIES[1]| == 9 && |REQUIRED_BINARIES[2]| == 15;
    assert required == {REQUIRED_BINARIES[0], REQUIRED_BINARIES[1], REQUIRED_BINARIES[2]};
    assert |required| == 3;
    SubsetOfEqualSizeIsEqual(required, m.binaries.Keys);
  }

  lemma SubsetOfEqualSizeIsEqual(a: set<string>, b: set<string>)
    requires a <= b && |a| == |b|
    ensures a == b
  {
    assert b == a + (b - a);
    assert |b - a| == 0;
  }

  type Directory = map<string, File>

  type Root = map<string, Directory>

  type Digest = string -> string

  predicate BinaryMatches(d: Directory, m: Manifest, digest: Digest, b: string) {
    b in d && b in m.binaries && Lower(digest(d[b].text)) == Lower(m.binaries[b])
  }

  // All three binaries are there with the bytes the manifest names.
  predicate Matches(d: Directory, m: Manifest, digest: Digest) {
    forall b :: b in REQUIRED_BINARIES ==> BinaryMatches(d, m, digest, b)
  }

  // Matching, with its binaries synced.
  ghost predicate Complete(d: Directory, m: Manifest, digest: Digest) {
    Matches(d, m, digest) && forall b :: b in REQUIRED_BINARIES ==> d[b].synced
  }

  // Only the directory `name` may differ.
  ghost predicate OnlyDiffersAt(before: Root, at: Root, name: string) {
    && (forall n :: n != name ==> (n in at <==> n in before))
    && (forall n :: n != name && n in at ==> at[n] == before[n])
  }

  // ... and that directory is there.
  ghost predicate Filling(before: Root, at: Root, name: string) {
    name in at && OnlyDiffersAt(before, at, name)
  }

  // The version appears complete, and nothing else but the staging directory differs.
  ghost predicate Activated(before: Root, at: Root, m: Manifest, digest: Digest, staging: string) {
    && m.runtimeVersion !in before && m.runtimeVersion in at && Complete(at[m.runtimeVersion], m, digest)
    && (forall n :: n != staging && n != m.runtimeVersion ==> (n in at <==> n in before))
    && (forall n :: n != staging && n != m.runtimeVersion && n in at ==> at[n] == before[n])
  }

  // What one attempt adds to the history: on the way only the staging directory differs, and so it does at the end
  // unless the version was activated with the very last step.
  ghost predicate Attempt(was: seq<Root>, now: seq<Root>, m: Manifest, digest: Digest, staging: string, activated: bool) {
    && was != [] && was <= now
    && (forall k :: |was| <= k < |now| - 1 ==> OnlyDiffersAt(was[|was| - 1], now[k], staging))
    && if activated then |was| < |now| && Activated(was[|was| - 1], now[|now| - 1], m, digest, staging)
       else OnlyDiffersAt(was[|was| - 1], now[|now| - 1], staging)
  }

  lemma CreatedIsNew(before: Root, created: Root, at: Root, staging: string)
    requires created == before[staging := map[]] && (at == created || OnlyDiffersAt(created, at, staging))
    ensures OnlyDiffersAt(before, at, staging)
  {
  }

  // ---------- crashes ----------

  const MANIFEST_NAME := "runtime-manifest.json"

  // What a crash makes of a directory: unsynced files may hold anything, and what is found is what is on disk.
  ghost predicate DirectoryAfterCrash(at: Directory, left: Directory) {
    left.Keys == at.Keys && forall b :: b in at ==> left[b].synced && (at[b].synced ==> left[b].text == at[b].text)
  }

  ghost predicate RootAfterCrash(at: Root, left: Root) {
    left.Keys == at.Keys && forall name :: name in at ==> DirectoryAfterCrash(at[name], left[name])
  }

  // The state a crash leaves when unsynced files come back as `garbage` says.
  function Fallen(at: Root, garbage: (string, string) -> string): (left: Root)
    ensures RootAfterCrash(at, left)
  {
    map name | name in at ::
      map b | b in at[name] :: File(if at[name][b].synced then at[name][b].text else garbage(name, b), true)
  }

  // A complete directory survives a crash with its three binaries as they were.
  lemma CompleteSurvives(at: Directory, left: Directory, m: Manifest, digest: Digest)
    requires Complete(at, m, digest) && DirectoryAfterCrash(at, left)
    ensures Complete(left, m, digest) && SameBinaries(at, left)
  {
    forall b | b in REQUIRED_BINARIES ensures BinaryMatches(left, m, digest, b) {
      assert BinaryMatches(at, m, digest, b);
    }
  }

  // The manifest beside them is written without a sync: a crash can take its text.
  lemma CrashMayLoseTheManifest(at: Directory, m: Manifest, digest: Digest) returns (left: Directory)
    requires Complete(at, m, digest) && MANIFEST_NAME in at && !at[MANIFEST_NAME].synced
    ensures DirectoryAfterCrash(at, left) && Complete(left, m, digest)
    ensures left[MANIFEST_NAME].text != at[MANIFEST_NAME].text
  {
    var other := at[MANIFEST_NAME].text + "?";
    left := map b | b in at :: if b == MANIFEST_NAME then File(other, true) else File(at[b].text, true);
    CompleteSurvives(at, left, m, digest);
  }

  // ---------- the ledger over any number of stagings and crashes ----------

  const STAGING_PREFIX := ".staging-"

  function StagingName(version: string, pid: nat, suffix: nat): string {
    STAGING_PREFIX + (version + "-" + Decimal(pid) + "-" + Decimal(suffix))
  }

  // The names the staging directory of some version can have.
  ghost predicate IsStagingName(name: string) {
    exists version: string, pid: nat, suffix: nat :: IsVersion(version) && name == StagingName(version, pid, suffix)
  }

  ghost predicate SameBinaries(a: Directory, b: Directory) {
    forall binary :: binary in REQUIRED_BINARIES && binary in a ==> binary in b && b[binary].text == a[binary].text
  }

  // Every directory that does not bear a staging name is complete for the manifest it was staged for.
  ghost predicate AllStaged(at: Root, staged: map<string, Manifest>, digest: Digest) {
    forall name :: name in at && !IsStagingName(name) ==> name in staged && StagedFor(at[name], name, staged[name], digest)
  }

  ghost predicate StagedFor(d: Directory, name: string, m: Manifest, digest: Digest) {
    ValidManifest(m) && m.runtimeVersion == name && Complete(d, m, digest)
  }

  // No directory without a staging name disappears or changes.
  ghost predicate Keeps(a: Root, b: Root) {
    forall name :: name in a && !IsStagingName(name) ==> name in b && b[name] == a[name]
  }

  ghost predicate LedgerOf(crashes: seq<Root>, boot: nat, staged: map<string, Manifest>, digest: Digest) {
    && (forall k :: boot <= k < |crashes| ==> AllStaged(crashes[k], staged, digest))
    && (forall j, k :: boot <= j <= k < |crashes| ==> Keeps(crashes[j], crashes[k]))
  }

  // Over the whole history, crashes included, no binary of a version is ever rewritten.
  ghost predicate NeverRewritten(crashes: seq<Root>) {
    forall k :: 0 <= k < |crashes| - 1 ==> BinariesKept(crashes[k], crashes[k + 1])
  }

  ghost predicate BinariesKept(a: Root, b: Root) {
    forall name :: name in a && name in b && !IsStagingName(name) ==> SameBinaries(a[name], b[name])
  }

  lemma LedgerExtends(crashes: seq<Root>, boot: nat, staged: map<string, Manifest>, next: Root, digest: Digest)
    requires boot < |crashes| && LedgerOf(crashes, boot, staged, digest) && NeverRewritten(crashes)
    requires Keeps(crashes[|crashes| - 1], next) && AllStaged(next, staged, digest)
    ensures LedgerOf(crashes + [next], boot, staged, digest) && NeverRewritten(crashes + [next])
  {
    var last := crashes[|crashes| - 1];
    assert BinariesKept(last, next);
    forall j | boot <= j < |crashes| ensures Keeps(crashes[j], next) {
      assert Keeps(crashes[j], last);
    }
  }

  // Working in a staging directory leaves the ledger alone.
  lemma {:induction false} FillingKeepsLedger(was: seq<Root>, now: seq<Root>, boot: nat, staged: map<string, Manifest>,
                                              digest: Digest, staging: string)
    requires boot < |was| && LedgerOf(was, boot, staged, digest) && NeverRewritten(was)
    requires was <= now && IsStagingName(staging)
    requires forall k :: |was| <= k < |now| ==> OnlyDiffersAt(was[|was| - 1], now[k], staging)
    ensures LedgerOf(now, boot, staged, digest) && NeverRewritten(now)
    decreases |now|
  {
    if |now| > |was| {
      var n := |now| - 1;
      FillingKeepsLedger(was, now[..n], boot, staged, digest, staging);
      assert now == now[..n] + [now[n]];
      assert Keeps(was[|was| - 1], now[n - 1]);
      assert AllStaged(was[|was| - 1], staged, digest);
      LedgerExtends(now[..n], boot, staged, now[n], digest);
    } else {
      assert now == was;
    }
  }

  // A version that is not there yet can enter the ledger without touching what it says of earlier states.
  lemma EnteringKeepsEarlier(at: Root, last: Root, staged: map<string, Manifest>, digest: Digest, m: Manifest)
    requires AllStaged(at, staged, digest) && Keeps(at, last)
    requires IsStagingName(m.runtimeVersion) || m.runtimeVersion !in last
    ensures AllStaged(at, staged[m.runtimeVersion := m], digest)
  {
  }

  lemma ActivatedIsStaged(last: Root, next: Root, staged: map<string, Manifest>, digest: Digest, m: Manifest, before: Root,
                          staging: string)
    requires AllStaged(last, staged, digest) && ValidManifest(m) && IsStagingName(staging)
    requires OnlyDiffersAt(before, last, staging) && Activated(before, next, m, digest, staging)
    ensures Keeps(last, next) && AllStaged(next, staged[m.runtimeVersion := m], digest)
    ensures IsStagingName(m.runtimeVersion) || m.runtimeVersion !in last
  {
    forall name | name in last && !IsStagingName(name) ensures name in next && next[name] == last[name] {
      assert name in before && last[name] == before[name];
    }
    forall name | name in next && !IsStagingName(name) && name != m.runtimeVersion
      ensures name in staged && StagedFor(next[name], name, staged[name], digest)
    {
      assert name in before && name in last && next[name] == last[name];
    }
  }

  // The new version enters the ledger with its last step.
  lemma ActivationKeepsLedger(was: seq<Root>, next: Root, boot: nat, staged: map<string, Manifest>, digest: Digest,
                              m: Manifest, before: Root, staging: string)
    requires boot < |was| && LedgerOf(was, boot, staged, digest) && NeverRewritten(was)
    requires IsStagingName(staging) && ValidManifest(m) && OnlyDiffersAt(before, was[|was| - 1], staging)
    requires Activated(before, next, m, digest, staging)
    ensures LedgerOf(was + [next], boot, staged[m.runtimeVersion := m], digest) && NeverRewritten(was + [next])
  {
    var last := was[|was| - 1];
    ActivatedIsStaged(last, next, staged, digest, m, before, staging);
    forall k | boot <= k < |was| ensures AllStaged(was[k], staged[m.runtimeVersion := m], digest) {
      EnteringKeepsEarlier(was[k], last, staged, digest, m);
    }
    LedgerExtends(was, boot, staged[m.runtimeVersion := m], next, digest);
  }

  lemma StagingKeepsLedger(was: seq<Root>, now: seq<Root>, boot: nat, staged: map<string, Manifest>, digest: Digest,
                           m: Manifest, staging: string, activated: bool)
    requires boot < |was| && LedgerOf(was, boot, staged, digest) && NeverRewritten(was)
    requires IsStagingName(staging) && ValidManifest(m) && Attempt(was, now, m, digest, staging, activated)
    ensures LedgerOf(now, boot, if activated then staged[m.runtimeVersion := m] else staged, digest) && NeverRewritten(now)
  {
    var n := |now| - 1;
    if activated {
      FillingKeepsLedger(was, now[..n], boot, staged, digest, staging);
      ActivationKeepsLedger(now[..n], now[n], boot, staged, digest, m, was[|was| - 1], staging);
      assert now == now[..n] + [now[n]];
    } else {
      FillingKeepsLedger(was, now, boot, staged, digest, staging);
    }
  }

  // The name of an attempt that left a trace was built from a version, a process and a suffix.
  lemma NamedAttemptKeepsLedger(was: seq<Root>, now: seq<Root>, boot: nat, staged: map<string, Manifest>, digest: Digest,
                                m: Manifest, staging: string, activated: bool, pid: nat, sequence: nat)
    requires boot < |was| && LedgerOf(was, boot, staged, digest) && NeverRewritten(was)
    requires Attempt(was, now, m, digest, staging, activated) && (was != now ==> ValidManifest(m))
    requires exists clock: nat :: staging == StagingName(m.runtimeVersion, pid, UniqueSuffix(clock, sequence))
    ensures LedgerOf(now, boot, if activated then staged[m.runtimeVersion := m] else staged, digest) && NeverRewritten(now)
  {
    if was != now {
      StagingNamesAreStaging(staging, m.runtimeVersion, pid, sequence);
      StagingKeepsLedger(was, now, boot, staged, digest, m, staging, activated);
    }
  }

  // A crash may fall back to any state since the start, because directory entries are not synced; it keeps the ledger.
  lemma CrashKeepsLedger(crashes: seq<Root>, boot: nat, staged: map<string, Manifest>, digest: Digest, k: nat, left: Root)
    requires boot <= k < |crashes| && LedgerOf(crashes, boot, staged, digest) && NeverRewritten(crashes)
    requires RootAfterCrash(crashes[k], left)
    ensures LedgerOf(crashes + [left], |crashes|, staged, digest) && NeverRewritten(crashes + [left])
  {
    var last := crashes[|crashes| - 1];
    assert AllStaged(crashes[k], staged, digest) && Keeps(crashes[k], last);
    forall name | name in left && !IsStagingName(name)
      ensures name in staged && StagedFor(left[name], name, staged[name], digest) && SameBinaries(crashes[k][name], left[name])
    {
      CompleteSurvives(crashes[k][name], left[name], staged[name], digest);
    }
    assert BinariesKept(last, left);
  }

  lemma StagingNameIsVersionText(version: string, pid: nat, suffix: nat)
    requires VersionText(version)
    ensures VersionText(StagingName(version, pid, suffix))
  {
    assert VersionText(Decimal(pid)) && VersionText(Decimal(suffix));
    assert VersionText(STAGING_PREFIX);
    assert VersionText(version + "-" + Decimal(pid) + "-" + Decimal(suffix));
  }

  // A version may be the staging name of another one, whatever process stages that: when the staging stops early, the
  // directory is not a complete version. Every name that no staging can have is in the ledger.
  lemma VersionsMayLookLikeStaging(version: string, pid: nat, suffix: nat, before: Root, digest: Digest)
    returns (m: Manifest, lookalike: Manifest, now: seq<Root>, left: Root)
    requires IsVersion(version) && |StagingName(version, pid, suffix)| <= 128
    requires StagingName(version, pid, suffix) !in before
    ensures ValidManifest(m) && m.runtimeVersion == version
    ensures ValidManifest(lookalike) && lookalike.runtimeVersion == StagingName(version, pid, suffix)
    ensures Attempt([before], now, m, digest, StagingName(version, pid, suffix), false)
    ensures RootAfterCrash(now[|now| - 1], left)
    ensures lookalike.runtimeVersion in left && !Matches(left[lookalike.runtimeVersion], lookalike, digest)
  {
    var name := StagingName(version, pid, suffix);
    StagingNameIsVersionText(version, pid, suffix);
    var hex: string := seq(64, i => '0');
    m := Manifest(1, version, "darwin-arm64", map b | b in REQUIRED_BINARIES :: hex);
    lookalike := m.(runtimeVersion := name);
    NamedBinaries(m);
    now := [before, before[name := map[]]];
    left := Fallen(now[1], (n, b) => "");
    assert REQUIRED_BINARIES[0] in REQUIRED_BINARIES;
    assert !BinaryMatches(left[name], lookalike, digest, REQUIRED_BINARIES[0]);
  }

  lemma NamedBinaries(m: Manifest)
    requires m.binaries.Keys == set b | b in REQUIRED_BINARIES
    ensures |m.binaries| == |REQUIRED_BINARIES|
  {
    var required := set b | b in REQUIRED_BINARIES;
    assert |REQUIRED_BINARIES[0]| == 8 && |REQUIRED_BINARIES[1]| == 9 && |REQUIRED_BINARIES[2]| == 15;
    assert required == {REQUIRED_BINARIES[0], REQUIRED_BINARIES[1], REQUIRED_BINARIES[2]};
  }

  lemma StagingNameIsApart(version: string, pid: nat, suffix: nat)
    ensures StagingName(version, pid, suffix) != version
  {
    assert |StagingName(version, pid, suffix)| > |version|;
  }

  lemma StagingNamesAreStaging(staging: string, version: string, pid: nat, sequence: nat)
    requires IsVersion(version) && exists clock: nat :: staging == StagingName(version, pid, UniqueSuffix(clock, sequence))
    ensures IsStagingName(staging)
  {
  }

  class ManagedRoot {
    const digest: Digest
    var pid: nat
    var directories: Root
    var sequence: nat
    var crashes: seq<Root>  // what a crash may fall back to, from `boot` on
    var boot: nat
    ghost var staged: map<string, Manifest>

    ghost predicate Valid()
      reads this`boot, this`crashes, this`directories
    {
      boot < |crashes| && crashes[|crashes| - 1] == directories
    }

    // Whatever this app has ever seen of the managed root: versions are complete from the moment they appear and keep
    // their binaries for ever.
    ghost predicate Ledger()
      reads this
    {
      LedgerOf(crashes, boot, staged, digest) && NeverRewritten(crashes)
    }

    constructor (digest: Digest)
      ensures Valid() && Ledger() && this.directories == map[] && this.digest == digest
    {
      this.digest, this.pid, this.directories, this.sequence := digest, 0, map[], 0;
      this.crashes, this.boot, this.staged := [map[]], 0, map[];
    }

    ghost predicate Holds(m: Manifest)
      reads this
    {
      m.runtimeVersion in directories && Matches(directories[m.runtimeVersion], m, digest)
    }

    // Every recorded state since `since` differs from `before` in the staging directory only.
    ghost predicate StatesSince(since: nat, before: Root, staging: string)
      reads this
    {
      forall k :: since <= k < |crashes| ==> OnlyDiffersAt(before, crashes[k], staging)
    }

    method Put(name: string, d: Directory)
      requires Valid()
      modifies this`directories, this`crashes
      ensures Valid() && directories == old(directories)[name := d] && crashes == old(crashes) + [directories]
    {
      directories := directories[name := d];
      crashes := crashes + [directories];
    }

    // Copy one binary and sync it; copying may store anything, only verification decides what it was.
    method CopyBinary(staging: string, binary: string) returns (ok: bool)
      requires Valid() && staging in directories
      modifies this`directories, this`crashes
      ensures Valid() && old(crashes) <= crashes
      ensures Filling(old(directories), directories, staging)
      ensures ok ==> exists text :: directories[staging] == old(directories)[staging][binary := File(text, true)]
      ensures forall k :: |old(crashes)| <= k < |crashes| ==>
                Filling(old(directories), crashes[k], staging)
    {
      ok := *;
      var text: string :| true;
      Put(staging, directories[staging][binary := File(text, false)]);
      if !ok { return; }
      ok := *; // set_file_mode
      if !ok { return; }
      ok := *; // sync_all
      if !ok { return; }
      Put(staging, directories[staging][binary := File(text, true)]);
      assert directories[staging] == old(directories)[staging][binary := File(text, true)];
    }

    method VerifyDirectory(name: string, m: Manifest) returns (ok: bool)
      requires Valid() && (forall b :: b in REQUIRED_BINARIES ==> b in m.binaries)
      ensures ok ==> name in directories && Matches(directories[name], m, digest)
    {
      ok := name in directories;
      var i := 0;
      while i < |REQUIRED_BINARIES| && ok
        invariant 0 <= i <= |REQUIRED_BINARIES|
        invariant ok ==> name in directories && forall j :: 0 <= j < i ==> BinaryMatches(directories[name], m, digest, REQUIRED_BINARIES[j])
      {
        var readable: bool := *; // metadata, shasum and codesign can fail
        ok := readable && BinaryMatches(directories[name], m, digest, REQUIRED_BINARIES[i]);
        i := i + 1;
      }
    }

    method CopyBinaries(staging: string) returns (ok: bool)
      requires Valid() && staging in directories
      modifies this`directories, this`crashes
      ensures Valid() && old(crashes) <= crashes
      ensures Filling(old(directories), directories, staging)
      ensures ok ==> forall b :: b in REQUIRED_BINARIES ==> b in directories[staging] && directories[staging][b].synced
      ensures forall k :: |old(crashes)| <= k < |crashes| ==>
                Filling(old(directories), crashes[k], staging)
    {
      ok := true;
      var i := 0;
      while i < |REQUIRED_BINARIES| && ok
        invariant 0 <= i <= |REQUIRED_BINARIES|
        invariant Valid() && old(crashes) <= crashes
        invariant Filling(old(directories), directories, staging)
        invariant ok ==> forall j :: 0 <= j < i ==>
            REQUIRED_BINARIES[j] in directories[staging] && directories[staging][REQUIRED_BINARIES[j]].synced
        invariant forall k :: |old(crashes)| <= k < |crashes| ==>
            Filling(old(directories), crashes[k], staging)
      {
        ok := CopyBinary(staging, REQUIRED_BINARIES[i]);
        i := i + 1;
      }
    }

    // Fill the staging directory and verify it.
    method Fill(staging: string, m: Manifest) returns (ok: bool)
      requires Valid() && ValidManifest(m) && staging in directories
      modifies this`directories, this`crashes
      ensures Valid() && old(crashes) <= crashes
      ensures Filling(old(directories), directories, staging)
      ensures ok ==> Complete(directories[staging], m, digest)
      ensures forall k :: |old(crashes)| <= k < |crashes| ==> Filling(old(directories), crashes[k], staging)
    {
      ok := CopyBinaries(staging);
      if !ok { return; }
      ok := WriteManifest(staging);
      if !ok { return; }
      ok := VerifyDirectory(staging, m);
    }

    // The manifest is written without a sync; no binary is touched.
    method WriteManifest(staging: string) returns (ok: bool)
      requires Valid() && staging in directories
      modifies this`directories, this`crashes
      ensures Valid() && crashes == old(crashes) + [directories]
      ensures Filling(old(directories), directories, staging)
      ensures forall b :: b in REQUIRED_BINARIES && b in old(directories)[staging] ==>
                b in directories[staging] && directories[staging][b] == old(directories)[staging][b]
    {
      ok := *;
      var text: string :| true;
      var name := "runtime-manifest.json";
      assert |name| == 21;
      assert |REQUIRED_BINARIES[0]| == 8 && |REQUIRED_BINARIES[1]| == 9 && |REQUIRED_BINARIES[2]| == 15;
      assert name !in REQUIRED_BINARIES;
      Put(staging, directories[staging][name := File(text, false)]);
    }

    // fs::rename of a directory onto a free name.
    method Activate(staging: string, version: string) returns (ok: bool)
      requires Valid() && staging in directories && version != staging
      modifies this`directories, this`crashes
      ensures Valid() && crashes == old(crashes) + [directories]
      ensures ok ==> version !in old(directories)
                     && directories == old(directories)[version := old(directories)[staging]] - {staging}
      ensures !ok ==> directories == old(directories)
    {
      ok := *;
      ok := ok && version !in directories;
      if ok {
        directories := directories[version := directories[staging]] - {staging};
      }
      crashes := crashes + [directories];
    }

    // remove_dir_all, which may stop half way.
    method RemoveAll(staging: string)
      requires Valid()
      modifies this`directories, this`crashes
      ensures Valid() && crashes == old(crashes) + [directories]
      ensures forall n :: n != staging ==> (n in directories <==> n in old(directories))
      ensures forall n :: n != staging && n in directories ==> directories[n] == old(directories)[n]
    {
      var removed: bool := *;
      var left: Directory :| true;
      directories := if removed then directories - {staging} else directories[staging := left];
      crashes := crashes + [directories];
    }

    // Create the staging directory, fill it, and only then give it its final name. create_dir refuses a taken name.
    method StageNew(m: Manifest, staging: string) returns (ok: bool)
      requires Valid() && ValidManifest(m) && m.runtimeVersion !in directories && staging != m.runtimeVersion
      modifies this`directories, this`crashes
      ensures Valid() && Attempt(old(crashes), crashes, m, digest, staging, ok)
    {
      ok := *; // create_dir
      ok := ok && staging !in directories;
      if !ok { return; }
      ok := CreateAndFill(staging, m);
      if ok {
        ok := Activate(staging, m.runtimeVersion);
      }
      if !ok {
        RemoveAll(staging);
      }
    }

    method CreateAndFill(staging: string, m: Manifest) returns (ok: bool)
      requires Valid() && ValidManifest(m) && staging !in directories
      modifies this`directories, this`crashes
      ensures Valid() && old(crashes) <= crashes && |old(crashes)| < |crashes|
      ensures ok ==> staging in directories && Complete(directories[staging], m, digest)
      ensures StatesSince(|old(crashes)|, old(directories), staging)
    {
      ghost var before := directories;
      Put(staging, map[]);
      ghost var created := directories;
      ok := Fill(staging, m);
      forall k | |old(crashes)| <= k < |crashes| ensures OnlyDiffersAt(before, crashes[k], staging) {
        CreatedIsNew(before, created, crashes[k], staging);
      }
    }

    // A version already there is verified and left alone; otherwise it is staged under a fresh name. Ok means the
    // version holds the three manifest-matching binaries.
    method StageRuntime(m: Manifest) returns (ok: bool, ghost staging: string)
      requires Valid()
      modifies this`directories, this`crashes, this`sequence
      ensures Valid()
      ensures exists clock: nat :: staging == StagingName(m.runtimeVersion, pid, UniqueSuffix(clock, old(sequence)))
      ensures ok ==> ValidManifest(m) && Holds(m)
      ensures Attempt(old(crashes), crashes, m, digest, staging, ok && m.runtimeVersion !in old(directories))
      ensures old(crashes) != crashes ==> ValidManifest(m)
      ensures sequence == old(sequence) + 1 || (sequence == old(sequence) && crashes == old(crashes))
    {
      var clock: nat :| clock >= 0;
      var name := StagingName(m.runtimeVersion, pid, UniqueSuffix(clock, sequence));
      staging := name;
      StagingNameIsApart(m.runtimeVersion, pid, UniqueSuffix(clock, sequence));
      ok := *; // reading and parsing the bundled manifest
      if !ok || !ValidManifest(m) { return false, staging; }
      ok := *; // verifying the bundled runtime and preparing the managed root
      if !ok { return; }
      if m.runtimeVersion in directories {
        ok := VerifyDirectory(m.runtimeVersion, m);
        return;
      }
      sequence := sequence + 1;
      ok := StageNew(m, name);
    }

    // ---------- every run ----------

    // One staging, entered in the ledger.
    method StageAndRecord(m: Manifest) returns (ok: bool)
      requires Valid() && Ledger()
      modifies this`directories, this`crashes, this`sequence, this`staged
      ensures Valid() && old(crashes) <= crashes
      ensures Ledger()
    {
      ghost var was, book := crashes, staged;
      ghost var absent := m.runtimeVersion !in directories;
      ghost var staging;
      ok, staging := StageRuntime(m);
      if ok && absent { staged := book[m.runtimeVersion := m]; }
      NamedAttemptKeepsLedger(was, crashes, boot, book, digest, m, staging, ok && absent, pid, old(sequence));
    }

    // The machine goes down and the app starts again, as another process.
    method CrashAndRestart()
      requires Valid()
      modifies this
      ensures Valid() && crashes == old(crashes) + [directories] && boot == |old(crashes)|
      ensures exists k :: old(boot) <= k < |old(crashes)| && RootAfterCrash(old(crashes)[k], directories)
      ensures old(Ledger()) ==> Ledger()
    {
      var k: nat :| boot <= k < |crashes|;
      var garbage: (string, string) -> string :| true;
      var process: nat :| process >= 0;
      var left := Fallen(crashes[k], garbage);
      if old(Ledger()) { CrashKeepsLedger(crashes, boot, staged, digest, k, left); }
      directories, boot, crashes := left, |crashes|, crashes + [left];
      pid, sequence := process, 0;
    }

    // Any sequence of stagings and crashes: from the moment a version appears it is complete for the manifest it was
    // staged for, in every state a crash could expose, and none of its binaries is ever rewritten. Only directories
    // under staging names can be anything else.
    method AnyRun(steps: nat)
      requires Valid() && Ledger()
      modifies this
      ensures Valid() && old(crashes) <= crashes && boot < |crashes|
      ensures forall k :: boot <= k < |crashes| ==> AllStaged(crashes[k], staged, digest)
      ensures NeverRewritten(crashes)
    {
      for i := 0 to steps
        invariant Valid() && Ledger() && old(crashes) <= crashes
      {
        var crash: bool := *;
        if crash {
          CrashAndRestart();
        } else {
          var m: Manifest :| true;
          var ok := StageAndRecord(m);
        }
      }
    }
  }
}
