/** lifecycle_util.rs: `write_atomic` and the temporary names it relies on.

    A disk state maps paths to files. `crashes` records every state the disk has been in,
    that is, every state a crash may interrupt. A file that was not synced may hold
    anything after a crash, so the order sync-then-rename is part of what is proved. */
module AtomicFile {
  import opened Text

  datatype Path = Path(directory: string, name: string)

  datatype File = File(text: string, synced: bool)

  type Files = map<Path, File>

  const TWO_64: nat := 0x1_0000_0000_0000_0000

  // (timestamp << 64) | counter, both as 64-bit halves of a u128.
  function UniqueSuffix(clock: nat, sequence: nat): nat {
    (clock % TWO_64) * TWO_64 + sequence % TWO_64
  }

  function Temporary(path: Path, pid: nat, suffix: nat): Path {
    Path(path.directory, "." + path.name + ".tmp-" + Decimal(pid) + "-" + Decimal(suffix))
  }

  // Whatever the clock does, two calls in one process differ until the 64-bit counter wraps.
  lemma SuffixesDiffer(clockA: nat, sequenceA: nat, clockB: nat, sequenceB: nat)
    requires sequenceA % TWO_64 != sequenceB % TWO_64
    ensures UniqueSuffix(clockA, sequenceA) != UniqueSuffix(clockB, sequenceB)
  {
    LowHalf(clockA % TWO_64, sequenceA % TWO_64);
    LowHalf(clockB % TWO_64, sequenceB % TWO_64);
  }

  lemma LowHalf(high: nat, low: nat)
    requires low < TWO_64
    ensures (high * TWO_64 + low) % TWO_64 == low
  {
  }

  lemma TemporariesDiffer(path: Path, pid: nat, a: nat, b: nat)
    requires a != b
    ensures Temporary(path, pid, a) != Temporary(path, pid, b)
  {
    if Temporary(path, pid, a) == Temporary(path, pid, b) {
      var head := "." + path.name + ".tmp-" + Decimal(pid) + "-";
      assert Temporary(path, pid, a).name[|head|..] == Decimal(a);
      assert Temporary(path, pid, b).name[|head|..] == Decimal(b);
      DecimalInjective(a, b);
    }
  }

  // A temporary name never collides with the file it will replace.
  lemma TemporaryIsNotTarget(path: Path, pid: nat, suffix: nat)
    ensures Temporary(path, pid, suffix) != path
  {
    assert |Temporary(path, pid, suffix).name| > |path.name|;
  }

  // What a crash can leave behind when the disk's directory entries are those of state `at`.
  ghost predicate AfterCrash(at: Files, left: Files) {
    && left.Keys == at.Keys
    && forall p :: p in at && at[p].synced ==> left[p].text == at[p].text
  }

  // Directory entries are never synced: a crash may fall back to any state of the history.
  ghost predicate CrashLeaves(history: seq<Files>, left: Files) {
    exists k :: 0 <= k < |history| && AfterCrash(history[k], left)
  }

  ghost predicate SameExcept(a: Files, b: Files, p: Path) { a - {p} == b - {p} }

  // A state on the way from `before` to having `text` at `path`: nothing but the temporary file differs
  // from the old state, or everything is as in the new one.
  ghost predicate OldOrNew(before: Files, at: Files, path: Path, text: string, temporary: Path) {
    SameExcept(at, before, temporary) || at == before[path := File(text, true)]
  }

  lemma RenamedIntoPlace(before: Files, filled: Files, path: Path, text: string, temporary: Path)
    requires temporary != path && temporary !in before && SameExcept(filled, before, temporary)
    requires temporary in filled && filled[temporary] == File(text, true)
    ensures filled[path := filled[temporary]] - {temporary} == before[path := File(text, true)]
  {
    assert before - {temporary} == before;
    assert filled[path := filled[temporary]] - {temporary} == (filled - {temporary})[path := File(text, true)];
  }

  class Disk {
    const pid: nat
    var files: Files
    var sequence: nat
    ghost var crashes: seq<Files>

    ghost predicate Valid()
      reads this
    {
      crashes != [] && crashes[|crashes| - 1] == files
    }

    constructor (pid: nat, files: Files)
      ensures Valid() && this.files == files && this.pid == pid
    {
      this.pid := pid;
      this.files := files;
      this.sequence := 0;
      this.crashes := [files];
    }

    method CreateNew(path: Path) returns (ok: bool)
      requires Valid()
      modifies this`files, this`crashes
      ensures Valid() && crashes == old(crashes) + [files]
      ensures ok ==> path !in old(files) && files == old(files)[path := File("", false)]
      ensures !ok ==> files == old(files)
    {
      ok := *;
      ok := ok && path !in files;
      if ok {
        files := files[path := File("", false)];
      }
      crashes := crashes + [files];
    }

    // A failed write may have stored any prefix.
    method WriteAll(path: Path, text: string) returns (ok: bool)
      requires Valid() && path in files
      modifies this`files, this`crashes
      ensures Valid() && crashes == old(crashes) + [files]
      ensures path in files && SameExcept(files, old(files), path) && !files[path].synced
      ensures files[path].text <= text && (ok ==> files[path].text == text)
    {
      var stored :| 0 <= stored <= |text|;
      ok := *;
      ok := ok && stored == |text|;
      files := files[path := File(text[..stored], false)];
      crashes := crashes + [files];
    }

    method SyncAll(path: Path) returns (ok: bool)
      requires Valid() && path in files
      modifies this`files, this`crashes
      ensures Valid() && crashes == old(crashes) + [files]
      ensures path in files && SameExcept(files, old(files), path) && files[path].text == old(files)[path].text
      ensures ok ==> files[path].synced
    {
      ok := *;
      if ok {
        files := files[path := File(files[path].text, true)];
      }
      crashes := crashes + [files];
    }

    method Rename(from: Path, to: Path) returns (ok: bool)
      requires Valid() && from in files && from != to
      modifies this`files, this`crashes
      ensures Valid() && crashes == old(crashes) + [files]
      ensures ok ==> files == old(files)[to := old(files)[from]] - {from}
      ensures !ok ==> files == old(files)
    {
      ok := *;
      if ok {
        files := files[to := files[from]] - {from};
      }
      crashes := crashes + [files];
    }

    method RemoveFile(path: Path) returns (ok: bool)
      requires Valid()
      modifies this`files, this`crashes
      ensures Valid() && crashes == old(crashes) + [files]
      ensures ok ==> path in old(files) && files == old(files) - {path}
      ensures !ok ==> files == old(files)
    {
      ok := *;
      ok := ok && path in files;
      if ok {
        files := files - {path};
      }
      crashes := crashes + [files];
    }

    // Everything between naming the temporary file and renaming it into place.
    method FillAndRename(path: Path, text: string, temporary: Path) returns (ok: bool)
      requires Valid() && temporary != path
      modifies this`files, this`crashes
      ensures Valid() && old(crashes) <= crashes
      ensures ok ==> temporary !in old(files) && files == old(files)[path := File(text, true)]
      ensures !ok ==> SameExcept(files, old(files), temporary)
      ensures forall k :: |old(crashes)| <= k < |crashes| ==> OldOrNew(old(files), crashes[k], path, text, temporary)
    {
      ok := CreateNew(temporary);
      if !ok { return; }
      ok := WriteAll(temporary, text);
      if !ok { return; }
      ok := SyncAll(temporary);
      if !ok { return; }
      ok := *; // set_file_mode
      if !ok { return; }
      RenamedIntoPlace(old(files), files, path, text, temporary);
      ok := Rename(temporary, path);
    }

    // At every moment the target holds exactly its old content or exactly the new one; Ok means the new one
    // is there with its bytes synced, Err means the old one is untouched. Only the temporary name may differ besides.
    method WriteAtomic(path: Path, text: string) returns (ok: bool, ghost temporary: Path)
      requires Valid()
      modifies this
      ensures Valid() && old(crashes) <= crashes && sequence == old(sequence) + 1
      ensures ok ==> files == old(files)[path := File(text, true)]
      ensures !ok ==> SameExcept(files, old(files), temporary)
      ensures forall k :: |old(crashes)| <= k < |crashes| ==> OldOrNew(old(files), crashes[k], path, text, temporary)
      ensures temporary != path
      ensures exists clock: nat :: temporary == Temporary(path, pid, UniqueSuffix(clock, old(sequence)))
    {
      var clock: nat :| clock >= 0;
      var name := Temporary(path, pid, UniqueSuffix(clock, sequence));
      temporary := name;
      sequence := sequence + 1;
      TemporaryIsNotTarget(path, pid, UniqueSuffix(clock, old(sequence)));
      ok := FillAndRename(path, text, name);
      if !ok {
        var removed := RemoveFile(name);
      }
      assert temporary == Temporary(path, pid, UniqueSuffix(clock, old(sequence)));
    }
  }

  // A crash at any time during or after the write, falling back to any state since it began, leaves a synced target
  // with its old text or the new text, never a mixture.
  lemma CrashLeavesOldOrNew(before: Files, history: seq<Files>, left: Files, path: Path, text: string, temporary: Path)
    requires path in before && before[path].synced && temporary != path
    requires forall k :: 0 <= k < |history| ==> history[k] == before || OldOrNew(before, history[k], path, text, temporary)
    requires CrashLeaves(history, left)
    ensures path in left && (left[path].text == before[path].text || left[path].text == text)
  {
    var k :| 0 <= k < |history| && AfterCrash(history[k], left);
    var at := history[k];
    if SameExcept(at, before, temporary) {
      assert path in before - {temporary};
      assert (at - {temporary})[path] == (before - {temporary})[path];
    }
  }
}
