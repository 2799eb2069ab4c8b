/** windows_runner.rs: swapping the pinned runner under live sessions.

    A directory maps names to inodes and inodes to bytes, so renaming a file and writing it are different things.
    Runners start from the pinned name and exit at any moment, also in the middle of an activation or a sweep;
    Windows refuses to delete, replace or open for writing a file that a runner is executing. `image` remembers,
    for every inode ever executed, the bytes it was started with. */
module WindowsRunner {
  import opened Wrappers
  import opened Text

  const PINNED := "sessions-runner.exe"
  const RETIRED_PREFIX := ".sessions-runner-retired-"
  const STAGED_PREFIX := ".sessions-runner-staged-"

  function StableRunnerPath(root: string): string { root + "\\" + PINNED }

  predicate IsRetired(name: string) { RETIRED_PREFIX <= name }

  predicate IsStaged(name: string) { STAGED_PREFIX <= name }

  predicate Collectable(name: string) { IsRetired(name) || IsStaged(name) }

  // The names under which a runner may be executing.
  predicate Holds(name: string) { name == PINNED || IsRetired(name) }

  lemma NamesAreApart(name: string)
    ensures IsStaged(name) ==> !Holds(name)
    ensures IsRetired(name) ==> name != PINNED
  {
    assert PINNED[0] == 's' && RETIRED_PREFIX[0] == '.' && STAGED_PREFIX[0] == '.';
    assert RETIRED_PREFIX[17] == 'r' && STAGED_PREFIX[17] == 's';
  }

  datatype Activation =
    | Activated
    | StageFailed
    | RetireFailed
    | SwapFailed
    | RestoreFailed
    | VerifyFailed

  // Every entry of a is an entry of b.
  ghost predicate Within<K, V>(a: map<K, V>, b: map<K, V>) { forall k :: k in a ==> k in b && a[k] == b[k] }

  class RunnerRoot {
    const digest: string -> string
    var entries: map<string, nat>
    var content: map<nat, string>
    var next: nat
    var live: set<nat>
    ghost var image: map<nat, string>

    ghost predicate Valid()
      reads this
    {
      && (forall n :: n in entries ==> entries[n] in content)
      && (forall m, n :: m in entries && n in entries && m != n ==> entries[m] != entries[n])
      && (forall i :: i in content ==> i < next)
      // Whoever is running is linked under the pinned or a retired name.
      && (forall i :: i in live ==> Linked(i))
      // What was executed once is never written again.
      && live <= image.Keys
      && (forall i :: i in image ==> i in content && content[i] == image[i])
      && (forall n :: n in entries && IsStaged(n) ==> entries[n] !in image)
    }

    ghost predicate Linked(i: nat)
      reads this
    {
      exists n :: n in entries && entries[n] == i && Holds(n)
    }

    function PinnedBytes(): Option<string>
      requires PINNED in entries ==> entries[PINNED] in content
      reads this
    {
      if PINNED in entries then Some(content[entries[PINNED]]) else None
    }

    predicate Matches(bytes: string, expected: string) { Lower(digest(bytes)) == Lower(expected) }

    ghost predicate PinnedMatches(expected: string)
      reads this
    {
      PINNED in entries && entries[PINNED] in content && Matches(content[entries[PINNED]], expected)
    }

    constructor (digest: string -> string)
      ensures Valid() && entries == map[] && live == {} && this.digest == digest
    {
      this.digest := digest;
      entries, content, next, live, image := map[], map[], 0, {}, map[];
    }

    // ---------- what the file system and the session processes do ----------

    method RunnerStarts()
      requires Valid()
      modifies this`live, this`image
      ensures Valid() && Within(old(image), image)
    {
      NamesAreApart(PINNED);
      if PINNED in entries {
        var i := entries[PINNED];
        image := image[i := content[i]];
        live := live + {i};
      }
    }

    method RunnerExits(i: nat)
      requires Valid()
      modifies this`live
      ensures Valid()
    {
      live := live - {i};
    }

    // MoveFileEx with replacement: the moved file may be in use, the replaced one may not.
    method Rename(from: string, to: string) returns (ok: bool)
      requires Valid() && Holds(to) && from != to
      modifies this`entries
      ensures Valid()
      ensures ok ==> from in old(entries) && entries == old(entries)[to := old(entries)[from]] - {from}
      ensures !ok ==> entries == old(entries)
    {
      NamesAreApart(to);
      ok := *;
      ok := ok && from in entries && (to in entries ==> entries[to] !in live);
      if ok {
        var moved := entries[from];
        ghost var before := entries;
        entries := entries[to := moved] - {from};
        forall i | i in live ensures Linked(i) {
          var n :| n in before && before[n] == i && Holds(n);
          if n == from {
            assert to in entries && entries[to] == i;
          } else {
            assert n != to && n in entries && entries[n] == i;
          }
        }
      }
    }

    method RemoveFile(name: string) returns (ok: bool)
      requires Valid()
      modifies this`entries
      ensures Valid()
      ensures ok ==> name in old(entries) && old(entries)[name] !in live && entries == old(entries) - {name}
      ensures !ok ==> entries == old(entries)
    {
      ok := *;
      ok := ok && name in entries && entries[name] !in live;
      if ok {
        ghost var before := entries;
        entries := entries - {name};
        forall i | i in live ensures Linked(i) {
          var n :| n in before && before[n] == i && Holds(n);
          assert n != name && n in entries && entries[n] == i;
        }
      }
    }

    // fs::copy: creates the name or overwrites the file already there; a failed copy may leave anything.
    method CopyTo(name: string) returns (ok: bool)
      requires Valid() && IsStaged(name)
      modifies this`entries, this`content, this`next
      ensures Valid()
      ensures ok ==> name in entries
      ensures entries - {name} == old(entries) - {name}
      ensures forall n :: n in old(entries) && n != name ==>
                old(entries)[n] in content && content[old(entries)[n]] == old(content)[old(entries)[n]]
    {
      NamesAreApart(name);
      ok := *;
      var leaves: bool := *;
      if !ok && !leaves { return; }
      var bytes: string :| true;
      if name in entries {
        content := content[entries[name] := bytes];
      } else {
        ghost var before := entries;
        entries := entries[name := next];
        content := content[next := bytes];
        next := next + 1;
        forall i | i in live ensures Linked(i) {
          var n :| n in before && before[n] == i && Holds(n);
          assert n in entries && entries[n] == i;
        }
      }
    }

    // One step of another Sessions process activating or sweeping; it never uses the name `mine` except to sweep it.
    method OtherProcess(mine: string)
      requires Valid()
      modifies this`entries, this`content, this`next
      ensures Valid()
      ensures mine in entries && IsStaged(mine) ==>
                mine in old(entries) && entries[mine] == old(entries)[mine] && content[entries[mine]] == old(content)[old(entries)[mine]]
    {
      var suffix: string :| true;
      var retired, staged := RETIRED_PREFIX + suffix, STAGED_PREFIX + suffix;
      NamesAreApart(retired);
      NamesAreApart(staged);
      NamesAreApart(mine);
      NamesAreApart(PINNED);
      var ok: bool;
      var choice: int :| true;
      if choice == 0 {
        ok := Rename(PINNED, retired);
      } else if choice == 1 && staged != mine {
        ok := CopyTo(staged);
        assert mine in entries ==> mine in entries - {staged};
        assert mine in entries ==> (entries - {staged})[mine] == (old(entries) - {staged})[mine];
      } else if choice == 2 && staged != mine {
        ok := Rename(staged, PINNED);
      } else if choice == 3 {
        ok := Rename(retired, PINNED);
      } else if choice == 4 {
        ok := RemoveFile(retired);
      } else if choice == 5 {
        ok := RemoveFile(staged);
      }
    }

    // Whatever happens between two steps of this process. Alone, only runners come and go.
    method Meanwhile(alone: bool, mine: string)
      requires Valid()
      modifies this
      ensures Valid() && Within(old(image), image)
      ensures alone ==> entries == old(entries) && content == old(content)
      ensures mine in entries && IsStaged(mine) ==>
                mine in old(entries) && entries[mine] == old(entries)[mine] && content[entries[mine]] == old(content)[old(entries)[mine]]
    {
      var budget: nat :| budget >= 0;
      while budget > 0
        invariant Valid() && Within(old(image), image)
        invariant alone ==> entries == old(entries) && content == old(content)
        invariant mine in entries && IsStaged(mine) ==>
            mine in old(entries) && entries[mine] == old(entries)[mine] && content[entries[mine]] == old(content)[old(entries)[mine]]
      {
        var starts: bool := *;
        var exits: bool := *;
        if starts {
          RunnerStarts();
        } else if exits {
          var i: nat :| i >= 0;
          RunnerExits(i);
        } else if !alone {
          OtherProcess(mine);
        }
        budget := budget - 1;
      }
    }

    method ReadMatches(name: string, expected: string) returns (ok: bool)
      requires Valid()
      ensures ok ==> name in entries && entries[name] in content && Matches(content[entries[name]], expected)
    {
      var readable: bool := *;
      ok := readable && name in entries && Matches(content[entries[name]], expected);
    }

    // ---------- activate_stable_runner ----------

    method Stage(staged: string, expected: string, alone: bool) returns (ok: bool)
      requires Valid() && IsStaged(staged)
      modifies this
      ensures Valid() && Within(old(image), image)
      ensures ok ==> staged in entries && entries[staged] in content && Matches(content[entries[staged]], expected)
      ensures alone ==> PinnedKept(old(entries), old(content))
    {
      NamesAreApart(staged);
      ok := CopyTo(staged);
      assert PINNED in old(entries) - {staged} <==> PINNED in entries - {staged};
      Meanwhile(alone, staged);
      if ok {
        ok := *; // protect
      }
      if ok {
        ok := ReadMatches(staged, expected);
      }
    }

    method DiscardStaged(staged: string, alone: bool)
      requires Valid() && IsStaged(staged)
      modifies this
      ensures Valid() && Within(old(image), image)
      ensures alone ==> entries == old(entries) || entries == old(entries) - {staged}
      ensures alone ==> content == old(content)
    {
      NamesAreApart(staged);
      var removed := RemoveFile(staged);
      Meanwhile(alone, staged);
    }

    // The pinned name leads to the same inode with the same bytes, or to nothing as before.
    ghost predicate PinnedKept(before: map<string, nat>, bytes: map<nat, string>)
      reads this
    {
      && (PINNED in entries <==> PINNED in before)
      && (PINNED in entries ==>
            && entries[PINNED] == before[PINNED]
            && entries[PINNED] in content && entries[PINNED] in bytes
            && content[entries[PINNED]] == bytes[entries[PINNED]])
    }

    // Name a now leads to the inode and the bytes name b led to before.
    ghost predicate SameFile(a: string, b: string, before: map<string, nat>, bytes: map<nat, string>)
      reads this
    {
      && a in entries && b in before && entries[a] == before[b]
      && entries[a] in content && entries[a] in bytes && content[entries[a]] == bytes[entries[a]]
    }

    // The new runner could not be renamed in: put the retired one back, if there is one.
    method UndoSwap(staged: string, retired: string, present: bool, alone: bool) returns (r: Activation)
      requires Valid() && IsStaged(staged) && IsRetired(retired)
      modifies this
      ensures Valid() && Within(old(image), image)
      ensures r.SwapFailed? || (r.RestoreFailed? && present)
      ensures alone && !present ==> PinnedKept(old(entries), old(content))
      ensures alone && present && retired in old(entries) ==>
                if r.SwapFailed? then SameFile(PINNED, retired, old(entries), old(content))
                else SameFile(retired, retired, old(entries), old(content))
    {
      NamesAreApart(retired);
      DiscardStaged(staged, alone);
      if !present { return SwapFailed; }
      var ok := Rename(retired, PINNED);
      r := if ok then SwapFailed else RestoreFailed;
    }

    // Rename the staged runner in and check what is pinned; if that fails, undo.
    method RenameIn(staged: string, retired: string, expected: string, present: bool, alone: bool) returns (r: Activation)
      requires Valid() && IsStaged(staged) && IsRetired(retired)
      requires staged in entries ==> Matches(content[entries[staged]], expected)
      modifies this
      ensures Valid() && Within(old(image), image) && !r.StageFailed? && !r.RetireFailed?
      ensures r.Activated? || (alone && r.VerifyFailed?) ==> PinnedMatches(expected)
      ensures r.RestoreFailed? ==> present
      ensures alone && !present && r.SwapFailed? ==> PinnedKept(old(entries), old(content))
      ensures alone && present && retired in old(entries) ==>
                && (r.SwapFailed? ==> SameFile(PINNED, retired, old(entries), old(content)))
                && (r.RestoreFailed? ==> SameFile(retired, retired, old(entries), old(content)))
    {
      NamesAreApart(staged);
      NamesAreApart(retired);
      var ok := Rename(staged, PINNED);
      if !ok {
        r := UndoSwap(staged, retired, present, alone);
        return;
      }
      Meanwhile(alone, staged);
      ok := ReadMatches(PINNED, expected);
      r := if ok then Activated else VerifyFailed;
    }

    // Rename aside, rename in; if that fails, rename back.
    method Swap(staged: string, retired: string, expected: string, alone: bool) returns (r: Activation)
      requires Valid() && IsStaged(staged) && IsRetired(retired)
      requires staged in entries ==> Matches(content[entries[staged]], expected)
      modifies this
      ensures Valid() && Within(old(image), image) && !r.StageFailed?
      ensures r.Activated? ==> PinnedMatches(expected)
      ensures alone && (r.RetireFailed? || r.SwapFailed?) ==> PinnedKept(old(entries), old(content))
      ensures alone && r.VerifyFailed? ==> PinnedMatches(expected)
      ensures alone && r.RestoreFailed? ==> SameFile(retired, PINNED, old(entries), old(content))
    {
      NamesAreApart(staged);
      NamesAreApart(retired);
      NamesAreApart(PINNED);
      Meanwhile(alone, staged);
      var present: bool := *; // symlink_metadata
      present := present && PINNED in entries;
      var ok, removed;
      if present {
        ok := Rename(PINNED, retired);
        if !ok {
          removed := RemoveFile(staged);
          return RetireFailed;
        }
      }
      Meanwhile(alone, staged);
      r := RenameIn(staged, retired, expected, present, alone);
    }

    // What an activation leaves behind: a failure keeps the previous runner pinned or has pinned the verified new
    // one, and a failed restore leaves the previous bytes under a retired name.
    ghost predicate ActivationLeft(r: Activation, expected: string, before: map<string, nat>, bytes: map<nat, string>)
      reads this
    {
      match r
      case StageFailed => PinnedKept(before, bytes)
      case RetireFailed => PinnedKept(before, bytes)
      case SwapFailed => PinnedKept(before, bytes)
      case RestoreFailed => exists n :: IsRetired(n) && SameFile(n, PINNED, before, bytes)
      case VerifyFailed => PinnedMatches(expected)
      case Activated => PinnedMatches(expected)
    }

    // Live runners keep their bytes whatever the outcome and whoever else is at work. Ok means the pinned bytes
    // match the digest. What a failure leaves is known while no other process is at work. `created`: the root is there.
    method ActivateStableRunner(expected: string, alone: bool, created: bool) returns (r: Activation)
      requires Valid()
      modifies this
      ensures Valid() && Within(old(image), image)
      ensures r.Activated? ==> PinnedMatches(expected)
      ensures alone ==> ActivationLeft(r, expected, old(entries), old(content))
      ensures !created && !old(PinnedMatches(expected)) ==> r.StageFailed?
    {
      var current := ReadMatches(PINNED, expected);
      if current { return Activated; }
      if !created { return StageFailed; }
      var a: string, b: string :| true;
      var staged, retired := STAGED_PREFIX + a, RETIRED_PREFIX + b;
      var ok := Stage(staged, expected, alone);
      if !ok {
        DiscardStaged(staged, alone);
        return StageFailed;
      }
      r := Swap(staged, retired, expected, alone);
    }

    // ---------- sweep_retired_runners ----------

    // Collects only retired and staged files, never one that is being executed, and counts what it removed.
    method SweepRetiredRunners(alone: bool) returns (removed: nat)
      requires Valid()
      modifies this
      ensures Valid() && Within(old(image), image)
      ensures alone ==>
                && content == old(content)
                && Within(entries, old(entries))
                && (forall n :: n in old(entries) && n !in entries ==> Collectable(n))
                && removed == |old(entries)| - |entries|
    {
      removed := 0;
      var listed: bool := *;
      if !listed { return; }
      var names := entries.Keys;
      while names != {}
        invariant Valid() && Within(old(image), image)
        invariant alone ==> content == old(content)
        invariant alone ==> Within(entries, old(entries))
        invariant alone ==> forall n :: n in old(entries) && n !in entries ==> Collectable(n)
        invariant alone ==> removed == |old(entries)| - |entries|
        decreases names
      {
        var name :| name in names;
        names := names - {name};
        var gone := SweepOne(name, alone);
        removed := removed + gone;
      }
    }

    method SweepOne(name: string, alone: bool) returns (gone: nat)
      requires Valid()
      modifies this
      ensures Valid() && Within(old(image), image)
      ensures alone ==> content == old(content) && gone <= 1
      ensures alone && gone == 0 ==> entries == old(entries)
      ensures alone && gone == 1 ==> Collectable(name) && name in old(entries) && entries == old(entries) - {name}
    {
      gone := 0;
      Meanwhile(alone, name);
      var stale: bool := *;
      if IsRetired(name) || (IsStaged(name) && stale) {
        var ok := RemoveFile(name);
        gone := if ok then 1 else 0;
      }
    }

    // ---------- every run ----------

    // Any sequence of activations and sweeps, with runners starting and exiting and other processes at work
    // throughout: whoever runs stays linked, and an inode that was ever executed still has the bytes it started with.
    method AnyRun(steps: nat)
      requires Valid()
      modifies this
      ensures Valid() && Within(old(image), image)
      ensures forall i :: i in live ==> Linked(i)
      ensures forall i :: i in old(image) ==> i in content && content[i] == old(image)[i]
    {
      for k := 0 to steps
        invariant Valid() && Within(old(image), image)
      {
        Meanwhile(false, "");
        var sweeps: bool := *;
        if sweeps {
          var removed := SweepRetiredRunners(false);
        } else {
          var expected: string :| true;
          var created: bool := *;
          var r := ActivateStableRunner(expected, false, created);
        }
      }
    }
  }

  // The pinned file may be named by a definition: it exists and is not empty.
  predicate StableRunnerIsPresent(bytes: Option<string>) { bytes.Some? && bytes.value != "" }
}
