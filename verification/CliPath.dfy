/** windows_cli_path.rs: adding the Sessions entry to the user PATH and taking it back. */
module CliPath {
  import opened Text

  // ---------- windows_path_key ----------

  // char::is_whitespace, the White_Space property of Unicode.
  predicate IsSpace(c: char) {
    var n := c as int;
    || 0x09 <= n <= 0x0D || n == 0x20 || n == 0x85 || n == 0xA0 || n == 0x1680
    || 0x2000 <= n <= 0x200A || n == 0x2028 || n == 0x2029 || n == 0x202F || n == 0x205F || n == 0x3000
  }

  predicate IsQuote(c: char) { c == '"' }

  predicate IsBackslash(c: char) { c == '\\' }

  function TrimStart(s: string, drop: char -> bool): string {
    if s != "" && drop(s[0]) then TrimStart(s[1..], drop) else s
  }

  function TrimEnd(s: string, drop: char -> bool): string {
    if s != "" && drop(s[|s| - 1]) then TrimEnd(s[..|s| - 1], drop) else s
  }

  function Trim(s: string, drop: char -> bool): string { TrimEnd(TrimStart(s, drop), drop) }

  function Backslashed(s: string): (r: string)
    ensures |r| == |s|
    ensures forall i :: 0 <= i < |s| ==> r[i] == if s[i] == '/' then '\\' else s[i]
  {
    seq(|s|, i requires 0 <= i < |s| => if s[i] == '/' then '\\' else s[i])
  }

  function Key(value: string): string {
    Lower(TrimEnd(Backslashed(Trim(Trim(value, IsSpace), IsQuote)), IsBackslash))
  }

  predicate Managed(entry: string, root: string) {
    var key := Key(entry);
    key != "" && (key == Key(root) || Key(root) + "\\" <= key)
  }

  // ---------- the components that are not ours ----------

  function Ours(root: string): string -> bool { entry => Managed(entry, root) }

  function Kept(parts: seq<string>, drop: string -> bool): seq<string> {
    if parts == [] then []
    else
      var last := parts[|parts| - 1];
      Kept(parts[..|parts| - 1], drop) + if drop(last) then [] else [last]
  }

  function Unmanaged(current: string, root: string): seq<string> {
    if current == "" then [] else Kept(Split(current, ';'), Ours(root))
  }

  method UnmanagedEntries(current: string, root: string) returns (entries: seq<string>)
    ensures entries == Unmanaged(current, root)
  {
    var managedKey := Key(root);
    var managedPrefix := managedKey + "\\";
    var parts := Split(current, ';');
    entries := [];
    EmptyKey();
    assert current == "" ==> parts == [""];
    for i := 0 to |parts|
      invariant entries == if current == "" then [] else Kept(parts[..i], Ours(root))
    {
      KeptStep(parts, i, Ours(root));
      var key := Key(parts[i]);
      if key == "" {
        if current != "" {
          entries := entries + [parts[i]];
        }
        continue;
      }
      if key == managedKey || managedPrefix <= key {
        continue;
      }
      entries := entries + [parts[i]];
    }
    assert parts[..|parts|] == parts;
  }

  lemma KeptStep(parts: seq<string>, i: nat, drop: string -> bool)
    requires i < |parts|
    ensures Kept(parts[..i + 1], drop) == Kept(parts[..i], drop) + if drop(parts[i]) then [] else [parts[i]]
  {
    assert parts[..i + 1][..i] == parts[..i];
  }

  function Merge(current: string, root: string, runtime: string): string {
    var entries := Unmanaged(current, root);
    if entries == [] then runtime else runtime + ";" + Join(entries, ";")
  }

  function Remove(current: string, root: string): string { Join(Unmanaged(current, root), ";") }

  // ---------- what survives ----------

  // The positions kept, in order.
  ghost function KeptAt(parts: seq<string>, drop: string -> bool): (at: seq<nat>)
    ensures |at| == |Kept(parts, drop)|
    ensures forall k :: 0 <= k < |at| ==> at[k] < |parts|
  {
    if parts == [] then []
    else KeptAt(parts[..|parts| - 1], drop) + if drop(parts[|parts| - 1]) then [] else [|parts| - 1]
  }

  // Every component that is not managed survives unchanged and in its original order; nothing else does.
  lemma KeptIsTheUnmanagedSubsequence(parts: seq<string>, drop: string -> bool)
    ensures forall j, k :: 0 <= j < k < |KeptAt(parts, drop)| ==> KeptAt(parts, drop)[j] < KeptAt(parts, drop)[k]
    ensures forall k :: 0 <= k < |KeptAt(parts, drop)| ==> Kept(parts, drop)[k] == parts[KeptAt(parts, drop)[k]]
    ensures forall i :: 0 <= i < |parts| ==> (i in KeptAt(parts, drop) <==> !drop(parts[i]))
  {
    KeptInOrder(parts, drop);
    KeptUnchanged(parts, drop);
    KeptExactlyUnmanaged(parts, drop);
  }

  lemma {:induction false} KeptInOrder(parts: seq<string>, drop: string -> bool)
    ensures forall j, k :: 0 <= j < k < |KeptAt(parts, drop)| ==> KeptAt(parts, drop)[j] < KeptAt(parts, drop)[k]
  {
    if parts != [] {
      KeptInOrder(parts[..|parts| - 1], drop);
    }
  }

  lemma {:induction false} KeptUnchanged(parts: seq<string>, drop: string -> bool)
    ensures forall k :: 0 <= k < |KeptAt(parts, drop)| ==> Kept(parts, drop)[k] == parts[KeptAt(parts, drop)[k]]
  {
    if parts != [] {
      KeptUnchanged(parts[..|parts| - 1], drop);
    }
  }

  lemma {:induction false} KeptExactlyUnmanaged(parts: seq<string>, drop: string -> bool)
    ensures forall i :: 0 <= i < |parts| ==> (i in KeptAt(parts, drop) <==> !drop(parts[i]))
  {
    if parts != [] {
      var last := |parts| - 1;
      var front := parts[..last];
      KeptExactlyUnmanaged(front, drop);
      var before, at := KeptAt(front, drop), KeptAt(parts, drop);
      assert last !in before;
      assert forall i :: i in at <==> i in before || (i == last && !drop(parts[last]));
      assert forall i :: 0 <= i < last ==> front[i] == parts[i];
    }
  }

  lemma {:induction false} KeptConcat(a: seq<string>, b: seq<string>, drop: string -> bool)
    ensures Kept(a + b, drop) == Kept(a, drop) + Kept(b, drop)
    decreases |b|
  {
    if b == [] {
      assert a + b == a;
    } else {
      var front := b[..|b| - 1];
      KeptConcat(a, front, drop);
      assert (a + b)[..|a + b| - 1] == a + front;
    }
  }

  lemma {:induction false} KeptShape(parts: seq<string>, drop: string -> bool)
    ensures forall i :: 0 <= i < |Kept(parts, drop)| ==> Kept(parts, drop)[i] in parts && !drop(Kept(parts, drop)[i])
    ensures |Kept(parts, drop)| <= |parts|
    ensures (forall i :: 0 <= i < |parts| ==> !drop(parts[i])) <==> Kept(parts, drop) == parts
  {
    if parts != [] {
      var front := parts[..|parts| - 1];
      KeptShape(front, drop);
      assert parts == front + [parts[|parts| - 1]];
      if drop(parts[|parts| - 1]) {
        assert |Kept(parts, drop)| < |parts|;
      } else if Kept(parts, drop) == parts {
        assert Kept(front, drop) == front;
      }
    }
  }

  lemma EmptyKey()
    ensures Key("") == ""
  {
    assert Trim("", IsSpace) == "" && Trim("", IsQuote) == "" && Backslashed("") == "";
  }

  lemma UnmanagedOfJoin(parts: seq<string>, root: string)
    requires parts != []
    requires forall i :: 0 <= i < |parts| ==> ';' !in parts[i]
    ensures Unmanaged(Join(parts, ";"), root) == if parts == [""] then [] else Kept(parts, Ours(root))
  {
    SplitUndoesJoin(parts, ';');
    if Join(parts, ";") == "" {
      assert Split("", ';') == [""];
    }
  }

  lemma EntriesOfRemove(current: string, root: string)
    ensures Unmanaged(Remove(current, root), root) ==
            if Unmanaged(current, root) == [""] then [] else Unmanaged(current, root)
  {
    var entries := Unmanaged(current, root);
    KeptShape(Split(current, ';'), Ours(root));
    if entries != [] {
      UnmanagedOfJoin(entries, root);
      KeptShape(entries, Ours(root));
    }
  }

  // What is kept can be joined and read again.
  lemma KeptEntries(current: string, root: string)
    ensures var entries := Unmanaged(current, root);
            (forall i :: 0 <= i < |entries| ==> ';' !in entries[i]) && Kept(entries, Ours(root)) == entries
  {
    KeptShape(Split(current, ';'), Ours(root));
    KeptShape(Unmanaged(current, root), Ours(root));
  }

  lemma KeptAfterOurs(runtime: string, entries: seq<string>, root: string)
    requires Managed(runtime, root) && Kept(entries, Ours(root)) == entries
    ensures Kept([runtime] + entries, Ours(root)) == entries
  {
    KeptConcat([runtime], entries, Ours(root));
    assert Kept([runtime], Ours(root)) == [];
  }

  lemma ManagedIsNotEmpty(runtime: string, root: string)
    requires Managed(runtime, root)
    ensures runtime != ""
  {
    EmptyKey();
  }

  lemma MergeIsJoin(current: string, root: string, runtime: string)
    ensures Merge(current, root, runtime) == Join([runtime] + Unmanaged(current, root), ";")
  {
    if Unmanaged(current, root) != [] { JoinCons(runtime, Unmanaged(current, root), ";"); }
  }

  lemma EntriesOfMerge(current: string, root: string, runtime: string)
    requires Managed(runtime, root) && ';' !in runtime
    ensures Unmanaged(Merge(current, root, runtime), root) == Unmanaged(current, root)
  {
    var entries := Unmanaged(current, root);
    var all := [runtime] + entries;
    KeptEntries(current, root);
    KeptAfterOurs(runtime, entries, root);
    ManagedIsNotEmpty(runtime, root);
    MergeIsJoin(current, root, runtime);
    UnmanagedOfJoin(all, root);
  }

  // ---------- the laws ----------

  lemma MergeIsIdempotent(current: string, root: string, runtime: string)
    requires Managed(runtime, root) && ';' !in runtime
    ensures Merge(Merge(current, root, runtime), root, runtime) == Merge(current, root, runtime)
  {
    EntriesOfMerge(current, root, runtime);
  }

  lemma RemoveUndoesMerge(current: string, root: string, runtime: string)
    requires Managed(runtime, root) && ';' !in runtime
    ensures Remove(Merge(current, root, runtime), root) == Remove(current, root)
  {
    EntriesOfMerge(current, root, runtime);
  }

  lemma RemoveIsIdempotent(current: string, root: string)
    ensures Remove(Remove(current, root), root) == Remove(current, root)
  {
    EntriesOfRemove(current, root);
  }

  // Nothing is rewritten exactly when nothing is ours.
  lemma RemoveLeavesAnUntouchedPathAlone(current: string, root: string)
    ensures Remove(current, root) == current <==>
            forall i :: 0 <= i < |Split(current, ';')| ==> !Managed(Split(current, ';')[i], root)
  {
    var parts := Split(current, ';');
    var entries := Unmanaged(current, root);
    EmptyKey();
    KeptShape(parts, Ours(root));
    JoinUndoesSplit(current, ';');
    if current != "" && Remove(current, root) == current {
      assert entries != [];
      SplitUndoesJoin(entries, ';');
      assert entries == parts;
    }
  }

  // Exactly one component is not ours, and it is empty.
  ghost predicate OnlyAnEmptyComponentIsForeign(parts: seq<string>, root: string) {
    exists i :: 0 <= i < |parts| && parts[i] == "" && forall j :: 0 <= j < |parts| && j != i ==> Managed(parts[j], root)
  }

  lemma {:induction false} NothingKept(parts: seq<string>, drop: string -> bool)
    ensures Kept(parts, drop) == [] <==> forall i :: 0 <= i < |parts| ==> drop(parts[i])
  {
    if parts != [] {
      var front := parts[..|parts| - 1];
      NothingKept(front, drop);
      assert forall i :: 0 <= i < |front| ==> front[i] == parts[i];
    }
  }

  ghost predicate OnlyKeeps(parts: seq<string>, drop: string -> bool, i: nat) {
    i < |parts| && !drop(parts[i]) && forall j :: 0 <= j < |parts| && j != i ==> drop(parts[j])
  }

  lemma {:induction false} OnlyOneIsKept(parts: seq<string>, drop: string -> bool, i: nat)
    requires OnlyKeeps(parts, drop, i)
    ensures Kept(parts, drop) == [parts[i]]
  {
    var n := |parts| - 1;
    var front := parts[..n];
    if i == n {
      NothingKept(front, drop);
    } else {
      assert OnlyKeeps(front, drop, i);
      OnlyOneIsKept(front, drop, i);
    }
  }

  lemma {:induction false} TheOneKept(parts: seq<string>, drop: string -> bool) returns (i: nat)
    requires |Kept(parts, drop)| == 1
    ensures OnlyKeeps(parts, drop, i) && Kept(parts, drop) == [parts[i]]
  {
    var n := |parts| - 1;
    var front := parts[..n];
    assert forall j :: 0 <= j < n ==> front[j] == parts[j];
    if drop(parts[n]) {
      i := TheOneKept(front, drop);
    } else {
      NothingKept(front, drop);
      i := n;
    }
  }

  lemma OneKept(parts: seq<string>, root: string)
    ensures Kept(parts, Ours(root)) == [""] <==> OnlyAnEmptyComponentIsForeign(parts, root)
  {
    EmptyKey();
    if |Kept(parts, Ours(root))| == 1 {
      var i := TheOneKept(parts, Ours(root));
      assert forall j :: 0 <= j < |parts| && j != i ==> Managed(parts[j], root);
    }
    if OnlyAnEmptyComponentIsForeign(parts, root) {
      var i :| 0 <= i < |parts| && parts[i] == "" && forall j :: 0 <= j < |parts| && j != i ==> Managed(parts[j], root);
      assert OnlyKeeps(parts, Ours(root), i);
      OnlyOneIsKept(parts, Ours(root), i);
    }
  }

  // Installing after an uninstall gives what installing gives, unless the only foreign component of a PATH that is not
  // empty is one empty string.
  lemma MergeAfterRemove(current: string, root: string, runtime: string)
    requires Managed(runtime, root) && ';' !in runtime
    ensures Merge(Remove(current, root), root, runtime) == Merge(current, root, runtime) <==>
            current == "" || !OnlyAnEmptyComponentIsForeign(Split(current, ';'), root)
  {
    EntriesOfRemove(current, root);
    OneKept(Split(current, ';'), root);
    if Unmanaged(current, root) == [""] {
      assert |Merge(current, root, runtime)| == |runtime| + 1;
    }
  }

  // A PATH that holds only our entry and a trailing separator loses the separator.
  lemma TrailingSeparatorIsLost(root: string, runtime: string)
    requires Managed(runtime, root) && ';' !in runtime
    ensures var current := runtime + ";";
            && OnlyAnEmptyComponentIsForeign(Split(current, ';'), root)
            && Merge(current, root, runtime) == current
            && Merge(Remove(current, root), root, runtime) == runtime
  {
    var current := runtime + ";";
    assert current == runtime + [';'] + "";
    SplitAtFirst(runtime, "", ';');
    var parts := Split(current, ';');
    assert parts == [runtime, ""] && parts[1] == "";
    OneKept(parts, root);
    assert Unmanaged(current, root) == [""];
    assert Remove(current, root) == "";
  }

  // ---------- a versioned runtime directory is managed ----------

  lemma {:induction false} TrimStartStopsInside(s: string, tail: string, drop: char -> bool)
    requires TrimStart(s, drop) != ""
    ensures TrimStart(s + tail, drop) == TrimStart(s, drop) + tail
  {
    if s != "" && drop(s[0]) {
      assert (s + tail)[1..] == s[1..] + tail;
      TrimStartStopsInside(s[1..], tail, drop);
    }
  }

  lemma {:induction false} TrimStartKeepsLast(s: string, drop: char -> bool)
    requires TrimStart(s, drop) != ""
    ensures s != "" && TrimStart(s, drop)[|TrimStart(s, drop)| - 1] == s[|s| - 1]
  {
    if s != "" && drop(s[0]) {
      TrimStartKeepsLast(s[1..], drop);
    }
  }

  lemma NormaliseConcat(a: string, b: string)
    ensures Lower(Backslashed(a + b)) == Lower(Backslashed(a)) + Lower(Backslashed(b))
  {
  }

  function Stripped(s: string): string { TrimStart(TrimStart(s, IsSpace), IsQuote) }

  // A text whose last character no trimming step drops keeps everything after its leading blanks and quotes.
  lemma KeyOfFirmText(s: string)
    requires Stripped(s) != ""
    requires s != "" && !IsSpace(s[|s| - 1]) && s[|s| - 1] !in {'"', '\\', '/'}
    ensures Key(s) == Lower(Backslashed(Stripped(s)))
  {
    var a := TrimStart(s, IsSpace);
    assert a != "" by { assert TrimStart("", IsQuote) == ""; }
    TrimStartKeepsLast(s, IsSpace);
    TrimStartKeepsLast(a, IsQuote);
    assert Trim(s, IsSpace) == a;
    assert Trim(a, IsQuote) == TrimStart(a, IsQuote);
  }

  lemma StrippedKeepsTail(root: string, tail: string)
    requires Stripped(root) != ""
    ensures Stripped(root + tail) == Stripped(root) + tail
  {
    var a := TrimStart(root, IsSpace);
    assert a != "" by { assert TrimStart("", IsQuote) == ""; }
    TrimStartStopsInside(root, tail, IsSpace);
    TrimStartStopsInside(a, tail, IsQuote);
  }

  lemma NormalTail(version: string)
    ensures Lower(Backslashed("\\" + version)) == "\\" + Lower(Backslashed(version))
  {
    NormaliseConcat("\\", version);
    assert Lower(Backslashed("\\")) == "\\";
  }

  // The key of a versioned directory extends the key of its root by one component.
  lemma KeyOfChild(root: string, version: string)
    requires version != "" && forall i :: 0 <= i < |version| ==> IsVersionCharacter(version[i])
    requires Stripped(root) != "" && !IsSpace(root[|root| - 1]) && root[|root| - 1] !in {'"', '\\', '/'}
    ensures Key(root + "\\" + version) == Key(root) + "\\" + Lower(Backslashed(version))
  {
    var tail := "\\" + version;
    var runtime := root + tail;
    assert root + "\\" + version == runtime;
    StrippedKeepsTail(root, tail);
    assert runtime[|runtime| - 1] == version[|version| - 1];
    assert IsVersionCharacter(version[|version| - 1]);
    KeyOfFirmText(root);
    KeyOfFirmText(runtime);
    NormaliseConcat(Stripped(root), tail);
    NormalTail(version);
  }

  // Every directory `root\version` the installer stages is recognised as managed.
  lemma StagedRuntimeIsManaged(root: string, version: string)
    requires version != "" && forall i :: 0 <= i < |version| ==> IsVersionCharacter(version[i])
    requires Stripped(root) != "" && !IsSpace(root[|root| - 1]) && root[|root| - 1] !in {'"', '\\', '/'}
    ensures Managed(root + "\\" + version, root)
  {
    KeyOfChild(root, version);
    assert Key(root) + "\\" <= Key(root) + "\\" + Lower(Backslashed(version));
  }
}
