/** lifecycle_install.rs `install_cli_link` and lifecycle.rs `remove_macos_integration`:
    publishing the `sessions` command link and taking it back.

    A path is its components. The file system maps paths to regular files and symbolic links. */
module CliLink {
  import opened Wrappers

  type Path = seq<string>

  datatype Target = Absolute(path: Path) | Relative(path: Path)

  datatype Node = RegularFile | Link(target: Target)

  type Tree = map<Path, Node>

  const COMMAND := "sessions"
  const TEMPORARY_PREFIX := ".sessions-link-"

  predicate IsTemporary(p: Path) { p != [] && TEMPORARY_PREFIX <= p[|p| - 1] }

  // Where a link at `at` leads: a relative target starts from the link's directory.
  function Resolve(at: Path, target: Target): Path
    requires at != []
  {
    match target
    case Absolute(p) => p
    case Relative(p) => at[..|at| - 1] + p
  }

  predicate NamesCommandUnder(p: Path, root: Path) { p != [] && p[|p| - 1] == COMMAND && root <= p }

  datatype Layout = Layout(candidates: seq<Path>, managedRoot: Path, sourceDir: Path, plist: Path) {
    predicate WellFormed() {
      && (forall c :: c in candidates ==> !IsTemporary(c))
      && plist !in candidates
    }

    // What the installer regards as its own link: into the managed runtime or the bundled one.
    predicate InstallOwns(tree: Tree, c: Path) {
      && c != [] && c in tree && tree[c].Link?
      && (var to := Resolve(c, tree[c].target); NamesCommandUnder(to, managedRoot) || NamesCommandUnder(to, sourceDir))
    }

    // What the uninstaller regards as its own link: into the managed runtime only.
    predicate RemovalOwns(tree: Tree, c: Path) {
      c != [] && c in tree && tree[c].Link? && NamesCommandUnder(Resolve(c, tree[c].target), managedRoot)
    }
  }

  // Outside the temporary links, the trees agree at p.
  ghost predicate Same(a: Tree, b: Tree, p: Path) { (p in a <==> p in b) && (p in a ==> a[p] == b[p]) }

  // ---------- the results as functions of the tree ----------

  // Every owned candidate repointed, nothing else touched.
  ghost predicate Repointed(before: Tree, after: Tree, l: Layout, target: Path) {
    && (forall c :: c in l.candidates && l.InstallOwns(before, c) ==> c in after && after[c] == Link(Absolute(target)))
    && (forall p :: !IsTemporary(p) && !(p in l.candidates && l.InstallOwns(before, p)) ==> Same(before, after, p))
  }

  // Exactly one link more, at a candidate where nothing was.
  ghost predicate Published(before: Tree, after: Tree, l: Layout, target: Path, at: Path) {
    && at in l.candidates && at !in before && at in after && after[at] == Link(Absolute(target))
    && forall p :: !IsTemporary(p) && p != at ==> Same(before, after, p)
  }

  function Uninstalled(tree: Tree, l: Layout): Tree {
    map p | p in tree && p != l.plist && !(p in l.candidates && l.RemovalOwns(tree, p)) :: tree[p]
  }

  // A second removal changes nothing.
  lemma UninstallingIsIdempotent(tree: Tree, l: Layout)
    ensures Uninstalled(Uninstalled(tree, l), l) == Uninstalled(tree, l)
  {
    var once := Uninstalled(tree, l);
    forall p | p in once ensures p in l.candidates ==> !l.RemovalOwns(once, p) {
      assert once[p] == tree[p];
    }
  }

  // Uninstalling after a successful install leaves no link the installer owned or made, and everything else as it was.
  lemma UninstallUndoesInstall(before: Tree, after: Tree, l: Layout, target: Path, at: Path)
    requires l.WellFormed() && NamesCommandUnder(target, l.managedRoot) && [] !in l.candidates
    requires Repointed(before, after, l, target) || Published(before, after, l, target, at)
    ensures forall c :: c in l.candidates && l.InstallOwns(before, c) && Repointed(before, after, l, target) ==> c !in Uninstalled(after, l)
    ensures Published(before, after, l, target, at) ==> at !in Uninstalled(after, l)
    ensures forall p :: !IsTemporary(p) && p != l.plist && !(p in l.candidates && l.InstallOwns(before, p)) ==>
              Same(before, Uninstalled(after, l), p)
  {
    forall p | !IsTemporary(p) && p != l.plist && !(p in l.candidates && l.InstallOwns(before, p))
      ensures Same(before, Uninstalled(after, l), p)
    {
      if !(Published(before, after, l, target, at) && p == at) {
        assert Same(before, after, p);
        assert l.RemovalOwns(after, p) ==> l.InstallOwns(before, p);
      } else {
        assert l.RemovalOwns(after, at);
      }
    }
  }

  // The two ownership tests differ, against the comment beside the second one: a removal leaves behind exactly
  // those links the installer would own that lead into the bundled runtime and not into the managed one.
  lemma RemovalLeavesBundledLinks(tree: Tree, l: Layout, c: Path)
    requires c in l.candidates && c != l.plist && l.InstallOwns(tree, c)
    ensures c in Uninstalled(tree, l) <==> !(l.managedRoot <= Resolve(c, tree[c].target))
  {
  }

  lemma BundledLinkSurvivesRemoval()
    ensures
      var l := Layout([["usr", "local", "bin", "sessions"]], ["home", "runtime"], ["app", "runtime"], ["plist"]);
      var c := ["usr", "local", "bin", "sessions"];
      var tree := map[c := Link(Absolute(["app", "runtime", "sessions"]))];
      l.InstallOwns(tree, c) && c in Uninstalled(tree, l)
  {
    var l := Layout([["usr", "local", "bin", "sessions"]], ["home", "runtime"], ["app", "runtime"], ["plist"]);
    var c := ["usr", "local", "bin", "sessions"];
    var tree := map[c := Link(Absolute(["app", "runtime", "sessions"]))];
    assert ["app", "runtime"] <= ["app", "runtime", "sessions"];
    assert l.candidates[0] == c;
    assert ["home", "runtime"][0] != ["app", "runtime", "sessions"][0] by { assert "home"[0] != "app"[0]; }
    assert l.plist != c by { assert |l.plist| == 1; }
    RemovalLeavesBundledLinks(tree, l, c);
  }

  class FileSystem {
    var tree: Tree

    constructor (tree: Tree)
      ensures this.tree == tree
    {
      this.tree := tree;
    }

    // Link beside the candidate under a temporary name, then rename over it.
    method ReplaceCliLink(candidate: Path, target: Path) returns (ok: bool)
      requires !IsTemporary(candidate)
      modifies this
      ensures ok ==> candidate in tree && tree[candidate] == Link(Absolute(target))
      ensures !ok ==> Same(old(tree), tree, candidate)
      ensures forall p :: !IsTemporary(p) && p != candidate ==> Same(old(tree), tree, p)
    {
      if candidate == [] { return false; }
      var suffix: string :| true;
      var temporary := candidate[..|candidate| - 1] + [TEMPORARY_PREFIX + suffix];
      assert IsTemporary(temporary);
      var removed: bool := *;
      if removed { tree := tree - {temporary}; }
      ok := *; // symlink
      ok := ok && temporary !in tree;
      if !ok { return; }
      tree := tree[temporary := Link(Absolute(target))];
      ok := *; // rename
      if ok {
        tree := tree[candidate := tree[temporary]] - {temporary};
      } else {
        removed := *;
        if removed { tree := tree - {temporary}; }
      }
    }

    // Sort the candidates into ours, free and skipped, without changing anything.
    method Classify(l: Layout) returns (managed: seq<Path>, available: seq<Path>, ioErrors: bool)
      requires l.WellFormed()
      ensures forall c :: c in managed ==> c in l.candidates && l.InstallOwns(tree, c)
      ensures forall c :: c in available ==> c in l.candidates && c !in tree
      ensures !ioErrors ==> forall c :: c in l.candidates && l.InstallOwns(tree, c) ==> c in managed
    {
      managed, available, ioErrors := [], [], false;
      for i := 0 to |l.candidates|
        invariant forall c :: c in managed ==> c in l.candidates && l.InstallOwns(tree, c)
        invariant forall c :: c in available ==> c in l.candidates && c !in tree
        invariant !ioErrors ==> forall j :: 0 <= j < i && l.InstallOwns(tree, l.candidates[j]) ==> l.candidates[j] in managed
      {
        var candidate := l.candidates[i];
        if candidate == [] { continue; } // no parent
        var parentReady: bool := *;
        var inspected: bool := *;
        if !parentReady || !inspected {
          ioErrors := true;
          continue;
        }
        if candidate !in tree {
          available := available + [candidate];
          continue;
        }
        match tree[candidate] {
          case RegularFile =>
          case Link(target) =>
            var readable: bool := *;
            if !readable {
              ioErrors := true;
              continue;
            }
            var existing := Resolve(candidate, target);
            if NamesCommandUnder(existing, l.managedRoot) || NamesCommandUnder(existing, l.sourceDir) {
              managed := managed + [candidate];
            }
        }
      }
    }

    method RepointAll(managed: seq<Path>, target: Path) returns (ok: bool)
      requires forall c :: c in managed ==> !IsTemporary(c)
      modifies this
      ensures ok ==> forall c :: c in managed ==> c in tree && tree[c] == Link(Absolute(target))
      ensures forall c :: c in managed ==> Same(old(tree), tree, c) || (c in tree && tree[c] == Link(Absolute(target)))
      ensures forall p :: !IsTemporary(p) && p !in managed ==> Same(old(tree), tree, p)
    {
      ok := true;
      for i := 0 to |managed|
        invariant ok ==> forall j :: 0 <= j < i ==> managed[j] in tree && tree[managed[j]] == Link(Absolute(target))
        invariant forall c :: c in managed ==> Same(old(tree), tree, c) || (c in tree && tree[c] == Link(Absolute(target)))
        invariant forall p :: !IsTemporary(p) && p !in managed ==> Same(old(tree), tree, p)
      {
        assert forall j :: 0 <= j <= i ==> managed[j] in managed && !IsTemporary(managed[j]);
        var replaced := ReplaceCliLink(managed[i], target);
        ok := ok && replaced;
      }
    }

    // Files and foreign links are never touched. Without an I/O error, Ok means that every link of ours now leads
    // to the new runtime, or that there was none and exactly one was created where nothing was.
    method InstallCliLink(l: Layout, runtimeDir: Path) returns (r: Result<Path, ()>, ioErrors: bool)
      requires l.WellFormed()
      modifies this
      ensures r.Ok? && !ioErrors ==>
                if exists c :: c in l.candidates && l.InstallOwns(old(tree), c)
                then r.value in l.candidates && l.InstallOwns(old(tree), r.value) && Repointed(old(tree), tree, l, runtimeDir + [COMMAND])
                else Published(old(tree), tree, l, runtimeDir + [COMMAND], r.value)
      ensures forall p :: !IsTemporary(p) && p in old(tree) && !(p in l.candidates && l.InstallOwns(old(tree), p)) ==> Same(old(tree), tree, p)
      ensures forall p :: !IsTemporary(p) && !Same(old(tree), tree, p) ==>
                p in l.candidates && p in tree && tree[p] == Link(Absolute(runtimeDir + [COMMAND]))
    {
      var target := runtimeDir + [COMMAND];
      ghost var before := tree;
      var managed, available;
      managed, available, ioErrors := Classify(l);
      if managed != [] {
        var ok := RepointAll(managed, target);
        assert managed[0] in managed;
        return if ok then Ok(managed[0]) else Err(()), ioErrors;
      }
      for i := 0 to |available|
        invariant forall p :: !IsTemporary(p) ==> Same(before, tree, p)
      {
        var ok := ReplaceCliLink(available[i], target);
        if ok {
          assert available[i] in available;
          assert Published(before, tree, l, target, available[i]);
          return Ok(available[i]), ioErrors;
        }
      }
      r := Err(());
    }

    // Removes exactly the definition and our links; a removal without problems has removed all of them.
    method RemoveIntegration(l: Layout) returns (complete: bool)
      requires l.WellFormed()
      modifies this
      ensures complete ==> tree == Uninstalled(old(tree), l)
      ensures forall p :: p in Uninstalled(old(tree), l) ==> p in tree
      ensures forall p :: p in tree ==> p in old(tree) && tree[p] == old(tree)[p]
    {
      complete := RemoveDefinition(l);
      for i := 0 to |l.candidates|
        invariant forall p :: p in tree ==> p in old(tree) && tree[p] == old(tree)[p]
        invariant forall p :: p in Uninstalled(old(tree), l) ==> p in tree
        invariant complete ==> l.plist !in tree
        invariant complete ==> forall j :: 0 <= j < i && l.RemovalOwns(old(tree), l.candidates[j]) ==> l.candidates[j] !in tree
      {
        var ok := RemoveOwned(l.candidates[i], l);
        complete := complete && ok;
      }
      if complete {
        NothingOursIsLeft(old(tree), tree, l);
      }
    }

    method RemoveDefinition(l: Layout) returns (ok: bool)
      modifies this
      ensures ok ==> tree == old(tree) - {l.plist}
      ensures !ok ==> tree == old(tree)
    {
      ok := *;
      if ok { tree := tree - {l.plist}; }
    }

    // Remove one candidate if it is our link; a missing file, a real file and a foreign link are left as found.
    method RemoveOwned(candidate: Path, l: Layout) returns (ok: bool)
      modifies this
      ensures tree == old(tree) || (l.RemovalOwns(old(tree), candidate) && tree == old(tree) - {candidate})
      ensures ok && l.RemovalOwns(old(tree), candidate) ==> candidate !in tree
    {
      ok := *; // inspecting, reading and removing
      if !ok || candidate == [] || candidate !in tree || !tree[candidate].Link? { return; }
      if NamesCommandUnder(Resolve(candidate, tree[candidate].target), l.managedRoot) {
        tree := tree - {candidate};
      }
    }
  }

  lemma NothingOursIsLeft(before: Tree, after: Tree, l: Layout)
    requires forall p :: p in after ==> p in before && after[p] == before[p]
    requires forall p :: p in Uninstalled(before, l) ==> p in after
    requires l.plist !in after && forall c :: c in l.candidates && l.RemovalOwns(before, c) ==> c !in after
    ensures after == Uninstalled(before, l)
  {
  }
}
