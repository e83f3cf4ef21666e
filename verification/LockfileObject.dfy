/** The mutable `Lockfile`, each method proved against module LockfileModel. */
module LockfileObject {
  import opened Wrappers
  import opened Ordering
  import opened LockfileModel
  import opened LockfileTheorems
  import opened LockfileMeaning

  lemma {:induction false} FreshPackagesPrefix(env: Env, taken: set<string>, batch: seq<LockedPackage>, i: nat)
    requires FreshPackages(env, taken, batch) && i <= |batch|
    ensures FreshPackages(env, taken, batch[..i])
    decreases |batch|
  {
    if i == |batch| {
      assert batch[..i] == batch;
    } else {
      FreshPackagesPrefix(env, taken, batch[..|batch| - 1], i);
      assert batch[..|batch| - 1][..i] == batch[..i];
    }
  }

  lemma {:induction false} FreshWorkspacesPrefix(env: Env, taken: set<string>, batch: seq<WorkspacePackage>, i: nat)
    requires FreshWorkspaces(env, taken, batch) && i <= |batch|
    ensures FreshWorkspaces(env, taken, batch[..i])
    decreases |batch|
  {
    if i == |batch| {
      assert batch[..i] == batch;
    } else {
      FreshWorkspacesPrefix(env, taken, batch[..|batch| - 1], i);
      assert batch[..|batch| - 1][..i] == batch[..i];
    }
  }

  /** Validates registry packages one by one into a keyed batch. */
  method CollectPackages(env: Env, taken: set<string>, rs: seq<LockedPackage>)
    returns (batch: Option<map<string, LockedPackage>>)
    ensures batch == if FreshPackages(env, taken, rs) then Some(PackageBatch(env, rs)) else None
  {
    var collected: map<string, LockedPackage> := map[];
    var i := 0;
    while i < |rs|
      invariant 0 <= i <= |rs|
      invariant FreshPackages(env, taken, rs[..i]) && collected == PackageBatch(env, rs[..i])
    {
      assert rs[..i + 1][..i] == rs[..i] && rs[..i + 1][i] == rs[i];
      var key := KeyOf(env, rs[i]);
      if !ValidPackage(env, rs[i]) || key in taken || key in collected {
        assert !FreshPackages(env, taken, rs[..i + 1]);
        if FreshPackages(env, taken, rs) { FreshPackagesPrefix(env, taken, rs, i + 1); }
        return None;
      }
      collected := collected[key := rs[i]];
      i := i + 1;
    }
    assert rs[..i] == rs;
    return Some(collected);
  }

  method CollectWorkspaces(env: Env, taken: set<string>, ws: seq<WorkspacePackage>)
    returns (batch: Option<map<string, WorkspacePackage>>)
    ensures batch == if FreshWorkspaces(env, taken, ws) then Some(WorkspaceBatch(env, ws)) else None
  {
    var collected: map<string, WorkspacePackage> := map[];
    var i := 0;
    while i < |ws|
      invariant 0 <= i <= |ws|
      invariant FreshWorkspaces(env, taken, ws[..i]) && collected == WorkspaceBatch(env, ws[..i])
    {
      assert ws[..i + 1][..i] == ws[..i] && ws[..i + 1][i] == ws[i];
      var key := env.workspaceKey(ws[i].source);
      if !ValidWorkspace(env, ws[i]) || key in taken || key in collected {
        assert !FreshWorkspaces(env, taken, ws[..i + 1]);
        if FreshWorkspaces(env, taken, ws) { FreshWorkspacesPrefix(env, taken, ws, i + 1); }
        return None;
      }
      collected := collected[key := ws[i]];
      i := i + 1;
    }
    assert ws[..i] == ws;
    return Some(collected);
  }

  class Lockfile {
    const env: Env
    var version: nat
    var digest: string
    var roots: seq<string>
    var bindings: map<string, string>
    var packages: map<string, LockedPackage>
    var workspaces: map<string, WorkspacePackage>

    function Contents(): Document
      reads this
    {
      Document(version, digest, roots, bindings, packages, workspaces)
    }

    /** `Lockfile::new`, once the digest has been parsed. */
    constructor (env: Env, canonical: string)
      ensures this.env == env && Contents() == Document(LOCKFILE_VERSION, canonical, [], map[], map[], map[])
    {
      this.env := env;
      version, digest, roots := LOCKFILE_VERSION, canonical, [];
      bindings, packages, workspaces := map[], map[], map[];
    }

    /** Inserts both batches, or nothing at all. */
    method Insert(rs: seq<LockedPackage>, ws: seq<WorkspacePackage>) returns (ok: bool)
      modifies this
      ensures ok == InsertGraph(env, old(Contents()), rs, ws).Some?
      ensures Contents() == Apply(env, old(Contents()), Operation.Insert(rs, ws))
      ensures !ok ==> Contents() == old(Contents())
    {
      var taken := packages.Keys + workspaces.Keys;
      var newPackages := CollectPackages(env, taken, rs);
      if newPackages.None? { return false; }
      var newWorkspaces := CollectWorkspaces(env, taken + newPackages.value.Keys, ws);
      if newWorkspaces.None? { return false; }
      var known := taken + newPackages.value.Keys + newWorkspaces.value.Keys;
      if !BatchTargetsOk(env, newPackages.value, newWorkspaces.value, known) { return false; }
      if exists i :: 0 <= i < |rs| && IsCopied(env, rs[i]) { version := COPIED_VERSION; }
      packages := packages + newPackages.value;
      workspaces := workspaces + newWorkspaces.value;
      return true;
    }

    method DeriveHooks(key: string, outputs: seq<HookOutput>) returns (ok: bool)
      modifies `packages, `version
      ensures ok == SetDerivedHooks(env, old(Contents()), key, outputs).Some?
      ensures Contents() == Apply(env, old(Contents()), Operation.DeriveHooks(key, outputs))
      ensures ok ==> key in old(packages) && packages == old(packages)[key := old(packages[key]).(hooks := outputs)]
      ensures !ok ==> Contents() == old(Contents())
    {
      if !HooksOk(env, outputs) || key !in packages { return false; }
      packages := packages[key := packages[key].(hooks := outputs)];
      if outputs != [] && version < LIFECYCLE_VERSION { version := LIFECYCLE_VERSION; }
      return true;
    }

    method UseRoots(selected: seq<string>) returns (ok: bool)
      modifies `roots, `bindings
      ensures ok == SetRoots(env, old(Contents()), selected).Some?
      ensures Contents() == Apply(env, old(Contents()), Operation.UseRoots(selected))
      ensures ok ==> StrictlySorted(TextLe, roots) && (forall k :: k in roots <==> k in selected) && bindings == map[]
      ensures !ok ==> Contents() == old(Contents())
    {
      var sorted := Canonical(TextLe, selected);
      var known := AllKnown(sorted);
      if !known { return false; }
      roots, bindings := sorted, map[];
      UseRootsMeans(env, old(Contents()), selected);
      return true;
    }

    /** Every selected key parses and is locked. */
    method AllKnown(sorted: seq<string>) returns (ok: bool)
      ensures ok == RootsOk(env, Contents(), sorted)
    {
      var i := 0;
      while i < |sorted|
        invariant 0 <= i <= |sorted|
        invariant forall j :: 0 <= j < i ==> env.parseKey(sorted[j]).Some? && sorted[j] in Known(Contents())
      {
        if env.parseKey(sorted[i]).None? || (sorted[i] !in packages && sorted[i] !in workspaces) { return false; }
        i := i + 1;
      }
      return true;
    }

    method BindRoots(chosen: map<string, string>) returns (ok: bool)
      modifies `bindings
      ensures ok == SetRootBindings(env, old(Contents()), chosen).Some?
      ensures Contents() == Apply(env, old(Contents()), Operation.BindRoots(chosen))
      ensures bindings == if ok then chosen else old(bindings)
    {
      if !BindingsOk(env, roots, chosen) { return false; }
      bindings := chosen;
      return true;
    }
  }
}
