/**
  The variable map: for every function and name, the active symbolic value and the
  number of the latest version.

  A symbolic value is a function from solver models to values.  The map is copied as a
  whole into backtrack points, so it is a value here and its owner reassigns it.
 */
module VarMapModel {
  import opened IR
  import opened Concrete

  datatype VarMap<!M> = VarMap(active: map<Key, M -> int>, versions: map<Key, nat>)

  /** The map after a successful assignment. */
  function Assigned<M>(vm: VarMap<M>, k: Key, bv: M -> int): VarMap<M> {
    VarMap(vm.active[k := bv], Counted(vm, k).versions)
  }

  /** The map after counting a new version, which happens even when the bound is hit. */
  function Counted<M>(vm: VarMap<M>, k: Key): VarMap<M> {
    vm.(versions := vm.versions[k := NextVersion(vm.versions, k)])
  }

  /** The active locals of `f`, to be restored when a call made by `f` returns. */
  function RestoreInfo<M>(vm: VarMap<M>, f: FuncName): (info: map<Name, M -> int>)
    ensures forall x :: x in info <==> (f, x) in vm.active
    ensures forall x :: x in info ==> info[x] == vm.active[(f, x)]
  {
    map k | k in vm.active && k.0 == f :: k.1 := vm.active[k]
  }

  /** Restoring never touches a version counter, and panics in the source unless every
      restored name is still active. */
  function Restored<M>(vm: VarMap<M>, f: FuncName, info: map<Name, M -> int>): (r: VarMap<M>)
    requires forall x :: x in info ==> (f, x) in vm.active
    ensures r.versions == vm.versions && r.active.Keys == vm.active.Keys
    ensures forall x :: x in info ==> r.active[(f, x)] == info[x]
    ensures forall k :: k in vm.active && (k.0 != f || k.1 !in info) ==> r.active[k] == vm.active[k]
  {
    var m := map x | x in info :: (f, x) := info[x];
    assert forall k :: k in m <==> k.0 == f && k.1 in info;
    vm.(active := vm.active + m)
  }

  /** Whatever a callee, even a recursive one, assigned in between: restoring brings back
      exactly the values the caller saw. */
  lemma RestoreAfterSave<M>(vm: VarMap<M>, f: FuncName, vm': VarMap<M>, x: Name)
    requires vm.active.Keys <= vm'.active.Keys && (f, x) in vm.active
    ensures Restored(vm', f, RestoreInfo(vm, f)).active[(f, x)] == vm.active[(f, x)]
  {
    assert x in RestoreInfo(vm, f);
  }

  /** The version slots that are still free; every assignment uses one up for good. */
  ghost function Unused(keys: set<Key>, maxVersion: nat, versions: map<Key, nat>): set<(Key, nat)> {
    set k, j | k in keys && 0 <= j <= maxVersion && NextVersion(versions, k) <= j :: (k, j)
  }

  lemma UnusedShrinks(keys: set<Key>, maxVersion: nat, versions: map<Key, nat>, k: Key)
    requires k in keys && NextVersion(versions, k) <= maxVersion
    ensures Unused(keys, maxVersion, versions[k := NextVersion(versions, k)])
            < Unused(keys, maxVersion, versions)
  {
    var n := NextVersion(versions, k);
    var before, after := Unused(keys, maxVersion, versions), Unused(keys, maxVersion, versions[k := n]);
    assert (k, n) in before && (k, n) !in after;
    forall kj | kj in after
      ensures kj in before
    {
      assert NextVersion(versions, kj.0) <= NextVersion(versions[k := n], kj.0);
    }
  }
}
