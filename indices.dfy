/**
 * The two lookup tables json2stems.py builds before it writes anything: the
 * file index (`parse_filemap`) and the address index
 * (`pointer_to_module_name`).
 */
module Indices {
  import opened Wrappers
  import opened Netlist

  /** `d.get(k)`: the value stored under k, or None. */
  function Get(d: map<string, string>, k: string): (r: Option<string>)
    ensures r.Some? <==> k in d
    ensures r.Some? ==> r.value == d[k]
  {
    if k in d then Some(d[k]) else None
  }

  /**
   * `parse_filemap`: file-id to realpath, for every entry of the metadata
   * document's `files` object that has a `realpath` field.
   */
  function ParseFileMap(meta: Document): (m: map<string, string>)
    ensures meta.files.None? ==> m == map[]
    ensures meta.files.Some? ==> forall id :: id in m <==> id in meta.files.value && meta.files.value[id].realpath.Some?
    ensures meta.files.Some? ==> forall id :: id in m ==> Some(m[id]) == meta.files.value[id].realpath
  {
    match meta.files
    case None => map[]
    case Some(files) => map id | id in files && files[id].realpath.Some? :: files[id].realpath.value
  }

  /** Module m carries both an `addr` and a `name`, and its `addr` is a. */
  predicate Binds(m: Module, a: string) {
    m.addr == Some(a) && m.name.Some?
  }

  /**
   * `pointer_to_module_name`: the dict comprehension over `modulesp`,
   * inserting `addr: name` for each module that has both fields, in list
   * order, so that a later module overwrites an earlier one with the same
   * address.
   */
  function AddressIndex(mods: seq<Module>): map<string, string>
  {
    if mods == [] then map[]
    else
      var m := mods[|mods| - 1];
      var index := AddressIndex(mods[..|mods| - 1]);
      if m.addr.Some? && m.name.Some? then index[m.addr.value := m.name.value] else index
  }

  /** Last write wins: an address maps to the name of the LAST module that binds it. */
  lemma {:induction false} AddressIndexLastWins(mods: seq<Module>, a: string, i: nat)
    requires i < |mods| && Binds(mods[i], a)
    requires forall j :: i < j < |mods| ==> !Binds(mods[j], a)
    ensures a in AddressIndex(mods) && AddressIndex(mods)[a] == mods[i].name.value
  {
    var n := |mods| - 1;
    if i < n {
      AddressIndexLastWins(mods[..n], a, i);
      assert !Binds(mods[n], a);
    }
  }

  /** An address that no module binds is absent from the index (modules missing a field add nothing). */
  lemma {:induction false} AddressIndexUnbound(mods: seq<Module>, a: string)
    requires forall i :: 0 <= i < |mods| ==> !Binds(mods[i], a)
    ensures a !in AddressIndex(mods)
  {
    if mods != [] {
      var n := |mods| - 1;
      AddressIndexUnbound(mods[..n], a);
      assert !Binds(mods[n], a);
    }
  }
}
