/**
 * The directory index (simplefs_dir_index.c): a name hash, a slot array, a used bitmap and
 * a free-slot hint kept beside the directory's slots on disk, which are the only truth.
 */
module DirIndexes {
  import opened Wrappers
  import opened Extents
  import opened DirMaps

  /** 4096 / sizeof(struct simplefs_file), which is padded to 260 bytes. */
  const FILES_PER_BLOCK: nat := 15
  const FILENAME_LEN: nat := 255

  /** A slot on disk, its name up to the first NUL; inode 0 means an empty slot. */
  datatype DirFile = DirFile(inode: nat, filename: string)

  const EMPTY: DirFile := DirFile(0, "")

  datatype DirName = DirName(name: string, ino: nat, slot: nat)

  type Slots = seq<DirFile>

  // ---------- what the slots say ----------

  function EntryAt(slots: Slots, i: nat): Option<DirName>
    requires i < |slots|
  {
    if slots[i].inode == 0 then None else Some(DirName(slots[i].filename, slots[i].inode, i))
  }

  ghost predicate Live(slots: Slots, i: nat) {
    i < |slots| && slots[i].inode != 0
  }

  ghost function FilesIn(slots: Slots): nat {
    if slots == [] then 0
    else FilesIn(slots[..|slots| - 1]) + if slots[|slots| - 1].inode != 0 then 1 else 0
  }

  /** Every live slot is usable on its own. */
  ghost predicate SlotsOk(slots: Slots, nrInodes: nat) {
    forall i :: 0 <= i < |slots| && slots[i].inode != 0 ==> slots[i].inode < nrInodes && 0 < |slots[i].filename| <= FILENAME_LEN
  }

  ghost predicate NamesDistinct(slots: Slots) {
    forall i, j :: 0 <= i < j < |slots| && slots[i].inode != 0 && slots[j].inode != 0 ==>
                     slots[i].filename != slots[j].filename
  }

  /** The hash table finds exactly the live slots. */
  ghost predicate HashOf(slots: Slots, names: map<string, DirName>) {
    && (forall i :: 0 <= i < |slots| && slots[i].inode != 0 ==>
          slots[i].filename in names && names[slots[i].filename] == DirName(slots[i].filename, slots[i].inode, i))
    && (forall n :: n in names ==>
          names[n].slot < |slots| && slots[names[n].slot].inode != 0 && slots[names[n].slot].filename == n)
  }

  /** The slot array and the bitmap, whose tails are unused capacity. */
  ghost predicate SlotArrays(slots: Slots, entries: seq<Option<DirName>>, used: seq<bool>) {
    && |slots| <= |entries| == |used|
    && (forall i :: 0 <= i < |slots| ==> entries[i] == EntryAt(slots, i) && used[i] == (slots[i].inode != 0))
    && (forall i :: |slots| <= i < |used| ==> entries[i] == None && !used[i])
  }

  ghost predicate AllUsedBelow(slots: Slots, n: nat) {
    n <= |slots| && forall i :: 0 <= i < n ==> slots[i].inode != 0
  }

  /** The least free slot; the end of the directory when every slot is taken. */
  ghost predicate LeastFree(slots: Slots, slot: nat) {
    AllUsedBelow(slots, slot) && (slot < |slots| ==> slots[slot].inode == 0)
  }

  /** The index of a list of slots. */
  ghost predicate IndexOf(slots: Slots, nrInodes: nat, names: map<string, DirName>, entries: seq<Option<DirName>>,
                          used: seq<bool>, nextFree: nat) {
    && SlotsOk(slots, nrInodes) && NamesDistinct(slots)
    && HashOf(slots, names) && SlotArrays(slots, entries, used) && AllUsedBelow(slots, nextFree)
  }

  /** At most one hash table, one slot array and one bitmap of a capacity answer for a list of slots. */
  lemma IndexIsUnique(slots: Slots, n1: map<string, DirName>, n2: map<string, DirName>, e1: seq<Option<DirName>>,
                      e2: seq<Option<DirName>>, u1: seq<bool>, u2: seq<bool>)
    requires HashOf(slots, n1) && HashOf(slots, n2)
    requires SlotArrays(slots, e1, u1) && SlotArrays(slots, e2, u2) && |e1| == |e2|
    ensures n1 == n2 && e1 == e2 && u1 == u2
  {
    forall n ensures n in n1 <==> n in n2 {
      if n in n1 {
        assert slots[n1[n].slot].filename == n;
      }
      if n in n2 {
        assert slots[n2[n].slot].filename == n;
      }
    }
    forall n | n in n1 ensures n1[n] == n2[n] {
      var i := n1[n].slot;
      assert slots[i].inode != 0 && slots[i].filename == n;
    }
  }

  // ---------- updating one slot ----------

  lemma {:induction false} FilesUpdate(slots: Slots, i: nat, f: DirFile)
    requires i < |slots|
    ensures FilesIn(slots[i := f]) ==
        FilesIn(slots) - (if slots[i].inode != 0 then 1 else 0) + if f.inode != 0 then 1 else 0
  {
    var last := |slots| - 1;
    if i == last {
      assert slots[i := f][..last] == slots[..last];
    } else {
      FilesUpdate(slots[..last], i, f);
      assert slots[i := f][..last] == slots[..last][i := f];
    }
  }

  lemma {:induction false} FilesGrow(slots: Slots, n: nat)
    ensures FilesIn(slots + seq(n, _ => EMPTY)) == FilesIn(slots)
  {
    var more := slots + seq(n, _ => EMPTY);
    if n == 0 {
      assert more == slots;
    } else {
      FilesGrow(slots, n - 1);
      assert more[..|more| - 1] == slots + seq(n - 1, _ => EMPTY);
    }
  }

  lemma {:induction false} NoFilesMeansEmpty(slots: Slots, i: nat)
    requires FilesIn(slots) == 0 && i < |slots|
    ensures slots[i].inode == 0
  {
    if i < |slots| - 1 {
      NoFilesMeansEmpty(slots[..|slots| - 1], i);
    }
  }

  /** The hash after a slot has been given a name that no other slot has. */
  lemma HashSet(slots: Slots, names: map<string, DirName>, slot: nat, ino: nat, name: string)
    requires HashOf(slots, names) && NamesDistinct(slots) && slot < |slots| && ino != 0
    requires name in names ==> names[name].slot == slot
    ensures var after := slots[slot := DirFile(ino, name)];
      var rest := if slots[slot].inode != 0 && slots[slot].filename != name then names - {slots[slot].filename} else names;
      HashOf(after, rest[name := DirName(name, ino, slot)]) && NamesDistinct(after)
  {
    var after := slots[slot := DirFile(ino, name)];
    forall i | 0 <= i < |slots| && i != slot && slots[i].inode != 0 ensures slots[i].filename != name {
      assert names[slots[i].filename].slot == i;
    }
  }

  lemma HashClear(slots: Slots, names: map<string, DirName>, slot: nat)
    requires HashOf(slots, names) && NamesDistinct(slots) && slot < |slots|
    ensures var after := slots[slot := EMPTY];
      HashOf(after, if slots[slot].inode != 0 then names - {slots[slot].filename} else names) && NamesDistinct(after)
  {
  }

  lemma HashGrow(slots: Slots, names: map<string, DirName>, n: nat)
    requires HashOf(slots, names) && NamesDistinct(slots)
    ensures HashOf(slots + seq(n, _ => EMPTY), names) && NamesDistinct(slots + seq(n, _ => EMPTY))
  {
  }

  lemma UsedBelowSet(slots: Slots, n: nat, slot: nat, f: DirFile)
    requires AllUsedBelow(slots, n) && slot < |slots|
    ensures f.inode != 0 ==> AllUsedBelow(slots[slot := f], if slot == n then n + 1 else n)
    ensures f.inode == 0 ==> AllUsedBelow(slots[slot := f], if slot < n then slot else n)
  {
  }

  // ---------- building ----------

  /** The index over the first slots. */
  ghost predicate BuiltTo(slots: Slots, names: map<string, DirName>, nrFiles: nat, nrInodes: nat) {
    && SlotsOk(slots, nrInodes) && NamesDistinct(slots) && HashOf(slots, names) && nrFiles == FilesIn(slots)
  }

  lemma BuildSkips(slots: Slots, i: nat, names: map<string, DirName>, nrFiles: nat, nrInodes: nat)
    requires i < |slots| && slots[i].inode == 0 && BuiltTo(slots[..i], names, nrFiles, nrInodes)
    ensures BuiltTo(slots[..i + 1], names, nrFiles, nrInodes)
  {
    var pre, next := slots[..i], slots[..i + 1];
    assert next[..i] == pre;
    assert forall k :: 0 <= k < i ==> next[k] == pre[k];
  }

  lemma BuildAdds(slots: Slots, i: nat, names: map<string, DirName>, nrFiles: nat, nrInodes: nat)
    requires i < |slots| && BuiltTo(slots[..i], names, nrFiles, nrInodes)
    requires 0 < slots[i].inode < nrInodes && 0 < |slots[i].filename| <= FILENAME_LEN && slots[i].filename !in names
    ensures BuiltTo(slots[..i + 1], names[slots[i].filename := DirName(slots[i].filename, slots[i].inode, i)], nrFiles + 1, nrInodes)
  {
    var pre, next := slots[..i], slots[..i + 1];
    assert next[..i] == pre;
    assert forall k :: 0 <= k < i ==> next[k] == pre[k];
  }

  lemma BuildRefuses(slots: Slots, i: nat, names: map<string, DirName>, nrFiles: nat, nrInodes: nat)
    requires i < |slots| && slots[i].inode != 0 && BuiltTo(slots[..i], names, nrFiles, nrInodes)
    requires slots[i].filename in names
    ensures !NamesDistinct(slots)
  {
    var j := names[slots[i].filename].slot;
    assert slots[..i][j].inode != 0 && slots[..i][j].filename == slots[i].filename;
    assert slots[j].filename == slots[i].filename;
  }

  /** The slot array and the bitmap when the first n slots are done. */
  ghost predicate ArraysTo(slots: Slots, entries: seq<Option<DirName>>, used: seq<bool>, n: nat) {
    && n <= |slots| <= |entries| == |used|
    && (forall i :: 0 <= i < n ==> entries[i] == EntryAt(slots, i) && used[i] == (slots[i].inode != 0))
    && (forall i :: n <= i < |used| ==> entries[i] == None && !used[i])
  }

  lemma ArraysStart(slots: Slots, entries: seq<Option<DirName>>, used: seq<bool>)
    requires |slots| <= |entries| == |used| && forall i :: 0 <= i < |used| ==> entries[i] == None && !used[i]
    ensures ArraysTo(slots, entries, used, 0)
  {
  }

  lemma ArraysStep(slots: Slots, entries: seq<Option<DirName>>, used: seq<bool>, n: nat)
    requires ArraysTo(slots, entries, used, n) && n < |slots|
    ensures slots[n].inode == 0 ==> ArraysTo(slots, entries, used, n + 1)
    ensures ArraysTo(slots, entries[n := EntryAt(slots, n)], used[n := slots[n].inode != 0], n + 1)
  {
  }

  /** How growing a directory by a block ends: done, refused before anything, or the tree half published. */
  datatype Growth = Grown | Refused(error: Errno) | Broken(error: Errno)

  /** How one batch of a trim ends; `Unstopped` is a handle whose stop reports an error. */
  datatype Batch = Done | NoHandle(error: Errno) | Failed(error: Errno) | Unstopped(error: Errno)

  class DirIndex {
    const nrInodes: nat
    /** The size of the device. */
    const device: nat
    /** The directory's blocks on disk, slot by slot. */
    var slots: Slots
    var nrBlocks: nat
    var capacity: nat
    var names: map<string, DirName>
    var entries: seq<Option<DirName>>
    var used: seq<bool>
    var nrFiles: nat
    var nextFree: nat
    var valid: bool

    /** Everything the index says, except the count, is what the slots say. */
    ghost predicate Reflects()
      reads this
    {
      && |slots| == nrBlocks * FILES_PER_BLOCK && |entries| == capacity * FILES_PER_BLOCK
      && nrBlocks <= MAX_DIR_BLOCKS && IndexOf(slots, nrInodes, names, entries, used, nextFree)
    }

    /** A valid index equals the one that would be built from the slots. */
    ghost predicate Valid()
      reads this
    {
      valid ==> Reflects() && nrFiles == FilesIn(slots)
    }

    /** An index for a directory whose blocks hold these slots, before it is built. */
    constructor (nrInodes: nat, device: nat, slots: Slots)
      ensures Valid() && !valid && this.slots == slots && this.nrInodes == nrInodes && this.device == device
    {
      this.nrInodes := nrInodes;
      this.device := device;
      this.slots := slots;
      nrBlocks := 0;
      capacity, names, entries, used, nrFiles, nextFree, valid := 0, map[], [], [], 0, 0, false;
    }

    /** simplefs_dir_reserve: keep the mapped part, at least double the rest. */
    method Reserve(blocks: nat) returns (r: Option<Errno>)
      requires nrBlocks <= capacity && |entries| == |used| == capacity * FILES_PER_BLOCK
      requires capacity <= MAX_DIR_BLOCKS || blocks <= capacity
      requires forall i :: nrBlocks * FILES_PER_BLOCK <= i < |used| ==> entries[i] == None && !used[i]
      modifies this`capacity, this`entries, this`used
      ensures r == (if blocks > MAX_DIR_BLOCKS then Some(ENOSPC) else None)
      ensures |entries| == |used| == capacity * FILES_PER_BLOCK && capacity >= old(capacity)
      ensures r == None ==> capacity >= blocks
      ensures r != None ==> capacity == old(capacity)
      ensures capacity <= MAX_DIR_BLOCKS || capacity == old(capacity)
      ensures forall i :: 0 <= i < nrBlocks * FILES_PER_BLOCK ==> entries[i] == old(entries)[i] && used[i] == old(used)[i]
      ensures forall i :: nrBlocks * FILES_PER_BLOCK <= i < |used| ==> entries[i] == None && !used[i]
    {
      if blocks > MAX_DIR_BLOCKS {
        return Some(ENOSPC);
      }
      if blocks <= capacity {
        return None;
      }
      var wanted := if capacity > 4 then capacity else 4;
      while wanted < blocks
        invariant capacity <= wanted <= MAX_DIR_BLOCKS && wanted > 0
        decreases MAX_DIR_BLOCKS - wanted
      {
        wanted := if wanted * 2 < MAX_DIR_BLOCKS then wanted * 2 else MAX_DIR_BLOCKS;
      }
      var kept := nrBlocks * FILES_PER_BLOCK;
      entries := entries[..kept] + seq(wanted * FILES_PER_BLOCK - kept, _ => None);
      used := used[..kept] + seq(wanted * FILES_PER_BLOCK - kept, _ => false);
      capacity := wanted;
      return None;
    }

    /** The walk of simplefs_dir_build over the extents: the directory's blocks in order. */
    method MapBlocks(mapping: seq<Extent>) returns (r: Option<Errno>, blocks: seq<nat>)
      modifies this`nrBlocks, this`capacity, this`entries, this`used
      ensures r == None <==> Walkable(mapping, device)
      ensures r.Some? ==> exists k :: FailsAt(mapping, device, k, r.value)
      ensures r == None ==> nrBlocks == Span(mapping) == |blocks| <= MAX_DIR_BLOCKS
      ensures r == None ==> forall b: nat :: Lookup(mapping, b).Some? ==> b < |blocks| && Lookup(mapping, b) == Some(Loc(blocks[b], false))
      ensures r == None && NoEmpties(mapping) ==> forall b: nat :: b < |blocks| ==> Lookup(mapping, b).Some?
      ensures nrBlocks <= capacity && |entries| == |used| == capacity * FILES_PER_BLOCK
      ensures forall i :: 0 <= i < |used| ==> entries[i] == None && !used[i]
    {
      hide Lookup, GoodAt, Places;
      nrBlocks, capacity, entries, used := 0, 0, [], [];
      blocks := [];
      var i := 0;
      assert mapping[..0] == [];
      while i < |mapping|
        invariant i <= |mapping| && WalkableTo(mapping, device, i) && Lists(blocks, mapping, i)
        invariant nrBlocks == |blocks| <= capacity <= MAX_DIR_BLOCKS && |entries| == |used| == capacity * FILES_PER_BLOCK
        invariant forall j :: 0 <= j < |used| ==> entries[j] == None && !used[j]
      {
        var len := mapping[i].Len();
        SpanSnoc(mapping, i);
        if !GoodAt(mapping, device, i) {
          assert FailsAt(mapping, device, i, EFSCORRUPTED);
          return Some(EFSCORRUPTED), blocks;
        }
        GoodFollows(mapping, device, i);
        var reserved := Reserve(nrBlocks + len);
        if reserved.Some? {
          assert FailsAt(mapping, device, i, ENOSPC);
          return reserved, blocks;
        }
        WalkMore(mapping, device, i);
        ListsMore(blocks, mapping, i);
        blocks := blocks + seq(len, j => mapping[i].start + j);
        nrBlocks := nrBlocks + len;
        i := i + 1;
      }
      assert mapping[..|mapping|] == mapping;
      forall b: nat
        ensures Lookup(mapping, b).Some? ==> b < |blocks| && Lookup(mapping, b) == Some(Loc(blocks[b], false))
        ensures NoEmpties(mapping) && b < |blocks| ==> Lookup(mapping, b).Some?
      {
        ListIsLookup(blocks, mapping, device, b);
      }
      return None, blocks;
    }

    /**
     * simplefs_dir_build: succeeds exactly when the extents load and walk, every live slot is
     * sound and no name is there twice.
     */
    method Build(mapping: Result<seq<Extent>>) returns (r: Option<Errno>, blocks: seq<nat>)
      requires mapping.Ok? && Walkable(mapping.value, device) ==> |slots| == Span(mapping.value) * FILES_PER_BLOCK
      requires forall i :: 0 <= i < |slots| ==> |slots[i].filename| <= FILENAME_LEN
      modifies this`nrBlocks, this`capacity, this`names, this`entries, this`used, this`nrFiles, this`nextFree, this`valid
      ensures mapping.Err? ==> r == Some(mapping.error)
      ensures mapping.Ok? && !Walkable(mapping.value, device) ==> r.Some? && exists k :: FailsAt(mapping.value, device, k, r.value)
      ensures mapping.Ok? && Walkable(mapping.value, device) ==>
        r == if SlotsOk(slots, nrInodes) && NamesDistinct(slots) then None else Some(EFSCORRUPTED)
      ensures valid == r.None? && Valid() && (valid ==> nextFree == 0)
      ensures r == None ==>
        forall b: nat :: Lookup(mapping.value, b).Some? ==> b < |blocks| && Lookup(mapping.value, b) == Some(Loc(blocks[b], false))
    {
      hide BuiltTo, SlotsOk, NamesDistinct, HashOf, FilesIn, AllUsedBelow, SlotArrays, ArraysTo, Lookup, Walkable, FailsAt;
      names, nrFiles, nextFree, valid, blocks := map[], 0, 0, false, [];
      if mapping.Err? {
        return Some(mapping.error), blocks;
      }
      var walked;
      walked, blocks := MapBlocks(mapping.value);
      if walked.Some? {
        return walked, blocks;
      }
      var slot := 0;
      NothingBuilt(nrInodes);
      ArraysStart(slots, entries, used);
      assert slots[..0] == [];
      while slot < |slots|
        invariant slot <= |slots| <= |entries| == |used| == capacity * FILES_PER_BLOCK && !valid && nextFree == 0
        invariant |slots| == nrBlocks * FILES_PER_BLOCK && nrBlocks <= MAX_DIR_BLOCKS
        invariant BuiltTo(slots[..slot], names, nrFiles, nrInodes)
        invariant ArraysTo(slots, entries, used, slot)
      {
        var file := slots[slot];
        ArraysStep(slots, entries, used, slot);
        if file.inode == 0 {
          BuildSkips(slots, slot, names, nrFiles, nrInodes);
        } else {
          if file.inode >= nrInodes || file.filename == "" {
            BadSlot(slots, slot, nrInodes);
            return Some(EFSCORRUPTED), blocks;
          }
          if file.filename in names {
            BuildRefuses(slots, slot, names, nrFiles, nrInodes);
            return Some(EFSCORRUPTED), blocks;
          }
          BuildAdds(slots, slot, names, nrFiles, nrInodes);
          var entry := DirName(file.filename, file.inode, slot);
          names := names[file.filename := entry];
          entries := entries[slot := Some(entry)];
          used := used[slot := true];
          nrFiles := nrFiles + 1;
        }
        slot := slot + 1;
      }
      assert slots[..slot] == slots;
      AllBuilt(slots, names, nrFiles, nrInodes, entries, used);
      valid := true;
      return None, blocks;
    }

    /** simplefs_dir_find: the slot and inode of the name; a nonzero ino must match. */
    method Find(name: string, ino: nat) returns (r: Result<DirName>)
      requires Valid() && valid
      ensures |name| > FILENAME_LEN ==> r == Err(ENAMETOOLONG)
      ensures r.Ok? ==> Live(slots, r.value.slot) && slots[r.value.slot] == DirFile(r.value.ino, name)
                        && r.value.name == name && (ino != 0 ==> r.value.ino == ino)
      ensures r.Err? && |name| <= FILENAME_LEN ==>
          && r.error == ENOENT
          && forall i :: 0 <= i < |slots| && slots[i].inode != 0 && (ino != 0 ==> slots[i].inode == ino) ==>
                           slots[i].filename != name
    {
      if |name| > FILENAME_LEN {
        return Err(ENAMETOOLONG);
      }
      if name !in names || (ino != 0 && ino != names[name].ino) {
        return Err(ENOENT);
      }
      return Ok(names[name]);
    }

    /** The scan of simplefs_dir_free_slot, from the hint on. */
    method FirstUnused() returns (slot: nat)
      requires Valid() && valid
      ensures slot <= |slots| && LeastFree(slots, slot)
    {
      hide HashOf, NamesDistinct, SlotsOk;
      slot := nextFree;
      while slot < |slots| && used[slot]
        invariant nextFree <= slot <= |slots| && AllUsedBelow(slots, slot)
      {
        slot := slot + 1;
      }
    }

    /** simplefs_dir_free_slot: the least free slot, growing the directory only when there is none. */
    method FreeSlot(growth: Growth) returns (r: Result<nat>)
      requires Valid() && valid
      modifies this`slots, this`nrBlocks, this`capacity, this`entries, this`used, this`valid
      ensures Valid() && nrFiles == FilesIn(slots)
      ensures r.Ok? ==> valid && LeastFree(old(slots), r.value) && LeastFree(slots, r.value) && r.value < |slots|
      ensures LeastFree(old(slots), |old(slots)|) && r.Ok? ==> slots == old(slots) + seq(FILES_PER_BLOCK, _ => EMPTY)
      ensures r.Err? || !LeastFree(old(slots), |old(slots)|) ==> slots == old(slots)
      ensures r.Err? <==> LeastFree(old(slots), |old(slots)|) && (|old(slots)| >= MAX_DIR_BLOCKS * FILES_PER_BLOCK || !growth.Grown?)
      ensures valid || (r.Err? && growth.Broken?)
    {
      hide HashOf, NamesDistinct, SlotsOk;
      var slot := FirstUnused();
      if slot < |slots| {
        return Ok(slot);
      }
      assert |slots| >= MAX_DIR_BLOCKS * FILES_PER_BLOCK <==> nrBlocks >= MAX_DIR_BLOCKS;
      var full := Reserve(nrBlocks + 1);
      if full.Some? {
        return Err(full.value);
      }
      match growth
      case Refused(e) => return Err(e);
      case Broken(e) =>
        valid := false;
        return Err(e);
      case Grown =>
        FilesGrow(slots, FILES_PER_BLOCK);
        GrowKeepsIndex(slots, nrInodes, names, entries, used, nextFree, FILES_PER_BLOCK);
        slots := slots + seq(FILES_PER_BLOCK, _ => EMPTY);
        nrBlocks := nrBlocks + 1;
        return Ok(slot);
    }

    /** The second half of simplefs_dir_set: the slot's block, then the index. */
    method WriteSlot(slot: nat, file: DirFile, persisted: bool) returns (ok: bool)
      requires valid && Reflects() && slot < |slots|
      requires file.inode != 0 ==> file.inode < nrInodes && 0 < |file.filename| <= FILENAME_LEN
      requires file.inode != 0 ==> file.filename in names ==> names[file.filename].slot == slot
      requires file.inode == 0 ==> file == EMPTY
      modifies this`slots, this`names, this`entries, this`used, this`nextFree, this`valid
      ensures ok == persisted == valid && slots == old(slots)[slot := file] && (ok ==> Reflects())
    {
      hide IndexOf;
      ghost var before := slots;
      SlotFacts(slots, nrInodes, names, entries, used, nextFree, slot);
      var was := entries[slot];
      slots := slots[slot := file];
      if !persisted {
        valid := false;
        return false;
      }
      SetKeepsIndex(before, nrInodes, names, entries, used, nextFree, slot, file);
      if was.Some? && (file.inode == 0 || was.value.name != file.filename) {
        names := names - {was.value.name};
      }
      if file.inode != 0 {
        var entry := DirName(file.filename, file.inode, slot);
        names := names[file.filename := entry];
        entries := entries[slot := Some(entry)];
        used := used[slot := true];
        if slot == nextFree {
          nextFree := nextFree + 1;
        }
      } else {
        entries := entries[slot := None];
        used := used[slot := false];
        nextFree := if slot < nextFree then slot else nextFree;
      }
      return true;
    }

    /** simplefs_dir_set: `persisted` is whether the journal takes the slot's block. */
    method Set(slot: nat, ino: nat, name: Option<string>, persisted: bool) returns (r: Option<Errno>)
      requires valid && Reflects() && ino < nrInodes && (name.Some? ==> name.value != "")
      modifies this`slots, this`names, this`entries, this`used, this`nextFree, this`valid
      ensures r == SetOutcome(old(slots), slot, ino, name, persisted)
      ensures r == None ==> valid && Reflects() && slots == old(slots)[slot := NewSlot(old(slots), slot, ino, name)]
      ensures r != None ==> valid == (r != Some(EIO)) && (valid ==> Reflects() && slots == old(slots))
      ensures |slots| == |old(slots)|
    {
      hide IndexOf, TakenElsewhere;
      if slot >= |slots| {
        return Some(EFSCORRUPTED);
      }
      if name.Some? && |name.value| > FILENAME_LEN {
        return Some(ENAMETOOLONG);
      }
      SlotFacts(slots, nrInodes, names, entries, used, nextFree, slot);
      var was := entries[slot];
      if ino != 0 && name.None? && was.None? {
        return Some(ENOENT);
      }
      if name.Some? {
        TakenIffHashed(slots, nrInodes, names, entries, used, nextFree, slot, name.value);
      }
      if ino != 0 && name.Some? && (was.None? || was.value.name != name.value) && name.value in names {
        return Some(EEXIST);
      }
      var file := if ino == 0 then EMPTY else DirFile(ino, if name.Some? then name.value else was.value.name);
      var ok := WriteSlot(slot, file, persisted);
      return if ok then None else Some(EIO);
    }

    /** simplefs_dir_add: `written` is whether the directory's inode reaches the journal. */
    method Add(name: string, ino: nat, growth: Growth, persisted: bool, written: bool) returns (r: Option<Errno>)
      requires Valid() && valid && 0 < ino < nrInodes && name != ""
      modifies this
      ensures Valid() && (r == None ==> valid)
      ensures r == None ==> exists slot: nat ::
          && LeastFree(old(slots), slot) && slot < |Roomy(old(slots))|
          && slots == Roomy(old(slots))[slot := DirFile(ino, name)]
      ensures r == None ==> nrFiles == old(nrFiles) + 1 && !TakenElsewhere(old(slots), |old(slots)|, name)
      ensures r != None && valid ==> nrFiles == old(nrFiles) && (slots == old(slots) || slots == Roomy(old(slots)))
      ensures growth.Grown? && persisted && written && |old(slots)| < MAX_DIR_BLOCKS * FILES_PER_BLOCK ==>
          && valid
          && r == (if |name| > FILENAME_LEN then Some(ENAMETOOLONG)
                   else if TakenElsewhere(old(slots), |old(slots)|, name) then Some(EEXIST) else None)
    {
      hide HashOf, NamesDistinct, SlotsOk, SlotArrays, TakenElsewhere, FilesIn;
      var at := FreeSlot(growth);
      if at.Err? {
        return Some(at.error);
      }
      assert slots == Roomy(old(slots));
      TakenInRoomy(old(slots), at.value, name);
      FilesUpdate(slots, at.value, DirFile(ino, name));
      ghost var roomy := slots;
      r := Set(at.value, ino, Some(name), persisted);
      if r.None? {
        nrFiles := nrFiles + 1;
        assert slots == Roomy(old(slots))[at.value := DirFile(ino, name)];
        if !written {
          valid := false;
          r := Some(EIO);
        }
      }
    }

    /** The directory's half of simplefs_unlink_internal. */
    method Clear(name: string, ino: nat, persisted: bool) returns (r: Option<Errno>)
      requires Valid() && valid && 0 < ino < nrInodes
      modifies this
      ensures Valid() && (r == None ==> valid)
      ensures r == None ==> exists slot: nat ::
          slot < |old(slots)| && old(slots)[slot] == DirFile(ino, name) && slots == old(slots)[slot := EMPTY]
      ensures r == None ==> old(nrFiles) > 0 && nrFiles == old(nrFiles) - 1
      ensures r != None && valid ==> slots == old(slots) && nrFiles == old(nrFiles) && DirFile(ino, name) !in slots
      ensures r == if |name| > FILENAME_LEN then Some(ENAMETOOLONG)
                   else if DirFile(ino, name) !in old(slots) then Some(ENOENT)
                   else if persisted then None else Some(EIO)
      ensures valid == (r != Some(EIO))
    {
      hide HashOf, NamesDistinct, SlotsOk, SlotArrays, TakenElsewhere, FilesIn;
      var at := Find(name, ino);
      if at.Err? {
        NameLengths(slots, nrInodes);
        return Some(at.error);
      }
      ghost var slot := at.value.slot;
      FilesUpdate(slots, slot, EMPTY);
      r := Set(at.value.slot, 0, None, persisted);
      if r.None? {
        assert slots == old(slots)[slot := EMPTY];
        nrFiles := nrFiles - 1;
      }
    }

    /**
     * A rename inside the directory, or one half of an exchange: the entry keeps its slot.
     * A name renames it, no name puts another inode behind it.
     */
    method Rewrite(name: string, ino: nat, ino': nat, name': Option<string>, persisted: bool) returns (r: Option<Errno>)
      requires Valid() && valid && 0 < ino < nrInodes && 0 < ino' < nrInodes && (name'.Some? ==> name'.value != "")
      modifies this
      ensures Valid() && (r == None ==> valid) && nrFiles == old(nrFiles)
      ensures r == None ==> exists slot: nat ::
          && slot < |old(slots)| && old(slots)[slot] == DirFile(ino, name)
          && slots == old(slots)[slot := DirFile(ino', if name'.Some? then name'.value else name)]
          && (name'.Some? ==> !TakenElsewhere(old(slots), slot, name'.value))
      ensures r != None && valid ==> slots == old(slots)
      ensures r == if |name| > FILENAME_LEN then Some(ENAMETOOLONG)
                   else if DirFile(ino, name) !in old(slots) then Some(ENOENT)
                   else if name'.Some? && |name'.value| > FILENAME_LEN then Some(ENAMETOOLONG)
                   else if name'.Some? && name'.value != name && TakenElsewhere(old(slots), |old(slots)|, name'.value) then Some(EEXIST)
                   else if persisted then None else Some(EIO)
      ensures valid == (r != Some(EIO))
    {
      hide HashOf, NamesDistinct, SlotsOk, SlotArrays, TakenElsewhere, FilesIn;
      var at := Find(name, ino);
      if at.Err? {
        return Some(at.error);
      }
      ghost var slot := at.value.slot;
      if name'.Some? {
        TakenByAnother(slots, slot, ino, name, name'.value);
      }
      FilesUpdate(slots, slot, DirFile(ino', if name'.Some? then name'.value else name));
      r := Set(at.value.slot, ino', name', persisted);
      if r.None? {
        assert slots == old(slots)[slot := DirFile(ino', if name'.Some? then name'.value else name)];
      }
    }

    /**
     * simplefs_dir_trim: drop the blocks of an empty directory from the tail, at most sixteen of
     * one extent at a time.  `rest` is the mapping that the completed batches left.
     */
    method Trim(mapping: seq<Extent>, batches: seq<Batch>) returns (r: Option<Errno>, rest: seq<Extent>, freed: seq<Range>)
      requires Valid() && valid && Walkable(mapping, device) && Span(mapping) == nrBlocks
      modifies this`slots, this`nrBlocks, this`valid, this`nextFree
      ensures Valid() && |slots| <= |old(slots)| && slots == old(slots)[..|slots|]
      ensures Walkable(rest, device) && |slots| == Span(rest) * FILES_PER_BLOCK && TrimmedTo(mapping, rest, freed)
      ensures old(nrFiles) > 0 ==> r == Some(ENOTEMPTY) && slots == old(slots) && valid && freed == []
      ensures r == None ==> valid && slots == [] && rest == [] && nextFree == 0
      ensures (forall i :: 0 <= i < |batches| ==> batches[i].Done?) && old(nrFiles) == 0 ==> r == None
      ensures !valid ==> exists i :: 0 <= i < |batches| && batches[i].Failed? && r == Some(batches[i].error)
    {
      hide HashOf, NamesDistinct, SlotsOk, SlotArrays, FilesIn, Walkable, TrimmedTo, Span, CutTail, Tail;
      rest, freed := mapping, [];
      NothingTrimmed(mapping, device);
      if nrFiles > 0 {
        return Some(ENOTEMPTY), rest, freed;
      }
      var step := 0;
      while |rest| > 0
        invariant Valid() && valid && nrFiles == 0
        invariant |slots| <= |old(slots)| && slots == old(slots)[..|slots|]
        invariant Walkable(rest, device) && nrBlocks == Span(rest) && TrimmedTo(mapping, rest, freed)
        decreases nrBlocks
      {
        if step < |batches| && batches[step].NoHandle? {
          return Some(batches[step].error), rest, freed;
        }
        if step < |batches| && batches[step].Failed? {
          valid := false;
          return Some(batches[step].error), rest, freed;
        }
        CutWalks(rest, device);
        TrimBatch(mapping, rest, freed, device);
        var count := Tail(rest).len;
        TrimKeepsIndex(slots, (nrBlocks - count) * FILES_PER_BLOCK, names, entries, used, nextFree, nrInodes);
        freed := freed + [Tail(rest)];
        rest := CutTail(rest);
        slots := slots[..(nrBlocks - count) * FILES_PER_BLOCK];
        nrBlocks := nrBlocks - count;
        if step < |batches| && batches[step].Unstopped? {
          return Some(batches[step].error), rest, freed;
        }
        step := step + 1;
      }
      EmptySpan();
      nextFree := 0;
      return None, rest, freed;
    }

    /**
     * simplefs_dir_emit: entries from the cookie on, as many as the reader has room for. The
     * cookies 0 and 1 are "." and "..", and slot s has cookie s + 2.
     */
    method Emit(pos: nat, room: nat) returns (pos': nat, dots: nat, out: seq<DirName>)
      requires Valid() && valid
      ensures pos' >= pos
      ensures out == Listing(slots, ToSlot(pos), ToSlot(pos'))
      ensures dots == (if pos' < 2 then pos' else 2) - if pos < 2 then pos else 2
      ensures dots + |out| <= room
      ensures pos' == pos || pos' <= |slots| + 2
      ensures pos' - 2 >= |slots| || dots + |out| == room
    {
      hide HashOf, NamesDistinct, SlotsOk, FilesIn;
      pos', dots, out := pos, 0, [];
      while pos' < 2
        invariant pos <= pos' && (pos' <= 2 || pos' == pos) && dots <= room
        invariant dots == (if pos' < 2 then pos' else 2) - if pos < 2 then pos else 2
      {
        if dots == room {
          return;
        }
        pos', dots := pos' + 1, dots + 1;
      }
      while pos' - 2 < |slots|
        invariant pos' >= pos && pos' >= 2 && (pos' == pos || pos' <= |slots| + 2)
        invariant out == Listing(slots, ToSlot(pos), ToSlot(pos')) && dots + |out| <= room
        invariant dots == 2 - if pos < 2 then pos else 2
      {
        var entry := entries[pos' - 2];
        if entry.Some? {
          if dots + |out| == room {
            return;
          }
          out := out + [entry.value];
        }
        pos' := pos' + 1;
      }
    }
  }

  function ToSlot(pos: nat): nat {
    if pos < 2 then 0 else pos - 2
  }

  /** The live entries of a stretch of slots, in slot order. */
  function Listing(slots: Slots, from: nat, to: nat): seq<DirName>
  {
    if to <= from then [] else
    Listing(slots, from, to - 1) + if to <= |slots| && slots[to - 1].inode != 0 then [EntryAt(slots, to - 1).value] else []
  }

  /** The slots an addition works on: one more block when every slot is taken. */
  ghost function Roomy(slots: Slots): Slots {
    if LeastFree(slots, |slots|) then slots + seq(FILES_PER_BLOCK, _ => EMPTY) else slots
  }

  lemma TakenInRoomy(slots: Slots, slot: nat, name: string)
    requires LeastFree(slots, slot)
    ensures TakenElsewhere(Roomy(slots), slot, name) <==> TakenElsewhere(slots, |slots|, name)
  {
    var more := Roomy(slots);
    if TakenElsewhere(slots, |slots|, name) {
      var i :| 0 <= i < |slots| && i != |slots| && slots[i].inode != 0 && slots[i].filename == name;
      assert more[i] == slots[i];
    }
  }

  lemma NameLengths(slots: Slots, nrInodes: nat)
    requires SlotsOk(slots, nrInodes)
    ensures forall i :: 0 <= i < |slots| && slots[i].inode != 0 ==> |slots[i].filename| <= FILENAME_LEN
  {
  }

  lemma TrimKeepsIndex(slots: Slots, n: nat, names: map<string, DirName>, entries: seq<Option<DirName>>, used: seq<bool>,
                       nextFree: nat, nrInodes: nat)
    requires SlotsOk(slots, nrInodes) && HashOf(slots, names) && SlotArrays(slots, entries, used) && AllUsedBelow(slots, nextFree)
    requires FilesIn(slots) == 0 && n <= |slots|
    ensures SlotsOk(slots[..n], nrInodes) && NamesDistinct(slots[..n]) && HashOf(slots[..n], names)
    ensures SlotArrays(slots[..n], entries, used) && AllUsedBelow(slots[..n], nextFree) && FilesIn(slots[..n]) == 0
  {
    hide FilesIn;
    assert nextFree > 0 ==> slots[0].inode != 0;
    forall i | 0 <= i < |slots| ensures slots[i].inode == 0 {
      NoFilesMeansEmpty(slots, i);
    }
    NoLiveNoFiles(slots[..n]);
  }

  lemma {:induction false} NoLiveNoFiles(slots: Slots)
    requires forall i :: 0 <= i < |slots| ==> slots[i].inode == 0
    ensures FilesIn(slots) == 0
  {
    if slots != [] {
      NoLiveNoFiles(slots[..|slots| - 1]);
    }
  }

  /** Another live slot has the name. */
  ghost predicate TakenElsewhere(slots: Slots, slot: nat, name: string) {
    exists i :: 0 <= i < |slots| && i != slot && slots[i].inode != 0 && slots[i].filename == name
  }

  /** A name is taken elsewhere exactly when it is another name that some entry has. */
  lemma TakenByAnother(slots: Slots, slot: nat, ino: nat, name: string, name': string)
    requires NamesDistinct(slots) && slot < |slots| && slots[slot] == DirFile(ino, name) && ino != 0
    ensures TakenElsewhere(slots, slot, name') <==> name' != name && TakenElsewhere(slots, |slots|, name')
  {
  }

  ghost function NewSlot(slots: Slots, slot: nat, ino: nat, name: Option<string>): DirFile
    requires slot < |slots|
  {
    if ino == 0 then EMPTY else DirFile(ino, if name.Some? then name.value else slots[slot].filename)
  }

  ghost function SetOutcome(slots: Slots, slot: nat, ino: nat, name: Option<string>, persisted: bool): Option<Errno> {
    if slot >= |slots| then Some(EFSCORRUPTED)
    else if name.Some? && |name.value| > FILENAME_LEN then Some(ENAMETOOLONG)
    else if ino != 0 && name.None? && slots[slot].inode == 0 then Some(ENOENT)
    else if ino != 0 && name.Some? && TakenElsewhere(slots, slot, name.value) then Some(EEXIST)
    else if !persisted then Some(EIO)
    else None
  }

  lemma SlotFacts(slots: Slots, nrInodes: nat, names: map<string, DirName>, entries: seq<Option<DirName>>,
                  used: seq<bool>, nextFree: nat, slot: nat)
    requires IndexOf(slots, nrInodes, names, entries, used, nextFree) && slot < |slots|
    ensures slot < |entries| == |used| && entries[slot] == EntryAt(slots, slot)
    ensures slots[slot].inode != 0 ==>
        && slots[slot].filename in names && names[slots[slot].filename].slot == slot
        && 0 < |slots[slot].filename| <= FILENAME_LEN
  {
  }

  lemma TakenIffHashed(slots: Slots, nrInodes: nat, names: map<string, DirName>, entries: seq<Option<DirName>>,
                       used: seq<bool>, nextFree: nat, slot: nat, name: string)
    requires IndexOf(slots, nrInodes, names, entries, used, nextFree)
    ensures TakenElsewhere(slots, slot, name) <==> name in names && names[name].slot != slot
    ensures name in names && names[name].slot == slot ==> slot < |slots| && slots[slot].inode != 0 && slots[slot].filename == name
  {
    hide TakenElsewhere;
    TakenMeansHashed(slots, names, slot, name);
  }

  /** The hash, the arrays and the hint after one slot has been rewritten. */
  lemma SetKeepsIndex(slots: Slots, nrInodes: nat, names: map<string, DirName>, entries: seq<Option<DirName>>,
                      used: seq<bool>, nextFree: nat, slot: nat, file: DirFile)
    requires IndexOf(slots, nrInodes, names, entries, used, nextFree) && slot < |slots|
    requires file.inode != 0 ==> file.inode < nrInodes && 0 < |file.filename| <= FILENAME_LEN
    requires file.inode != 0 ==> file.filename in names ==> names[file.filename].slot == slot
    requires file.inode == 0 ==> file == EMPTY
    ensures slot < |entries| == |used|
    ensures var drop := slots[slot].inode != 0 && (file.inode == 0 || slots[slot].filename != file.filename);
      var rest := if drop then names - {slots[slot].filename} else names;
      var entry := DirName(file.filename, file.inode, slot);
      IndexOf(slots[slot := file], nrInodes,
              if file.inode == 0 then rest else rest[file.filename := entry],
              entries[slot := if file.inode == 0 then None else Some(entry)], used[slot := file.inode != 0],
              if file.inode == 0 then (if slot < nextFree then slot else nextFree)
              else if slot == nextFree then nextFree + 1 else nextFree)
  {
    hide HashOf, NamesDistinct, SlotsOk, AllUsedBelow;
    SetKeepsHash(slots, names, slot, file);
    SetKeepsArrays(slots, entries, used, slot, file);
    SetKeepsSlots(slots, nrInodes, slot, file);
    UsedBelowSet(slots, nextFree, slot, file);
  }

  lemma TakenMeansHashed(slots: Slots, names: map<string, DirName>, slot: nat, name: string)
    requires HashOf(slots, names)
    ensures TakenElsewhere(slots, slot, name) <==> name in names && names[name].slot != slot
    ensures name in names && names[name].slot == slot ==> slot < |slots| && slots[slot].inode != 0 && slots[slot].filename == name
  {
    if name in names && names[name].slot != slot {
      var i := names[name].slot;
      assert slots[i].inode != 0 && slots[i].filename == name;
    }
  }

  lemma SetKeepsHash(slots: Slots, names: map<string, DirName>, slot: nat, file: DirFile)
    requires HashOf(slots, names) && NamesDistinct(slots) && slot < |slots|
    requires file.inode != 0 ==> file.filename in names ==> names[file.filename].slot == slot
    requires file.inode == 0 ==> file == EMPTY
    ensures var drop := slots[slot].inode != 0 && (file.inode == 0 || slots[slot].filename != file.filename);
      var rest := if drop then names - {slots[slot].filename} else names;
      var after := slots[slot := file];
      && NamesDistinct(after)
      && HashOf(after, if file.inode == 0 then rest else rest[file.filename := DirName(file.filename, file.inode, slot)])
  {
    hide HashOf, NamesDistinct;
    if file.inode == 0 {
      HashClear(slots, names, slot);
    } else {
      HashSet(slots, names, slot, file.inode, file.filename);
    }
  }

  lemma SetKeepsArrays(slots: Slots, entries: seq<Option<DirName>>, used: seq<bool>, slot: nat, file: DirFile)
    requires SlotArrays(slots, entries, used) && slot < |slots|
    ensures SlotArrays(slots[slot := file],
                       entries[slot := if file.inode == 0 then None else Some(DirName(file.filename, file.inode, slot))],
                       used[slot := file.inode != 0])
  {
  }

  lemma SetKeepsSlots(slots: Slots, nrInodes: nat, slot: nat, file: DirFile)
    requires SlotsOk(slots, nrInodes) && slot < |slots|
    ensures file.inode == 0 || (file.inode < nrInodes && 0 < |file.filename| <= FILENAME_LEN) ==>
        SlotsOk(slots[slot := file], nrInodes)
    ensures slots[slot].inode != 0 ==> 0 < |slots[slot].filename| <= FILENAME_LEN
  {
  }

  lemma NothingBuilt(nrInodes: nat)
    ensures BuiltTo([], map[], 0, nrInodes)
  {
  }

  lemma BadSlot(slots: Slots, i: nat, nrInodes: nat)
    requires i < |slots| && slots[i].inode != 0 && (slots[i].inode >= nrInodes || slots[i].filename == "")
    ensures !SlotsOk(slots, nrInodes)
  {
  }

  lemma AllBuilt(slots: Slots, names: map<string, DirName>, nrFiles: nat, nrInodes: nat,
                 entries: seq<Option<DirName>>, used: seq<bool>)
    requires BuiltTo(slots, names, nrFiles, nrInodes) && ArraysTo(slots, entries, used, |slots|)
    ensures SlotsOk(slots, nrInodes) && NamesDistinct(slots) && HashOf(slots, names) && nrFiles == FilesIn(slots)
    ensures SlotArrays(slots, entries, used) && AllUsedBelow(slots, 0)
  {
  }

  lemma GrowKeepsIndex(slots: Slots, nrInodes: nat, names: map<string, DirName>, entries: seq<Option<DirName>>,
                       used: seq<bool>, nextFree: nat, n: nat)
    requires IndexOf(slots, nrInodes, names, entries, used, nextFree) && |slots| + n <= |entries|
    ensures IndexOf(slots + seq(n, _ => EMPTY), nrInodes, names, entries, used, nextFree)
  {
    hide HashOf, NamesDistinct, SlotsOk;
    HashGrow(slots, names, n);
    GrowKeepsSlots(slots, nrInodes, n);
  }

  lemma GrowKeepsSlots(slots: Slots, nrInodes: nat, n: nat)
    requires SlotsOk(slots, nrInodes)
    ensures SlotsOk(slots + seq(n, _ => EMPTY), nrInodes)
  {
  }
}
