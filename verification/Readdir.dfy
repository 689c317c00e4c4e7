/**
 * Reading a directory while it changes (simplefs_dir_index.c:386-406): a scan is any number
 * of emit calls, and between two of them the directory may change in any way.
 */
module Readdir {
  import opened Wrappers
  import opened DirIndexes
  import opened DirMaps

  datatype Event =
    /** The slots after an addition, a removal, a rename, an exchange, a growth or a trim. */
    | Change(after: Slots)
    /** An emit call that stops before slot `stop`. */
    | Emit(stop: nat)

  /** Where the directory stands after the events. */
  ghost function SlotsAfter(slots: Slots, events: seq<Event>): Slots
    decreases |events|
  {
    if events == [] then slots
    else SlotsAfter(if events[0].Change? then events[0].after else slots, events[1..])
  }

  ghost function CookieAfter(at: nat, events: seq<Event>): nat
    decreases |events|
  {
    if events == [] then at else CookieAfter(if events[0].Emit? then events[0].stop else at, events[1..])
  }

  /** A call never moves the cookie back. */
  ghost predicate Forward(at: nat, events: seq<Event>)
    decreases |events|
  {
    events != [] ==>
      && (events[0].Emit? ==> at <= events[0].stop)
      && Forward(if events[0].Emit? then events[0].stop else at, events[1..])
  }

  /** Everything the reader is given. */
  ghost function Scanned(slots: Slots, at: nat, events: seq<Event>): seq<DirName>
    decreases |events|
  {
    if events == [] then []
    else match events[0]
      case Change(after) => Scanned(after, at, events[1..])
      case Emit(stop) => Listing(slots, at, stop) + Scanned(slots, stop, events[1..])
  }

  /** The entry in slot k is there all along, and names stay distinct around it. */
  ghost predicate Untouched(slots: Slots, events: seq<Event>, k: nat, file: DirFile)
    decreases |events|
  {
    && NamesDistinct(slots) && k < |slots| && slots[k] == file
    && (events != [] ==> Untouched(if events[0].Change? then events[0].after else slots, events[1..], k, file))
  }

  ghost function Times(out: seq<DirName>, name: string): nat {
    if out == [] then 0 else Times(out[..|out| - 1], name) + if out[|out| - 1].name == name then 1 else 0
  }

  lemma {:induction false} TimesConcat(a: seq<DirName>, b: seq<DirName>, name: string)
    ensures Times(a + b, name) == Times(a, name) + Times(b, name)
  {
    if b == [] {
      assert a + b == a;
    } else {
      TimesConcat(a, b[..|b| - 1], name);
      assert (a + b)[..|a + b| - 1] == a + b[..|b| - 1];
    }
  }

  /** One call lists the entry once if its slot is in the stretch, and no other entry by its name. */
  lemma {:induction false} ListedOnce(slots: Slots, from: nat, to: nat, k: nat)
    requires NamesDistinct(slots) && k < |slots| && slots[k].inode != 0
    ensures Times(Listing(slots, from, to), slots[k].filename) == if from <= k < to then 1 else 0
  {
    if to > from {
      ListedOnce(slots, from, to - 1, k);
      var rest := Listing(slots, from, to - 1);
      if to <= |slots| && slots[to - 1].inode != 0 {
        var e := EntryAt(slots, to - 1).value;
        assert (rest + [e])[..|rest|] == rest;
        assert e.name == slots[k].filename <==> to - 1 == k;
      } else {
        assert rest + [] == rest;
      }
    }
  }

  lemma {:induction false} ScannedTimes(slots: Slots, at: nat, events: seq<Event>, k: nat, file: DirFile)
    requires file.inode != 0 && Untouched(slots, events, k, file) && Forward(at, events)
    ensures Times(Scanned(slots, at, events), file.filename) == if at <= k < CookieAfter(at, events) then 1 else 0
    ensures at <= CookieAfter(at, events)
    decreases |events|
  {
    if events != [] {
      match events[0]
      case Change(after) => ScannedTimes(after, at, events[1..], k, file);
      case Emit(stop) =>
        ScannedTimes(slots, stop, events[1..], k, file);
        ListedOnce(slots, at, stop, k);
        TimesConcat(Listing(slots, at, stop), Scanned(slots, stop, events[1..]), file.filename);
    }
  }

  lemma {:induction false} UntouchedAtEnd(slots: Slots, events: seq<Event>, k: nat, file: DirFile)
    requires Untouched(slots, events, k, file)
    ensures k < |SlotsAfter(slots, events)|
    decreases |events|
  {
    if events != [] {
      UntouchedAtEnd(if events[0].Change? then events[0].after else slots, events[1..], k, file);
    }
  }

  /** A complete scan returns an entry that stays in its slot exactly once, whatever else happens. */
  lemma UntouchedSeenOnce(slots: Slots, events: seq<Event>, k: nat, file: DirFile)
    requires file.inode != 0 && Untouched(slots, events, k, file) && Forward(0, events)
    requires CookieAfter(0, events) >= |SlotsAfter(slots, events)|
    ensures Times(Scanned(slots, 0, events), file.filename) == 1
    ensures DirName(file.filename, file.inode, k) in Scanned(slots, 0, events)
  {
    UntouchedAtEnd(slots, events, k, file);
    ScannedTimes(slots, 0, events, k, file);
    ScannedHas(slots, 0, events, k, file);
  }

  lemma {:induction false} ListedIfInside(slots: Slots, from: nat, to: nat, k: nat)
    requires from <= k < to && k < |slots| && slots[k].inode != 0
    ensures EntryAt(slots, k).value in Listing(slots, from, to)
  {
    if k < to - 1 {
      ListedIfInside(slots, from, to - 1, k);
    }
  }

  lemma {:induction false} ScannedHas(slots: Slots, at: nat, events: seq<Event>, k: nat, file: DirFile)
    requires file.inode != 0 && Untouched(slots, events, k, file) && Forward(at, events)
    requires at <= k < CookieAfter(at, events)
    ensures DirName(file.filename, file.inode, k) in Scanned(slots, at, events)
    decreases |events|
  {
    if events != [] {
      match events[0]
      case Change(after) => ScannedHas(after, at, events[1..], k, file);
      case Emit(stop) =>
        if k < stop {
          ListedIfInside(slots, at, stop, k);
        } else {
          ScannedHas(slots, stop, events[1..], k, file);
        }
    }
  }

  // ---------- the operations on a directory ----------

  /** A call on the directory. Entries are named by name and inode, as the callers name them. */
  datatype Op =
    | Add(name: string, ino: nat)
    | Clear(name: string, ino: nat)
    /** A rename in place, or with no new name another inode behind the same name. */
    | Rewrite(name: string, ino: nat, ino': nat, name': Option<string>)
    | Grow
    | Trim(n: nat)
    | Read(stop: nat)

  /** What a successful call does to the slots: what DirIndex ensures of Add, Clear, Rewrite, FreeSlot and Trim. */
  ghost predicate Effect(slots: Slots, op: Op, after: Slots) {
    match op
    case Add(name, ino) =>
      && ino != 0 && !TakenElsewhere(slots, |slots|, name)
      && exists slot: nat :: LeastFree(slots, slot) && slot < |Roomy(slots)| && after == Roomy(slots)[slot := DirFile(ino, name)]
    case Clear(name, ino) =>
      ino != 0 && exists slot: nat :: slot < |slots| && slots[slot] == DirFile(ino, name) && after == slots[slot := EMPTY]
    case Rewrite(name, ino, ino', name') =>
      && ino != 0 && ino' != 0
      && exists slot: nat ::
           && slot < |slots| && slots[slot] == DirFile(ino, name)
           && after == slots[slot := DirFile(ino', if name'.Some? then name'.value else name)]
           && (name'.Some? ==> !TakenElsewhere(slots, slot, name'.value))
    case Grow => after == slots + seq(FILES_PER_BLOCK, _ => EMPTY)
    case Trim(n) => FilesIn(slots) == 0 && n <= |slots| && after == slots[..n]
    case Read(_) => after == slots
  }

  /** The entry is there, or is new, and no name is too long or another entry's. */
  ghost predicate Applies(slots: Slots, op: Op)
    requires op.Add? || op.Clear? || op.Rewrite?
  {
    && |op.name| <= FILENAME_LEN
    && (if op.Add? then !TakenElsewhere(slots, |slots|, op.name) else DirFile(op.ino, op.name) in slots)
    && (op.Rewrite? && op.name'.Some? ==>
          && |op.name'.value| <= FILENAME_LEN
          && (op.name'.value == op.name || !TakenElsewhere(slots, |slots|, op.name'.value)))
  }

  /** The calls of the directory index are such operations. */
  method Apply(d: DirIndex, op: Op, growth: Growth, persisted: bool, written: bool) returns (r: Option<Errno>)
    requires d.Valid() && d.valid && (op.Add? || op.Clear? || op.Rewrite?) && 0 < op.ino < d.nrInodes && op.name != ""
    requires op.Rewrite? ==> 0 < op.ino' < d.nrInodes && (op.name'.Some? ==> op.name'.value != "")
    modifies d
    ensures d.Valid()
    ensures r == None ==> d.valid && Effect(old(d.slots), op, d.slots)
    ensures growth.Grown? && persisted && written && |old(d.slots)| < MAX_DIR_BLOCKS * FILES_PER_BLOCK ==>
        (r == None <==> Applies(old(d.slots), op))
  {
    hide LeastFree, TakenElsewhere, Roomy, HashOf, NamesDistinct, SlotsOk, SlotArrays, FilesIn;
    match op
    case Add(name, ino) => r := d.Add(name, ino, growth, persisted, written);
    case Clear(name, ino) => r := d.Clear(name, ino, persisted);
    case Rewrite(name, ino, ino', name') => r := d.Rewrite(name, ino, ino', name', persisted);
  }

  /** The call removes, renames or overwrites the entry of that name. */
  predicate Names(op: Op, name: string) {
    (op.Clear? || op.Rewrite?) && op.name == name
  }

  lemma FreeSlotIsNotLive(slots: Slots, slot: nat, k: nat)
    requires LeastFree(slots, slot) && k < |slots| && slots[k].inode != 0
    ensures k != slot && k < |Roomy(slots)| && Roomy(slots)[k] == slots[k]
  {
  }

  lemma AddKeepsEntries(slots: Slots, name: string, ino: nat, after: Slots, k: nat)
    requires NamesDistinct(slots) && k < |slots| && slots[k].inode != 0 && Effect(slots, Add(name, ino), after)
    ensures NamesDistinct(after) && k < |after| && after[k] == slots[k]
  {
    var slot: nat :| LeastFree(slots, slot) && slot < |Roomy(slots)| && after == Roomy(slots)[slot := DirFile(ino, name)];
    FreeSlotIsNotLive(slots, slot, k);
    forall i, j | 0 <= i < j < |after| && after[i].inode != 0 && after[j].inode != 0 ensures after[i].filename != after[j].filename {
      RoomyLive(slots, slot, i);
      RoomyLive(slots, slot, j);
    }
  }

  /** A live slot of the roomy list is a live slot of the list, unless it was just filled. */
  lemma RoomyLive(slots: Slots, slot: nat, i: nat)
    requires LeastFree(slots, slot)
    ensures i != slot && i < |Roomy(slots)| && Roomy(slots)[i].inode != 0 ==> i < |slots| && slots[i] == Roomy(slots)[i]
  {
  }

  lemma ClearKeepsEntries(slots: Slots, name: string, ino: nat, after: Slots, k: nat)
    requires NamesDistinct(slots) && k < |slots| && slots[k].inode != 0 && slots[k].filename != name
    requires Effect(slots, Clear(name, ino), after)
    ensures NamesDistinct(after) && k < |after| && after[k] == slots[k]
  {
  }

  lemma RewriteKeepsEntries(slots: Slots, op: Op, after: Slots, k: nat)
    requires op.Rewrite? && NamesDistinct(slots) && k < |slots| && slots[k].inode != 0 && slots[k].filename != op.name
    requires Effect(slots, op, after)
    ensures NamesDistinct(after) && k < |after| && after[k] == slots[k]
  {
    var file := DirFile(op.ino', if op.name'.Some? then op.name'.value else op.name);
    var slot: nat :| slot < |slots| && slots[slot] == DirFile(op.ino, op.name) && after == slots[slot := file]
                     && (op.name'.Some? ==> !TakenElsewhere(slots, slot, op.name'.value));
    forall i | 0 <= i < |slots| && i != slot && slots[i].inode != 0 ensures slots[i].filename != file.filename {
      if op.name'.None? {
        assert slots[slot].filename == file.filename;
      }
    }
  }

  /** No call moves or changes a live entry that it does not name. */
  lemma OpKeepsEntries(slots: Slots, op: Op, after: Slots, k: nat)
    requires NamesDistinct(slots) && k < |slots| && slots[k].inode != 0 && !Names(op, slots[k].filename)
    requires Effect(slots, op, after)
    ensures NamesDistinct(after) && k < |after| && after[k] == slots[k]
  {
    match op
    case Add(name, ino) => AddKeepsEntries(slots, name, ino, after, k);
    case Clear(name, ino) => ClearKeepsEntries(slots, name, ino, after, k);
    case Rewrite(_, _, _, _) => RewriteKeepsEntries(slots, op, after, k);
    case Grow =>
    case Trim(n) => NoFilesMeansEmpty(slots, k);
    case Read(_) =>
  }

  /** The directory after each call. */
  ghost predicate History(states: seq<Slots>, ops: seq<Op>) {
    |states| == |ops| + 1 && forall i :: 0 <= i < |ops| ==> Effect(states[i], ops[i], states[i + 1])
  }

  /** The history from call i on, as a scan sees it. */
  ghost function Seen(states: seq<Slots>, ops: seq<Op>, i: nat): seq<Event>
    requires |states| == |ops| + 1 && i <= |ops|
    decreases |ops| - i
  {
    if i == |ops| then []
    else [if ops[i].Read? then Emit(ops[i].stop) else Change(states[i + 1])] + Seen(states, ops, i + 1)
  }

  lemma HistoryAt(states: seq<Slots>, ops: seq<Op>, i: nat)
    requires History(states, ops) && i < |ops|
    ensures |states| == |ops| + 1 && Effect(states[i], ops[i], states[i + 1])
  {
  }

  lemma UntouchedCons(slots: Slots, events: seq<Event>, k: nat, file: DirFile)
    requires NamesDistinct(slots) && k < |slots| && slots[k] == file && events != []
    requires Untouched(if events[0].Change? then events[0].after else slots, events[1..], k, file)
    ensures Untouched(slots, events, k, file)
  {
  }

  lemma UntouchedEnd(slots: Slots, k: nat, file: DirFile)
    requires NamesDistinct(slots) && k < |slots| && slots[k] == file
    ensures Untouched(slots, [], k, file)
  {
  }

  lemma {:induction false} UnnamedIsUntouched(states: seq<Slots>, ops: seq<Op>, i: nat, k: nat, file: DirFile)
    requires History(states, ops) && i <= |ops| && file.inode != 0
    requires NamesDistinct(states[i]) && k < |states[i]| && states[i][k] == file
    requires forall j :: i <= j < |ops| ==> !Names(ops[j], file.filename)
    ensures Untouched(states[i], Seen(states, ops, i), k, file)
    decreases |ops| - i
  {
    if i < |ops| {
      HistoryAt(states, ops, i);
      hide Effect, NamesDistinct, Names, Seen, Untouched, History;
      OpKeepsEntries(states[i], ops[i], states[i + 1], k);
      UnnamedIsUntouched(states, ops, i + 1, k, file);
      ReadChangesNothing(states[i], ops[i], states[i + 1]);
      SeenCons(states, ops, i);
      UntouchedCons(states[i], Seen(states, ops, i), k, file);
    } else {
      UntouchedEnd(states[i], k, file);
    }
  }

  lemma ReadChangesNothing(slots: Slots, op: Op, after: Slots)
    requires Effect(slots, op, after)
    ensures op.Read? ==> after == slots
  {
  }

  lemma SeenCons(states: seq<Slots>, ops: seq<Op>, i: nat)
    requires |states| == |ops| + 1 && i < |ops|
    ensures var seen := Seen(states, ops, i);
      && seen != [] && seen[0] == (if ops[i].Read? then Emit(ops[i].stop) else Change(states[i + 1]))
      && seen[1..] == Seen(states, ops, i + 1)
  {
  }

  lemma AfterCons(slots: Slots, events: seq<Event>)
    requires events != []
    ensures SlotsAfter(slots, events) == SlotsAfter(if events[0].Change? then events[0].after else slots, events[1..])
  {
  }

  lemma SeenEnd(states: seq<Slots>, ops: seq<Op>)
    requires History(states, ops)
    ensures |states| == |ops| + 1 && SlotsAfter(states[|ops|], Seen(states, ops, |ops|)) == states[|ops|]
  {
  }

  lemma {:induction false} EndOfHistory(states: seq<Slots>, ops: seq<Op>, i: nat)
    requires History(states, ops) && i <= |ops|
    ensures SlotsAfter(states[i], Seen(states, ops, i)) == states[|ops|]
    decreases |ops| - i
  {
    hide Effect, Seen, History, SlotsAfter;
    if i < |ops| {
      HistoryAt(states, ops, i);
      ReadChangesNothing(states[i], ops[i], states[i + 1]);
      EndOfHistory(states, ops, i + 1);
      SeenCons(states, ops, i);
      AfterCons(states[i], Seen(states, ops, i));
    } else {
      SeenEnd(states, ops);
    }
  }

  /**
   * A scan from the start to the end of the directory, between whose calls entries are added,
   * cleared, renamed in place and exchanged and the directory grows or is trimmed, returns
   * every entry that is there from the start and that no call names exactly once.
   */
  lemma SeenExactlyOnce(states: seq<Slots>, ops: seq<Op>, k: nat)
    requires History(states, ops) && NamesDistinct(states[0]) && k < |states[0]| && states[0][k].inode != 0
    requires forall i :: 0 <= i < |ops| ==> !Names(ops[i], states[0][k].filename)
    requires Forward(0, Seen(states, ops, 0)) && CookieAfter(0, Seen(states, ops, 0)) >= |states[|ops|]|
    ensures var file := states[0][k];
      && Times(Scanned(states[0], 0, Seen(states, ops, 0)), file.filename) == 1
      && DirName(file.filename, file.inode, k) in Scanned(states[0], 0, Seen(states, ops, 0))
  {
    hide Effect;
    UnnamedIsUntouched(states, ops, 0, k, states[0][k]);
    EndOfHistory(states, ops, 0);
    UntouchedSeenOnce(states[0], Seen(states, ops, 0), k, states[0][k]);
  }

  /** Nothing is made up: a call returns only entries that are in the directory at that moment, in slot order. */
  lemma {:induction false} OnlyLive(slots: Slots, from: nat, to: nat, i: nat)
    requires i < |Listing(slots, from, to)|
    ensures var e := Listing(slots, from, to)[i];
      && from <= e.slot < to && e.slot < |slots| && slots[e.slot] == DirFile(e.ino, e.name) && e.ino != 0
      && forall j :: 0 <= j < i ==> Listing(slots, from, to)[j].slot < e.slot
  {
    var rest := Listing(slots, from, to - 1);
    if i < |rest| {
      OnlyLive(slots, from, to - 1, i);
      assert forall j :: 0 <= j <= i ==> Listing(slots, from, to)[j] == rest[j];
    } else {
      forall j | 0 <= j < i ensures Listing(slots, from, to)[j].slot < to - 1 {
        OnlyLive(slots, from, to - 1, j);
        assert Listing(slots, from, to)[j] == rest[j];
      }
    }
  }

  /**
   * Moving a live entry to another slot between calls can show it twice, so keeping slots
   * stable is what the guarantee rests on.
   */
  lemma MovedEntrySeenTwice()
    ensures var f := DirFile(2, "a");
      Times(Scanned([f, EMPTY], 0, [Emit(1), Change([EMPTY, f]), Emit(2)]), "a") == 2
  {
    var f := DirFile(2, "a");
    var before, after := [f, EMPTY], [EMPTY, f];
    var last := [Emit(2)];
    ListingOne(before, 0);
    ListingOne(after, 1);
    hide Listing, Scanned, Times;
    ScannedCons(before, 0, Emit(1), [Change(after)] + last);
    ScannedCons(before, 1, Change(after), last);
    ScannedCons(after, 1, Emit(2), []);
    TimesPair(DirName("a", 2, 0), DirName("a", 2, 1));
    assert [Emit(1), Change(after), Emit(2)] == [Emit(1)] + ([Change(after)] + last) && last == [Emit(2)] + [];
    assert [DirName("a", 2, 0)] + ([DirName("a", 2, 1)] + []) == [DirName("a", 2, 0), DirName("a", 2, 1)];
  }

  lemma ListingOne(slots: Slots, k: nat)
    requires k < |slots| && slots[k].inode != 0
    ensures Listing(slots, k, k + 1) == [DirName(slots[k].filename, slots[k].inode, k)]
  {
    assert Listing(slots, k, k) == [];
  }

  lemma ScannedCons(slots: Slots, at: nat, e: Event, events: seq<Event>)
    ensures Scanned(slots, at, []) == []
    ensures Scanned(slots, at, [e] + events) ==
      if e.Change? then Scanned(e.after, at, events) else Listing(slots, at, e.stop) + Scanned(slots, e.stop, events)
  {
    assert ([e] + events)[1..] == events;
  }

  lemma TimesPair(a: DirName, b: DirName)
    ensures Times([a, b], "a") == (if a.name == "a" then 1 else 0) + if b.name == "a" then 1 else 0
  {
    assert [a][..0] == [];
    assert Times([a], "a") == if a.name == "a" then 1 else 0;
    assert [a, b][..1] == [a];
  }
}
