/** Snapshot names, cleanup (src/snapshot_manager.rs) and restore (src/indexer/mod.rs:148-266). */
module Snapshots {
  import opened Wrappers
  import opened Text

  const PREFIX := "slot-"

  /** `format!("slot-{:020}", slot)` */
  function SnapshotName(slot: nat): string {
    PREFIX + Padded(20, slot)
  }

  /** Rust's `parse::<u64>`: an optional plus sign, then digits only, in range. */
  function ParseU64(s: string): Option<nat> {
    var digits := if s != "" && s[0] == '+' then s[1..] else s;
    if digits == "" || !AllDigits(digits) || Value(digits) > U64_MAX then None else Some(Value(digits))
  }

  function ParseSnapshotSlot(name: string): Option<nat> {
    if |name| >= |PREFIX| && name[..|PREFIX|] == PREFIX then ParseU64(name[|PREFIX|..]) else None
  }

  // ---- Names order and parse as slots --------------------------------------------------------

  lemma TwentyDigits()
    ensures U64_MAX < Pow10(20)
  {
    Pow10Sum(10, 10);
    assert Pow10(5) == 100_000 by { assert Pow10(3) == 1000; }
    Pow10Sum(5, 5);
  }

  lemma {:induction false} Pow10Sum(a: nat, b: nat)
    ensures Pow10(a + b) == Pow10(a) * Pow10(b)
  {
    if a > 0 {
      Pow10Sum(a - 1, b);
      Associate(10, Pow10(a - 1), Pow10(b));
    }
  }

  lemma Associate(x: int, y: int, z: int)
    ensures x * (y * z) == (x * y) * z
  {
  }

  /** The name of any u64 slot parses back to the slot. */
  lemma NameParsesBack(slot: nat)
    requires slot <= U64_MAX
    ensures ParseSnapshotSlot(SnapshotName(slot)) == Some(slot)
  {
    hide Padded;
    var digits := Padded(20, slot);
    TwentyDigits();
    PaddedLength(20, slot);
    ValuePadded(20, slot);
    assert SnapshotName(slot)[|PREFIX|..] == digits && SnapshotName(slot)[..|PREFIX|] == PREFIX;
    assert digits[0] != '+';
  }

  /** Snapshot names order lexicographically exactly as their slots order numerically. */
  lemma NamesOrderAsSlots(a: nat, b: nat)
    requires a <= U64_MAX && b <= U64_MAX
    ensures Less(SnapshotName(a), SnapshotName(b)) <==> a < b
  {
    hide Padded;
    TwentyDigits();
    PaddedLength(20, a);
    PaddedLength(20, b);
    ValuePadded(20, a);
    ValuePadded(20, b);
    LessPrefix(PREFIX, Padded(20, a), Padded(20, b));
    LessIsNumeric(Padded(20, a), Padded(20, b));
  }

  /** The parser also takes names the writer never makes, and those break the order: here slot 9 comes after slot 10. */
  lemma LooseNameBreaksOrder()
    ensures ParseSnapshotSlot("slot-9") == Some(9) && ParseSnapshotSlot("slot-+10") == Some(10)
    ensures Less("slot-+10", "slot-9")
  {
    hide Less;
    assert "slot-9"[5..] == "9" && "slot-+10"[5..] == "+10" && "+10"[1..] == "10" && "10"[..1] == "1";
    assert Value("1") == 1 && Value("10") == 10;
    LessPrefix("slot-", "+10", "9");
    PlusComesFirst();
  }

  lemma PlusComesFirst()
    ensures Less("+10", "9") && "slot-" + "+10" == "slot-+10" && "slot-" + "9" == "slot-9"
  {
  }

  /** A name the writer makes. */
  ghost predicate Canonical(name: string) {
    exists slot: nat :: slot <= U64_MAX && name == SnapshotName(slot)
  }

  function SlotOf(name: string): nat {
    var slot := ParseSnapshotSlot(name);
    if slot.Some? then slot.value else 0
  }

  lemma CanonicalOrder(a: string, b: string)
    requires Canonical(a) && Canonical(b)
    ensures ParseSnapshotSlot(a).Some? && ParseSnapshotSlot(b).Some?
    ensures Less(a, b) <==> SlotOf(a) < SlotOf(b)
  {
    hide SnapshotName, ParseSnapshotSlot;
    var x: nat :| x <= U64_MAX && a == SnapshotName(x);
    var y: nat :| y <= U64_MAX && b == SnapshotName(y);
    NameParsesBack(x);
    NameParsesBack(y);
    NamesOrderAsSlots(x, y);
  }

  // ---- Sorted listings -----------------------------------------------------------------------

  lemma {:induction false} LessTotal(a: string, b: string)
    ensures a == b || Less(a, b) || Less(b, a)
    ensures !(Less(a, b) && Less(b, a)) && !Less(a, a)
    decreases |a|
  {
    if a != "" {
      LessTotal(a[1..], a[1..]);
    }
    if a != "" && b != "" {
      LessTotal(a[1..], b[1..]);
      if a[0] == b[0] && a[1..] == b[1..] {
        assert a == [a[0]] + a[1..] && b == [b[0]] + b[1..];
      }
    }
  }

  lemma {:induction false} LessTransitive(a: string, b: string, c: string)
    requires Less(a, b) && Less(b, c)
    ensures Less(a, c)
    decreases |a|
  {
    if a != "" && a[0] == b[0] == c[0] {
      LessTransitive(a[1..], b[1..], c[1..]);
    }
  }

  /**
   * Exactly which accepted names sort as their slots against the names the writer makes: those the writer makes
   * itself, down to the last digit.
   */
  lemma OrdersAsSlotExactWhen(name: string)
    requires ParseSnapshotSlot(name).Some?
    ensures (forall slot: nat | slot <= U64_MAX ::
               && (Less(name, SnapshotName(slot)) <==> SlotOf(name) < slot)
               && (Less(SnapshotName(slot), name) <==> slot < SlotOf(name)))
            <==> Canonical(name)
    ensures Canonical(name) <==> name == SnapshotName(SlotOf(name))
  {
    hide SnapshotName, Less;
    var own := SnapshotName(SlotOf(name));
    assert SlotOf(name) <= U64_MAX;
    NameParsesBack(SlotOf(name));
    if Canonical(name) {
      var x: nat :| x <= U64_MAX && name == SnapshotName(x);
      NameParsesBack(x);
      forall slot: nat | slot <= U64_MAX
        ensures Less(name, SnapshotName(slot)) <==> SlotOf(name) < slot
        ensures Less(SnapshotName(slot), name) <==> slot < SlotOf(name)
      {
        NamesOrderAsSlots(x, slot);
        NamesOrderAsSlots(slot, x);
      }
    } else {
      LessTotal(name, own);
      assert name != own;
    }
  }

  function InsertName(name: string, names: seq<string>): (r: seq<string>)
    ensures |r| == |names| + 1
  {
    if names == [] || Less(name, names[0]) then [name] + names else [names[0]] + InsertName(name, names[1..])
  }

  /** The listing in ascending order. */
  function Sort(names: seq<string>): (r: seq<string>)
    ensures |r| == |names|
  {
    if names == [] then [] else InsertName(names[0], Sort(names[1..]))
  }

  ghost predicate Ascending(names: seq<string>) {
    forall i, j | 0 <= i < j < |names| :: Less(names[i], names[j])
  }

  ghost predicate Distinct(names: seq<string>) {
    forall i, j | 0 <= i < j < |names| :: names[i] != names[j]
  }

  lemma {:induction false} InsertKeepsAscending(name: string, names: seq<string>)
    requires Ascending(names) && name !in names
    ensures Ascending(InsertName(name, names))
    ensures forall x :: x in InsertName(name, names) <==> x == name || x in names
  {
    if names != [] {
      LessTotal(name, names[0]);
      if Less(name, names[0]) {
        forall x | x in names ensures Less(name, x) {
          if x != names[0] { LessTransitive(name, names[0], x); }
        }
        assert Ascending([name] + names);
      } else {
        var rest := InsertName(name, names[1..]);
        InsertKeepsAscending(name, names[1..]);
        assert names == [names[0]] + names[1..];
        assert forall x | x in rest :: Less(names[0], x);
        assert Ascending([names[0]] + rest);
      }
    }
  }

  lemma {:induction false} SortAscends(names: seq<string>)
    requires Distinct(names)
    ensures Ascending(Sort(names))
    ensures forall x :: x in Sort(names) <==> x in names
  {
    hide Less, InsertName;
    if names != [] {
      SortAscends(names[1..]);
      InsertKeepsAscending(names[0], Sort(names[1..]));
      assert names == [names[0]] + names[1..];
    }
  }

  // ---- Cleanup -------------------------------------------------------------------------------

  /** The entries that name snapshots, in listing order. */
  function SnapshotsIn(entries: seq<string>): seq<string> {
    if entries == [] then [] else
    var last := entries[|entries| - 1];
    SnapshotsIn(entries[..|entries| - 1]) + if ParseSnapshotSlot(last).Some? then [last] else []
  }

  function Remove(entries: seq<string>, gone: set<string>): seq<string> {
    if entries == [] then [] else
    var last := entries[|entries| - 1];
    Remove(entries[..|entries| - 1], gone) + if last in gone then [] else [last]
  }

  lemma {:induction false} SnapshotsInMembers(entries: seq<string>)
    ensures forall x :: x in SnapshotsIn(entries) <==> x in entries && ParseSnapshotSlot(x).Some?
    ensures Distinct(entries) ==> Distinct(SnapshotsIn(entries))
    ensures |SnapshotsIn(entries)| <= |entries|
  {
    hide ParseSnapshotSlot;
    if entries != [] {
      SnapshotsInMembers(entries[..|entries| - 1]);
      assert entries == entries[..|entries| - 1] + [entries[|entries| - 1]];
    }
  }

  lemma {:induction false} RemoveMembers(entries: seq<string>, gone: set<string>)
    ensures forall x :: x in Remove(entries, gone) <==> x in entries && x !in gone
  {
    if entries != [] {
      RemoveMembers(entries[..|entries| - 1], gone);
      assert entries == entries[..|entries| - 1] + [entries[|entries| - 1]];
    }
  }

  lemma {:induction false} RemoveTwice(entries: seq<string>, a: set<string>, b: set<string>)
    ensures Remove(Remove(entries, a), b) == Remove(entries, a + b)
  {
    if entries != [] {
      var n := |entries| - 1;
      RemoveTwice(entries[..n], a, b);
      var kept := Remove(entries[..n], a);
      if entries[n] !in a {
        assert (kept + [entries[n]])[..|kept|] == kept;
      } else {
        assert Remove(entries, a) == kept;
      }
    }
  }

  lemma {:induction false} RemoveNothing(entries: seq<string>)
    ensures Remove(entries, {}) == entries
  {
    if entries != [] {
      RemoveNothing(entries[..|entries| - 1]);
    }
  }

  /** The names a deletion works on. */
  function Those(names: seq<string>, removable: string -> bool): (those: set<string>)
    ensures names == [] ==> those == {}
  {
    set x | x in names && removable(x)
  }

  lemma ThoseOnEitherSide(names: seq<string>, name: string, removable: string -> bool)
    ensures Those(names + [name], removable) == Those(names, removable) + if removable(name) then {name} else {}
    ensures Those([name] + names, removable) == Those(names, removable) + if removable(name) then {name} else {}
  {
  }

  /** The oldest snapshots beyond those to keep. */
  function Doomed(entries: seq<string>, keep: nat): seq<string> {
    var snapshots := SnapshotsIn(entries);
    if |snapshots| <= keep then [] else Sort(snapshots)[..|snapshots| - keep]
  }

  function Newest(entries: seq<string>): Option<string> {
    var sorted := Sort(SnapshotsIn(entries));
    if sorted == [] then None else Some(sorted[|sorted| - 1])
  }

  /** The `snapshots` directory of a tree. */
  class SnapshotDirectory {
    /** The names of its sub-directories, in the order a listing yields them. */
    var entries: seq<string>

    constructor (names: seq<string>)
      ensures entries == names
    {
      entries := names;
    }

    method Collect() returns (snapshots: seq<string>)
      ensures snapshots == SnapshotsIn(entries)
    {
      snapshots := [];
      for i := 0 to |entries|
        invariant snapshots == SnapshotsIn(entries[..i])
      {
        assert entries[..i + 1][..i] == entries[..i];
        if ParseSnapshotSlot(entries[i]).Some? {
          snapshots := snapshots + [entries[i]];
        }
      }
      assert entries[..|entries|] == entries;
    }

    /** `find_latest_snapshot` of an existing directory. */
    method FindLatest() returns (latest: Option<string>)
      ensures latest == Newest(entries)
    {
      var snapshots := Collect();
      var sorted := Sort(snapshots);
      latest := if sorted == [] then None else Some(sorted[|sorted| - 1]);
    }

    /** `remove_dir_all`, which may fail. */
    method Delete(name: string, removable: string -> bool) returns (ok: bool)
      modifies this
      ensures ok == removable(name)
      ensures entries == Remove(old(entries), if ok then {name} else {})
    {
      ok := removable(name);
      if ok {
        entries := Remove(entries, {name});
      } else {
        RemoveNothing(entries);
      }
    }

    /** `cleanup_old_snapshots`: a deletion that fails is passed over. */
    method CleanupOldSnapshots(keep: nat, removable: string -> bool)
      modifies this
      ensures entries == Remove(old(entries), Those(Doomed(old(entries), keep), removable))
    {
      hide ParseSnapshotSlot, Sort, Less, Remove, SnapshotsIn, Those;
      var snapshots := Collect();
      RemoveNothing(entries);
      if |snapshots| <= keep {
        return;
      }
      var sorted := Sort(snapshots);
      var toDelete := sorted[..|snapshots| - keep];
      ghost var doomed := Doomed(entries, keep);
      assert toDelete == doomed;
      for i := 0 to |toDelete|
        invariant entries == Remove(old(entries), Those(toDelete[..i], removable))
      {
        var ok := Delete(toDelete[i], removable);
        OneMoreAfter(old(entries), toDelete, i, removable);
      }
      assert toDelete[..|toDelete|] == toDelete;
    }

    /**
     * `open_lsm_tree_with_snapshot`: the snapshot opened, or `None` for an empty tree. Whether a snapshot loads,
     * validates, opens and can be deleted is given.
     */
    method OpenTree(o: Outcomes) returns (chosen: Option<string>)
      modifies this
      ensures chosen == Best(old(entries), o)
      ensures entries == Remove(old(entries), Those(Tried(old(entries), o), o.deletable))
    {
      hide Sort, Remove, Those, LastGood;
      RemoveNothing(entries);
      if entries == [] {
        NothingTried(o);
        return None;
      }
      var sorted := Sort(entries);
      var n := |sorted|;
      while n > 0
        invariant 0 <= n <= |sorted|
        invariant LastGood(sorted, |sorted|, o) == LastGood(sorted, n, o)
        invariant entries == Remove(old(entries), Those(sorted[n..], o.deletable))
      {
        var name := sorted[n - 1];
        LastGoodStep(sorted, n, o);
        if o.loads(name) {
          if o.validates(name) {
            if o.opens(name) {
              return Some(name);
            }
          }
        }
        var ok := Delete(name, o.deletable);
        OneMoreBefore(old(entries), sorted, n - 1, o.deletable);
        n := n - 1;
      }
      NoneGood(sorted, o);
      return None;
    }
  }

  lemma OneMoreAfter(entries: seq<string>, names: seq<string>, i: nat, removable: string -> bool)
    requires i < |names|
    ensures Remove(Remove(entries, Those(names[..i], removable)), if removable(names[i]) then {names[i]} else {})
         == Remove(entries, Those(names[..i + 1], removable))
  {
    hide Those, Remove;
    RemoveTwice(entries, Those(names[..i], removable), if removable(names[i]) then {names[i]} else {});
    assert names[..i + 1] == names[..i] + [names[i]];
    ThoseOnEitherSide(names[..i], names[i], removable);
  }

  lemma OneMoreBefore(entries: seq<string>, names: seq<string>, i: nat, removable: string -> bool)
    requires i < |names|
    ensures Remove(Remove(entries, Those(names[i + 1..], removable)), if removable(names[i]) then {names[i]} else {})
         == Remove(entries, Those(names[i..], removable))
  {
    hide Those, Remove;
    RemoveTwice(entries, Those(names[i + 1..], removable), if removable(names[i]) then {names[i]} else {});
    assert names[i..] == [names[i]] + names[i + 1..];
    ThoseOnEitherSide(names[i + 1..], names[i], removable);
  }

  /** The latest snapshot by name is the one of the highest slot. */
  lemma NewestIsHighestSlot(entries: seq<string>, name: string)
    requires Distinct(entries) && forall x | x in entries && ParseSnapshotSlot(x).Some? :: Canonical(x)
    requires name in entries && ParseSnapshotSlot(name).Some?
    ensures Newest(entries).Some? && Newest(entries).value in entries
    ensures SlotOf(name) <= SlotOf(Newest(entries).value)
  {
    hide ParseSnapshotSlot, SlotOf, Sort, Less;
    var snapshots := SnapshotsIn(entries);
    SnapshotsInMembers(entries);
    SortAscends(snapshots);
    var sorted := Sort(snapshots);
    assert name in sorted;
    var i :| 0 <= i < |sorted| && sorted[i] == name;
    var top := sorted[|sorted| - 1];
    assert top in sorted;
    CanonicalOrder(name, top);
  }

  /**
   * Cleanup with no deletion errors keeps exactly the snapshots of the N highest slots: the doomed ones all have
   * lower slots than the ones kept, and as many are kept as asked for or as there are.
   */
  lemma CleanupKeepsHighestSlots(entries: seq<string>, keep: nat)
    requires Distinct(entries) && forall x | x in entries && ParseSnapshotSlot(x).Some? :: Canonical(x)
    ensures var doomed, snapshots := Doomed(entries, keep), SnapshotsIn(entries);
            && |snapshots| - |doomed| == (if |snapshots| <= keep then |snapshots| else keep)
            && Distinct(doomed) && (forall d | d in doomed :: d in snapshots)
            && forall d, k | d in doomed && k in snapshots && k !in doomed :: SlotOf(d) < SlotOf(k)
  {
    hide ParseSnapshotSlot, SlotOf, Sort, Less;
    var snapshots, doomed := SnapshotsIn(entries), Doomed(entries, keep);
    SnapshotsInMembers(entries);
    SortAscends(snapshots);
    var sorted := Sort(snapshots);
    forall i, j | 0 <= i < j < |sorted| ensures sorted[i] != sorted[j] {
      LessTotal(sorted[i], sorted[i]);
    }
    assert forall m | 0 <= m < |doomed| :: sorted[m] == doomed[m] && sorted[m] in doomed;
    forall d, k | d in doomed && k in snapshots && k !in doomed ensures SlotOf(d) < SlotOf(k) {
      var i :| 0 <= i < |doomed| && doomed[i] == d;
      assert k in sorted;
      var j :| 0 <= j < |sorted| && sorted[j] == k;
      assert j >= |doomed|;
      assert sorted[i] == d && sorted[i] in sorted;
      CanonicalOrder(d, k);
    }
  }

  // ---- Restore -------------------------------------------------------------------------------

  /** What the storage library answers about each snapshot. */
  datatype Outcomes = Outcomes(loads: string -> bool, validates: string -> bool, opens: string -> bool,
                               deletable: string -> bool)

  predicate Good(o: Outcomes, name: string) {
    o.loads(name) && o.validates(name) && o.opens(name)
  }

  /** One more than the place of the last good name among the first n, or zero. */
  function LastGood(sorted: seq<string>, n: nat, o: Outcomes): (k: nat)
    requires n <= |sorted|
    ensures k <= n && (k > 0 ==> Good(o, sorted[k - 1])) && forall j | k <= j < n :: !Good(o, sorted[j])
  {
    if n == 0 || Good(o, sorted[n - 1]) then n else LastGood(sorted, n - 1, o)
  }

  lemma LastGoodStep(sorted: seq<string>, n: nat, o: Outcomes)
    requires 0 < n <= |sorted|
    ensures LastGood(sorted, n, o) == if Good(o, sorted[n - 1]) then n else LastGood(sorted, n - 1, o)
  {
  }

  lemma NoneGood(sorted: seq<string>, o: Outcomes)
    ensures LastGood(sorted, 0, o) == 0
  {
  }

  lemma NothingTried(o: Outcomes)
    ensures Best([], o) == None && Tried([], o) == []
  {
  }

  function Best(entries: seq<string>, o: Outcomes): Option<string> {
    var sorted := Sort(entries);
    var k := LastGood(sorted, |sorted|, o);
    if k == 0 then None else Some(sorted[k - 1])
  }

  /** The snapshots tried before the one opened. */
  function Tried(entries: seq<string>, o: Outcomes): seq<string> {
    var sorted := Sort(entries);
    sorted[LastGood(sorted, |sorted|, o)..]
  }

  /**
   * Restore opens the good snapshot of the highest slot, or starts empty only if none is good, and the snapshots it
   * tries to delete are exactly those of higher slots, all of them bad.
   */
  lemma RestoreTakesHighestGood(entries: seq<string>, o: Outcomes, name: string)
    requires Distinct(entries) && forall x | x in entries :: Canonical(x)
    requires name in entries
    ensures var good := o.loads(name) && o.validates(name) && o.opens(name);
            && (Best(entries, o).None? ==> !good && name in Tried(entries, o))
            && (Best(entries, o).Some? ==>
                  var best := Best(entries, o).value;
                  && best in entries && o.loads(best) && o.validates(best) && o.opens(best)
                  && (good ==> SlotOf(name) <= SlotOf(best))
                  && (name in Tried(entries, o) <==> SlotOf(best) < SlotOf(name)))
            && (name in Tried(entries, o) ==> !good)
  {
    hide SlotOf, Sort, Ascending, Distinct, Canonical;
    var sorted := Sort(entries);
    SortAscends(entries);
    var k := LastGood(sorted, |sorted|, o);
    assert name in sorted;
    var i :| 0 <= i < |sorted| && sorted[i] == name;
    InSuffix(sorted, i, k);
    if k > 0 {
      assert sorted[k - 1] in sorted;
      PlaceDecidesSlot(sorted, i, k - 1);
    }
  }

  lemma InSuffix(sorted: seq<string>, i: nat, k: nat)
    requires Ascending(sorted) && i < |sorted| && k <= |sorted|
    ensures sorted[i] in sorted[k..] <==> k <= i
  {
    hide Less;
    LessTotal(sorted[i], sorted[i]);
    if k <= i {
      assert sorted[k..][i - k] == sorted[i];
    } else {
      assert forall j | 0 <= j < |sorted[k..]| :: sorted[k..][j] == sorted[k + j] && Less(sorted[i], sorted[k + j]);
    }
  }

  lemma PlaceDecidesSlot(sorted: seq<string>, i: nat, j: nat)
    requires Ascending(sorted) && i < |sorted| && j < |sorted| && Canonical(sorted[i]) && Canonical(sorted[j])
    ensures SlotOf(sorted[i]) < SlotOf(sorted[j]) <==> i < j
    ensures SlotOf(sorted[j]) < SlotOf(sorted[i]) <==> j < i
  {
    hide Less, SlotOf, Canonical;
    CanonicalOrder(sorted[i], sorted[j]);
    CanonicalOrder(sorted[j], sorted[i]);
    LessTotal(sorted[i], sorted[j]);
  }
}
