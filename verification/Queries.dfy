/** The read side of the API: UTxOs by address and the event log by slot range. */
module Queries {
  import opened Wrappers
  import opened Text
  import opened Ledger
  import opened Index
  import opened Holdings
  import opened Processing
  import opened Undo
  import opened Storage
  import opened Runs

  // ---- UTxOs of addresses --------------------------------------------------------------------

  datatype Entry = Entry(key: string, data: UtxoData)

  ghost predicate NoRepeats<T(!new)>(s: seq<T>) {
    forall i, j | 0 <= i < j < |s| :: s[i] != s[j]
  }

  predicate HasPrefix(s: string, prefix: string) {
    prefix <= s
  }

  lemma StripPrefix(prefix: string, x: string, key: string)
    ensures HasPrefix(x, prefix) && x[|prefix|..] == key <==> x == prefix + key
  {
    if HasPrefix(x, prefix) {
      assert x == prefix + x[|prefix|..];
    }
    if x == prefix + key {
      assert x[|prefix|..] == key;
    }
  }

  /** Scan the index under the prefix `address:` and strip it; the scan order is left open. */
  method GetUtxosForAddress(storage: NetworkStorage, address: Hex) returns (keys: seq<string>)
    ensures NoRepeats(keys)
    ensures forall k :: k in keys <==> IndexKey(address, k) in storage.View().addressIndex
  {
    var prefix := address + ":";
    keys := [];
    var rest := storage.addressUtxoIndex;
    while rest != {}
      invariant rest <= storage.addressUtxoIndex
      invariant forall k :: k in keys <==> prefix + k in storage.addressUtxoIndex - rest
      invariant NoRepeats(keys)
      decreases rest
    {
      var x :| x in rest;
      rest := rest - {x};
      if HasPrefix(x, prefix) {
        var key := x[|prefix|..];
        StripPrefix(prefix, x, key);
        assert key !in keys;
        keys := keys + [key];
      }
      forall k ensures k in keys <==> prefix + k in storage.addressUtxoIndex - rest {
        StripPrefix(prefix, x, k);
      }
    }
  }

  lemma IndexedExactly(t: Trees, address: Hex, key: string)
    requires t.addressIndex == IndexOf(t.utxos)
    ensures IndexKey(address, key) in t.addressIndex <==> key in t.utxos && t.utxos[key].address == address
  {
    if IndexKey(address, key) in t.addressIndex {
      var k :| k in t.utxos && IndexKey(address, key) == IndexKey(t.utxos[k].address, k);
      IndexKeyInjective(address, key, t.utxos[k].address, k);
    }
  }

  /** With nothing in flight and distinct addresses, the answer lists each live UTxO of the requested
      addresses exactly once, and nothing else: `address:` prefixes never collide. */
  method ReadUtxos(storage: NetworkStorage, addresses: seq<Hex>) returns (found: seq<Entry>)
    requires storage.View().addressIndex == IndexOf(storage.View().utxos)
    requires NoRepeats(addresses)
    ensures NoRepeats(found)
    ensures forall e :: e in found <==>
                          && e.key in storage.View().utxos
                          && e.data == storage.View().utxos[e.key]
                          && e.data.address in addresses
  {
    found := [];
    ghost var t := storage.View();
    for i := 0 to |addresses|
      invariant NoRepeats(found)
      invariant forall e ::
                  e in found <==> e.key in t.utxos && e.data == t.utxos[e.key] && e.data.address in addresses[..i]
    {
      var address := addresses[i];
      var keys := GetUtxosForAddress(storage, address);
      ghost var before := found;
      for j := 0 to |keys|
        invariant NoRepeats(found)
        invariant forall e :: e in found <==>
                                || e in before
                                || (e.key in keys[..j] && e.key in t.utxos && e.data == t.utxos[e.key])
      {
        IndexedExactly(t, address, keys[j]);
        assert keys[j] in keys;
        var data := storage.GetUtxo(keys[j]);
        if data.Some? {
          var e := Entry(keys[j], data.value);
          assert address !in addresses[..i];
          assert e !in before && keys[j] !in keys[..j];
          found := found + [e];
        }
      }
      forall e: Entry
        ensures e.key in keys && e.key in t.utxos && e.data == t.utxos[e.key]
                <==> e.key in t.utxos && e.data == t.utxos[e.key] && e.data.address == address
      {
        IndexedExactly(t, address, e.key);
      }
      assert keys[..|keys|] == keys;
    }
    assert addresses[..|addresses|] == addresses;
  }

  // ---- Events of a slot range ----------------------------------------------------------------

  /** The events a scan of one slot meets from an index on: it stops at the first gap. */
  function SlotEvents(events: map<string, BlockEvent>, slot: nat, from: nat): seq<BlockEvent>
    decreases MAX_EVENTS - from
  {
    if from < MAX_EVENTS && EventKey(slot, from) in events then
      [events[EventKey(slot, from)]] + SlotEvents(events, slot, from + 1)
    else []
  }

  function RangeEvents(events: map<string, BlockEvent>, slot: nat, end: nat): seq<BlockEvent>
    decreases end + 1 - slot
  {
    if slot > end then [] else SlotEvents(events, slot, 0) + RangeEvents(events, slot + 1, end)
  }

  /** The first n elements, or all of them when n is 0 or too large. */
  function Limit(s: seq<BlockEvent>, n: nat): seq<BlockEvent> {
    if 0 < n < |s| then s[..n] else s
  }

  lemma LimitReached(here: seq<BlockEvent>, later: seq<BlockEvent>, n: nat)
    requires 0 < n <= |here|
    ensures Limit(here + later, n) == here[..n]
  {
    if n == |here| + |later| {
      assert later == [] && here + later == here && here[..n] == here;
    }
  }

  /** Append the events of one slot until it is exhausted or the limit is reached. */
  method ReadSlot(storage: NetworkStorage, slot: nat, maxEvents: nat, before: seq<BlockEvent>)
    returns (found: seq<BlockEvent>, full: bool)
    requires maxEvents > 0 ==> |before| < maxEvents
    ensures var all := before + SlotEvents(storage.View().events, slot, 0);
            && full == (0 < maxEvents <= |all|)
            && found == if full then all[..maxEvents] else all
  {
    found := before;
    ghost var all := before + SlotEvents(storage.View().events, slot, 0);
    for index := 0 to MAX_EVENTS
      invariant all == found + SlotEvents(storage.View().events, slot, index)
      invariant maxEvents > 0 ==> |found| < maxEvents
    {
      var event := storage.GetBlockEvent(EventKey(slot, index));
      if event == None {
        assert all == found;
        return found, false;
      }
      found := found + [event.value];
      if maxEvents > 0 && |found| >= maxEvents {
        assert all[..maxEvents] == found;
        return found, true;
      }
    }
    assert all == found;
    full := false;
  }

  /** The unfiltered scan of `read_utxo_events`: everything in range in (slot, index) order, up to the limit. */
  method ReadUtxoEvents(storage: NetworkStorage, startSlot: nat, endSlot: nat, maxEvents: nat)
    returns (found: seq<BlockEvent>)
    ensures found == Limit(RangeEvents(storage.View().events, startSlot, endSlot), maxEvents)
  {
    hide SlotEvents, Limit;
    found := [];
    ghost var events := storage.View().events;
    var slot := startSlot;
    assert [] + RangeEvents(events, startSlot, endSlot) == RangeEvents(events, startSlot, endSlot);
    while slot <= endSlot
      invariant RangeEvents(events, startSlot, endSlot) == found + RangeEvents(events, slot, endSlot)
      invariant maxEvents > 0 ==> |found| < maxEvents
      decreases endSlot + 1 - slot
    {
      ghost var here, later := found + SlotEvents(events, slot, 0), RangeEvents(events, slot + 1, endSlot);
      Regroup(found, SlotEvents(events, slot, 0), later);
      var full;
      found, full := ReadSlot(storage, slot, maxEvents, found);
      if full {
        LimitReached(here, later, maxEvents);
        return;
      }
      slot := slot + 1;
    }
    assert found + [] == found;
    LimitNotReached(found, maxEvents);
  }

  lemma LimitNotReached(s: seq<BlockEvent>, n: nat)
    requires n > 0 ==> |s| < n
    ensures Limit(s, n) == s
  {
  }

  lemma Regroup(a: seq<BlockEvent>, b: seq<BlockEvent>, c: seq<BlockEvent>)
    ensures a + (b + c) == (a + b) + c
  {
  }

  // ---- What the log of a chain contains ------------------------------------------------------

  /** The first 100000 events of a slot: a read scans no further. */
  function Readable(list: seq<BlockEvent>): seq<BlockEvent> {
    if |list| <= 100_000 then list else list[..100_000]
  }

  /** An event log holding a list at indices 0, 1, 2, ... of a slot and nothing after. */
  ghost predicate LogHolds(events: map<string, BlockEvent>, slot: nat, list: seq<BlockEvent>) {
    && (forall i: nat :: EventKey(slot, i) in events <==> i < |list|)
    && (forall i: nat | i < |list| :: events[EventKey(slot, i)] == list[i])
  }

  lemma {:induction false} WriteEventsKeeps(events: map<string, BlockEvent>, slot: nat, list: seq<BlockEvent>,
                                            slot': nat, list': seq<BlockEvent>)
    requires slot != slot' && LogHolds(events, slot', list')
    ensures LogHolds(WriteEvents(events, slot, list), slot', list')
  {
    if list != [] {
      WriteEventsKeeps(events, slot, list[..|list| - 1], slot', list');
      forall i: nat ensures EventKey(slot', i) != EventKey(slot, |list| - 1) {
        if EventKey(slot', i) == EventKey(slot, |list| - 1) { EventKeyInjective(slot', i, slot, |list| - 1); }
      }
    }
  }

  lemma ApplyLogs(t: Trees, cfg: Config, b: Block)
    requires forall i: nat :: EventKey(b.slot, i) !in t.events
    ensures LogHolds(ApplyBlock(t, cfg, b).events, b.slot, BlockEvents(WorkOf(t, cfg, b)))
  {
    ProcessTxsFrame(t, cfg, b, |b.txs|, "");
    WriteEventsExact(t.events, b.slot, BlockEvents(WorkOf(t, cfg, b)));
  }

  lemma ApplyKeepsLog(t: Trees, cfg: Config, b: Block, slot: nat, list: seq<BlockEvent>)
    requires slot != b.slot && LogHolds(t.events, slot, list)
    ensures LogHolds(ApplyBlock(t, cfg, b).events, slot, list)
  {
    hide BlockEvents;
    ProcessTxsFrame(t, cfg, b, |b.txs|, "");
    WriteEventsKeeps(t.events, b.slot, BlockEvents(WorkOf(t, cfg, b)), slot, list);
  }

  /** Each processed slot's event keys are exactly 0..n-1. */
  lemma {:induction false} ReplayLog(cfg: Config, chain: seq<Block>, n: nat, m: nat)
    requires ChainOk(cfg, chain) && m < n <= |chain|
    ensures LogHolds(ReplayTo(cfg, chain, n).events, chain[m].slot, LoggedBy(cfg, chain, m))
  {
    hide ApplyBlock, BlockEvents, WorkOf, LogHolds;
    var t := ReplayTo(cfg, chain, n - 1);
    if m == n - 1 {
      FollowsFits(cfg, chain, m);
      ApplyLogs(t, cfg, chain[m]);
    } else {
      ReplayLog(cfg, chain, n - 1, m);
      assert Follows(cfg, chain, n - 1);
      ApplyKeepsLog(t, cfg, chain[n - 1], chain[m].slot, LoggedBy(cfg, chain, m));
    }
  }

  lemma {:induction false} ScanFinds(events: map<string, BlockEvent>, slot: nat, list: seq<BlockEvent>, from: nat)
    requires LogHolds(events, slot, list) && from <= |Readable(list)|
    ensures SlotEvents(events, slot, from) == Readable(list)[from..]
    decreases |Readable(list)| - from
  {
    hide EventKey;
    assert EventKey(slot, from) in events <==> from < |list|;
    if from < |Readable(list)| {
      ScanFinds(events, slot, list, from + 1);
      assert Readable(list)[from..] == [list[from]] + Readable(list)[from + 1..];
    }
  }

  /** The readable events of blocks from..n whose slot lies in a range, in chain order. */
  function LoggedInRange(cfg: Config, chain: seq<Block>, from: nat, slot: nat, end: nat): seq<BlockEvent>
    requires from <= |chain|
    decreases |chain| - from
  {
    if from == |chain| || chain[from].slot > end then []
    else if chain[from].slot < slot then LoggedInRange(cfg, chain, from + 1, slot, end)
    else Readable(LoggedBy(cfg, chain, from)) + LoggedInRange(cfg, chain, from + 1, slot, end)
  }

  /** Blocks below the start of the range do not matter. */
  lemma {:induction false} RangeSkips(cfg: Config, chain: seq<Block>, from: nat, slot: nat, end: nat)
    requires ChainOk(cfg, chain) && from <= |chain|
    requires forall i | from <= i < |chain| :: chain[i].slot != slot
    ensures LoggedInRange(cfg, chain, from, slot, end) == LoggedInRange(cfg, chain, from, slot + 1, end)
    decreases |chain| - from
  {
    hide LoggedBy, Follows;
    if from < |chain| {
      RangeSkips(cfg, chain, from + 1, slot, end);
    }
  }

  /** Scanning a slot range of a replayed log returns the events of every block in range, in order, up to 100000 of
      each. */
  lemma {:induction false} RangeReadsChain(cfg: Config, chain: seq<Block>, from: nat, slot: nat, end: nat)
    requires ChainOk(cfg, chain) && from <= |chain|
    requires forall i | 0 <= i < from :: chain[i].slot < slot
    requires forall i | from <= i < |chain| :: chain[i].slot >= slot
    ensures RangeEvents(Replay(cfg, chain).events, slot, end) == LoggedInRange(cfg, chain, from, slot, end)
    decreases end + 1 - slot
  {
    hide ApplyBlock, LoggedBy, LogHolds, SlotEvents;
    var events := Replay(cfg, chain).events;
    if slot <= end {
      if from < |chain| && chain[from].slot == slot {
        forall i | from + 1 <= i < |chain| ensures chain[i].slot >= slot + 1 {
          assert Follows(cfg, chain, i);
        }
        RangeReadsChain(cfg, chain, from + 1, slot + 1, end);
        RangeSkips(cfg, chain, from + 1, slot, end);
        SlotOfBlock(cfg, chain, from);
      } else {
        forall i | from <= i < |chain| ensures chain[i].slot >= slot + 1 {
          if i > from { assert Follows(cfg, chain, i); }
        }
        RangeReadsChain(cfg, chain, from, slot + 1, end);
        RangeSkips(cfg, chain, from, slot, end);
        SlotWithoutBlock(cfg, chain, slot);
        assert SlotEvents(events, slot, 0) + RangeEvents(events, slot + 1, end) == RangeEvents(events, slot + 1, end);
      }
    }
  }

  lemma SlotOfBlock(cfg: Config, chain: seq<Block>, n: nat)
    requires ChainOk(cfg, chain) && n < |chain|
    ensures SlotEvents(Replay(cfg, chain).events, chain[n].slot, 0) == Readable(LoggedBy(cfg, chain, n))
  {
    hide ApplyBlock, BlockEvents, WorkOf;
    ReplayLog(cfg, chain, |chain|, n);
    var list := LoggedBy(cfg, chain, n);
    ScanFinds(Replay(cfg, chain).events, chain[n].slot, list, 0);
    assert Readable(list)[0..] == Readable(list);
  }

  lemma SlotWithoutBlock(cfg: Config, chain: seq<Block>, slot: nat)
    requires forall k | 0 <= k < |chain| :: chain[k].slot != slot
    ensures SlotEvents(Replay(cfg, chain).events, slot, 0) == []
  {
    hide ApplyBlock;
    ReplayNoEvents(cfg, chain, |chain|, slot, 0);
  }
}
