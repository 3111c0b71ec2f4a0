/**
 * The bounded notification deduplicator (NotificationCollector.kt): a map in
 * access order that remembers the latest content of the most recently used keys.
 */
module Dedup {
  import opened Prelude

  datatype Content = Content(title: string, text: string)

  /** One entry of the access-ordered map; the least recently used comes first. */
  datatype Entry = Entry(key: string, content: Content)

  function Without(entries: seq<Entry>, key: string): seq<Entry> {
    if entries == [] then []
    else
      Without(entries[..|entries| - 1], key)
      + (if entries[|entries| - 1].key == key then [] else [entries[|entries| - 1]])
  }

  /** Reading or writing a key moves it to the end. */
  function Used(entries: seq<Entry>, e: Entry): seq<Entry> {
    Without(entries, e.key) + [e]
  }

  function Bounded(entries: seq<Entry>, capacity: nat): seq<Entry> {
    if |entries| > capacity then entries[1..] else entries
  }

  class NotificationDeduplicator {
    const capacity: nat
    var latest: seq<Entry>

    constructor (capacity: nat)
      requires capacity > 0
      ensures this.capacity == capacity && latest == []
    {
      this.capacity := capacity;
      latest := [];
    }

    method IsDuplicate(key: string, title: string, text: string) returns (duplicate: bool)
      modifies this
      ensures duplicate <==> Entry(key, Content(title, text)) in old(latest)
      ensures latest == Bounded(Used(old(latest), Entry(key, Content(title, text))), capacity)
    {
      var content := Content(title, text);
      duplicate := Entry(key, content) in latest;
      latest := Without(latest, key) + [Entry(key, content)];
      if |latest| > capacity {
        latest := latest[1..];
      }
    }
  }

  // --------------------------------------------------------- against full history

  /** The map after the calls of `history`, oldest first, starting empty. */
  function After(history: seq<Entry>, capacity: nat): seq<Entry> {
    if history == [] then []
    else Bounded(Used(After(history[..|history| - 1], capacity), history[|history| - 1]), capacity)
  }

  /** The same with no bound: every key ever used, in order of its last use. */
  function Recent(history: seq<Entry>): seq<Entry> {
    if history == [] then []
    else Used(Recent(history[..|history| - 1]), history[|history| - 1])
  }

  ghost predicate KeysDistinct(entries: seq<Entry>) {
    forall i, j :: 0 <= i < j < |entries| ==> entries[i].key != entries[j].key
  }

  predicate HasKey(entries: seq<Entry>, key: string) {
    exists e :: e in entries && e.key == key
  }

  function LastK(entries: seq<Entry>, k: nat): seq<Entry> {
    entries[Max(0, |entries| - k)..]
  }

  lemma {:induction false} WithoutAre(entries: seq<Entry>, key: string)
    ensures forall e :: e in Without(entries, key) <==> e in entries && e.key != key
    ensures !HasKey(entries, key) ==> Without(entries, key) == entries
  {
    if entries != [] {
      var init, last := entries[..|entries| - 1], entries[|entries| - 1];
      WithoutAre(init, key);
      assert entries == init + [last];
    }
  }

  lemma {:induction false} WithoutKeepsDistinct(entries: seq<Entry>, key: string)
    requires KeysDistinct(entries)
    ensures KeysDistinct(Without(entries, key))
  {
    if entries != [] {
      var init, last := entries[..|entries| - 1], entries[|entries| - 1];
      WithoutKeepsDistinct(init, key);
      WithoutAre(init, key);
      var rest := Without(init, key);
      forall i | 0 <= i < |rest|
        ensures rest[i].key != last.key
      {
        assert rest[i] in init;
      }
    }
  }

  lemma {:induction false} WithoutSplits(a: seq<Entry>, b: seq<Entry>, key: string)
    ensures Without(a + b, key) == Without(a, key) + Without(b, key)
  {
    if b == [] {
      assert a + b == a;
    } else {
      WithoutSplits(a, b[..|b| - 1], key);
      assert (a + b)[..|a + b| - 1] == a + b[..|b| - 1];
    }
  }

  lemma LastIsNotBefore(entries: seq<Entry>)
    requires KeysDistinct(entries) && entries != []
    ensures KeysDistinct(entries[..|entries| - 1])
    ensures !HasKey(entries[..|entries| - 1], entries[|entries| - 1].key)
  {
    var init, last := entries[..|entries| - 1], entries[|entries| - 1];
    forall e | e in init
      ensures e.key != last.key
    {
      var i :| 0 <= i < |init| && init[i] == e;
      assert entries[i] == e;
    }
  }

  lemma {:induction false} WithoutOneKey(entries: seq<Entry>, key: string)
    requires KeysDistinct(entries)
    ensures |Without(entries, key)| == |entries| - (if HasKey(entries, key) then 1 else 0)
  {
    if entries != [] {
      var init, last := entries[..|entries| - 1], entries[|entries| - 1];
      LastIsNotBefore(entries);
      WithoutOneKey(init, key);
      assert entries == init + [last];
    }
  }

  lemma {:induction false} RecentKeysDistinct(history: seq<Entry>)
    ensures KeysDistinct(Recent(history))
  {
    if history != [] {
      var last := history[|history| - 1];
      var before := Recent(history[..|history| - 1]);
      RecentKeysDistinct(history[..|history| - 1]);
      WithoutAre(before, last.key);
      WithoutKeepsDistinct(before, last.key);
      var rest := Without(before, last.key);
      assert forall i :: 0 <= i < |rest| ==> rest[i] in rest;
    }
  }

  lemma PartsAreDistinct(a: seq<Entry>, b: seq<Entry>, key: string)
    requires KeysDistinct(a + b)
    ensures KeysDistinct(a) && KeysDistinct(b)
    ensures HasKey(b, key) ==> !HasKey(a, key)
  {
    var all := a + b;
    assert forall i :: 0 <= i < |a| ==> all[i] == a[i];
    assert forall i :: 0 <= i < |b| ==> all[|a| + i] == b[i];
    if HasKey(b, key) {
      var x :| x in b && x.key == key;
      var j :| 0 <= j < |b| && b[j] == x;
      forall y | y in a
        ensures y.key != key
      {
        var i :| 0 <= i < |a| && a[i] == y;
        assert all[i].key != all[|a| + j].key;
      }
    }
  }

  /** Using a key in the newest part, or in the whole, and then keeping the newest part, is the same. */
  lemma UseCommutesWithTheBound(entries: seq<Entry>, k: nat, e: Entry)
    requires KeysDistinct(entries) && k > 0
    ensures Bounded(Used(LastK(entries, k), e), k) == LastK(Used(entries, e), k)
  {
    var cut := Max(0, |entries| - k);
    var older, newer := entries[..cut], entries[cut..];
    assert entries == older + newer;
    PartsAreDistinct(older, newer, e.key);
    UsedSplits(older, newer, e);
    UsedGrowsAtMostByOne(newer, e);
    if HasKey(newer, e.key) {
      WithoutAre(older, e.key);
    }
    CutAfter(Without(older, e.key), Used(newer, e), k);
  }

  lemma UsedSplits(older: seq<Entry>, newer: seq<Entry>, e: Entry)
    ensures Used(older + newer, e) == Without(older, e.key) + Used(newer, e)
  {
    WithoutSplits(older, newer, e.key);
  }

  lemma UsedGrowsAtMostByOne(entries: seq<Entry>, e: Entry)
    requires KeysDistinct(entries)
    ensures |Used(entries, e)| == |entries| + (if HasKey(entries, e.key) then 0 else 1)
  {
    WithoutOneKey(entries, e.key);
  }

  lemma CutAfter(a: seq<Entry>, b: seq<Entry>, k: nat)
    requires a == [] || |b| >= k
    requires |b| <= k + 1 && k > 0
    ensures LastK(a + b, k) == Bounded(b, k)
  {
    if |b| > k {
      assert (a + b)[|a| + 1..] == b[1..];
    } else {
      assert (a + b)[|a|..] == b;
    }
  }

  /** The bounded map is exactly the newest `capacity` entries of the unbounded one. */
  lemma {:induction false} MapIsNewestOfHistory(history: seq<Entry>, capacity: nat)
    requires capacity > 0
    ensures After(history, capacity) == LastK(Recent(history), capacity)
    ensures |After(history, capacity)| <= capacity
  {
    if history != [] {
      var init, last := history[..|history| - 1], history[|history| - 1];
      MapIsNewestOfHistory(init, capacity);
      RecentKeysDistinct(init);
      UseCommutesWithTheBound(Recent(init), capacity, last);
    }
  }

  // ----------------------------------------------------- the reference definition

  /** The content last seen under a key. */
  function LastContent(history: seq<Entry>, key: string): Option<Content> {
    if history == [] then None
    else if history[|history| - 1].key == key then Some(history[|history| - 1].content)
    else LastContent(history[..|history| - 1], key)
  }

  /** The distinct other keys used since a key was last used. */
  function KeysSince(history: seq<Entry>, key: string): set<string> {
    if history == [] || history[|history| - 1].key == key then {}
    else KeysSince(history[..|history| - 1], key) + {history[|history| - 1].key}
  }

  lemma {:induction false} RecentHoldsLastContent(history: seq<Entry>, e: Entry)
    ensures e in Recent(history) <==> LastContent(history, e.key) == Some(e.content)
  {
    if history != [] {
      var init, last := history[..|history| - 1], history[|history| - 1];
      RecentHoldsLastContent(init, e);
      WithoutAre(Recent(init), last.key);
    }
  }

  lemma {:induction false} KeysSinceWithout(entries: seq<Entry>, key: string, other: string)
    requires key != other
    ensures KeysSince(Without(entries, other), key) == KeysSince(entries, key) - {other}
  {
    if entries != [] {
      var init, last := entries[..|entries| - 1], entries[|entries| - 1];
      KeysSinceWithout(init, key, other);
      if last.key == other {
        assert Without(entries, other) == Without(init, other);
      } else {
        var rest := Without(init, other);
        assert (rest + [last])[..|rest|] == rest;
      }
    }
  }

  lemma {:induction false} RecentKeepsKeysSince(history: seq<Entry>, key: string)
    ensures KeysSince(Recent(history), key) == KeysSince(history, key)
  {
    if history != [] {
      var init, last := history[..|history| - 1], history[|history| - 1];
      RecentKeepsKeysSince(init, key);
      var rest := Without(Recent(init), last.key);
      assert (rest + [last])[..|rest|] == rest;
      if last.key != key {
        KeysSinceWithout(Recent(init), key, last.key);
      }
    }
  }

  lemma {:induction false} KeysSinceCounts(entries: seq<Entry>, p: nat)
    requires KeysDistinct(entries) && p < |entries|
    ensures |KeysSince(entries, entries[p].key)| == |entries| - 1 - p
    ensures forall k :: k in KeysSince(entries, entries[p].key) ==> HasKey(entries, k)
  {
    var init, last := entries[..|entries| - 1], entries[|entries| - 1];
    assert entries == init + [last];
    if p < |entries| - 1 {
      LastIsNotBefore(entries);
      KeysSinceCounts(init, p);
      assert last.key !in KeysSince(init, entries[p].key);
    }
  }

  lemma InTheNewerPart(entries: seq<Entry>, cut: nat, p: nat)
    requires KeysDistinct(entries) && cut <= |entries| && p < |entries|
    ensures entries[p] in entries[cut..] <==> p >= cut
  {
    if p >= cut {
      assert entries[cut..][p - cut] == entries[p];
    } else {
      forall q | 0 <= q < |entries| - cut
        ensures entries[cut..][q] != entries[p]
      {
        assert entries[p].key != entries[cut + q].key;
      }
    }
  }

  /** An entry is among the newest k when fewer than k keys come after it. */
  lemma AmongTheNewest(entries: seq<Entry>, k: nat, e: Entry)
    requires KeysDistinct(entries)
    ensures e in LastK(entries, k) <==> e in entries && |KeysSince(entries, e.key)| < k
  {
    if e in entries {
      var p :| 0 <= p < |entries| && entries[p] == e;
      KeysSinceCounts(entries, p);
      InTheNewerPart(entries, Max(0, |entries| - k), p);
    }
  }

  /**
   * The deduplicator agrees with full history: after any calls it reports a
   * duplicate exactly when the content last seen under the key is the same and
   * fewer than `capacity` other keys have been used since.
   */
  lemma DuplicateIff(history: seq<Entry>, capacity: nat, e: Entry)
    requires capacity > 0
    ensures e in After(history, capacity) <==>
            LastContent(history, e.key) == Some(e.content) && |KeysSince(history, e.key)| < capacity
  {
    MapIsNewestOfHistory(history, capacity);
    RecentHoldsLastContent(history, e);
    RecentKeysDistinct(history);
    RecentKeepsKeysSince(history, e.key);
    AmongTheNewest(Recent(history), capacity, e);
  }
}
