/** The ring buffer of recent events behind the live stream. */
module Recent {
  import opened GoText
  import opened LogEntries

  const DEFAULT_CAPACITY: nat := 1000

  /** The last `n` elements. */
  function Last(s: seq<LogEntry>, n: nat): seq<LogEntry>
    requires n <= |s|
  {
    s[|s| - n..]
  }

  /** How many entries a snapshot holds. */
  function SnapshotSize(limit: int, capacity: nat, added: nat): nat {
    if limit <= 0 then Min(capacity, added) else Min(limit, Min(capacity, added))
  }

  /** The ring `buf`, next written at `head`, holds the end of `history`. */
  ghost predicate Holds(buf: seq<LogEntry>, head: nat, full: bool, history: seq<LogEntry>) {
    && head < |buf|
    && (!full ==> buf[..head] == history)
    && (full ==> |history| >= |buf| && buf[head..] + buf[..head] == Last(history, |buf|))
  }

  lemma LastSnoc(history: seq<LogEntry>, n: nat, e: LogEntry)
    requires 0 < n <= |history|
    ensures Last(history + [e], n) == Last(history, n)[1..] + [e]
  {
  }

  /** Overwriting the oldest slot. */
  lemma HoldsFull(buf: seq<LogEntry>, head: nat, history: seq<LogEntry>, e: LogEntry)
    requires Holds(buf, head, true, history)
    ensures Holds(buf[head := e], if head + 1 == |buf| then 0 else head + 1, true, history + [e])
  {
    LastSnoc(history, |buf|, e);
    var next := buf[head := e];
    assert (buf[head..] + buf[..head])[1..] == buf[head + 1..] + buf[..head];
    assert next[head + 1..] == buf[head + 1..] && next[..head] == buf[..head];
    assert next[..head + 1] == buf[..head] + [e];
    if head + 1 == |buf| {
      assert next[0..] + next[..0] == next[..head + 1];
    } else {
      assert next[head + 1..] + next[..head + 1] == buf[head + 1..] + buf[..head] + [e];
    }
  }

  lemma HoldsNext(buf: seq<LogEntry>, head: nat, full: bool, history: seq<LogEntry>, e: LogEntry)
    requires Holds(buf, head, full, history)
    ensures var head' := if head + 1 == |buf| then 0 else head + 1;
      Holds(buf[head := e], head', full || head' == 0, history + [e])
  {
    if full {
      HoldsFull(buf, head, history, e);
    } else {
      var next := buf[head := e];
      assert next[..head + 1] == buf[..head] + [e];
      if head + 1 == |buf| {
        assert next[0..] + next[..0] == next[..head + 1];
      }
    }
  }

  lemma Around(head: nat, capacity: nat)
    requires head < capacity
    ensures (head + 1) % capacity == if head + 1 == capacity then 0 else head + 1
  {
  }

  class RecentBuffer {
    const capacity: nat
    const entries: array<LogEntry>
    var head: nat
    var full: bool
    /** Every entry ever added, in order. */
    ghost var history: seq<LogEntry>

    ghost predicate Valid()
      reads this, entries
    {
      capacity == entries.Length && Holds(entries[..], head, full, history)
    }

    constructor (capacity: int)
      ensures Valid() && history == [] && fresh(entries)
      ensures this.capacity == if capacity <= 0 then 1000 else capacity
    {
      var c := if capacity <= 0 then DEFAULT_CAPACITY else capacity;
      this.capacity := c;
      entries := new LogEntry[c];
      head, full, history := 0, false, [];
    }

    method Add(entry: LogEntry)
      requires Valid()
      modifies this, entries
      ensures Valid() && history == old(history) + [entry]
    {
      Put(entry);
    }

    /** The lines that `Add` and `AddBatch` share. */
    method Put(entry: LogEntry)
      requires Valid()
      modifies this, entries
      ensures Valid() && history == old(history) + [entry]
    {
      HoldsNext(entries[..], head, full, history, entry);
      Around(head, capacity);
      entries[head] := entry;
      head := (head + 1) % capacity;
      if head == 0 { full := true; }
      history := history + [entry];
    }

    method AddBatch(batch: seq<LogEntry>)
      requires Valid()
      modifies this, entries
      ensures Valid() && history == old(history) + batch
    {
      if |batch| == 0 { return; }
      for i := 0 to |batch|
        invariant Valid() && history == old(history) + batch[..i]
      {
        Put(batch[i]);
      }
    }

    /** The latest entries, oldest first. */
    method Snapshot(limit: int) returns (result: seq<LogEntry>)
      requires Valid()
      ensures result == Last(history, SnapshotSize(limit, capacity, |history|))
    {
      var total := if full then capacity else head;
      if total == 0 { return []; }
      var wanted := if limit <= 0 || limit > total then total else limit;
      result := if full then entries[head..] + entries[..head] else entries[..head];
      if |result| > wanted { result := result[|result| - wanted..]; }
    }

    method Len() returns (n: nat)
      requires Valid()
      ensures n == Min(capacity, |history|)
    {
      n := if full then capacity else head;
    }
  }
}
