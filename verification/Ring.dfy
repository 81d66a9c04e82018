/**
 The ring buffer of metrics: the last samples in order, however many were added.
 */
module Ring {
  const MAX_ENTRIES := 100

  // ----- the samples a ring keeps

  function LastOf<T>(s: seq<T>, n: nat): (r: seq<T>)
    ensures |r| == if |s| <= n then |s| else n
  {
    if |s| <= n then s else s[|s| - n..]
  }

  // Samples that come sooner than an interval after the last accepted one are dropped.
  datatype Sample<T> = Sample(time: int, info: T)

  function Accepted<T>(samples: seq<Sample<T>>, lastAdd: int, interval: int): seq<T> {
    if samples == [] then []
    else if samples[0].time - lastAdd < interval then Accepted(samples[1..], lastAdd, interval)
    else [samples[0].info] + Accepted(samples[1..], samples[0].time, interval)
  }

  function LastAccepted<T>(samples: seq<Sample<T>>, lastAdd: int, interval: int): int {
    if samples == [] then lastAdd
    else LastAccepted(samples[1..], if samples[0].time - lastAdd < interval then lastAdd else samples[0].time, interval)
  }

  lemma {:induction false} AcceptedMore<T>(samples: seq<Sample<T>>, x: Sample<T>, lastAdd: int, interval: int)
    ensures var last := LastAccepted(samples, lastAdd, interval);
            && Accepted(samples + [x], lastAdd, interval)
               == Accepted(samples, lastAdd, interval) + (if x.time - last < interval then [] else [x.info])
            && LastAccepted(samples + [x], lastAdd, interval) == if x.time - last < interval then last else x.time
  {
    if samples == [] {
      assert (samples + [x])[1..] == [];
    } else {
      assert (samples + [x])[1..] == samples[1..] + [x] && (samples + [x])[0] == samples[0];
      AcceptedMore(samples[1..], x, if samples[0].time - lastAdd < interval then lastAdd else samples[0].time, interval);
    }
  }

  // Accepted samples are an interval apart.
  lemma {:induction false} AcceptedApart<T>(samples: seq<Sample<T>>, lastAdd: int, interval: int)
    requires interval >= 0
    ensures LastAccepted(samples, lastAdd, interval) >= lastAdd + |Accepted(samples, lastAdd, interval)| * interval
  {
    if samples != [] {
      var next := if samples[0].time - lastAdd < interval then lastAdd else samples[0].time;
      AcceptedApart(samples[1..], next, interval);
      var n := |Accepted(samples[1..], next, interval)|;
      assert (n + 1) * interval == n * interval + interval;
    }
  }

  // ----- the buffer

  const SECOND: int := 1_000_000_000

  function IntervalFor(duration: int): int
    requires duration >= 0
  {
    if duration / MAX_ENTRIES > SECOND then duration / MAX_ENTRIES else SECOND
  }

  // What marshalling writes.
  datatype Wire<T> = Wire(entries: seq<T>, interval: int)

  class Entries<T(0)> {
    const entries: array<T>
    var index: nat
    var count: nat
    var interval: int
    var lastAdd: int
    ghost var added: seq<T>

    ghost predicate Valid()
      reads this, entries
    {
      && entries.Length == MAX_ENTRIES
      && index == |added| % MAX_ENTRIES
      && count == (if |added| < MAX_ENTRIES then |added| else MAX_ENTRIES)
      && Holds(entries[..], added)
    }

    constructor (duration: int, now: int)
      requires duration >= 0
      ensures Valid() && fresh(entries) && added == []
      ensures interval == IntervalFor(duration) && lastAdd == now
    {
      entries := new T[MAX_ENTRIES];
      index, count, interval, lastAdd, added := 0, 0, IntervalFor(duration), now, [];
    }

    method AddWithTime(timestamp: int, info: T)
      requires Valid()
      modifies this`index, this`count, this`lastAdd, this`added, entries
      ensures Valid() && added == old(added) + [info] && lastAdd == timestamp
    {
      HoldsMore(entries[..], added, info);
      entries[index] := info;
      index := (index + 1) % MAX_ENTRIES;
      if count < MAX_ENTRIES {
        count := count + 1;
      }
      lastAdd := timestamp;
      NextIndex(|added|);
      added := added + [info];
    }

    method Add(now: int, info: T)
      requires Valid()
      modifies this`index, this`count, this`lastAdd, this`added, entries
      ensures Valid()
      ensures if now - old(lastAdd) < interval then added == old(added) && lastAdd == old(lastAdd)
              else added == old(added) + [info] && lastAdd == now
    {
      if now - lastAdd < interval {
        return;
      }
      AddWithTime(now, info);
    }

    // The last samples in the order they were added: a hundred, or all when there are fewer.
    method Get() returns (res: seq<T>)
      requires Valid()
      ensures res == LastOf(added, MAX_ENTRIES)
      ensures res == added[if |added| < 100 then 0 else |added| - 100..]
    {
      HoldsLast(entries[..], added);
      if count < MAX_ENTRIES {
        return entries[..count];
      }
      // The index of a full ring is below its count.
      if index >= count {
        assert false;
      } else {
        res := entries[index..] + entries[..index];
      }
    }

    // After any samples at any times.
    method AddAll(samples: seq<Sample<T>>)
      requires Valid()
      modifies this`index, this`count, this`lastAdd, this`added, entries
      ensures Valid()
      ensures added == old(added) + Accepted(samples, old(lastAdd), interval)
      ensures lastAdd == LastAccepted(samples, old(lastAdd), interval)
    {
      for i := 0 to |samples|
        invariant Valid()
        invariant added == old(added) + Accepted(samples[..i], old(lastAdd), interval)
        invariant lastAdd == LastAccepted(samples[..i], old(lastAdd), interval)
      {
        hide Accepted, LastAccepted, Holds;
        AcceptedMore(samples[..i], samples[i], old(lastAdd), interval);
        assert samples[..i] + [samples[i]] == samples[..i + 1];
        Add(samples[i].time, samples[i].info);
      }
      assert samples[..|samples|] == samples;
    }

    method Marshal() returns (w: Wire<T>)
      requires Valid()
      ensures w == Wire(LastOf(added, MAX_ENTRIES), interval)
    {
      var res := Get();
      w := Wire(res, interval);
    }

    // What is written goes behind what the ring has; nothing written leaves the ring as it was.
    method Unmarshal(v: Wire<T>, now: int)
      requires Valid()
      modifies this`index, this`count, this`lastAdd, this`added, this`interval, entries
      ensures Valid()
      ensures added == old(added) + v.entries[..if |v.entries| < 100 then |v.entries| else 100]
      ensures interval == if v.entries == [] then old(interval) else v.interval
      ensures lastAdd == if v.entries == [] then old(lastAdd) else now
    {
      if |v.entries| == 0 {
        assert added == old(added) + v.entries;
        return;
      }
      var kept := if |v.entries| > MAX_ENTRIES then v.entries[..MAX_ENTRIES] else v.entries;
      interval := v.interval;
      for i := 0 to |kept|
        invariant Valid() && added == old(added) + kept[..i]
        invariant interval == v.interval
        invariant i > 0 ==> lastAdd == Stamp(now, |kept|, i - 1, interval)
      {
        hide Holds, Stamp;
        assert kept[..i] + [kept[i]] == kept[..i + 1];
        AddWithTime(Stamp(now, |kept|, i, interval), kept[i]);
      }
      assert kept[..|kept|] == kept;
    }
  }

  // The time of sample i of n: an interval apart, the last one now.
  function Stamp(now: int, n: nat, i: int, interval: int): int {
    now + -(n - 1 - i) * interval
  }

  // The array holds the last samples, each at its number modulo the size.
  ghost predicate Holds<T>(a: seq<T>, added: seq<T>)
    requires |a| == MAX_ENTRIES
  {
    forall k :: 0 <= k < |added| && |added| - MAX_ENTRIES <= k ==> a[k % MAX_ENTRIES] == added[k]
  }

  lemma NextIndex(n: nat)
    ensures (n % MAX_ENTRIES + 1) % MAX_ENTRIES == (n + 1) % MAX_ENTRIES
  {
  }

  lemma HoldsMore<T>(a: seq<T>, added: seq<T>, x: T)
    requires |a| == MAX_ENTRIES && Holds(a, added)
    ensures Holds(a[|added| % MAX_ENTRIES := x], added + [x])
  {
  }

  // Read in two pieces, from the oldest on.
  lemma HoldsLast<T>(a: seq<T>, added: seq<T>)
    requires |a| == MAX_ENTRIES && Holds(a, added)
    ensures |added| < MAX_ENTRIES ==> a[..|added|] == LastOf(added, MAX_ENTRIES)
    ensures |added| >= MAX_ENTRIES ==> var i := |added| % MAX_ENTRIES; a[i..] + a[..i] == LastOf(added, MAX_ENTRIES)
  {
    if |added| < MAX_ENTRIES {
      assert forall k :: 0 <= k < |added| ==> k % MAX_ENTRIES == k;
    } else {
      var n := |added|;
      var i := n % MAX_ENTRIES;
      var read := a[i..] + a[..i];
      forall j | 0 <= j < MAX_ENTRIES ensures read[j] == added[n - MAX_ENTRIES + j] {
        assert (n - MAX_ENTRIES + j) % MAX_ENTRIES == if j < MAX_ENTRIES - i then i + j else j - (MAX_ENTRIES - i);
      }
    }
  }

  // A ring survives being written and read again into a new ring.
  method RoundTrip<T(0)>(e: Entries<T>, duration: int, now: int) returns (f: Entries<T>, before: seq<T>, after: seq<T>)
    requires e.Valid() && duration >= 0
    ensures fresh(f) && after == before == LastOf(e.added, MAX_ENTRIES)
    ensures f.interval == if before == [] then IntervalFor(duration) else e.interval
  {
    before := e.Get();
    var w := e.Marshal();
    f := new Entries(duration, now);
    f.Unmarshal(w, now);
    after := f.Get();
  }

  // The interval of a ring is a hundredth of its duration, rounded down, and at least a second.
  lemma IntervalIs(duration: int)
    requires duration >= 0
    ensures var i := IntervalFor(duration);
            && i >= 1_000_000_000
            && (duration >= 100_000_000_000 ==> 100 * i <= duration < 100 * (i + 1))
            && (duration < 100_000_000_000 ==> i == 1_000_000_000)
  {
  }
}
