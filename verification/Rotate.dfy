/**
 Policy rotation of a log file: scan backwards, remember the segments to keep, then move
 them to the front of the same file and cut it.

 The specification, Kept, walks a list of lines and knows nothing of positions; the method
 works on byte positions, merges neighbouring lines and overwrites the file it reads from.
 Times are ints; parse gives the time of a line, None for a line without a valid time.
 */
module Rotate {
  import opened BackScanning
  import opened LogFile
  import opened LogLines
  import opened Options

  datatype Retention = Retention(last: nat, days: nat)

  const CHUNK_SIZE := 32 * 1024

  // The stop test, asked of every valid line before it is kept.
  predicate ShouldStop(config: Retention, cutoff: int, t: int, keep: nat, invalid: nat) {
    if config.last > 0 then keep - invalid == config.last else t < cutoff
  }

  // What the policy keeps of ls, when the scan has already kept and skipped some lines behind it.
  ghost function Kept(ls: seq<string>, config: Retention, cutoff: int, parse: string -> Option<int>, keep: nat, invalid: nat):
    (kept: seq<string>)
    ensures |kept| <= |ls|
  {
    if ls == [] then []
    else
      var rest, l := ls[..|ls| - 1], ls[|ls| - 1];
      if parse(l).None? then Kept(rest, config, cutoff, parse, keep, invalid + 1)
      else if ShouldStop(config, cutoff, parse(l).value, keep, invalid) then []
      else Kept(rest, config, cutoff, parse, keep + 1, invalid) + [l]
  }

  ghost function Valid(ls: seq<string>, parse: string -> Option<int>): (v: seq<string>)
    ensures |v| <= |ls|
  {
    if ls == [] then []
    else Valid(ls[..|ls| - 1], parse) + if parse(ls[|ls| - 1]).Some? then [ls[|ls| - 1]] else []
  }

  // ----- what Kept means

  // Counting and stopping by time: the valid lines of the longest suffix whose valid lines are all recent.
  lemma {:induction false} KeptByDays(ls: seq<string>, config: Retention, cutoff: int, parse: string -> Option<int>,
                                      keep: nat, invalid: nat) returns (k: nat)
    requires config.last == 0
    ensures k <= |ls| && Kept(ls, config, cutoff, parse, keep, invalid) == Valid(ls[k..], parse)
    ensures forall i :: k <= i < |ls| && parse(ls[i]).Some? ==> parse(ls[i]).value >= cutoff
    ensures k > 0 ==> parse(ls[k - 1]).Some? && parse(ls[k - 1]).value < cutoff
  {
    if ls == [] {
      k := 0;
    } else {
      var rest, l := ls[..|ls| - 1], ls[|ls| - 1];
      if parse(l).Some? && parse(l).value < cutoff {
        k := |ls|;
      } else {
        k := KeptByDays(rest, config, cutoff, parse, if parse(l).Some? then keep + 1 else keep,
                        if parse(l).Some? then invalid else invalid + 1);
        assert ls[k..][..|ls[k..]| - 1] == rest[k..];
      }
    }
  }

  // How many more lines are valid than not.
  ghost function Surplus(ls: seq<string>, parse: string -> Option<int>): int {
    2 * |Valid(ls, parse)| - |ls|
  }

  lemma SurplusMore(ls: seq<string>, i: nat, parse: string -> Option<int>)
    requires i < |ls|
    ensures Surplus(ls[i..], parse) == Surplus(ls[i..|ls| - 1], parse) + if parse(ls[|ls| - 1]).Some? then 1 else -1
  {
    assert ls[i..][..|ls[i..]| - 1] == ls[i..|ls| - 1];
  }

  // From the end down to k there is no valid line at which the surplus so far, and d, are what is wanted.
  ghost predicate WantsMore(ls: seq<string>, k: nat, d: int, parse: string -> Option<int>, last: int) {
    forall i :: k <= i < |ls| && parse(ls[i]).Some? ==> d + Surplus(ls[i + 1..], parse) != last
  }

  lemma WantsMoreAt(ls: seq<string>, k: nat, d: int, parse: string -> Option<int>, last: int)
    requires ls != []
    requires var l := ls[|ls| - 1];
             && WantsMore(ls[..|ls| - 1], k, if parse(l).Some? then d + 1 else d - 1, parse, last)
             && (parse(l).Some? ==> d != last)
    ensures WantsMore(ls, k, d, parse, last)
  {
    var n := |ls| - 1;
    var rest := ls[..n];
    assert ls[n + 1..] == [] && Surplus([], parse) == 0;
    hide Surplus;
    forall i | k <= i < |ls| && parse(ls[i]).Some? ensures d + Surplus(ls[i + 1..], parse) != last {
      if i < n {
        SurplusMore(ls, i + 1, parse);
        assert ls[i + 1..n] == rest[i + 1..] && rest[i] == ls[i];
      }
    }
  }

  // Stopping by count, whatever the lines are: the valid lines of a suffix, behind a valid line at which the valid lines met
  // are more than the invalid ones by exactly what is wanted. That was so at no valid line before.
  lemma {:induction false} KeptByLast(ls: seq<string>, config: Retention, cutoff: int, parse: string -> Option<int>,
                                      keep: nat, invalid: nat) returns (k: nat)
    requires config.last > 0
    ensures k <= |ls| && Kept(ls, config, cutoff, parse, keep, invalid) == Valid(ls[k..], parse)
    ensures k > 0 ==> parse(ls[k - 1]).Some? && keep - invalid + Surplus(ls[k..], parse) == config.last
    ensures WantsMore(ls, k, keep - invalid, parse, config.last)
  {
    if ls == [] {
      k := 0;
    } else {
      var n := |ls| - 1;
      var rest, l := ls[..n], ls[n];
      if parse(l).Some? && keep - invalid == config.last {
        k := |ls|;
      } else {
        var keep', invalid' := if parse(l).Some? then keep + 1 else keep, if parse(l).Some? then invalid else invalid + 1;
        k := KeptByLast(rest, config, cutoff, parse, keep', invalid');
        assert ls[k..][..|ls[k..]| - 1] == rest[k..];
        SurplusMore(ls, k, parse);
        assert ls[k..n] == rest[k..];
        hide Surplus, WantsMore;
        WantsMoreAt(ls, k, keep - invalid, parse, config.last);
      }
    }
  }

  // Stopping by count: the kept lines are the valid lines of a suffix.
  lemma {:induction false} KeptIsValidSuffix(ls: seq<string>, config: Retention, cutoff: int, parse: string -> Option<int>,
                                             keep: nat, invalid: nat) returns (k: nat)
    ensures k <= |ls| && Kept(ls, config, cutoff, parse, keep, invalid) == Valid(ls[k..], parse)
  {
    if ls == [] {
      k := 0;
    } else {
      var rest, l := ls[..|ls| - 1], ls[|ls| - 1];
      if parse(l).Some? && ShouldStop(config, cutoff, parse(l).value, keep, invalid) {
        k := |ls|;
      } else {
        k := KeptIsValidSuffix(rest, config, cutoff, parse, if parse(l).Some? then keep + 1 else keep,
                               if parse(l).Some? then invalid else invalid + 1);
        assert ls[k..][..|ls[k..]| - 1] == rest[k..];
      }
    }
  }

  // The place just after the n-th valid line counted from the end: the shortest suffix that
  // starts there holds fewer than n valid lines, and the line before it is the n-th.
  ghost predicate NthValidFromEnd(ls: seq<string>, parse: string -> Option<int>, n: nat, k: nat) {
    0 < k <= |ls| && parse(ls[k - 1]).Some? && |Valid(ls[k..], parse)| == n - 1
  }

  ghost predicate NoInvalid(ls: seq<string>, parse: string -> Option<int>) {
    forall i :: 0 <= i < |ls| ==> parse(ls[i]).Some?
  }

  // The last n valid lines stand together: no invalid line comes after the n-th from the end.
  ghost predicate Unbroken(ls: seq<string>, parse: string -> Option<int>, n: nat) {
    exists k: nat :: NthValidFromEnd(ls, parse, n, k) && NoInvalid(ls[k..], parse)
  }

  // Lines behind the scan count towards the stop, so the induction carries how many more it wants.
  lemma {:induction false} KeptByCount(ls: seq<string>, config: Retention, cutoff: int, parse: string -> Option<int>, keep: nat)
    requires keep <= config.last && config.last > 0
    requires NoInvalid(ls, parse)
    ensures Kept(ls, config, cutoff, parse, keep, 0) ==
            if |ls| <= config.last - keep then ls else ls[|ls| - (config.last - keep)..]
  {
    if ls != [] {
      var rest, l := ls[..|ls| - 1], ls[|ls| - 1];
      if keep < config.last {
        KeptByCount(rest, config, cutoff, parse, keep + 1);
        assert ls == rest + [l];
      }
    }
  }

  // "last N" with every line valid keeps the last min(N, total) lines.
  lemma LastKeepsLastN(ls: seq<string>, config: Retention, cutoff: int, parse: string -> Option<int>)
    requires config.last > 0 && NoInvalid(ls, parse)
    ensures Kept(ls, config, cutoff, parse, 0, 0) == if |ls| <= config.last then ls else ls[|ls| - config.last..]
  {
    KeptByCount(ls, config, cutoff, parse, 0);
  }

  // How many lines the counter keeps beyond what it has when it meets ls.
  lemma {:induction false} CountAtLeast(ls: seq<string>, config: Retention, cutoff: int, parse: string -> Option<int>,
                                        keep: nat, invalid: nat)
    requires config.last > 0 && invalid > 0 && keep - invalid <= config.last
    ensures |Kept(ls, config, cutoff, parse, keep, invalid)| >=
            var want := config.last - (keep - invalid);
            if |Valid(ls, parse)| <= want then |Valid(ls, parse)| else want
  {
    if ls != [] {
      var rest, l := ls[..|ls| - 1], ls[|ls| - 1];
      if parse(l).None? {
        CountAtLeast(rest, config, cutoff, parse, keep, invalid + 1);
      } else if keep - invalid != config.last {
        CountAtLeast(rest, config, cutoff, parse, keep + 1, invalid);
      }
    }
  }

  // "last N" keeps exactly min(N, valid lines) if and only if there are at most N valid lines or
  // no invalid line stands after the (N+1)-th valid line counted from the end.
  lemma {:induction false} LastKeepsNExactlyWhen(ls: seq<string>, config: Retention, cutoff: int, parse: string -> Option<int>)
    requires config.last > 0
    ensures |Kept(ls, config, cutoff, parse, 0, 0)| ==
            (if |Valid(ls, parse)| <= config.last then |Valid(ls, parse)| else config.last)
            <==> (|Valid(ls, parse)| <= config.last
                  || Unbroken(ls, parse, config.last + 1))
  {
    LastCount(ls, config, cutoff, parse, 0);
  }

  // An instance: `last 1` on two valid lines with an invalid one behind them keeps both.
  lemma LastOneKeepsTwo(a: string, b: string, x: string, cutoff: int, parse: string -> Option<int>)
    requires parse(a).Some? && parse(b).Some? && parse(x).None?
    ensures Kept([a, b, x], Retention(1, 0), cutoff, parse, 0, 0) == [a, b]
  {
    assert [a, b, x][..2] == [a, b] && [a, b][..1] == [a] && [a][..0] == [];
    assert Kept([a], Retention(1, 0), cutoff, parse, 1, 1) == [a];
    assert Kept([a, b], Retention(1, 0), cutoff, parse, 0, 1) == [a] + [b];
  }

  // The same, part-way through a scan that has met only valid lines.
  lemma {:induction false} LastCount(ls: seq<string>, config: Retention, cutoff: int, parse: string -> Option<int>, keep: nat)
    requires keep <= config.last && config.last > 0
    ensures |Kept(ls, config, cutoff, parse, keep, 0)| ==
            (if |Valid(ls, parse)| <= config.last - keep then |Valid(ls, parse)| else config.last - keep)
            <==> (|Valid(ls, parse)| <= config.last - keep
                  || Unbroken(ls, parse, config.last - keep + 1))
  {
    if ls != [] {
      var rest, l := ls[..|ls| - 1], ls[|ls| - 1];
      if parse(l).None? {
        LastCountAtInvalid(ls, config, cutoff, parse, keep);
      } else if keep == config.last {
        assert ls[|ls|..] == [];
        assert NthValidFromEnd(ls, parse, 1, |ls|);
      } else {
        LastCount(rest, config, cutoff, parse, keep + 1);
        NthAfterValid(ls, parse, config.last - keep);
      }
    }
  }

  lemma LastCountAtInvalid(ls: seq<string>, config: Retention, cutoff: int, parse: string -> Option<int>, keep: nat)
    requires keep <= config.last && config.last > 0
    requires ls != [] && parse(ls[|ls| - 1]).None?
    ensures !Unbroken(ls, parse, config.last - keep + 1)
    ensures |Kept(ls, config, cutoff, parse, keep, 0)| ==
            (if |Valid(ls, parse)| <= config.last - keep then |Valid(ls, parse)| else config.last - keep)
            <==> |Valid(ls, parse)| <= config.last - keep
  {
    var rest, l := ls[..|ls| - 1], ls[|ls| - 1];
    CountAtLeast(rest, config, cutoff, parse, keep, 1);
    if |Valid(ls, parse)| <= config.last - keep {
      AllKeptIfFew(rest, config, cutoff, parse, keep, 1);
    }
    forall k: nat | NthValidFromEnd(ls, parse, config.last - keep + 1, k) ensures !NoInvalid(ls[k..], parse) {
      if k < |ls| {
        assert ls[k..][|ls| - 1 - k] == l;
      }
    }
  }

  // Behind a valid line, the n-th valid line is the (n+1)-th.
  lemma NthAfterValid(ls: seq<string>, parse: string -> Option<int>, n: nat)
    requires n > 0 && ls != [] && parse(ls[|ls| - 1]).Some?
    ensures Unbroken(ls, parse, n + 1) <==> Unbroken(ls[..|ls| - 1], parse, n)
  {
    var rest := ls[..|ls| - 1];
    forall k: nat | 0 < k <= |rest|
      ensures NthValidFromEnd(rest, parse, n, k) && NoInvalid(rest[k..], parse)
              <==> NthValidFromEnd(ls, parse, n + 1, k) && NoInvalid(ls[k..], parse)
    {
      NthAt(ls, parse, n, k);
    }
    assert ls[|ls|..] == [];
    assert !NthValidFromEnd(ls, parse, n + 1, |ls|);
  }

  lemma NthAt(ls: seq<string>, parse: string -> Option<int>, n: nat, k: nat)
    requires n > 0 && 0 < k < |ls| && parse(ls[|ls| - 1]).Some?
    ensures NthValidFromEnd(ls[..|ls| - 1], parse, n, k) == NthValidFromEnd(ls, parse, n + 1, k)
    ensures NoInvalid(ls[..|ls| - 1][k..], parse) == NoInvalid(ls[k..], parse)
  {
    var rest, l := ls[..|ls| - 1], ls[|ls| - 1];
    assert ls[k..] == rest[k..] + [l];
    assert ls[k..][..|ls[k..]| - 1] == rest[k..];
    assert forall i :: 0 <= i < |rest[k..]| ==> ls[k..][i] == rest[k..][i];
  }

  // With no more valid lines than wanted, all of them are kept.
  lemma {:induction false} AllKeptIfFew(ls: seq<string>, config: Retention, cutoff: int, parse: string -> Option<int>,
                                        keep: nat, invalid: nat)
    requires config.last > 0 && keep - invalid <= config.last
    requires |Valid(ls, parse)| <= config.last - (keep - invalid)
    ensures |Kept(ls, config, cutoff, parse, keep, invalid)| == |Valid(ls, parse)|
  {
    if ls != [] {
      var rest, l := ls[..|ls| - 1], ls[|ls| - 1];
      if parse(l).None? {
        AllKeptIfFew(rest, config, cutoff, parse, keep, invalid + 1);
      } else {
        AllKeptIfFew(rest, config, cutoff, parse, keep + 1, invalid);
      }
    }
  }

  // ----- the rotation itself

  datatype LineInfo = LineInfo(pos: nat, size: nat)

  // The loop variables of the scan, as values.
  datatype Scan = Scan(segs: seq<LineInfo>, lastValid: bool, bytesRead: nat, bytesKeep: nat, keep: nat, invalid: nat)

  class RotateResult {
    var originalSize: nat
    var numBytesRead: nat
    var numBytesKeep: nat
    var numLinesRead: nat
    var numLinesKeep: nat
    var numLinesInvalid: nat

    constructor ()
      ensures IsZero()
    {
      originalSize, numBytesRead, numBytesKeep := 0, 0, 0;
      numLinesRead, numLinesKeep, numLinesInvalid := 0, 0, 0;
    }

    ghost function Progress(segs: seq<LineInfo>, lastValid: bool): Scan
      reads this
    {
      Scan(segs, lastValid, numBytesRead, numBytesKeep, numLinesKeep, numLinesInvalid)
    }

    ghost predicate IsZero()
      reads this
    {
      originalSize == numBytesRead == numBytesKeep == numLinesRead == numLinesKeep == numLinesInvalid == 0
    }
  }

  // The segments as collected: from the back of the file to the front, disjoint, all at or after lo.
  ghost predicate Descending(segs: seq<LineInfo>, lo: nat, hi: nat) {
    && (forall i :: 0 <= i < |segs| ==> lo <= segs[i].pos && segs[i].pos + segs[i].size <= hi)
    && (forall i, j :: 0 <= i < j < |segs| ==> segs[j].pos + segs[j].size <= segs[i].pos)
  }

  // The bytes of one segment; none for a segment outside the file.
  ghost function Bytes(data: string, s: LineInfo): string {
    if s.pos + s.size <= |data| then data[s.pos..s.pos + s.size] else ""
  }

  // The text of the segments in file order.
  ghost function Text(data: string, segs: seq<LineInfo>): string {
    if segs == [] then "" else Bytes(data, segs[|segs| - 1]) + Text(data, segs[..|segs| - 1])
  }

  // A line that stands directly before the last segment grows it; any other starts a new one.
  function AddLine(segs: seq<LineInfo>, grow: bool, pos: nat, size: nat): (r: seq<LineInfo>)
    requires grow ==> segs != [] && segs[|segs| - 1].pos >= size
  {
    if grow then
      var s := segs[|segs| - 1];
      segs[|segs| - 1 := LineInfo(s.pos - size, s.size + size)]
    else
      segs + [LineInfo(pos, size)]
  }

  lemma TextSnoc(data: string, segs: seq<LineInfo>, s: LineInfo)
    ensures Text(data, segs + [s]) == Bytes(data, s) + Text(data, segs)
  {
    assert (segs + [s])[..|segs|] == segs;
  }

  // Adding the line that ends at lo adds its bytes in front.
  lemma AddLineText(data: string, segs: seq<LineInfo>, grow: bool, lo: nat, size: nat)
    requires size <= lo <= |data| && Descending(segs, lo, |data|)
    requires grow ==> segs != [] && segs[|segs| - 1].pos == lo
    ensures var r := AddLine(segs, grow, lo - size, size);
            && r != [] && r[|r| - 1].pos == lo - size
            && Descending(r, lo - size, |data|)
            && Text(data, r) == data[lo - size..lo] + Text(data, segs)
  {
    if grow {
      GrownSegmentText(data, segs, lo, size);
      GrownDescending(segs, lo, size, |data|);
    } else {
      NewSegmentText(data, segs, lo, size);
    }
  }

  lemma UnlinesFirst(l: string, ls: seq<string>)
    ensures Unlines([l] + ls) == l + [NEWLINE] + Unlines(ls)
  {
    assert ([l] + ls)[1..] == ls;
  }

  lemma TextTake(data: string, segs: seq<LineInfo>, i: nat)
    requires i < |segs|
    ensures Text(data, segs[..i + 1]) == Bytes(data, segs[i]) + Text(data, segs[..i])
  {
    hide Text, Bytes;
    TextSnoc(data, segs[..i], segs[i]);
    assert segs[..i + 1] == segs[..i] + [segs[i]];
  }

  lemma Assoc(a: string, b: string, c: string)
    ensures (a + b) + c == a + (b + c)
  {
  }

  lemma NewSegmentText(data: string, segs: seq<LineInfo>, lo: nat, size: nat)
    requires size <= lo <= |data| && Descending(segs, lo, |data|)
    ensures var r := AddLine(segs, false, lo - size, size);
            Descending(r, lo - size, |data|) && Text(data, r) == data[lo - size..lo] + Text(data, segs)
  {
    hide Text, Descending;
    TextSnoc(data, segs, LineInfo(lo - size, size));
    DescendingSnoc(segs, LineInfo(lo - size, size), lo, |data|);
  }

  lemma DescendingDown(segs: seq<LineInfo>, lo: nat, lo': nat, hi: nat)
    requires Descending(segs, lo, hi) && lo' <= lo
    ensures Descending(segs, lo', hi)
  {
  }

  lemma DescendingSnoc(segs: seq<LineInfo>, s: LineInfo, lo: nat, hi: nat)
    requires Descending(segs, lo, hi) && s.pos + s.size == lo <= hi
    ensures Descending(segs + [s], s.pos, hi)
  {
  }

  lemma GrownBytes(data: string, s: LineInfo, size: nat)
    requires size <= s.pos && s.pos + s.size <= |data|
    ensures Bytes(data, LineInfo(s.pos - size, s.size + size)) == data[s.pos - size..s.pos] + Bytes(data, s)
  {
  }

  lemma GrownSegmentText(data: string, segs: seq<LineInfo>, lo: nat, size: nat)
    requires size <= lo <= |data| && Descending(segs, lo, |data|)
    requires segs != [] && segs[|segs| - 1].pos == lo
    ensures Text(data, AddLine(segs, true, lo - size, size)) == data[lo - size..lo] + Text(data, segs)
  {
    hide Text, Bytes;
    var r := AddLine(segs, true, lo - size, size);
    var init, s, t := segs[..|segs| - 1], segs[|segs| - 1], r[|r| - 1];
    assert segs == init + [s] && r == init + [t];
    TextSnoc(data, init, s);
    TextSnoc(data, init, t);
    GrownBytes(data, s, size);
    Assoc(data[lo - size..lo], Bytes(data, s), Text(data, init));
  }

  lemma GrownDescending(segs: seq<LineInfo>, lo: nat, size: nat, hi: nat)
    requires size <= lo && Descending(segs, lo, hi) && segs != [] && segs[|segs| - 1].pos == lo
    ensures Descending(AddLine(segs, true, lo - size, size), lo - size, hi)
  {
  }

  // What Compact has established when the segments from i on have been moved.
  ghost predicate Moved(data: string, now: string, segs: seq<LineInfo>, i: nat, writePos: nat) {
    && i <= |segs| && Descending(segs, 0, |data|)
    && |now| == |data| && writePos <= |data|
    && (i > 0 ==> writePos <= segs[i - 1].pos)
    && (forall k :: writePos <= k < |data| ==> now[k] == data[k])
    && now[..writePos] + Text(data, segs[..i]) == Text(data, segs)
  }

  // The file after a move.
  ghost function AfterMove(now: string, s: LineInfo, writePos: nat): string
    requires writePos + s.size <= |now|
  {
    now[..writePos] + Bytes(now, s) + now[writePos + s.size..]
  }

  lemma AfterMoveParts(data: string, now: string, s: LineInfo, writePos: nat)
    requires |now| == |data| && writePos <= s.pos && s.pos + s.size <= |data|
    requires forall k :: writePos <= k < |data| ==> now[k] == data[k]
    ensures |AfterMove(now, s, writePos)| == |data|
    ensures AfterMove(now, s, writePos)[..writePos + s.size] == now[..writePos] + Bytes(data, s)
    ensures forall k :: writePos + s.size <= k < |data| ==> AfterMove(now, s, writePos)[k] == data[k]
  {
    assert Bytes(now, s) == Bytes(data, s);
  }

  lemma MoveStep(data: string, now: string, segs: seq<LineInfo>, i: nat, writePos: nat)
    requires i < |segs| && Moved(data, now, segs, i + 1, writePos)
    ensures writePos + segs[i].size <= |now|
    ensures Moved(data, AfterMove(now, segs[i], writePos), segs, i, writePos + segs[i].size)
  {
    AfterMoveParts(data, now, segs[i], writePos);
    TextTake(data, segs, i);
    Assoc(now[..writePos], Bytes(data, segs[i]), Text(data, segs[..i]));
  }

  // Moves the bytes of a segment to a place at or before it.
  method FileContentMove(file: File, srcPos: nat, dstPos: nat, size: nat) returns (err: Option<IoError>)
    requires dstPos <= srcPos && srcPos + size <= |file.data|
    modifies file
    ensures |file.data| == |old(file.data)|
    ensures err.None? ==> file.data == AfterMove(old(file.data), LineInfo(srcPos, size), dstPos)
  {
    var buf;
    buf, err := file.ReadAt(srcPos, size);
    if err.Some? {
      return;
    }
    if |buf| != size {
      return Some(ShortRead);
    }
    err := file.WriteAt(buf, dstPos);
  }

  // Moves all segments to the front, oldest first. No move touches a byte that a later move reads.
  method Compact(file: File, segs: seq<LineInfo>) returns (writePos: nat, err: Option<IoError>)
    requires Descending(segs, 0, |file.data|)
    modifies file
    ensures |file.data| == |old(file.data)|
    ensures err.None? ==> writePos <= |file.data| && file.data[..writePos] == Text(old(file.data), segs)
  {
    ghost var data := file.data;
    writePos, err := 0, None;
    var i := |segs|;
    assert segs[..i] == segs;
    while i > 0
      invariant 0 <= i <= |segs| && Moved(data, file.data, segs, i, writePos)
    {
      i := i - 1;
      MoveStep(data, file.data, segs, i, writePos);
      err := FileContentMove(file, segs[i].pos, writePos, segs[i].size);
      if err.Some? {
        return;
      }
      writePos := writePos + segs[i].size;
    }
    assert segs[..0] == [];
  }

  lemma {:induction false} KeptLength(ls: seq<string>, config: Retention, cutoff: int, parse: string -> Option<int>,
                                      keep: nat, invalid: nat)
    requires AllLines(ls)
    ensures |Unlines(Kept(ls, config, cutoff, parse, keep, invalid))| <= |Unlines(ls)|
    ensures |Unlines(Kept(ls, config, cutoff, parse, keep, invalid))| == |Unlines(ls)|
            <==> Kept(ls, config, cutoff, parse, keep, invalid) == ls
    ensures Kept(ls, config, cutoff, parse, keep, invalid) == [] <==> Unlines(Kept(ls, config, cutoff, parse, keep, invalid)) == ""
  {
    if ls != [] {
      var rest, l := ls[..|ls| - 1], ls[|ls| - 1];
      assert ls == rest + [l];
      UnlinesAppend(rest, [l]);
      assert |Unlines([l])| == |l| + 1;
      if parse(l).None? {
        KeptLength(rest, config, cutoff, parse, keep, invalid + 1);
      } else if !ShouldStop(config, cutoff, parse(l).value, keep, invalid) {
        KeptLength(rest, config, cutoff, parse, keep + 1, invalid);
        UnlinesAppend(Kept(rest, config, cutoff, parse, keep + 1, invalid), [l]);
      }
    }
  }

  // What the scanning loop has established when the file from position lo on is behind it
  // and the lines it keeps there read, written out, as text.
  ghost predicate Scanned(data: string, lo: nat, text: string, sc: Scan) {
    && |data| == lo + sc.bytesRead
    && Descending(sc.segs, lo, |data|)
    && Text(data, sc.segs) == text
    && (sc.segs == [] <==> text == "")
    && (sc.lastValid ==> sc.segs != [] && sc.segs[|sc.segs| - 1].pos == lo)
    && sc.bytesKeep == |text|
  }

  // The bounds of the line the scan meets next, the one that ends at hi.
  lemma NextLine(data: string, ls: seq<string>, m: nat, hi: nat)
    requires m < |ls| && hi <= |data| && Unlines(ls[..m + 1]) == data[..hi]
    ensures |ls[m]| + 1 <= hi
    ensures Unlines(ls[..m]) == data[..hi - |ls[m]| - 1]
    ensures data[hi - |ls[m]| - 1..hi] == ls[m] + [NEWLINE]
  {
    assert ls[..m + 1] == ls[..m] + [ls[m]];
    UnlinesAppend(ls[..m], [ls[m]]);
    assert Unlines([ls[m]]) == ls[m] + [NEWLINE];
    var a, lo := Unlines(ls[..m]), hi - |ls[m]| - 1;
    assert data[..hi] == a + (ls[m] + [NEWLINE]);
    assert data[..hi][..lo] == data[..lo] && data[..hi][lo..] == data[lo..hi];
  }

  lemma LastOf(ls: seq<string>, m: nat, before: seq<string>, line: string) returns (n: nat)
    requires m <= |ls| && ls[..m] == before + [line]
    ensures n + 1 == m && ls[..n] == before && ls[n] == line
  {
    n := m - 1;
    assert ls[..m][..n] == ls[..n] && ls[..m][n] == ls[n];
  }

  // The next line decides the rest of what is kept.
  lemma KeptNext(ls: seq<string>, m: nat, config: Retention, cutoff: int, parse: string -> Option<int>, keep: nat, invalid: nat)
    requires m < |ls|
    ensures Kept(ls[..m + 1], config, cutoff, parse, keep, invalid) ==
            if parse(ls[m]).None? then Kept(ls[..m], config, cutoff, parse, keep, invalid + 1)
            else if ShouldStop(config, cutoff, parse(ls[m]).value, keep, invalid) then []
            else Kept(ls[..m], config, cutoff, parse, keep + 1, invalid) + [ls[m]]
  {
    assert ls[..m + 1][..m] == ls[..m];
  }

  // One line of the scan: its time decides between skipping it, stopping and keeping it.
  ghost function Stops(sc: Scan, t: Option<int>, config: Retention, cutoff: int): bool {
    t.Some? && ShouldStop(config, cutoff, t.value, sc.keep, sc.invalid)
  }

  ghost predicate Room(sc: Scan, fileSize: nat, len: nat) {
    && sc.bytesRead + len + 1 <= fileSize
    && (sc.lastValid ==> sc.segs != [] && sc.segs[|sc.segs| - 1].pos >= len + 1)
  }

  ghost function Advance(sc: Scan, fileSize: nat, len: nat, t: Option<int>): Scan
    requires Room(sc, fileSize, len)
  {
    if t.None? then
      sc.(lastValid := false, bytesRead := sc.bytesRead + len + 1, invalid := sc.invalid + 1)
    else
      Scan(AddLine(sc.segs, sc.lastValid, fileSize - sc.bytesRead - len - 1, len + 1), true,
           sc.bytesRead + len + 1, sc.bytesKeep + len + 1, sc.keep + 1, sc.invalid)
  }

  lemma RoomForLine(data: string, lo: nat, text: string, sc: Scan, len: nat)
    requires len + 1 <= lo && Scanned(data, lo, text, sc)
    ensures Room(sc, |data|, len)
  {
    hide Text, Descending;
  }

  lemma AdvanceStep(data: string, lo: nat, text: string, sc: Scan, len: nat, t: Option<int>)
    requires len + 1 <= lo && Scanned(data, lo, text, sc)
    ensures Room(sc, |data|, len)
    ensures Scanned(data, lo - len - 1, if t.None? then text else data[lo - len - 1..lo] + text, Advance(sc, |data|, len, t))
  {
    hide Text, Descending, AddLine;
    RoomForLine(data, lo, text, sc, len);
    DescendingDown(sc.segs, lo, lo - len - 1, |data|);
    if t.Some? {
      AddLineText(data, sc.segs, sc.lastValid, lo, len + 1);
    }
  }

  // The body of the scanning loop.
  method CountLine(line: string, config: Retention, cutoff: int, parse: string -> Option<int>,
                   segs: seq<LineInfo>, lastValid: bool, result: RotateResult)
    returns (linesToKeep: seq<LineInfo>, lastLineValid: bool, stop: bool)
    requires Room(result.Progress(segs, lastValid), result.originalSize, |line|)
    modifies result
    ensures result.originalSize == old(result.originalSize)
    ensures stop == Stops(old(result.Progress(segs, lastValid)), parse(line), config, cutoff)
    ensures !stop ==> result.Progress(linesToKeep, lastLineValid)
                      == Advance(old(result.Progress(segs, lastValid)), result.originalSize, |line|, parse(line))
    ensures result.numLinesRead == old(result.numLinesRead) + 1
    ensures stop ==> linesToKeep == segs && result.numLinesKeep == old(result.numLinesKeep)
                     && result.numBytesKeep == old(result.numBytesKeep) && result.numLinesInvalid == old(result.numLinesInvalid)
  {
    linesToKeep, lastLineValid, stop := segs, lastValid, false;
    result.numLinesRead := result.numLinesRead + 1;
    var lineSize := |line| + 1;
    var linePos := result.originalSize - result.numBytesRead - lineSize;
    result.numBytesRead := result.numBytesRead + lineSize;
    var t := parse(line);
    if t.None? {
      result.numLinesInvalid := result.numLinesInvalid + 1;
      lastLineValid := false;
    } else if ShouldStop(config, cutoff, t.value, result.numLinesKeep, result.numLinesInvalid) {
      stop := true;
    } else {
      linesToKeep := AddLine(segs, lastValid, linePos, lineSize);
      result.numBytesKeep := result.numBytesKeep + lineSize;
      result.numLinesKeep := result.numLinesKeep + 1;
      lastLineValid := true;
    }
  }

  // What holds between two scans: m lines are unread, they fill the file up to lo, and together
  // with `kept` they give what the policy keeps of the whole file.
  ghost predicate Between(data: string, ls: seq<string>, m: nat, lo: nat, kept: seq<string>, sc: Scan,
                          config: Retention, cutoff: int, parse: string -> Option<int>)
  {
    && m <= |ls| && lo <= |data| && Unlines(ls[..m]) == data[..lo]
    && Kept(ls, config, cutoff, parse, 0, 0) == Kept(ls[..m], config, cutoff, parse, sc.keep, sc.invalid) + kept
    && sc.keep == |kept| && kept == Valid(ls[m..], parse) && sc.keep + sc.invalid + m == |ls|
    && Scanned(data, lo, Unlines(kept), sc)
  }

  lemma BetweenAtStart(data: string, ls: seq<string>, config: Retention, cutoff: int, parse: string -> Option<int>)
    requires Unlines(ls) == data
    ensures Between(data, ls, |ls|, |data|, [], Scan([], false, 0, 0, 0, 0), config, cutoff, parse)
  {
    assert ls[..|ls|] == ls && ls[|ls|..] == [] && data[..|data|] == data;
  }

  // What the scan has counted when it is over: the lines of a suffix, which are valid and kept or invalid, and the valid line
  // before them that made it stop, if there is one.
  ghost predicate Counted(ls: seq<string>, parse: string -> Option<int>, read: nat, keep: nat, invalid: nat) {
    var n := keep + invalid;
    && n <= |ls| && keep == |Valid(ls[|ls| - n..], parse)|
    && (if n == |ls| then read == n else read == n + 1 && parse(ls[|ls| - n - 1]).Some?)
  }

  lemma {:induction false} ValidFirst(l: string, ls: seq<string>, parse: string -> Option<int>)
    ensures Valid([l] + ls, parse) == (if parse(l).Some? then [l] else []) + Valid(ls, parse)
  {
    var all := [l] + ls;
    if ls == [] {
      assert all[..|all| - 1] == [];
    } else {
      ValidFirst(l, ls[..|ls| - 1], parse);
      assert all[..|all| - 1] == [l] + ls[..|ls| - 1];
    }
  }

  lemma ValidFrom(ls: seq<string>, m: nat, parse: string -> Option<int>)
    requires m < |ls|
    ensures Valid(ls[m..], parse) == if parse(ls[m]).None? then Valid(ls[m + 1..], parse) else [ls[m]] + Valid(ls[m + 1..], parse)
  {
    assert ls[m..] == [ls[m]] + ls[m + 1..];
    ValidFirst(ls[m], ls[m + 1..], parse);
  }

  // The counts of a scan that has met every line, or stops at the next.
  lemma BetweenCounted(data: string, ls: seq<string>, m: nat, lo: nat, kept: seq<string>, sc: Scan,
                       config: Retention, cutoff: int, parse: string -> Option<int>)
    requires Between(data, ls, m, lo, kept, sc, config, cutoff, parse)
    ensures m == 0 ==> Counted(ls, parse, |ls|, sc.keep, sc.invalid)
    ensures m > 0 && parse(ls[m - 1]).Some? ==> Counted(ls, parse, |ls| - m + 1, sc.keep, sc.invalid)
  {
    hide Text, Descending, Kept, Unlines, Scanned;
  }

  lemma BetweenScanned(data: string, ls: seq<string>, m: nat, lo: nat, kept: seq<string>, sc: Scan,
                       config: Retention, cutoff: int, parse: string -> Option<int>)
    requires Between(data, ls, m, lo, kept, sc, config, cutoff, parse)
    ensures |data| == lo + sc.bytesRead
  {
    hide Text, Descending, Kept, Unlines;
  }

  lemma BetweenStep(data: string, ls: seq<string>, m: nat, lo: nat, kept: seq<string>, sc: Scan,
                    config: Retention, cutoff: int, parse: string -> Option<int>)
    requires m < |ls| && Between(data, ls, m + 1, lo, kept, sc, config, cutoff, parse)
    ensures |ls[m]| + 1 <= lo && Room(sc, |data|, |ls[m]|)
    ensures Stops(sc, parse(ls[m]), config, cutoff) ==> Kept(ls, config, cutoff, parse, 0, 0) == kept
    ensures !Stops(sc, parse(ls[m]), config, cutoff) ==>
              Between(data, ls, m, lo - |ls[m]| - 1, if parse(ls[m]).None? then kept else [ls[m]] + kept,
                      Advance(sc, |data|, |ls[m]|, parse(ls[m])), config, cutoff, parse)
  {
    hide Text, Descending, Kept, Unlines, AddLine, Scanned, Valid;
    BetweenScanned(data, ls, m + 1, lo, kept, sc, config, cutoff, parse);
    NextLine(data, ls, m, lo);
    KeptNext(ls, m, config, cutoff, parse, sc.keep, sc.invalid);
    ValidFrom(ls, m, parse);
    AdvanceStep(data, lo, Unlines(kept), sc, |ls[m]|, parse(ls[m]));
    UnlinesFirst(ls[m], kept);
  }

  // One turn of the scanning loop.
  method ScanLine(s: BackScanner, config: Retention, cutoff: int, parse: string -> Option<int>,
                  segs: seq<LineInfo>, lastValid: bool, result: RotateResult,
                  ghost ls: seq<string>, ghost m: nat, ghost lo: nat, ghost kept: seq<string>)
    returns (linesToKeep: seq<LineInfo>, lastLineValid: bool, stop: bool, ghost lo': nat, ghost kept': seq<string>)
    requires s.Valid() && m <= |ls| && Lines(s.Unread()) == ls[..m]
    requires s.bufSize >= 1 && result.originalSize == |s.file.data| && result.numLinesRead == |ls| - m
    requires Between(s.file.data, ls, m, lo, kept, result.Progress(segs, lastValid), config, cutoff, parse)
    modifies s, result
    ensures s.Valid() && result.originalSize == old(result.originalSize)
    ensures !stop ==> m > 0 && Lines(s.Unread()) == ls[..m - 1] && result.numLinesRead == |ls| - m + 1
    ensures !stop ==> Between(s.file.data, ls, m - 1, lo', kept', result.Progress(linesToKeep, lastLineValid), config, cutoff, parse)
    ensures stop ==> Outcome(s.file.data, linesToKeep, kept', result.numBytesKeep, result.numLinesKeep)
    ensures stop && s.err.None? ==> kept' == Kept(ls, config, cutoff, parse, 0, 0)
    ensures stop && s.err.None? ==> Counted(ls, parse, result.numLinesRead, result.numLinesKeep, result.numLinesInvalid)
  {
    hide Text, Descending, Kept, Unlines, Lines, Counted;
    ghost var data, sc := s.file.data, result.Progress(segs, lastValid);
    BetweenOutcome(data, ls, m, lo, kept, sc, config, cutoff, parse);
    BetweenCounted(data, ls, m, lo, kept, sc, config, cutoff, parse);
    linesToKeep, lastLineValid, stop, lo', kept' := segs, lastValid, true, lo, kept;
    var ok := s.Scan();
    if ok {
      ghost var n := LastOf(ls, m, Lines(s.Unread()), s.line);
      BetweenStep(data, ls, n, lo, kept, sc, config, cutoff, parse);
      linesToKeep, lastLineValid, stop := CountLine(s.line, config, cutoff, parse, segs, lastValid, result);
      lo' := lo - |s.line| - 1;
      kept' := if stop || parse(s.line).None? then kept else [s.line] + kept;
    }
  }

  // The scanning loop: walk the lines backwards until the policy says stop, keeping positions.
  method CollectSegments(file: File, config: Retention, cutoff: int, parse: string -> Option<int>, result: RotateResult)
    returns (linesToKeep: seq<LineInfo>, err: Option<IoError>)
    requires WellFormed(file.data) && result.IsZero()
    modifies result
    ensures result.originalSize == |file.data|
    ensures err.None? ==> Outcome(file.data, linesToKeep, Kept(Lines(file.data), config, cutoff, parse, 0, 0),
                                  result.numBytesKeep, result.numLinesKeep)
    ensures err.None? ==> Counted(Lines(file.data), parse, result.numLinesRead, result.numLinesKeep, result.numLinesInvalid)
  {
    ghost var ls := Lines(file.data);
    ghost var kept: seq<string>, m, lo := [], |ls|, |file.data|;
    UnlinesOfLines(file.data);
    var s := new BackScanner(file, CHUNK_SIZE);
    result.originalSize := |file.data|;
    linesToKeep := [];
    var lastLineValid, stop := false, false;
    BetweenAtStart(file.data, ls, config, cutoff, parse);
    assert ls[..|ls|] == ls;
    while !stop
      invariant s.Valid() && s.file == file && s.bufSize == CHUNK_SIZE && fresh(s)
      invariant 0 <= m <= |ls| && 0 <= lo
      invariant !stop ==> Lines(s.Unread()) == ls[..m]
      invariant !stop ==> Between(file.data, ls, m, lo, kept, result.Progress(linesToKeep, lastLineValid), config, cutoff, parse)
      invariant stop ==> Outcome(file.data, linesToKeep, kept, result.numBytesKeep, result.numLinesKeep)
      invariant stop && s.err.None? ==> kept == Kept(ls, config, cutoff, parse, 0, 0)
      invariant !stop ==> result.numLinesRead == |ls| - m
      invariant stop && s.err.None? ==> Counted(ls, parse, result.numLinesRead, result.numLinesKeep, result.numLinesInvalid)
      invariant result.originalSize == |file.data|
      decreases m, !stop
    {
      linesToKeep, lastLineValid, stop, lo, kept :=
        ScanLine(s, config, cutoff, parse, linesToKeep, lastLineValid, result, ls, m, lo, kept);
      m := if stop then m else m - 1;
    }
    err := s.err;
  }

  // What the scan leaves behind.
  ghost predicate Outcome(data: string, segs: seq<LineInfo>, kept: seq<string>, bytesKeep: nat, linesKeep: nat) {
    && Descending(segs, 0, |data|)
    && Text(data, segs) == Unlines(kept)
    && (segs == [] <==> Unlines(kept) == "")
    && bytesKeep == |Unlines(kept)| && linesKeep == |kept|
  }

  lemma BetweenOutcome(data: string, ls: seq<string>, m: nat, lo: nat, kept: seq<string>, sc: Scan,
                       config: Retention, cutoff: int, parse: string -> Option<int>)
    requires Between(data, ls, m, lo, kept, sc, config, cutoff, parse)
    ensures Outcome(data, sc.segs, kept, sc.bytesKeep, sc.keep)
    ensures m == 0 ==> kept == Kept(ls, config, cutoff, parse, 0, 0)
  {
    hide Text, Unlines;
  }

  // A rotation that failed, by the step that did.
  datatype RotateError = Scanning(e: IoError) | Moving(e: IoError) | Truncating(e: IoError)

  // What an error leaves of the file: after the scan all of it, after a move its length, after a truncation the kept lines
  // at its front, or all of it when none is kept.
  ghost predicate Remains(before: string, now: string, kept: seq<string>, err: RotateError) {
    match err
    case Scanning(_) => now == before
    case Moving(_) => |now| == |before|
    case Truncating(_) => |now| == |before| && (if kept == [] then now == before else Unlines(kept) <= now)
  }

  // Rotation leaves exactly the kept lines, in their order, and reports whether it changed the file.
  method RotateByPolicy(file: File, config: Retention, cutoff: int, parse: string -> Option<int>, result: RotateResult)
    returns (rotated: bool, err: Option<RotateError>)
    requires WellFormed(file.data) && result.IsZero()
    modifies file, result
    ensures config.last == 0 && config.days == 0 ==> !rotated && err.None? && file.data == old(file.data)
    ensures err.None? && (config.last > 0 || config.days > 0) ==>
              && file.data == Unlines(Kept(Lines(old(file.data)), config, cutoff, parse, 0, 0))
              && rotated == (file.data != old(file.data))
              && |file.data| == result.numBytesKeep
              && result.numLinesKeep == |Kept(Lines(old(file.data)), config, cutoff, parse, 0, 0)|
              && Counted(Lines(old(file.data)), parse, result.numLinesRead, result.numLinesKeep, result.numLinesInvalid)
    ensures err.Some? ==> Remains(old(file.data), file.data, Kept(Lines(old(file.data)), config, cutoff, parse, 0, 0), err.value)
  {
    rotated, err := false, None;
    if config.last == 0 && config.days == 0 {
      return;
    }
    var fileSize := |file.data|;
    if fileSize == 0 {
      return;
    }
    ghost var data, ls := file.data, Lines(file.data);
    ghost var all := Kept(ls, config, cutoff, parse, 0, 0);
    UnlinesOfLines(data);
    LinesAreLines(data);
    KeptLength(ls, config, cutoff, parse, 0, 0);
    hide Text, Lines, Unlines, Kept, Descending, WellFormed, AllLines, Counted;

    var linesToKeep, ioErr := CollectSegments(file, config, cutoff, parse, result);
    if ioErr.Some? {
      return false, Some(Scanning(ioErr.value));
    }
    if |linesToKeep| == 0 {
      ioErr := file.Truncate(0);
      return true, if ioErr.Some? then Some(Truncating(ioErr.value)) else None;
    }
    if result.numBytesKeep == result.originalSize {
      return;
    }
    var writePos;
    writePos, ioErr := Compact(file, linesToKeep);
    if ioErr.Some? {
      return false, Some(Moving(ioErr.value));
    }
    assert Unlines(all) <= file.data;
    ioErr := file.Truncate(writePos);
    if ioErr.Some? {
      return false, Some(Truncating(ioErr.value));
    }
    rotated := true;
  }
}
