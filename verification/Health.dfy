/**
 The notifications of a health monitor, over every history of its checks.
 */
module Health {
  datatype Check = Good | Bad | Err

  datatype Status = StatusHealthy | StatusUnhealthy | StatusError

  datatype Notice = Up | Down

  // The fields a check updates.
  datatype State = State(status: Status, failures: int, sent: bool)

  const INITIAL := State(StatusHealthy, 0, false)

  function StatusAfter(c: Check): Status {
    match c
    case Good => StatusHealthy
    case Bad => StatusUnhealthy
    case Err => StatusError
  }

  // The state after a check, and the notices it sends.
  function Next(s: State, c: Check, retries: int): (State, seq<Notice>) {
    var changed := (c == Good) != (s.status == StatusHealthy);
    if c == Good then
      if changed then (State(StatusHealthy, 0, false), [Up]) else (s.(status := StatusHealthy), [])
    else if retries < 0 then
      if changed then (State(StatusAfter(c), s.failures, true), [Down]) else (s.(status := StatusAfter(c)), [])
    else if s.failures + 1 >= retries && !s.sent then (State(StatusAfter(c), s.failures + 1, true), [Down])
    else (State(StatusAfter(c), s.failures + 1, s.sent), [])
  }

  // The notices of a history, check by check.
  function Notices(s: State, h: seq<Check>, retries: int): seq<seq<Notice>>
    decreases |h|
  {
    if h == [] then [] else [Next(s, h[0], retries).1] + Notices(Next(s, h[0], retries).0, h[1..], retries)
  }

  function Count(notices: seq<seq<Notice>>, n: Notice): nat {
    if notices == [] then 0 else multiset(notices[0])[n] + Count(notices[1..], n)
  }

  // ----- failure runs

  function LeadingFailures(h: seq<Check>): (k: nat)
    ensures k <= |h| && (forall i :: 0 <= i < k ==> h[i] != Good) && (k < |h| ==> h[k] == Good)
  {
    if h == [] || h[0] == Good then 0 else 1 + LeadingFailures(h[1..])
  }

  // The lengths of the maximal runs of failures, in order.
  function FailureRuns(h: seq<Check>): (runs: seq<nat>)
    ensures h == [] ==> runs == []
    decreases |h|
  {
    if h == [] then []
    else if h[0] == Good then FailureRuns(h[1..])
    else [LeadingFailures(h)] + FailureRuns(h[LeadingFailures(h)..])
  }

  function LongRuns(runs: seq<nat>, n: nat): nat {
    if runs == [] then 0 else (if runs[0] >= n then 1 else 0) + LongRuns(runs[1..], n)
  }

  // All runs but one that lasts to the end of the history.
  function EndedRuns(h: seq<Check>): nat {
    var runs := FailureRuns(h);
    if runs == [] || h[|h| - 1] == Good then |runs| else |runs| - 1
  }

  function Threshold(retries: int): nat {
    if retries < 1 then 1 else retries
  }

  // ----- inside a run

  // The state after c failures in a row.
  ghost predicate InRun(s: State, c: nat, retries: int) {
    && (s.status == StatusHealthy <==> c == 0)
    && s.failures == (if retries < 0 then 0 else c)
    && (s.sent <==> c >= Threshold(retries))
  }

  lemma NextInRun(s: State, c: nat, x: Check, retries: int)
    requires InRun(s, c, retries)
    ensures InRun(Next(s, x, retries).0, if x == Good then 0 else c + 1, retries)
    ensures Next(s, x, retries).1 ==
            if x == Good then (if c > 0 then [Up] else [])
            else if c + 1 == Threshold(retries) then [Down] else []
  {
  }

  // The downs of a history that continues a run of c failures.
  lemma {:induction false} DownsFrom(s: State, c: nat, h: seq<Check>, retries: int)
    requires InRun(s, c, retries)
    ensures var k, n := LeadingFailures(h), Threshold(retries);
            Count(Notices(s, h, retries), Down) == (if c < n <= c + k then 1 else 0) + LongRuns(FailureRuns(h[k..]), n)
    decreases |h|
  {
    if h != [] {
      NextInRun(s, c, h[0], retries);
      var next := Next(s, h[0], retries).0;
      CountFirst(Next(s, h[0], retries).1, Notices(next, h[1..], retries), Down);
      DownsFrom(next, if h[0] == Good then 0 else c + 1, h[1..], retries);
      hide Next, InRun, Count, Notices;
      assert multiset([Up])[Down] == 0 && multiset([Down])[Down] == 1;
      if h[0] == Good {
        RunsAt(h[1..], Threshold(retries));
        assert h[0..] == h;
      } else {
        assert h[LeadingFailures(h)..] == h[1..][LeadingFailures(h[1..])..];
      }
    }
  }

  lemma CountFirst(first: seq<Notice>, rest: seq<seq<Notice>>, n: Notice)
    ensures Count([first] + rest, n) == multiset(first)[n] + Count(rest, n)
  {
    assert ([first] + rest)[1..] == rest;
  }

  // A leading run counts when it is long enough.
  lemma RunsAt(h: seq<Check>, n: nat)
    requires n >= 1
    ensures var k := LeadingFailures(h);
            LongRuns(FailureRuns(h), n) == (if k >= n then 1 else 0) + LongRuns(FailureRuns(h[k..]), n)
  {
    var k := LeadingFailures(h);
    if k > 0 {
      assert ([k] + FailureRuns(h[k..]))[1..] == FailureRuns(h[k..]);
    } else {
      assert h[0..] == h;
    }
  }

  // As many downs as maximal runs of at least so many failures, whatever the history.
  lemma DownsAreLongRuns(h: seq<Check>, retries: int)
    ensures Count(Notices(INITIAL, h, retries), Down) == LongRuns(FailureRuns(h), Threshold(retries))
  {
    DownsFrom(INITIAL, 0, h, retries);
    RunsAt(h, Threshold(retries));
    hide Notices, Count, FailureRuns, LongRuns;
  }

  // As many ups as runs that have ended, long or not.
  lemma {:induction false} UpsFrom(s: State, c: nat, h: seq<Check>, retries: int)
    requires InRun(s, c, retries)
    ensures var k := LeadingFailures(h);
            Count(Notices(s, h, retries), Up)
            == if k == |h| then 0 else (if c + k > 0 then 1 else 0) + EndedRuns(h[k..])
    decreases |h|
  {
    if h != [] {
      NextInRun(s, c, h[0], retries);
      var next := Next(s, h[0], retries).0;
      CountFirst(Next(s, h[0], retries).1, Notices(next, h[1..], retries), Up);
      UpsFrom(next, if h[0] == Good then 0 else c + 1, h[1..], retries);
      hide Next, InRun, Count, Notices, FailureRuns, EndedRuns;
      assert multiset([Up])[Up] == 1 && multiset([Down])[Up] == 0;
      if h[0] == Good {
        EndedAt(h[1..]);
        EndedSkip(h);
        assert h[0..] == h;
      } else {
        assert h[LeadingFailures(h)..] == h[1..][LeadingFailures(h[1..])..];
      }
    }
  }

  lemma EndedSkip(h: seq<Check>)
    requires h != [] && h[0] == Good
    ensures EndedRuns(h) == EndedRuns(h[1..]) && LeadingFailures(h) == 0
  {
  }

  lemma {:induction false} EndsInRun(h: seq<Check>)
    requires h != [] && h[|h| - 1] != Good
    ensures FailureRuns(h) != []
    decreases |h|
  {
    if h[0] == Good {
      EndsInRun(h[1..]);
    }
  }

  lemma RunsFirst(h: seq<Check>)
    requires LeadingFailures(h) > 0
    ensures FailureRuns(h) == [LeadingFailures(h)] + FailureRuns(h[LeadingFailures(h)..])
  {
  }

  lemma EndedAt(h: seq<Check>)
    ensures var k := LeadingFailures(h);
            EndedRuns(h) == if k == |h| then 0 else (if k > 0 then 1 else 0) + EndedRuns(h[k..])
  {
    hide FailureRuns, LeadingFailures;
    var k := LeadingFailures(h);
    var rest := h[k..];
    if k == 0 {
      assert rest == h;
    } else {
      RunsFirst(h);
      if k < |h| {
        assert rest[|rest| - 1] == h[|h| - 1];
        if h[|h| - 1] != Good {
          EndsInRun(rest);
        }
      } else {
        assert rest == [];
      }
    }
  }

  lemma UpsAreEndedRuns(h: seq<Check>, retries: int)
    ensures Count(Notices(INITIAL, h, retries), Up) == EndedRuns(h)
  {
    UpsFrom(INITIAL, 0, h, retries);
    EndedAt(h);
    hide Notices, Count, EndedRuns;
  }

  // ----- order

  lemma {:induction false} NoticesLength(s: State, h: seq<Check>, retries: int)
    ensures |Notices(s, h, retries)| == |h|
    decreases |h|
  {
    if h != [] {
      NoticesLength(Next(s, h[0], retries).0, h[1..], retries);
    }
  }

  // In a run whose down was sent, an up comes before the next down.
  lemma {:induction false} UpBeforeDown(s: State, c: nat, h: seq<Check>, retries: int, j: nat) returns (k: nat)
    requires InRun(s, c, retries) && s.sent && j < |h| == |Notices(s, h, retries)| && Down in Notices(s, h, retries)[j]
    ensures k < j && Up in Notices(s, h, retries)[k]
    decreases |h|
  {
    NextInRun(s, c, h[0], retries);
    NoticesLength(Next(s, h[0], retries).0, h[1..], retries);
    k := 0;
    if h[0] != Good {
      k := UpBeforeDown(Next(s, h[0], retries).0, c + 1, h[1..], retries, j - 1);
      k := k + 1;
    }
  }

  // Between two downs there is an up.
  lemma {:induction false} DownsAreSeparated(s: State, c: nat, h: seq<Check>, retries: int, i: nat, j: nat) returns (k: nat)
    requires InRun(s, c, retries) && i < j < |h| == |Notices(s, h, retries)|
    requires Down in Notices(s, h, retries)[i] && Down in Notices(s, h, retries)[j]
    ensures i < k < j && Up in Notices(s, h, retries)[k]
    decreases |h|
  {
    NextInRun(s, c, h[0], retries);
    var next := Next(s, h[0], retries).0;
    NoticesLength(next, h[1..], retries);
    if i == 0 {
      k := UpBeforeDown(next, c + 1, h[1..], retries, j - 1);
    } else {
      k := DownsAreSeparated(next, if h[0] == Good then 0 else c + 1, h[1..], retries, i - 1, j - 1);
    }
    k := k + 1;
  }

  // ----- the state and the notices of a history

  // After any history the status is that of its last check, and so many failures in a row are counted.
  lemma {:induction false} StatusIsLast(h: seq<Check>, retries: int)
    requires h != []
    ensures After(INITIAL, h, retries).status ==
            match h[|h| - 1]
            case Good => StatusHealthy
            case Bad => StatusUnhealthy
            case Err => StatusError
  {
    var init, c := h[..|h| - 1], h[|h| - 1];
    NoticesOneMore(INITIAL, init, c, retries);
    assert init + [c] == h;
    hide After, Notices;
  }

  // Failures at the end of a history.
  function Failing(h: seq<Check>): nat {
    if h == [] || h[|h| - 1] == Good then 0 else 1 + Failing(h[..|h| - 1])
  }

  lemma {:induction false} InRunAfter(h: seq<Check>, retries: int)
    ensures InRun(After(INITIAL, h, retries), Failing(h), retries)
    decreases |h|
  {
    if h != [] {
      var init, c := h[..|h| - 1], h[|h| - 1];
      InRunAfter(init, retries);
      NoticesOneMore(INITIAL, init, c, retries);
      assert init + [c] == h;
      NextInRun(After(INITIAL, init, retries), Failing(init), c, retries);
      hide Next, InRun, After, Notices;
    }
  }

  // One check more sends "up" when it is good after a failure, and "down" when it is the failure in a row that is the first
  // to be as many as wanted; with no number or a negative one wanted that is the first of all.
  lemma NoticesOfOneMore(h: seq<Check>, c: Check, retries: int)
    ensures Notices(INITIAL, h + [c], retries) == Notices(INITIAL, h, retries)
              + [if c == Good then (if Failing(h) > 0 then [Up] else [])
                 else if (retries > 1 && Failing(h) + 1 == retries) || (retries <= 1 && Failing(h) == 0) then [Down]
                 else []]
  {
    NoticesOneMore(INITIAL, h, c, retries);
    InRunAfter(h, retries);
    NextInRun(After(INITIAL, h, retries), Failing(h), c, retries);
    hide Next, InRun, After, Notices;
  }

  // ----- the monitor

  const MAX_ERRORS := 5

  class Monitor {
    var status: Status
    var numConsecFailures: int
    var downNotificationSent: bool
    const retries: int

    ghost function Abstract(): State
      reads this
    {
      State(status, numConsecFailures, downNotificationSent)
    }

    constructor (retries: int)
      ensures Abstract() == INITIAL && this.retries == retries
    {
      status, numConsecFailures, downNotificationSent := StatusHealthy, 0, false;
      this.retries := retries;
    }

    method CheckUpdateHealth(c: Check) returns (notices: seq<Notice>)
      modifies this
      ensures (Abstract(), notices) == Next(old(Abstract()), c, retries)
    {
      notices := [];
      var healthy, lastStatus := c == Good, status;
      status := StatusAfter(c);
      if healthy != (lastStatus == StatusHealthy) {
        if healthy {
          notices := [Up];
          numConsecFailures := 0;
          downNotificationSent := false;
        } else if retries < 0 {
          notices := [Down];
          downNotificationSent := true;
        }
      }
      if !healthy && retries >= 0 {
        numConsecFailures := numConsecFailures + 1;
        if numConsecFailures >= retries && !downNotificationSent {
          notices := [Down];
          downNotificationSent := true;
        }
      }
    }

    // The monitor's loop: it stops itself after so many checks in a row that could not be made.
    method Watch(checks: seq<Check>) returns (n: nat, sent: seq<seq<Notice>>, stopped: bool)
      requires Abstract() == INITIAL
      modifies this
      ensures n <= |checks| && sent == Notices(INITIAL, checks[..n], retries)
      ensures if stopped then ErrorRun(checks, n) && status == StatusError else n == |checks| && !ErrorRun(checks, n)
      ensures forall e :: 0 <= e < n ==> !ErrorRun(checks, e)
    {
      n, sent, stopped := 0, [], false;
      var failures := 0;
      while n < |checks|
        invariant n <= |checks| && sent == Notices(INITIAL, checks[..n], retries)
        invariant Abstract() == After(INITIAL, checks[..n], retries)
        invariant Trailing(checks, n, failures) && failures < MAX_ERRORS
        invariant forall e :: 0 <= e <= n ==> !ErrorRun(checks, e)
      {
        hide Next, Notices, After, Trailing, ErrorRun;
        ghost var c := checks[n];
        var notices := CheckUpdateHealth(checks[n]);
        NoticesOneMore(INITIAL, checks[..n], c, retries);
        TrailingOneMore(checks, n, failures);
        assert checks[..n] + [c] == checks[..n + 1];
        sent := sent + [notices];
        failures := if checks[n] == Err then failures + 1 else 0;
        n := n + 1;
        if failures >= MAX_ERRORS {
          status := StatusError;
          stopped := true;
          return;
        }
      }
      assert checks[..n] == checks;
    }
  }

  // The last checks before the n-th could not be made.
  ghost predicate ErrorRun(checks: seq<Check>, n: int) {
    MAX_ERRORS <= n <= |checks| && forall k :: n - MAX_ERRORS <= k < n ==> checks[k] == Err
  }

  // Exactly so many.
  ghost predicate Trailing(checks: seq<Check>, n: nat, failures: nat) {
    && failures <= n <= |checks|
    && (forall k :: n - failures <= k < n ==> checks[k] == Err)
    && (failures < n ==> checks[n - failures - 1] != Err)
  }

  lemma TrailingOneMore(checks: seq<Check>, n: nat, failures: nat)
    requires n < |checks| && Trailing(checks, n, failures) && failures < MAX_ERRORS
    ensures var f := if checks[n] == Err then failures + 1 else 0;
            Trailing(checks, n + 1, f) && (ErrorRun(checks, n + 1) <==> f >= MAX_ERRORS)
  {
    if checks[n] == Err && failures < n {
      assert checks[n - failures - 1] != Err;
    }
  }

  function After(s: State, h: seq<Check>, retries: int): State
    decreases |h|
  {
    if h == [] then s else After(Next(s, h[0], retries).0, h[1..], retries)
  }

  lemma {:induction false} NoticesOneMore(s: State, h: seq<Check>, c: Check, retries: int)
    ensures Notices(s, h + [c], retries) == Notices(s, h, retries) + [Next(After(s, h, retries), c, retries).1]
    ensures After(s, h + [c], retries) == Next(After(s, h, retries), c, retries).0
    decreases |h|
  {
    hide Next;
    if h == [] {
      assert [c][1..] == [];
    } else {
      assert (h + [c])[1..] == h[1..] + [c] && (h + [c])[0] == h[0];
      NoticesOneMore(Next(s, h[0], retries).0, h[1..], c, retries);
    }
  }

  // It takes five.
  lemma FiveInARow(checks: seq<Check>, n: int)
    ensures ErrorRun(checks, n) <==>
            5 <= n <= |checks| && checks[n - 1] == checks[n - 2] == checks[n - 3] == checks[n - 4] == checks[n - 5] == Err
  {
  }
}
