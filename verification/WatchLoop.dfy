/**
 The state of a watched container, over all runs of its watch loop.

 Docker events, health checks and reloads of the configuration are inputs in any order. A reload runs beside the loop:
 it may also fall between any two of the moments at which a tick reads the state, or before it stores its result.
 */
module WatchLoop {
  import opened Options

  datatype Status = Running | Paused | Stopped | Error

  datatype Failure = CheckFailed | StartupTimeout

  datatype ContainerState = ContainerState(status: Status, ready: bool, err: Option<Failure>, startedAt: Option<int>, healthTries: nat)

  // ----- actions, as bits

  type Action = bv16

  const CREATE: Action := 0x0010
  const START: Action := 0x0020
  const UNPAUSE: Action := 0x0040
  const KILL: Action := 0x0080
  const STOP: Action := 0x0100
  const PAUSE: Action := 0x0200
  const DIE: Action := 0x0400
  const DESTROY: Action := 0x0800
  const FORCE_RELOAD: Action := 0x1000

  predicate IsStart(a: Action) {
    a & (CREATE | START | UNPAUSE) != 0
  }

  predicate IsStop(a: Action) {
    a & (KILL | STOP | DIE) != 0
  }

  predicate IsPause(a: Action) {
    a == PAUSE
  }

  // What an event means to the loop.
  datatype Kind = Starts | Stops | Pauses | Destroys | Other

  function KindOf(a: Action): Kind {
    if a == DESTROY then Destroys
    else if a == FORCE_RELOAD then Other
    else if IsStart(a) then Starts
    else if IsStop(a) then Stops
    else if IsPause(a) then Pauses
    else Other
  }

  // The three groups do not overlap on the actions that Docker reports.
  lemma KindsOfActions()
    ensures KindOf(CREATE) == KindOf(START) == KindOf(UNPAUSE) == Starts
    ensures KindOf(KILL) == KindOf(STOP) == KindOf(DIE) == Stops
    ensures KindOf(PAUSE) == Pauses && KindOf(DESTROY) == Destroys && KindOf(FORCE_RELOAD) == Other
  {
  }

  // ----- one input

  datatype Check = NoHost | Fails | Unhealthy | Healthy

  // The reloads that fall into a tick: between its question whether the container runs and that whether it is ready, between
  // that and the load of the state for the check, and between the load and the store of the result. Of several in one place
  // the last counts.
  datatype Beside = Beside(early: Option<Status>, late: Option<Status>, during: Option<Status>)

  const ALONE := Beside(None, None, None)

  // A tick of the health ticker carries the time, the reloads that fall into it, and the answer.
  // A waiter asks whether the container is ready, and when told no comes to the notification channel; Refused is one that is
  // told no in the middle of the tick that follows. It may give up at the channel, or on the way there.
  // Recheck is no input of the program: it stands for a reload and a check that loads what it stored, whatever that is.
  datatype Input =
    | Event(action: Action, now: int)
    | Tick(time: int, beside: Beside, check: Check)
    | IdleTick
    | Reload(status: Status)
    | Ask
    | Refused
    | Enter
    | GiveUp(blocked: bool)
    | Recheck(status: Status, time: int, check: Check)

  ghost predicate Given(inputs: seq<Input>) {
    forall i :: 0 <= i < |inputs| ==> !inputs[i].Recheck?
  }

  function Fresh(status: Status): ContainerState {
    ContainerState(status, false, None, None, 0)
  }

  const READY := ContainerState(Running, true, None, None, 0)

  function Starting(now: int): ContainerState {
    ContainerState(Running, false, None, Some(now), 0)
  }

  function Errored(e: Failure): ContainerState {
    ContainerState(Error, false, Some(e), None, 0)
  }

  function OnEvent(c: ContainerState, a: Action, now: int): ContainerState {
    match KindOf(a)
    case Starts => Starting(now)
    case Stops => Fresh(Stopped)
    case Pauses => Fresh(Paused)
    case _ => c
  }

  predicate TimedOut(c: ContainerState, now: int, timeout: int) {
    c.startedAt.Some? && now - c.startedAt.value > timeout
  }

  // What a check that loaded state c stores, if anything.
  function Stored(c: ContainerState, now: int, check: Check, timeout: int): Option<ContainerState> {
    if check == NoHost then None
    else if TimedOut(c, now, timeout) then Some(Errored(StartupTimeout))
    else
      match check
      case Healthy => Some(READY)
      case Unhealthy => Some(ContainerState(c.status, false, c.err, c.startedAt, c.healthTries + 1))
      case _ => Some(Errored(CheckFailed))
  }

  // The container runs and is not ready.
  predicate UnderWay(c: ContainerState) {
    c.status == Running && !c.ready
  }

  function After(c: ContainerState, reload: Option<Status>): ContainerState {
    if reload.Some? then Fresh(reload.value) else c
  }

  // A tick makes a check when it finds the container running and then not ready.
  predicate Guarded(c: ContainerState, b: Beside) {
    c.status == Running && !After(c, b.early).ready
  }

  // The state that the check loads.
  function Loaded(c: ContainerState, b: Beside): ContainerState {
    After(After(c, b.early), b.late)
  }

  function CheckOf(c: ContainerState, during: Option<Status>, now: int, check: Check, timeout: int): ContainerState {
    var stored := Stored(c, now, check, timeout);
    if stored.Some? then stored.value else After(c, during)
  }

  function Step(c: ContainerState, x: Input, timeout: int): ContainerState {
    match x
    case Event(a, now) => OnEvent(c, a, now)
    case Reload(status) => Fresh(status)
    case Tick(now, b, check) =>
      if Guarded(c, b) then CheckOf(Loaded(c, b), b.during, now, check, timeout) else After(Loaded(c, b), b.during)
    case Recheck(status, now, check) => CheckOf(Fresh(status), None, now, check, timeout)
    case _ => c
  }

  function Run(c: ContainerState, inputs: seq<Input>, timeout: int): ContainerState
    decreases |inputs|
  {
    if inputs == [] then c else Step(Run(c, inputs[..|inputs| - 1], timeout), inputs[|inputs| - 1], timeout)
  }

  // ----- what every run keeps

  ghost predicate Inv(c: ContainerState) {
    && (c.ready ==> c.status == Running && c.err.None? && c.startedAt.None?)
    && (c.startedAt.Some? ==> c.status == Running && !c.ready)
    && (c.err.Some? <==> c.status == Error)
  }

  // A provider that does not fail reports no error status.
  ghost predicate Reported(x: Input) {
    && (x.Reload? || x.Recheck? ==> x.status != Error)
    && (x.Tick? ==> Some(Error) !in [x.beside.early, x.beside.late, x.beside.during])
  }

  ghost predicate AllReported(inputs: seq<Input>) {
    forall i :: 0 <= i < |inputs| ==> Reported(inputs[i])
  }

  lemma {:induction false} InvAlways(status: Status, inputs: seq<Input>, timeout: int)
    requires status != Error && AllReported(inputs)
    ensures Inv(Run(Fresh(status), inputs, timeout))
    decreases |inputs|
  {
    if inputs != [] {
      InvAlways(status, inputs[..|inputs| - 1], timeout);
      hide KindOf;
      var c, x := Run(Fresh(status), inputs[..|inputs| - 1], timeout), inputs[|inputs| - 1];
      assert Reported(x);
      assert Inv(Step(c, x, timeout));
    }
  }

  // ----- what is shown of a state

  datatype Shown = ShownError | ShownHealthy | ShownStarting | ShownNapping

  function StatusOf(c: ContainerState): Shown {
    if c.err.Some? then ShownError
    else if c.ready then ShownHealthy
    else if c.status == Running then ShownStarting
    else ShownNapping
  }

  function DetailOf(c: ContainerState): string {
    if c.err.Some? then "error"
    else if !c.ready then "not ready"
    else if c.status == Running then "starting"
    else "napping"
  }

  // The status shown is the state; the detail is not: it says "starting" exactly when the container is ready, and
  // never "napping".
  lemma ShownMeans(status: Status, inputs: seq<Input>, timeout: int)
    requires status != Error && AllReported(inputs)
    ensures var c := Run(Fresh(status), inputs, timeout);
            && (StatusOf(c) == ShownHealthy <==> c.ready)
            && (StatusOf(c) == ShownError <==> c.status == Error)
            && (StatusOf(c) == ShownNapping <==> c.status == Stopped || c.status == Paused)
            && (StatusOf(c) == ShownStarting <==> c.status == Running && !c.ready)
            && (DetailOf(c) == "starting" <==> c.ready) && DetailOf(c) != "napping"
  {
    InvAlways(status, inputs, timeout);
    hide Run;
  }

  // An instance: a container that has become ready is shown as "starting".
  lemma ReadyIsShownStarting(now: int, timeout: int)
    requires timeout >= 0
    ensures DetailOf(Run(Fresh(Stopped), [Event(START, now), Tick(now, ALONE, Healthy)], timeout)) == "starting"
  {
    RunStarted(now, timeout);
    RunMore(Fresh(Stopped), [Event(START, now)], Tick(now, ALONE, Healthy), timeout);
    hide Run, KindOf;
    assert [Event(START, now)] + [Tick(now, ALONE, Healthy)] == [Event(START, now), Tick(now, ALONE, Healthy)];
  }

  // ----- reloads

  // The reloads of a tick, in order.
  function ReloadsOf(b: Beside): seq<Input> {
    (if b.early.Some? then [Reload(b.early.value)] else [])
    + (if b.late.Some? then [Reload(b.late.value)] else [])
    + (if b.during.Some? then [Reload(b.during.value)] else [])
  }

  function LastOf(b: Beside): Option<Status> {
    if b.during.Some? then b.during else if b.late.Some? then b.late else b.early
  }

  // The check of this tick stores a result.
  predicate Stores(c: ContainerState, x: Input) {
    x.Tick? && Guarded(c, x.beside) && x.check != NoHost
  }

  // The reloads that fall into a tick make it none that they and the tick give one after the other, in any order.
  predicate Lost(c: ContainerState, x: Input, timeout: int) {
    && Stores(c, x) && LastOf(x.beside).Some?
    && var d := Loaded(c, x.beside);
       !(LastOf(x.beside) == Some(Running) && !TimedOut(d, x.time, timeout) && (x.check == Healthy || x.check == Fails || d == Fresh(Running)))
  }

  // The tick alone, after the first n of its reloads.
  function Placed(x: Input, n: nat): seq<Input>
    requires x.Tick? && n <= |ReloadsOf(x.beside)|
  {
    var rs := ReloadsOf(x.beside);
    rs[..n] + ([x.(beside := ALONE)] + rs[n..])
  }

  lemma {:induction false} RunSplit(c: ContainerState, a: seq<Input>, b: seq<Input>, timeout: int)
    ensures Run(c, a + b, timeout) == Run(Run(c, a, timeout), b, timeout)
    decreases |b|
  {
    if b == [] {
      assert a + b == a;
    } else {
      var init := b[..|b| - 1];
      assert a + b == a + init + [b[|b| - 1]];
      RunMore(c, a + init, b[|b| - 1], timeout);
      RunSplit(c, a, init, timeout);
      hide Step;
    }
  }

  ghost predicate AllReloads(rs: seq<Input>) {
    forall i :: 0 <= i < |rs| ==> rs[i].Reload?
  }

  // The last reload decides.
  lemma RunReloads(c: ContainerState, rs: seq<Input>, timeout: int)
    requires AllReloads(rs)
    ensures Run(c, rs, timeout) == if rs == [] then c else Fresh(rs[|rs| - 1].status)
  {
  }

  lemma ReloadsAre(b: Beside)
    ensures var rs := ReloadsOf(b);
            && AllReloads(rs) && (rs == [] <==> LastOf(b).None?) && (rs != [] ==> rs[|rs| - 1] == Reload(LastOf(b).value))
  {
  }

  // A tick after all its reloads starts from the last; after fewer of them it makes no difference.
  lemma RunPlaced(c: ContainerState, x: Input, n: nat, timeout: int)
    requires x.Tick? && n <= |ReloadsOf(x.beside)|
    ensures var alone := x.(beside := ALONE);
            Run(c, Placed(x, n), timeout)
            == if n == |ReloadsOf(x.beside)| then Step(After(c, LastOf(x.beside)), alone, timeout) else After(c, LastOf(x.beside))
  {
    var rs, alone := ReloadsOf(x.beside), x.(beside := ALONE);
    ReloadsAre(x.beside);
    hide ReloadsOf, LastOf, Step;
    var d := Run(c, rs[..n], timeout);
    RunSplit(c, rs[..n], [alone] + rs[n..], timeout);
    RunSplit(d, [alone], rs[n..], timeout);
    RunOne(d, alone, timeout);
    assert AllReloads(rs[..n]) && AllReloads(rs[n..]);
    RunReloads(c, rs[..n], timeout);
    RunReloads(Step(d, alone, timeout), rs[n..], timeout);
    hide Run;
    assert n == |rs| ==> rs[..n] == rs;
    assert n < |rs| ==> rs[n..][|rs| - n - 1] == rs[|rs| - 1];
  }

  // A tick and its reloads are as if one came after the other exactly when they are not lost: there are none, or nothing is
  // stored, or the last finds the container running and what is stored is what a check of that would store.
  lemma SurvivesIff(c: ContainerState, x: Input, timeout: int)
    requires x.Tick?
    ensures (exists n: nat :: n <= |ReloadsOf(x.beside)| && Run(c, Placed(x, n), timeout) == Step(c, x, timeout))
            <==> !Lost(c, x, timeout)
  {
    var last := |ReloadsOf(x.beside)|;
    RunPlaced(c, x, 0, timeout);
    RunPlaced(c, x, last, timeout);
    ReloadsAre(x.beside);
    forall n: nat | n <= last ensures n == last || Run(c, Placed(x, n), timeout) == After(c, LastOf(x.beside)) {
      RunPlaced(c, x, n, timeout);
    }
    hide Run, Placed, ReloadsOf;
    TickOrReload(c, x, timeout);
  }

  lemma TickOrReload(c: ContainerState, x: Input, timeout: int)
    requires x.Tick?
    ensures var last, got := LastOf(x.beside), Step(c, x, timeout);
            && (got == After(c, last) || got == Step(After(c, last), x.(beside := ALONE), timeout) <==> !Lost(c, x, timeout))
            && (last.None? || !Stores(c, x) ==> got == Step(After(c, last), x.(beside := ALONE), timeout) || got == After(c, last))
            && (got == After(c, last) && last.None? ==> got == Step(c, x.(beside := ALONE), timeout))
  {
  }

  // What a tick amounts to: its reloads when it stores nothing, otherwise a check of what was loaded.
  function SerialOf(c: ContainerState, x: Input): Input {
    if !x.Tick? || LastOf(x.beside).None? then x
    else if !Stores(c, x) then Reload(LastOf(x.beside).value)
    else if x.beside.late.Some? then Recheck(x.beside.late.value, x.time, x.check)
    else if x.beside.early.Some? then Recheck(x.beside.early.value, x.time, x.check)
    else x.(beside := ALONE)
  }

  function Serial(c: ContainerState, inputs: seq<Input>, timeout: int): (r: seq<Input>)
    ensures |r| == |inputs|
    decreases |inputs|
  {
    if inputs == [] then []
    else
      var init := inputs[..|inputs| - 1];
      Serial(c, init, timeout) + [SerialOf(Run(c, init, timeout), inputs[|inputs| - 1])]
  }

  // No reload falls into a tick.
  ghost predicate AllAlone(inputs: seq<Input>) {
    forall i :: 0 <= i < |inputs| && inputs[i].Tick? ==> inputs[i].beside == ALONE
  }

  // Every run is one in which no reload falls into a tick.
  lemma {:induction false} SerialRun(c: ContainerState, inputs: seq<Input>, timeout: int)
    ensures Run(c, Serial(c, inputs, timeout), timeout) == Run(c, inputs, timeout) && AllAlone(Serial(c, inputs, timeout))
    decreases |inputs|
  {
    if inputs != [] {
      var init, x := inputs[..|inputs| - 1], inputs[|inputs| - 1];
      var d := Run(c, init, timeout);
      SerialRun(c, init, timeout);
      RunMore(c, Serial(c, init, timeout), SerialOf(d, x), timeout);
      SerialStep(d, x, timeout);
      hide Run, Step, SerialOf;
      RunLast(c, inputs, timeout);
    }
  }

  lemma RunLast(c: ContainerState, inputs: seq<Input>, timeout: int)
    requires inputs != []
    ensures Run(c, inputs, timeout) == Step(Run(c, inputs[..|inputs| - 1], timeout), inputs[|inputs| - 1], timeout)
  {
  }

  lemma SerialStep(c: ContainerState, x: Input, timeout: int)
    ensures Step(c, SerialOf(c, x), timeout) == Step(c, x, timeout)
    ensures SerialOf(c, x).Tick? ==> SerialOf(c, x).beside == ALONE
  {
    hide KindOf;
  }

  // The tick and its reloads, one after the other: the tick last when it stores.
  function Apart(c: ContainerState, x: Input): seq<Input> {
    if x.Tick? then Placed(x, if Stores(c, x) then |ReloadsOf(x.beside)| else 0) else [x]
  }

  function AllApart(c: ContainerState, inputs: seq<Input>, timeout: int): seq<Input>
    decreases |inputs|
  {
    if inputs == [] then []
    else
      var init := inputs[..|inputs| - 1];
      AllApart(c, init, timeout) + Apart(Run(c, init, timeout), inputs[|inputs| - 1])
  }

  // No reload of the run is lost.
  ghost predicate NoneLost(c: ContainerState, inputs: seq<Input>, timeout: int)
    decreases |inputs|
  {
    inputs != [] ==>
      var init, x := inputs[..|inputs| - 1], inputs[|inputs| - 1];
      NoneLost(c, init, timeout) && !Lost(Run(c, init, timeout), x, timeout)
  }

  // Then the run is one in which every reload stands alone and has its effect.
  lemma {:induction false} ApartRun(c: ContainerState, inputs: seq<Input>, timeout: int)
    requires NoneLost(c, inputs, timeout)
    ensures Run(c, AllApart(c, inputs, timeout), timeout) == Run(c, inputs, timeout)
    decreases |inputs|
  {
    if inputs != [] {
      var init, x := inputs[..|inputs| - 1], inputs[|inputs| - 1];
      var d := Run(c, init, timeout);
      ApartRun(c, init, timeout);
      RunLast(c, inputs, timeout);
      ApartStep(d, x, timeout);
      RunSplit(c, AllApart(c, init, timeout), Apart(d, x), timeout);
      hide Run, Step, Apart;
    }
  }

  lemma ApartStep(c: ContainerState, x: Input, timeout: int)
    requires !Lost(c, x, timeout)
    ensures Run(c, Apart(c, x), timeout) == Step(c, x, timeout)
  {
    if x.Tick? {
      RunPlaced(c, x, 0, timeout);
      RunPlaced(c, x, |ReloadsOf(x.beside)|, timeout);
      ReloadsAre(x.beside);
      hide Run, Placed, ReloadsOf;
      PlaceFor(c, x, timeout);
    } else {
      RunOne(c, x, timeout);
      hide Run, Step;
    }
  }

  lemma PlaceFor(c: ContainerState, x: Input, timeout: int)
    requires x.Tick? && !Lost(c, x, timeout)
    ensures var last, got, alone := LastOf(x.beside), Step(c, x, timeout), x.(beside := ALONE);
            && (Stores(c, x) ==> got == Step(After(c, last), alone, timeout))
            && (!Stores(c, x) ==> got == After(c, last) && (last.None? ==> got == Step(c, alone, timeout)))
  {
  }

  // ----- when a container is ready

  // Sets the state afresh.
  predicate IsChange(x: Input) {
    x.Reload? || x.Recheck? || (x.Event? && KindOf(x.action) in {Starts, Stops, Pauses})
  }

  // Reports a container that runs: a start, or a reload that finds it running, with a check that neither passes nor fails
  // if there is one.
  predicate Begins(x: Input) {
    || (x.Event? && KindOf(x.action) == Starts) || (x.Reload? && x.status == Running)
    || (x.Recheck? && x.status == Running && x.check in {NoHost, Unhealthy})
  }

  // How a run can have left the container, when it is not starting: ready, with the failure of a check, with that of a check
  // that came too late, or as an event or a reload has told.
  datatype End = Passed | Failed | TooLate | Told(status: Status)

  // The input tells of a container that does not run.
  predicate Tells(x: Input, status: Status) {
    || (x.Event? && KindOf(x.action) == Stops && status == Stopped)
    || (x.Event? && KindOf(x.action) == Pauses && status == Paused)
    || (x.Reload? && x.status == status && status != Running)
    || (x.Recheck? && x.status == status && status != Running && x.check in {NoHost, Unhealthy})
  }

  // An input that sets the state afresh, and leaves it so by itself: what it tells, or a check right after a reload,
  // whatever that found.
  predicate EndsAtOnce(x: Input, e: End) {
    match e
    case Passed => x.Recheck? && x.check == Healthy
    case Failed => x.Recheck? && x.check == Fails
    case TooLate => false
    case Told(status) => Tells(x, status)
  }

  // Only a start has a time to be late for.
  function StartOf(x: Input): Option<int> {
    if x.Event? then Some(x.now) else None
  }

  predicate InTime(from: Input, tick: Input, timeout: int) {
    tick.Tick? && (from.Event? ==> tick.time - from.now <= timeout)
  }

  // The i-th input reports a running container, and nothing after it sets the state afresh.
  ghost predicate LastStart(inputs: seq<Input>, i: int) {
    && 0 <= i < |inputs| && Begins(inputs[i])
    && forall k :: i < k < |inputs| ==> !IsChange(inputs[k])
  }

  // A check that neither passes nor fails: there is no host yet, or the container is unhealthy but in time.
  predicate Waits(from: Input, x: Input, timeout: int) {
    x.Tick? ==> x.check == NoHost || (x.check == Unhealthy && InTime(from, x, timeout))
  }

  // A check that ends the start: it passes or fails in time, or has an answer too late.
  predicate EndsAs(from: Input, x: Input, e: End, timeout: int) {
    match e
    case Passed => x.Tick? && x.check == Healthy && InTime(from, x, timeout)
    case Failed => x.Tick? && x.check == Fails && InTime(from, x, timeout)
    case TooLate => x.Tick? && x.check != NoHost && !InTime(from, x, timeout)
    case Told(_) => false
  }

  // The i-th input is the last report, and the checks from there up to n keep waiting.
  ghost predicate Waiting(inputs: seq<Input>, i: int, n: int, timeout: int) {
    LastStart(inputs, i) && n <= |inputs| && forall k :: i < k < n ==> Waits(inputs[i], inputs[k], timeout)
  }

  ghost predicate LastToEnd(inputs: seq<Input>, i: int, e: End) {
    0 <= i < |inputs| && EndsAtOnce(inputs[i], e) && forall k :: i < k < |inputs| ==> !IsChange(inputs[k])
  }

  // A report that the container runs, then checks that wait, then one that ends so, and nothing since that sets the state
  // afresh; or an input that does so and ends so at once, and nothing since.
  ghost predicate EndedBy(inputs: seq<Input>, e: End, timeout: int) {
    || (exists i :: LastToEnd(inputs, i, e))
    || (exists i, j :: Waiting(inputs, i, j, timeout) && i < j < |inputs| && EndsAs(inputs[i], inputs[j], e, timeout))
  }

  // Ready: a check has passed.
  ghost predicate ReadyBy(inputs: seq<Input>, timeout: int) {
    EndedBy(inputs, Passed, timeout)
  }

  // An unhealthy answer of a check from the i-th input on.
  predicate Tried(x: Input) {
    (x.Tick? || x.Recheck?) && x.check == Unhealthy
  }

  function Tries(inputs: seq<Input>, i: nat): nat
    requires i <= |inputs|
    decreases |inputs| - i
  {
    if i == |inputs| then 0 else (if Tried(inputs[i]) then 1 else 0) + Tries(inputs, i + 1)
  }

  // Starting: such a report, and since then only checks that wait.
  ghost predicate StartingBy(inputs: seq<Input>, timeout: int) {
    exists i :: Waiting(inputs, i, |inputs|, timeout)
  }

  // ----- one more input

  lemma OneLastStart(p: seq<Input>, i: int, j: int)
    requires LastStart(p, i) && LastStart(p, j)
    ensures i >= j
  {
    hide KindOf;
    assert IsChange(p[j]);
  }

  // What happened up to the last input is the same when another follows.
  lemma WaitingGrows(p: seq<Input>, x: Input, i: int, n: int, timeout: int)
    requires n <= |p| && i < |p|
    ensures Waiting(p + [x], i, n, timeout) <==> Waiting(p, i, n, timeout) && !IsChange(x)
  {
    hide KindOf, Waits, Begins;
    var s := p + [x];
    assert s[|p|] == x;
    assert forall k :: 0 <= k < |p| ==> s[k] == p[k];
  }

  lemma WaitingNow(p: seq<Input>, x: Input, i: int, timeout: int)
    requires i < |p|
    ensures Waiting(p + [x], i, |p| + 1, timeout) <==> Waiting(p, i, |p|, timeout) && !IsChange(x) && Waits(p[i], x, timeout)
  {
    WaitingGrows(p, x, i, |p|, timeout);
    hide KindOf, Waits, LastStart;
    var s := p + [x];
    assert s[|p|] == x;
    assert forall k :: 0 <= k < |p| ==> s[k] == p[k];
  }

  lemma StartsNow(p: seq<Input>, x: Input, n: int, timeout: int)
    ensures Waiting(p + [x], |p|, n, timeout) <==> n <= |p| + 1 && Begins(x)
  {
    hide KindOf, Begins;
    assert (p + [x])[|p|] == x;
  }

  lemma LastGrows(p: seq<Input>, x: Input, e: End)
    ensures EndsAtOnce(x, e) ==> IsChange(x)
    ensures (exists i :: LastToEnd(p + [x], i, e)) <==> EndsAtOnce(x, e) || (!IsChange(x) && exists i :: LastToEnd(p, i, e))
  {
    var s := p + [x];
    assert EndsAtOnce(x, e) ==> IsChange(x);
    hide KindOf, EndsAtOnce;
    if i :| LastToEnd(s, i, e) {
      if i < |p| {
        assert s[|p|] == x && s[i] == p[i];
        assert LastToEnd(p, i, e) by { assert forall k :: i < k < |p| ==> s[k] == p[k]; }
      }
    }
    if EndsAtOnce(x, e) {
      assert LastToEnd(s, |p|, e);
    }
    if !IsChange(x) && exists i :: LastToEnd(p, i, e) {
      var i :| LastToEnd(p, i, e);
      assert forall k :: i < k < |s| ==> s[k] == if k < |p| then p[k] else x;
      assert LastToEnd(s, i, e);
    }
  }

  // An end takes a container that was starting, or an input that brings it about at once.
  lemma EndedGrows(p: seq<Input>, x: Input, e: End, timeout: int)
    ensures EndedBy(p + [x], e, timeout) <==>
            || EndsAtOnce(x, e)
            || (!IsChange(x) && (EndedBy(p, e, timeout) || exists i :: Waiting(p, i, |p|, timeout) && EndsAs(p[i], x, e, timeout)))
  {
    var s := p + [x];
    LastGrows(p, x, e);
    hide LastToEnd, EndsAtOnce, EndsAs;
    if i, j :| Waiting(s, i, j, timeout) && i < j < |s| && EndsAs(s[i], s[j], e, timeout) {
      WaitingGrows(p, x, i, j, timeout);
    }
    if i, j :| !IsChange(x) && Waiting(p, i, j, timeout) && i < j < |p| && EndsAs(p[i], p[j], e, timeout) {
      WaitingGrows(p, x, i, j, timeout);
      assert s[i] == p[i] && s[j] == p[j];
    }
    if i :| !IsChange(x) && Waiting(p, i, |p|, timeout) && EndsAs(p[i], x, e, timeout) {
      WaitingGrows(p, x, i, |p|, timeout);
      assert s[i] == p[i] && s[|p|] == x;
    }
  }

  lemma StartingGrows(p: seq<Input>, x: Input, timeout: int)
    ensures StartingBy(p + [x], timeout) <==>
            Begins(x) || (!IsChange(x) && exists i :: Waiting(p, i, |p|, timeout) && Waits(p[i], x, timeout))
  {
    var s := p + [x];
    StartsNow(p, x, |p| + 1, timeout);
    hide KindOf, Waits, Begins;
    if StartingBy(s, timeout) {
      var i :| Waiting(s, i, |s|, timeout);
      if i < |p| {
        WaitingNow(p, x, i, timeout);
      }
    }
    if !IsChange(x) && exists i :: Waiting(p, i, |p|, timeout) && Waits(p[i], x, timeout) {
      var i :| Waiting(p, i, |p|, timeout) && Waits(p[i], x, timeout);
      WaitingNow(p, x, i, timeout);
    }
    hide Waiting;
    if Begins(x) {
      assert Waiting(s, |p|, |s|, timeout);
    }
  }

  lemma {:induction false} TriesMore(p: seq<Input>, x: Input, i: nat)
    requires i <= |p|
    ensures Tries(p + [x], i) == Tries(p, i) + if Tried(x) then 1 else 0
    decreases |p| - i
  {
    var s := p + [x];
    if i < |p| {
      TriesMore(p, x, i + 1);
      assert s[i] == p[i];
    } else {
      assert s[i] == x;
    }
  }

  // The state shows this end.
  predicate Shows(c: ContainerState, e: End) {
    match e
    case Passed => c.ready
    case Failed => c.err == Some(CheckFailed)
    case TooLate => c.err == Some(StartupTimeout)
    case Told(status) => status != Running && c.status == status && c.err.None?
  }

  // The times and tries of a container that is starting.
  ghost predicate Counts(inputs: seq<Input>, c: ContainerState, timeout: int) {
    forall i :: 0 <= i < |inputs| && Waiting(inputs, i, |inputs|, timeout) ==>
      c.startedAt == StartOf(inputs[i]) && c.healthTries == Tries(inputs, i)
  }

  // What a state says about the inputs so far.
  ghost predicate Says(inputs: seq<Input>, c: ContainerState, timeout: int) {
    && (c.err.Some? ==> c.status == Error) && (c.ready ==> c.status == Running)
    && (forall e :: Shows(c, e) <==> EndedBy(inputs, e, timeout))
    && (UnderWay(c) <==> StartingBy(inputs, timeout))
    && Counts(inputs, c, timeout)
  }

  lemma SaysChange(p: seq<Input>, x: Input, c: ContainerState, timeout: int)
    requires IsChange(x)
    ensures Says(p + [x], Step(c, x, timeout), timeout)
  {
    StartingGrows(p, x, timeout);
    forall e ensures EndedBy(p + [x], e, timeout) <==> EndsAtOnce(x, e) { EndedGrows(p, x, e, timeout); }
    hide EndsAs, EndedBy, StartingBy, KindOf, Waiting, Waits;
    assert Counts(p + [x], Step(c, x, timeout), timeout) by { CountsChange(p, x, c, timeout); }
    hide Counts;
    forall e ensures Shows(Step(c, x, timeout), e) <==> EndsAtOnce(x, e) {}
  }

  lemma CountsChange(p: seq<Input>, x: Input, c: ContainerState, timeout: int)
    requires IsChange(x)
    ensures Counts(p + [x], Step(c, x, timeout), timeout)
  {
    hide Waits, KindOf, Waiting, Tries;
    var s, n := p + [x], |p| + 1;
    forall i | 0 <= i < n && Waiting(s, i, n, timeout)
      ensures Step(c, x, timeout).startedAt == StartOf(s[i]) && Step(c, x, timeout).healthTries == Tries(s, i)
    {
      if i < |p| {
        WaitingGrows(p, x, i, |p|, timeout);
        WaitingNow(p, x, i, timeout);
      }
      WaitingIndex(s, i, n, timeout);
      StartsNow(p, x, n, timeout);
      TriesMore(p, x, |p|);
      assert Tries(p, |p|) == 0 by { NoTries(p); }
    }
  }

  lemma NoTries(p: seq<Input>)
    ensures Tries(p, |p|) == 0
  {
  }

  // An input that does not change the state while it is not starting.
  lemma SaysSame(p: seq<Input>, x: Input, c: ContainerState, timeout: int)
    requires Says(p, c, timeout) && !IsChange(x) && (!UnderWay(c) || !x.Tick?)
    ensures Says(p + [x], c, timeout)
  {
    StartingGrows(p, x, timeout);
    if x.Tick? {
      assert forall i :: !Waiting(p, i, |p|, timeout);
    }
    hide KindOf, Waiting;
    forall e ensures EndedBy(p + [x], e, timeout) <==> EndedBy(p, e, timeout) {
      EndedGrows(p, x, e, timeout);
      LastGrows(p, x, e);
    }
    hide EndedBy, EndsAs, Tries;
    var s, n := p + [x], |p| + 1;
    forall i | 0 <= i < n && Waiting(s, i, n, timeout) ensures c.startedAt == StartOf(s[i]) && c.healthTries == Tries(s, i) {
      WaitingIndex(s, i, n, timeout);
      StartsNow(p, x, n, timeout);
      WaitingNow(p, x, i, timeout);
      TriesMore(p, x, i);
      assert i < |p| && s[i] == p[i];
    }
  }

  lemma WaitingIndex(p: seq<Input>, i: int, n: int, timeout: int)
    requires Waiting(p, i, n, timeout)
    ensures 0 <= i < |p| && Begins(p[i])
  {
  }

  // A tick while the container is starting.
  lemma SaysTick(p: seq<Input>, x: Input, c: ContainerState, timeout: int)
    requires Says(p, c, timeout) && UnderWay(c) && x.Tick? && x.beside == ALONE
    ensures Says(p + [x], Step(c, x, timeout), timeout)
  {
    StartingGrows(p, x, timeout);
    var i :| Waiting(p, i, |p|, timeout);
    WaitingIndex(p, i, |p|, timeout);
    forall k | Waiting(p, k, |p|, timeout) ensures k == i {
      SameStart(p, i, k, timeout);
    }
    assert c.startedAt == StartOf(p[i]) && c.healthTries == Tries(p, i);
    hide KindOf, Waiting, Tries;
    forall e ensures EndedBy(p + [x], e, timeout) <==> EndsAs(p[i], x, e, timeout) {
      EndedGrows(p, x, e, timeout);
      LastGrows(p, x, e);
      assert !Shows(c, e);
    }
    assert StartingBy(p + [x], timeout) <==> Waits(p[i], x, timeout);
    hide EndedBy, StartingBy;
    var s, n := p + [x], |p| + 1;
    forall k | 0 <= k < n && Waiting(s, k, n, timeout)
      ensures Step(c, x, timeout).startedAt == StartOf(s[k]) && Step(c, x, timeout).healthTries == Tries(s, k)
    {
      WaitingIndex(s, k, n, timeout);
      StartsNow(p, x, n, timeout);
      WaitingNow(p, x, k, timeout);
      assert k == i && Waits(p[i], x, timeout) && s[i] == p[i];
      TriesMore(p, x, i);
    }
    hide Waits;
    TickShows(p[i], x, c, timeout);
  }

  // How a tick ends a start, and when it does not.
  lemma TickShows(from: Input, x: Input, c: ContainerState, timeout: int)
    requires UnderWay(c) && x.Tick? && x.beside == ALONE && c.err.None? && Begins(from) && c.startedAt == StartOf(from)
    ensures var d := Step(c, x, timeout);
            && (forall e :: Shows(d, e) <==> EndsAs(from, x, e, timeout))
            && (UnderWay(d) <==> Waits(from, x, timeout))
            && (d.err.Some? ==> d.status == Error) && (d.ready ==> d.status == Running)
  {
    hide KindOf;
  }

  lemma SameStart(p: seq<Input>, i: int, j: int, timeout: int)
    requires Waiting(p, i, |p|, timeout) && Waiting(p, j, |p|, timeout)
    ensures i == j
  {
    hide LastStart;
    OneLastStart(p, i, j);
    OneLastStart(p, j, i);
  }

  // The status the container is found in counts as a first report.
  lemma {:induction false} RunSays(status: Status, inputs: seq<Input>, timeout: int)
    requires AllAlone(inputs)
    ensures Says([Reload(status)] + inputs, Run(Fresh(status), inputs, timeout), timeout)
    decreases |inputs|
  {
    if inputs == [] {
      SaysChange([], Reload(status), Fresh(status), timeout);
      assert [] + [Reload(status)] == [Reload(status)] + inputs;
    } else {
      var p, x := inputs[..|inputs| - 1], inputs[|inputs| - 1];
      var q := [Reload(status)] + p;
      RunSays(status, p, timeout);
      RunLast(Fresh(status), inputs, timeout);
      var c := Run(Fresh(status), p, timeout);
      assert q + [x] == [Reload(status)] + inputs;
      hide Run, Says;
      if IsChange(x) {
        SaysChange(q, x, c, timeout);
      } else if x.Tick? && UnderWay(c) {
        SaysTick(q, x, c, timeout);
      } else {
        SaysSame(q, x, c, timeout);
        QuietStep(x, c, timeout);
      }
    }
  }

  lemma QuietStep(x: Input, c: ContainerState, timeout: int)
    requires !IsChange(x) && (x.Tick? ==> x.beside == ALONE && !UnderWay(c))
    ensures Step(c, x, timeout) == c
  {
  }

  // These inputs and no others make a container ready, whatever it is found as and however it is reloaded; reloads that fall
  // into a tick count as in the serial run.
  lemma ReadyIff(status: Status, inputs: seq<Input>, timeout: int)
    ensures Run(Fresh(status), inputs, timeout).ready
            <==> ReadyBy([Reload(status)] + Serial(Fresh(status), inputs, timeout), timeout)
  {
    var serial := Serial(Fresh(status), inputs, timeout);
    SerialRun(Fresh(status), inputs, timeout);
    RunSays(status, serial, timeout);
    hide Run, ReadyBy;
  }

  // Likewise for every other end: the container is stopped, paused, or in error, and with which failure, by exactly these
  // inputs.
  lemma EndIff(status: Status, inputs: seq<Input>, e: End, timeout: int)
    ensures Shows(Run(Fresh(status), inputs, timeout), e)
            <==> EndedBy([Reload(status)] + Serial(Fresh(status), inputs, timeout), e, timeout)
  {
    var serial := Serial(Fresh(status), inputs, timeout);
    SerialRun(Fresh(status), inputs, timeout);
    RunSays(status, serial, timeout);
    hide Run, EndedBy, Counts, StartingBy;
  }

  // An instance: a pause event.
  lemma PausedIsPaused(now: int, timeout: int)
    ensures Run(Fresh(Running), [Event(PAUSE, now)], timeout) == Fresh(Paused)
  {
    KindsOfActions();
    RunOne(Fresh(Running), Event(PAUSE, now), timeout);
    hide KindOf, Run;
  }

  // A start event, or a reload, also one that falls into a tick, that finds the container running.
  predicate Reports(x: Input) {
    Begins(x) || (x.Tick? && Some(Running) in [x.beside.early, x.beside.late, x.beside.during])
  }

  // A container that is neither running nor ready is not ready before a report that it runs and a later healthy check.
  lemma {:induction false} NotReadyUntilReported(c: ContainerState, inputs: seq<Input>, timeout: int)
    requires !c.ready && c.status != Running && Given(inputs) && Run(c, inputs, timeout).ready
    ensures exists i, j :: 0 <= i < j < |inputs| && Reports(inputs[i]) && inputs[j].Tick? && inputs[j].check == Healthy
    decreases |inputs|
  {
    if inputs != [] {
      var p, x := inputs[..|inputs| - 1], inputs[|inputs| - 1];
      assert forall k :: 0 <= k < |p| ==> p[k] == inputs[k];
      if Run(c, p, timeout).ready {
        NotReadyUntilReported(c, p, timeout);
        hide Begins, Run, Reports;
      } else {
        assert Run(c, p, timeout).status == Running && x.Tick? && x.check == Healthy by { hide Run, KindOf; }
        var i := RunningAfterReport(c, p, timeout);
        hide Begins, Run;
      }
    }
  }

  lemma {:induction false} RunningAfterReport(c: ContainerState, inputs: seq<Input>, timeout: int) returns (i: nat)
    requires c.status != Running && !c.ready && Given(inputs) && Run(c, inputs, timeout).status == Running
    ensures i < |inputs| && Reports(inputs[i])
    decreases |inputs|
  {
    var p, x := inputs[..|inputs| - 1], inputs[|inputs| - 1];
    i := |p|;
    if Run(c, p, timeout).status == Running {
      i := RunningAfterReport(c, p, timeout);
    }
  }

  // In particular, without a reload that finds it running, it takes a start event.
  lemma NotReadyUntilStarted(c: ContainerState, inputs: seq<Input>, timeout: int)
    requires Inv(c) && c.status != Running && Given(inputs) && Run(c, inputs, timeout).ready
    requires forall i :: 0 <= i < |inputs| ==> Reports(inputs[i]) ==> inputs[i].Event?
    ensures exists i, j :: 0 <= i < j < |inputs| && inputs[i].Event? && KindOf(inputs[i].action) == Starts
                           && inputs[j].Tick? && inputs[j].check == Healthy
  {
    NotReadyUntilReported(c, inputs, timeout);
    hide KindOf, Run;
    var i, j :| 0 <= i < j < |inputs| && Reports(inputs[i]) && inputs[j].Tick? && inputs[j].check == Healthy;
    assert inputs[i].Event? && KindOf(inputs[i].action) == Starts;
  }

  // An instance: a reload that finds the container stopped during a healthy check is lost, and it is taken for ready; the
  // same reload before the tick is not.
  lemma ReloadDuringCheck(now: int, timeout: int)
    requires timeout >= 0
    ensures Run(Fresh(Stopped), [Event(START, now), Tick(now, Beside(None, None, Some(Stopped)), Healthy)], timeout) == READY
    ensures Run(Fresh(Stopped), [Event(START, now), Reload(Stopped), Tick(now, ALONE, Healthy)], timeout) == Fresh(Stopped)
  {
    RunStarted(now, timeout);
    hide KindOf;
    var e := Event(START, now);
    RunMore(Fresh(Stopped), [e], Tick(now, Beside(None, None, Some(Stopped)), Healthy), timeout);
    RunMore(Fresh(Stopped), [e], Reload(Stopped), timeout);
    RunMore(Fresh(Stopped), [e, Reload(Stopped)], Tick(now, ALONE, Healthy), timeout);
    hide Run;
    assert [e] + [Tick(now, Beside(None, None, Some(Stopped)), Healthy)] == [e, Tick(now, Beside(None, None, Some(Stopped)), Healthy)];
    assert [e] + [Reload(Stopped)] == [e, Reload(Stopped)];
    assert [e, Reload(Stopped)] + [Tick(now, ALONE, Healthy)] == [e, Reload(Stopped), Tick(now, ALONE, Healthy)];
  }

  // An instance: past the timeout a reload finds the container stopped right before the state is loaded, which then has no
  // start time; a healthy check makes it ready. No order of the two gives that.
  lemma ReloadBeforeLoad(start: int, now: int, timeout: int)
    requires now - start > timeout
    ensures var x := Tick(now, Beside(None, Some(Stopped), None), Healthy);
            && Run(Fresh(Stopped), [Event(START, start), x], timeout) == READY
            && Run(Fresh(Stopped), [Event(START, start), x.(beside := ALONE), Reload(Stopped)], timeout) == Fresh(Stopped)
            && Run(Fresh(Stopped), [Event(START, start), Reload(Stopped), x.(beside := ALONE)], timeout) == Fresh(Stopped)
  {
    var e, x := Event(START, start), Tick(now, Beside(None, Some(Stopped), None), Healthy);
    var alone := x.(beside := ALONE);
    RunStarted(start, timeout);
    hide KindOf;
    RunMore(Fresh(Stopped), [e], x, timeout);
    RunMore(Fresh(Stopped), [e], alone, timeout);
    RunMore(Fresh(Stopped), [e, alone], Reload(Stopped), timeout);
    RunMore(Fresh(Stopped), [e], Reload(Stopped), timeout);
    RunMore(Fresh(Stopped), [e, Reload(Stopped)], alone, timeout);
    hide Run;
    assert [e] + [x] == [e, x] && [e] + [alone] == [e, alone] && [e] + [Reload(Stopped)] == [e, Reload(Stopped)];
    assert [e, alone] + [Reload(Stopped)] == [e, alone, Reload(Stopped)];
    assert [e, Reload(Stopped)] + [alone] == [e, Reload(Stopped), alone];
  }

  lemma RunStarted(now: int, timeout: int)
    ensures Run(Fresh(Stopped), [Event(START, now)], timeout) == Starting(now)
  {
    KindsOfActions();
    hide KindOf;
    RunOne(Fresh(Stopped), Event(START, now), timeout);
  }

  lemma RunMore(c: ContainerState, p: seq<Input>, x: Input, timeout: int)
    ensures Run(c, p + [x], timeout) == Step(Run(c, p, timeout), x, timeout)
  {
    assert (p + [x])[..|p|] == p;
  }

  lemma RunOne(c: ContainerState, x: Input, timeout: int)
    ensures Run(c, [x], timeout) == Step(c, x, timeout)
  {
    assert [x][..0] == [];
  }
}
