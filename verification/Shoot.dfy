/** The shoot protocol of the action stack (chdk-src/core/action_stack.c:181-433), as a machine whose
    steps are the actions and whose inputs are what the camera shows when an action looks at it. */
module Shoot {

  datatype Key = HALF | FULL

  // What an action pushes onto the stack: itself and its parameters.
  datatype Item =
    | Shoot
    | Press(key: Key)
    | Release(key: Key)
    | Sleep(ms: int)
    | WaitFlash
    | WaitInProgress(retry: int, timeout: int)
    | WaitDone(retry: int)

  // What an action may see of the camera.
  datatype View = View(tick: nat, inProgress: bool, video: bool, flashReady: bool, failed: bool)

  // The delays of the camera and of the configuration, in milliseconds.
  datatype Config = Config(press: nat, release: nat, shoot: nat)

  datatype Event = Down(key: Key) | Up(key: Key)

  // The stack, the top action last; the sleep under way; what has been reported to the script, and the
  // keys that have been pressed.  attempts counts the half presses that have been set up.
  datatype State = State(items: seq<Item>, target: int, status: seq<nat>, keys: seq<Event>, attempts: nat)

  // ----- Pushing -----

  function PressItems(c: Config, key: Key): seq<Item> { [Sleep(c.press), Press(key)] }

  function ReleaseItems(c: Config, key: Key): seq<Item> { [Sleep(c.release), Release(key)] }

  function ClickItems(c: Config, key: Key): seq<Item> { ReleaseItems(c, key) + PressItems(c, key) }

  function ShootItems(c: Config, retry: int, tick: nat): seq<Item> {
    [WaitInProgress(retry, tick + 5000)] + PressItems(c, HALF)
  }

  // The items the top action, once popped, leaves in its place.
  function Pushed(c: Config, top: Item, v: View): seq<Item> {
    match top
    case Shoot => ShootItems(c, 1, v.tick)
    case WaitInProgress(retry, _) =>
      if v.inProgress || v.video then [WaitDone(retry)] + ClickItems(c, FULL) + [WaitFlash] else []
    case WaitDone(retry) =>
      if v.failed then (if retry != 0 then ShootItems(c, 0, v.tick) + [Sleep(250)] else [])
      else if c.shoot > 0 then [Sleep(c.shoot * 100)] else []
    case _ => []
  }

  // ----- Steps -----

  // Whether the top action is done, and is popped.
  predicate Ready(s: State, top: Item, v: View) {
    match top
    case Sleep(_) => s.target != 0 && s.target <= v.tick
    case WaitFlash => v.flashReady
    case WaitInProgress(_, timeout) => v.inProgress || v.video || v.tick >= timeout
    case WaitDone(_) => !v.inProgress
    case _ => true
  }

  // What a delay comes to: -1 is indefinite, one day.
  function Delay(ms: int): int { if ms == -1 then 86400000 else ms }

  function Reported(top: Item, v: View): seq<nat> {
    match top
    case WaitInProgress(_, _) => if v.inProgress || v.video then [] else [1]
    case WaitDone(retry) => if !v.failed then [0] else if retry != 0 then [] else [2]
    case _ => []
  }

  function Pressed(top: Item): seq<Event> {
    match top
    case Press(key) => [Down(key)]
    case Release(key) => [Up(key)]
    case _ => []
  }

  function Attempts(top: Item, v: View): nat {
    if top.Shoot? || (top.WaitDone? && v.failed && top.retry != 0) then 1 else 0
  }

  // The top action runs once.
  function Step(c: Config, s: State, v: View): State
    requires s.items != []
  {
    var rest, top := s.items[..|s.items| - 1], s.items[|s.items| - 1];
    if Ready(s, top, v) then
      State(rest + Pushed(c, top, v), if top.Sleep? then 0 else s.target, s.status + Reported(top, v),
            s.keys + Pressed(top), s.attempts + Attempts(top, v))
    else if top.Sleep? && s.target == 0 then s.(target := v.tick + Delay(top.ms))
    else s
  }

  function Begin(): State { State([Shoot], 0, [], [], 0) }

  // What a step is, action by action.
  lemma StepKey(c: Config, s: State, v: View)
    requires s.items != [] && (s.items[|s.items| - 1].Press? || s.items[|s.items| - 1].Release?)
    ensures Ready(s, s.items[|s.items| - 1], v)
    ensures Step(c, s, v) == s.(items := s.items[..|s.items| - 1], keys := s.keys + Pressed(s.items[|s.items| - 1]))
  {
  }

  lemma StepSleep(c: Config, s: State, v: View)
    requires s.items != [] && s.items[|s.items| - 1].Sleep?
    ensures Ready(s, s.items[|s.items| - 1], v) == (s.target != 0 && s.target <= v.tick)
    ensures s.target == 0 ==> Step(c, s, v) == s.(target := v.tick + Delay(s.items[|s.items| - 1].ms))
    ensures s.target > v.tick ==> Step(c, s, v) == s
    ensures s.target != 0 && s.target <= v.tick ==> Step(c, s, v) == s.(items := s.items[..|s.items| - 1], target := 0)
  {
  }

  lemma StepFlash(c: Config, s: State, v: View)
    requires s.items != [] && s.items[|s.items| - 1].WaitFlash?
    ensures Ready(s, s.items[|s.items| - 1], v) == v.flashReady
    ensures Step(c, s, v) == if v.flashReady then s.(items := s.items[..|s.items| - 1]) else s
  {
  }

  lemma StepShoot(c: Config, s: State, v: View)
    requires s.items != [] && s.items[|s.items| - 1].Shoot?
    ensures Ready(s, s.items[|s.items| - 1], v)
    ensures Step(c, s, v) ==
      s.(items := s.items[..|s.items| - 1] + ShootItems(c, 1, v.tick), attempts := s.attempts + 1)
  {
  }

  lemma StepInProgress(c: Config, s: State, v: View)
    requires s.items != [] && s.items[|s.items| - 1].WaitInProgress?
    ensures var rest, top := s.items[..|s.items| - 1], s.items[|s.items| - 1];
      && Ready(s, top, v) == (v.inProgress || v.video || v.tick >= top.timeout)
      && Step(c, s, v) ==
         if v.inProgress || v.video then s.(items := rest + ([WaitDone(top.retry)] + ClickItems(c, FULL) + [WaitFlash]))
         else if v.tick >= top.timeout then s.(items := rest, status := s.status + [1])
         else s
  {
  }

  lemma StepDone(c: Config, s: State, v: View)
    requires s.items != [] && s.items[|s.items| - 1].WaitDone?
    ensures var rest, top := s.items[..|s.items| - 1], s.items[|s.items| - 1];
      && Ready(s, top, v) == !v.inProgress
      && Step(c, s, v) ==
         if v.inProgress then s
         else if v.failed && top.retry != 0 then
           s.(items := rest + (ShootItems(c, 0, v.tick) + [Sleep(250)]), attempts := s.attempts + 1)
         else if v.failed then s.(items := rest, status := s.status + [2])
         else s.(items := rest + (if c.shoot > 0 then [Sleep(c.shoot * 100)] else []), status := s.status + [0])
  {
  }

  // The state after the actions have looked at the camera so many times; an empty stack is left alone.
  function Run(c: Config, vs: seq<View>): State {
    if vs == [] then Begin()
    else
      var s := Run(c, vs[..|vs| - 1]);
      if s.items == [] then s else Step(c, s, vs[|vs| - 1])
  }

  // ----- Where the protocol can be -----

  // A failed attempt, on the keys.
  function Round(): seq<Event> { [Down(HALF), Down(FULL), Up(FULL)] }

  function Rounds(n: nat): seq<Event> { if n == 0 then [] else Rounds(n - 1) + Round() }

  // From the bottom to the top: half press, and wait until the camera is ready.
  function HalfPlan(c: Config, retry: int, timeout: int): seq<Item> {
    [WaitInProgress(retry, timeout), Sleep(c.press), Press(HALF), Sleep(250)]
  }

  // Full press, and wait until the shot is taken.
  function FullPlan(c: Config, retry: int): seq<Item> {
    [WaitDone(retry), Sleep(c.release), Release(FULL), Sleep(c.press), Press(FULL), WaitFlash]
  }

  predicate Trying(s: State, retry: int) {
    s.status == [] && if retry == 0 then s.attempts == 2 else s.attempts == 1
  }

  predicate InHalf(c: Config, s: State) {
    && 1 <= |s.items| <= 4 && s.items[0].WaitInProgress?
    && s.items == HalfPlan(c, s.items[0].retry, s.items[0].timeout)[..|s.items|]
    && Trying(s, s.items[0].retry) && (|s.items| == 4 ==> s.attempts == 2)
    && s.keys == Rounds(s.attempts - 1) + if |s.items| < 3 then [Down(HALF)] else []
  }

  predicate InFull(c: Config, s: State) {
    && 1 <= |s.items| <= 6 && s.items[0].WaitDone?
    && s.items == FullPlan(c, s.items[0].retry)[..|s.items|]
    && Trying(s, s.items[0].retry)
    && s.keys == Rounds(s.attempts - 1) + [Down(HALF)]
                 + (if |s.items| < 5 then [Down(FULL)] else []) + if |s.items| < 3 then [Up(FULL)] else []
  }

  // How it ended: taken, never ready, or failed twice.
  predicate Ended(s: State) {
    && 1 <= s.attempts <= 2 && |s.status| == 1
    && (s.status[0] == 0 || s.status[0] == 1 || (s.status[0] == 2 && s.attempts == 2))
    && s.keys == if s.status[0] == 1 then Rounds(s.attempts - 1) + [Down(HALF)] else Rounds(s.attempts)
  }

  ghost predicate Inv(c: Config, s: State) {
    || s == Begin().(target := s.target)
    || InHalf(c, s)
    || InFull(c, s)
    || (s.items == [Sleep(c.shoot * 100)] && s.status == [0] && Ended(s))
    || (s.items == [] && Ended(s))
  }

  lemma Begins(c: Config)
    ensures Inv(c, Begin())
  {
  }

  lemma StepFromHalf(c: Config, s: State, v: View)
    requires InHalf(c, s)
    ensures Inv(c, Step(c, s, v))
  {
    hide Rounds;
    if |s.items| == 1 {} else if |s.items| == 2 {} else if |s.items| == 3 {} else {}
  }

  lemma StepFromDone(c: Config, s: State, v: View)
    requires InFull(c, s) && |s.items| == 1
    ensures Inv(c, Step(c, s, v))
  {
    RoundDone(s.attempts - 1);
    hide Rounds;
    assert s.items[..0] == [];
  }

  lemma RoundDone(n: nat)
    ensures Rounds(n) + [Down(HALF)] + [Down(FULL)] + [Up(FULL)] == Rounds(n + 1)
  {
    assert Rounds(n) + [Down(HALF)] + [Down(FULL)] + [Up(FULL)] == Rounds(n) + Round();
  }

  lemma StepFromFull(c: Config, s: State, v: View)
    requires InFull(c, s) && |s.items| > 1
    ensures InFull(c, Step(c, s, v))
  {
    hide Rounds;
    if |s.items| == 2 {} else if |s.items| == 3 {} else if |s.items| == 4 {} else if |s.items| == 5 {} else {}
  }

  lemma StepKeepsInv(c: Config, s: State, v: View)
    requires Inv(c, s) && s.items != []
    ensures Inv(c, Step(c, s, v))
  {
    if InHalf(c, s) {
      StepFromHalf(c, s, v);
    } else if InFull(c, s) {
      if |s.items| == 1 { StepFromDone(c, s, v); } else { StepFromFull(c, s, v); }
    }
  }

  lemma {:induction false} RunKeepsInv(c: Config, vs: seq<View>)
    ensures Inv(c, Run(c, vs))
  {
    hide Inv, Step;
    if vs == [] {
      Begins(c);
    } else {
      RunKeepsInv(c, vs[..|vs| - 1]);
      var s := Run(c, vs[..|vs| - 1]);
      if s.items != [] { StepKeepsInv(c, s, vs[|vs| - 1]); }
    }
  }

  // ----- What it promises -----

  // Whatever the camera does: at most two attempts, at most one report, and exactly one by the time the
  // stack is empty; every full press has then been released.
  lemma AtMostOneReport(c: Config, vs: seq<View>)
    ensures Run(c, vs).attempts <= 2 && |Run(c, vs).status| <= 1
    ensures Run(c, vs).items == [] ==> Ended(Run(c, vs))
  {
    RunKeepsInv(c, vs);
    hide Run, Rounds;
  }
}
