/** The word stack that runs the shoot actions (chdk-src/core/action_stack.c:157-462). */
module ActionStack {
  import opened Shoot

  const ACTION_STACK_SIZE: nat := 48

  // The actions, by the addresses of their functions.
  datatype Action = SHOOT | PRESS | RELEASE | SLEEP | WAIT_FLASH | WAIT_SHOOTING_IN_PROGRESS | WAIT_SHOOTING_DONE

  // A word of the stack: a parameter, a function, or the number that marks a function below it.
  datatype Word = Number(n: int) | KeyCode(key: Key) | Code(f: Action) | FuncEntry

  function WordsOf(it: Item): (w: seq<Word>)
    ensures 2 <= |w| <= 4 && w[|w| - 1] == FuncEntry && w[|w| - 2].Code?
  {
    match it
    case Shoot => [Code(SHOOT), FuncEntry]
    case Press(key) => [KeyCode(key), Code(PRESS), FuncEntry]
    case Release(key) => [KeyCode(key), Code(RELEASE), FuncEntry]
    case Sleep(ms) => [Number(ms), Code(SLEEP), FuncEntry]
    case WaitFlash => [Code(WAIT_FLASH), FuncEntry]
    case WaitInProgress(retry, timeout) => [Number(retry), Number(timeout), Code(WAIT_SHOOTING_IN_PROGRESS), FuncEntry]
    case WaitDone(retry) => [Number(retry), Code(WAIT_SHOOTING_DONE), FuncEntry]
  }

  function Encode(items: seq<Item>): seq<Word> {
    if items == [] then [] else Encode(items[..|items| - 1]) + WordsOf(items[|items| - 1])
  }

  lemma EncodeNext(items: seq<Item>, it: Item)
    ensures Encode(items + [it]) == Encode(items) + WordsOf(it)
  {
    assert (items + [it])[..|items|] == items;
  }

  lemma EncodeTop(items: seq<Item>)
    requires items != []
    ensures Encode(items) == Encode(items[..|items| - 1]) + WordsOf(items[|items| - 1])
  {
    hide WordsOf;
  }

  lemma EncodeNone()
    ensures Encode([]) == []
  {
  }

  // ----- The stack never fills -----

  lemma {:induction false} PrefixFits(items: seq<Item>, n: nat)
    requires n <= |items|
    ensures |Encode(items[..n])| <= |Encode(items)|
    decreases |items|
  {
    if n < |items| {
      PrefixFits(items[..|items| - 1], n);
      assert items[..|items| - 1][..n] == items[..n];
    } else {
      assert items[..n] == items;
    }
  }

  lemma PlansFit(c: Config, retry: int, timeout: int)
    ensures |Encode(HalfPlan(c, retry, timeout))| == 13 && |Encode(FullPlan(c, retry))| == 17
  {
    hide Encode;
    EncodeNone();
    var h, f := HalfPlan(c, retry, timeout), FullPlan(c, retry);
    EncodeNext([], h[0]);
    EncodeNext(h[..1], h[1]);
    EncodeNext(h[..2], h[2]);
    EncodeNext(h[..3], h[3]);
    assert [] + [h[0]] == h[..1] && h[..1] + [h[1]] == h[..2] && h[..2] + [h[2]] == h[..3] && h[..3] + [h[3]] == h;
    EncodeNext([], f[0]);
    EncodeNext(f[..1], f[1]);
    EncodeNext(f[..2], f[2]);
    EncodeNext(f[..3], f[3]);
    EncodeNext(f[..4], f[4]);
    EncodeNext(f[..5], f[5]);
    assert [] + [f[0]] == f[..1] && f[..1] + [f[1]] == f[..2] && f[..2] + [f[2]] == f[..3];
    assert f[..3] + [f[3]] == f[..4] && f[..4] + [f[4]] == f[..5] && f[..5] + [f[5]] == f;
  }

  // No run of the protocol ever holds more than 17 of the 48 words.
  lemma SeventeenWords(c: Config, vs: seq<View>)
    ensures |Encode(Run(c, vs).items)| <= 17
  {
    var s := Run(c, vs);
    RunKeepsInv(c, vs);
    InvFits(c, s);
  }

  lemma InvFits(c: Config, s: State)
    requires Inv(c, s)
    ensures |Encode(s.items)| <= 17
  {
    hide Encode, Rounds;
    EncodeNone();
    if InHalf(c, s) {
      var r, t := s.items[0].retry, s.items[0].timeout;
      PlansFit(c, r, t);
      PrefixFits(HalfPlan(c, r, t), |s.items|);
    } else if InFull(c, s) {
      PlansFit(c, s.items[0].retry, 0);
      PrefixFits(FullPlan(c, s.items[0].retry), |s.items|);
    } else if s.items != [] {
      EncodeTop(s.items);
      assert s.items[..0] == [];
    }
  }

  lemma RunNext(c: Config, vs: seq<View>, v: View)
    requires Run(c, vs).items != []
    ensures Run(c, vs + [v]) == Step(c, Run(c, vs), v)
  {
    assert (vs + [v])[..|vs|] == vs;
  }

  // From Begin to the half press, and through its delay.
  lemma FirstSteps(c: Config, v: View)
    requires v.tick > 0 && v.inProgress
    ensures Run(c, []).items == [Shoot]
    ensures Run(c, [] + [v]).items == ShootItems(c, 1, v.tick) && Run(c, [] + [v]).target == 0
  {
    assert Run(c, []) == Begin();
    RunNext(c, [], v);
    assert Begin().items[..0] == [];
  }

  lemma PressStep(c: Config, s: State, v: View, retry: int, timeout: int)
    requires s.items == HalfPlan(c, retry, timeout)[..3] && s.target == 0
    ensures Step(c, s, v).items == HalfPlan(c, retry, timeout)[..2] && Step(c, s, v).target == 0
  {
  }

  lemma SleepSteps(c: Config, s: State, v: View, retry: int, timeout: int)
    requires s.items == HalfPlan(c, retry, timeout)[..2]
    ensures s.target == 0 ==> Step(c, s, v).items == s.items && Step(c, s, v).target == v.tick + c.press
    ensures 0 < s.target <= v.tick ==> Step(c, s, v).items == HalfPlan(c, retry, timeout)[..1]
  {
  }

  lemma ReadyStep(c: Config, s: State, v: View, retry: int, timeout: int)
    requires s.items == HalfPlan(c, retry, timeout)[..1] && v.inProgress
    ensures Step(c, s, v).items == FullPlan(c, retry)
  {
    assert s.items[..0] == [];
  }

  // Seventeen are reached: the full press, as it is set up.
  lemma SeventeenReached(c: Config) returns (vs: seq<View>)
    ensures |Encode(Run(c, vs).items)| == 17
  {
    var v := View(100, true, false, false, false);
    var w := v.(tick := 100 + c.press);
    assert ShootItems(c, 1, 100) == HalfPlan(c, 1, 5100)[..3];
    hide *;
    FirstSteps(c, v);
    vs := [] + [v];
    RunNext(c, vs, v);
    PressStep(c, Run(c, vs), v, 1, 5100);
    vs := vs + [v];
    RunNext(c, vs, v);
    SleepSteps(c, Run(c, vs), v, 1, 5100);
    vs := vs + [v];
    RunNext(c, vs, w);
    SleepSteps(c, Run(c, vs), w, 1, 5100);
    vs := vs + [w];
    RunNext(c, vs, v);
    ReadyStep(c, Run(c, vs), v, 1, 5100);
    vs := vs + [v];
    PlansFit(c, 1, 0);
  }

  // The words of the top item are on top.
  lemma TopWords(st: seq<Word>, items: seq<Item>, n: nat)
    requires items != [] && st == Encode(items) && |WordsOf(items[|items| - 1])| == n
    ensures n <= |st| && st[..|st| - n] == Encode(items[..|items| - 1])
    ensures st[|st| - n] == WordsOf(items[|items| - 1])[0]
  {
    EncodeTop(items);
    hide Encode, WordsOf;
  }

  function ActionOf(it: Item): Action {
    match it
    case Shoot => SHOOT
    case Press(_) => PRESS
    case Release(_) => RELEASE
    case Sleep(_) => SLEEP
    case WaitFlash => WAIT_FLASH
    case WaitInProgress(_, _) => WAIT_SHOOTING_IN_PROGRESS
    case WaitDone(_) => WAIT_SHOOTING_DONE
  }

  // The top item, from the words on top.
  lemma TopIs(items: seq<Item>)
    requires items != []
    ensures var top, w := items[|items| - 1], Encode(items);
      && |w| >= |WordsOf(top)|
      && match ActionOf(top)
         case SHOOT => top.Shoot? && |WordsOf(top)| == 2
         case PRESS => top.Press? && |WordsOf(top)| == 3 && WordsOf(top)[0] == KeyCode(top.key)
         case RELEASE => top.Release? && |WordsOf(top)| == 3 && WordsOf(top)[0] == KeyCode(top.key)
         case SLEEP => top.Sleep? && |WordsOf(top)| == 3 && WordsOf(top)[0] == w[|w| - 3] == Number(top.ms)
         case WAIT_FLASH => top.WaitFlash? && |WordsOf(top)| == 2
         case WAIT_SHOOTING_IN_PROGRESS =>
           && top.WaitInProgress? && |WordsOf(top)| == 4
           && w[|w| - 4] == Number(top.retry) && w[|w| - 3] == Number(top.timeout)
         case WAIT_SHOOTING_DONE => top.WaitDone? && |WordsOf(top)| == 3 && WordsOf(top)[0] == Number(top.retry)
  {
    EncodeTop(items);
    hide Encode;
  }

  // The mark is on top whenever there is anything on the stack, and below it is the top item's action.
  lemma MarkOnTop(items: seq<Item>)
    requires items != []
    ensures var w := Encode(items);
      |w| >= 2 && w[|w| - 1] == FuncEntry && w[|w| - 2] == Code(ActionOf(items[|items| - 1]))
  {
    EncodeTop(items);
    hide Encode;
  }

  // What the camera has shown in n looks.
  ghost function Shown(camera: nat -> View, n: nat): seq<View> { seq(n, i requires 0 <= i < n => camera(i)) }

  lemma ShownNext(camera: nat -> View, n: nat)
    ensures Shown(camera, n + 1) == Shown(camera, n) + [camera(n)]
  {
  }

  // Whether the action on top after n looks is done at the next one.
  ghost predicate GoesOn(c: Config, camera: nat -> View, n: nat) {
    var s := Run(c, Shown(camera, n));
    s.items != [] && Ready(s, s.items[|s.items| - 1], camera(n))
  }

  lemma GoesOnIs(c: Config, camera: nat -> View, n: nat, s: State, process: bool)
    requires s == Run(c, Shown(camera, n)) && s.items != []
    requires process == Ready(s, s.items[|s.items| - 1], camera(n))
    ensures GoesOn(c, camera, n) == process
  {
    hide Run, Shown, Ready;
  }

  // ----- Running without a break -----

  // How much the items can do before one of them has to wait.
  function Work(it: Item): nat {
    match it
    case WaitDone(retry) => if retry != 0 then 12 else 2
    case WaitInProgress(retry, _) => if retry != 0 then 18 else 8
    case Shoot => 21
    case _ => 1
  }

  function TotalWork(items: seq<Item>): nat {
    if items == [] then 0 else TotalWork(items[..|items| - 1]) + Work(items[|items| - 1])
  }

  lemma {:induction false} WorkOfBoth(a: seq<Item>, b: seq<Item>)
    ensures TotalWork(a + b) == TotalWork(a) + TotalWork(b)
    decreases |b|
  {
    if b == [] {
      assert a + b == a;
    } else {
      WorkOfBoth(a, b[..|b| - 1]);
      assert (a + b)[..|a + b| - 1] == a + b[..|b| - 1];
    }
  }

  lemma WorkOfFew(a: Item, b: Item, c: Item, d: Item)
    ensures TotalWork([]) == 0 && TotalWork([a]) == Work(a)
    ensures TotalWork([a, b, c]) == Work(a) + Work(b) + Work(c)
    ensures TotalWork([a, b, c, d]) == Work(a) + Work(b) + Work(c) + Work(d)
  {
    assert [a, b, c, d][..3] == [a, b, c] && [a, b, c][..2] == [a, b] && [a, b][..1] == [a] && [a][..0] == [];
  }

  lemma PushedIsLess(c: Config, top: Item, v: View)
    ensures TotalWork(Pushed(c, top, v)) < Work(top)
  {
    match top
    case Shoot =>
      WorkOfFew(WaitInProgress(1, v.tick + 5000), Sleep(c.press), Press(HALF), WaitFlash);
      hide TotalWork;
      assert ShootItems(c, 1, v.tick) == [WaitInProgress(1, v.tick + 5000), Sleep(c.press), Press(HALF)];
    case WaitInProgress(retry, _) =>
      WorkOfFew(WaitDone(retry), Sleep(c.release), Release(FULL), Sleep(c.press));
      WorkOfFew(Press(FULL), WaitFlash, WaitFlash, WaitFlash);
      var a, b := [WaitDone(retry), Sleep(c.release), Release(FULL), Sleep(c.press)], [Press(FULL)];
      WorkOfBoth(a, b);
      WorkOfBoth(a + b, [WaitFlash]);
      WorkOfFew(WaitFlash, WaitFlash, WaitFlash, WaitFlash);
      hide TotalWork;
      assert [WaitDone(retry)] + ClickItems(c, FULL) + [WaitFlash] == a + b + [WaitFlash];
    case WaitDone(retry) =>
      WorkOfFew(WaitInProgress(0, v.tick + 5000), Sleep(c.press), Press(HALF), Sleep(250));
      WorkOfFew(Sleep(c.shoot * 100), WaitFlash, WaitFlash, WaitFlash);
      hide TotalWork;
      assert ShootItems(c, 0, v.tick) + [Sleep(250)] == [WaitInProgress(0, v.tick + 5000), Sleep(c.press), Press(HALF), Sleep(250)];
    case _ =>
  }

  // An action that is done leaves less to do.
  lemma LessWork(c: Config, s: State, v: View)
    requires s.items != [] && Ready(s, s.items[|s.items| - 1], v)
    ensures TotalWork(Step(c, s, v).items) < TotalWork(s.items)
  {
    hide Pushed, Work;
    var rest, top := s.items[..|s.items| - 1], s.items[|s.items| - 1];
    WorkOfBoth(rest, Pushed(c, top, v));
    PushedIsLess(c, top, v);
    assert TotalWork(s.items) == TotalWork(rest) + Work(top);
    hide TotalWork;
  }

  // ----- The stack -----

  class Stack {
    const config: Config
    const camera: nat -> View       // what the camera shows when an action looks at it for the n-th time
    const stack: array<Word>
    var ptr: int
    var delayTarget: int
    var status: seq<nat>            // reported to the script
    var keys: seq<Event>            // pressed and released on the camera
    var finished: bool
    var looks: nat
    ghost var items: seq<Item>
    ghost var attempts: nat

    ghost predicate Valid()
      reads this`ptr, this`items, stack
    {
      stack.Length == ACTION_STACK_SIZE && -1 <= ptr < ACTION_STACK_SIZE && stack[..ptr + 1] == Encode(items)
    }

    ghost function Abs(): State
      reads this
    {
      State(items, delayTarget, status, keys, attempts)
    }

    // Creates the stack with the shoot action on it.
    constructor (config: Config, camera: nat -> View)
      ensures Valid() && Abs() == Begin() && looks == 0 && !finished && this.config == config && this.camera == camera
      ensures fresh(stack) && stack.Length == 48
    {
      this.config, this.camera := config, camera;
      var w := new Word[ACTION_STACK_SIZE](_ => Number(0));
      w[0], w[1] := Code(SHOOT), FuncEntry;
      stack := w;
      ptr, delayTarget, status, keys, finished := 1, 0, [], [], false;
      items, attempts, looks := [Shoot], 0, 0;
      new;
      EncodeNone();
      EncodeNext([], Shoot);
      assert [] + [Shoot] == [Shoot];
    }

    // ----- Words -----

    method Top(n: nat) returns (w: Word)
      requires Valid() && n <= ptr
      ensures w == Encode(items)[ptr - n]
    {
      hide Encode;
      assert stack[..ptr + 1][ptr - n] == stack[ptr - n];
      w := stack[ptr - n];
    }

    method Pop() returns (w: Word)
      requires stack.Length == ACTION_STACK_SIZE && 0 <= ptr < ACTION_STACK_SIZE
      modifies this`ptr
      ensures ptr == old(ptr) - 1 && w == stack[old(ptr)]
    {
      w := stack[ptr];
      ptr := ptr - 1;
    }

    // Pops the mark, the function and n parameters; the last of these is returned.
    method PopFunc(n: nat) returns (w: Word)
      requires Valid() && items != [] && |WordsOf(items[|items| - 1])| == n + 2
      modifies this`ptr, this`items
      ensures Valid() && items == old(items)[..|old(items)| - 1] && ptr == old(ptr) - n - 2
      ensures w == WordsOf(old(items)[|old(items)| - 1])[0]
    {
      hide Encode, WordsOf;
      ghost var p0, st := ptr, stack[..ptr + 1];
      TopWords(st, items, n + 2);
      var k: int := n;
      while k >= 0
        invariant -1 <= k <= n && ptr == p0 - (n - k)
        modifies this`ptr
      {
        var _ := Pop();
        k := k - 1;
      }
      w := Pop();
      assert w == st[|st| - (n + 2)];
      assert stack[..ptr + 1] == st[..|st| - (n + 2)];
      items := items[..|items| - 1];
    }

    method Push(w: Word)
      requires stack.Length == ACTION_STACK_SIZE && -1 <= ptr && ptr + 1 < ACTION_STACK_SIZE
      modifies this`ptr, stack
      ensures ptr == old(ptr) + 1 && stack[..ptr + 1] == old(stack[..ptr + 1]) + [w]
    {
      ptr := ptr + 1;
      stack[ptr] := w;
    }

    method PushFunc(f: Action)
      requires stack.Length == ACTION_STACK_SIZE && -1 <= ptr && ptr + 2 < ACTION_STACK_SIZE
      modifies this`ptr, stack
      ensures ptr == old(ptr) + 2 && stack[..ptr + 1] == old(stack[..ptr + 1]) + [Code(f), FuncEntry]
    {
      Push(Code(f));
      Push(FuncEntry);
    }

    // ----- What the actions push; the flow is reversed, as the last one pushed runs first -----

    method PushDelay(ms: int)
      requires Valid() && ptr + 3 < ACTION_STACK_SIZE
      modifies this`ptr, this`items, stack
      ensures Valid() && items == old(items) + [Sleep(ms)] && ptr == old(ptr) + 3
    {
      hide Encode;
      EncodeNext(items, Sleep(ms));
      Push(Number(ms));
      PushFunc(SLEEP);
      items := items + [Sleep(ms)];
    }

    method PushPress(key: Key)
      requires Valid() && ptr + 6 < ACTION_STACK_SIZE
      modifies this`ptr, this`items, stack
      ensures Valid() && items == old(items) + PressItems(config, key) && ptr == old(ptr) + 6
    {
      hide Encode;
      PushDelay(config.press);
      EncodeNext(items, Press(key));
      Push(KeyCode(key));
      PushFunc(PRESS);
      items := items + [Press(key)];
    }

    method PushRelease(key: Key)
      requires Valid() && ptr + 6 < ACTION_STACK_SIZE
      modifies this`ptr, this`items, stack
      ensures Valid() && items == old(items) + ReleaseItems(config, key) && ptr == old(ptr) + 6
    {
      hide Encode;
      PushDelay(config.release);
      EncodeNext(items, Release(key));
      Push(KeyCode(key));
      PushFunc(RELEASE);
      items := items + [Release(key)];
    }

    method PushClick(key: Key)
      requires Valid() && ptr + 12 < ACTION_STACK_SIZE
      modifies this`ptr, this`items, stack
      ensures Valid() && items == old(items) + ClickItems(config, key) && ptr == old(ptr) + 12
    {
      hide Encode;
      PushRelease(key);
      PushPress(key);
    }

    method PushShoot(retry: int, tick: nat)
      requires Valid() && ptr + 10 < ACTION_STACK_SIZE
      modifies this`ptr, this`items, this`attempts, stack
      ensures Valid() && items == old(items) + ShootItems(config, retry, tick) && ptr == old(ptr) + 10
      ensures attempts == old(attempts) + 1
    {
      hide Encode;
      var it := WaitInProgress(retry, tick + 5000);
      EncodeNext(items, it);
      Push(Number(retry));
      Push(Number(tick + 5000));
      PushFunc(WAIT_SHOOTING_IN_PROGRESS);
      items := items + [it];
      PushPress(HALF);
      attempts := attempts + 1;
    }

    // ----- The actions -----

    method Look() returns (v: View)
      modifies this`looks
      ensures v == camera(old(looks)) && looks == old(looks) + 1
    {
      v := camera(looks);
      looks := looks + 1;
    }

    // What running the top action has come to, from the state s at the n-th look.
    ghost predicate Acted(s: State, n: nat, process: bool)
      reads this, stack
    {
      && Valid() && !finished && looks == n + 1 && s.items != []
      && Abs() == Step(config, s, camera(n))
      && process == Ready(s, s.items[|s.items| - 1], camera(n))
    }

    // Whether the action f is on top, with room for what it may push.
    ghost predicate OnTop(f: Action)
      reads this, stack
    {
      Valid() && !finished && ptr <= 16 && items != [] && ActionOf(items[|items| - 1]) == f
    }

    method AsSleep() returns (process: bool)
      requires OnTop(SLEEP)
      modifies this
      ensures Acted(old(Abs()), old(looks), process)
    {
      hide Encode, WordsOf, Step, Ready, Pushed, ShootItems, ClickItems, ActionOf;
      ghost var s, top := Abs(), items[|items| - 1];
      TopIs(items);
      StepSleep(config, s, camera(looks));
      var delay := Top(2);
      var v := Look();
      if delayTarget == 0 {
        delayTarget := v.tick + if delay.n == -1 then 86400000 else delay.n;
        process := false;
      } else if delayTarget <= v.tick {
        delayTarget := 0;
        var _ := PopFunc(1);
        process := true;
      } else {
        process := false;
      }
    }

    method AsPress() returns (process: bool)
      requires OnTop(PRESS)
      modifies this
      ensures Acted(old(Abs()), old(looks), process)
    {
      hide Encode, WordsOf, Step, Ready, Pushed, ShootItems, ClickItems, ActionOf;
      ghost var s, top := Abs(), items[|items| - 1];
      TopIs(items);
      StepKey(config, s, camera(looks));
      var _ := Look();
      var key := PopFunc(1);
      keys := keys + [Down(key.key)];
      process := true;
    }

    method AsRelease() returns (process: bool)
      requires OnTop(RELEASE)
      modifies this
      ensures Acted(old(Abs()), old(looks), process)
    {
      hide Encode, WordsOf, Step, Ready, Pushed, ShootItems, ClickItems, ActionOf;
      ghost var s, top := Abs(), items[|items| - 1];
      TopIs(items);
      StepKey(config, s, camera(looks));
      var _ := Look();
      var key := PopFunc(1);
      keys := keys + [Up(key.key)];
      process := true;
    }

    method AsWaitFlash() returns (process: bool)
      requires OnTop(WAIT_FLASH)
      modifies this
      ensures Acted(old(Abs()), old(looks), process)
    {
      hide Encode, WordsOf, Step, Ready, Pushed, ShootItems, ClickItems, ActionOf;
      ghost var s, top := Abs(), items[|items| - 1];
      TopIs(items);
      StepFlash(config, s, camera(looks));
      var v := Look();
      process := v.flashReady;
      if v.flashReady { var _ := PopFunc(0); }
    }

    method AsShoot() returns (process: bool)
      requires OnTop(SHOOT)
      modifies this, stack
      ensures Acted(old(Abs()), old(looks), process)
    {
      hide Encode, WordsOf, Step, Ready, Pushed, ShootItems, ClickItems, ActionOf;
      ghost var s, top := Abs(), items[|items| - 1];
      TopIs(items);
      StepShoot(config, s, camera(looks));
      var v := Look();
      var _ := PopFunc(0);
      PushShoot(1, v.tick);
      process := true;
    }

    // The full press and what follows it, in place of the wait for the camera.
    method PushFullPress(retry: int)
      requires Valid() && ptr <= 16
      modifies this`ptr, this`items, stack
      ensures Valid() && items == old(items) + ([WaitDone(retry)] + ClickItems(config, FULL) + [WaitFlash])
    {
      hide Encode, ClickItems;
      EncodeNext(items, WaitDone(retry));
      Push(Number(retry));
      PushFunc(WAIT_SHOOTING_DONE);
      items := items + [WaitDone(retry)];
      PushClick(FULL);
      EncodeNext(items, WaitFlash);
      PushFunc(WAIT_FLASH);
      items := items + [WaitFlash];
    }

    method AsWaitInProgress() returns (process: bool)
      requires OnTop(WAIT_SHOOTING_IN_PROGRESS)
      modifies this, stack
      ensures Acted(old(Abs()), old(looks), process)
    {
      hide Encode, WordsOf, Step, Ready, Pushed, ShootItems, ClickItems, ActionOf;
      ghost var s, top := Abs(), items[|items| - 1];
      TopIs(items);
      StepInProgress(config, s, camera(looks));
      var timeout := Top(2);
      var retry := Top(3);
      var v := Look();
      if v.inProgress || v.video {
        var _ := PopFunc(2);
        PushFullPress(retry.n);
        process := true;
      } else if v.tick >= timeout.n {
        var _ := PopFunc(2);
        status := status + [1];
        process := true;
      } else {
        process := false;
      }
    }

    // A shot that failed is tried once more, after a short delay; then the script is told.
    method ShotFailed(retry: int, tick: nat)
      requires Valid() && ptr <= 16
      modifies this`ptr, this`items, this`attempts, this`status, stack
      ensures Valid() && attempts == old(attempts) + (if retry != 0 then 1 else 0)
      ensures items == old(items) + (if retry != 0 then ShootItems(config, 0, tick) + [Sleep(250)] else [])
      ensures status == old(status) + if retry != 0 then [] else [2]
    {
      hide Encode, ShootItems;
      if retry != 0 {
        PushShoot(0, tick);
        PushDelay(250);
      } else {
        status := status + [2];
      }
    }

    method AsWaitDone() returns (process: bool)
      requires OnTop(WAIT_SHOOTING_DONE)
      modifies this, stack
      ensures Acted(old(Abs()), old(looks), process)
    {
      hide Encode, WordsOf, Step, Ready, Pushed, ShootItems, ClickItems, ActionOf;
      ghost var s, top := Abs(), items[|items| - 1];
      TopIs(items);
      StepDone(config, s, camera(looks));
      var v := Look();
      process := !v.inProgress;
      if !v.inProgress {
        var retry := PopFunc(1);
        if v.failed {
          ShotFailed(retry.n, v.tick);
        } else {
          status := status + [0];
          if config.shoot > 0 { PushDelay(config.shoot * 100); }
        }
      }
    }

    // ----- Running the stack -----

    // The state is one of the protocol's, reached by what the camera has shown.
    ghost predicate Running()
      reads this, stack
    {
      Valid() && Abs() == Run(config, Shown(camera, looks))
    }

    lemma AbsIs()
      requires Running()
      ensures Abs() == Run(config, Shown(camera, looks))
      ensures Abs() == State(items, delayTarget, status, keys, attempts)
    {
    }

    // Before the top function runs: the mark is on top, there is room, and what a step will come to.
    lemma Ahead()
      requires Running() && !finished && items != []
      ensures ptr >= 1 && Encode(items)[ptr] == FuncEntry
      ensures Encode(items)[ptr - 1].Code? && OnTop(Encode(items)[ptr - 1].f)
      ensures Run(config, Shown(camera, looks + 1)) == Step(config, Abs(), camera(looks))
    {
      MarkOnTop(items);
      SeventeenWords(config, Shown(camera, looks));
      ShownNext(camera, looks);
      RunNext(config, Shown(camera, looks), camera(looks));
      hide Encode, WordsOf, Run, Step, Shown;
    }

    // After it has run.
    lemma After(s: State, n: nat, process: bool)
      requires Acted(s, n, process) && s == Run(config, Shown(camera, n))
      requires Run(config, Shown(camera, n + 1)) == Step(config, s, camera(n))
      ensures Running() && !finished && looks == n + 1 && process == GoesOn(config, camera, n)
      ensures Abs() == Step(config, s, camera(n)) && process == Ready(s, s.items[|s.items| - 1], camera(n))
      ensures process ==> TotalWork(items) < TotalWork(s.items)
      ensures !process ==> items == s.items
    {
      if process { LessWork(config, s, camera(n)); }
      GoesOnIs(config, camera, n, s, process);
      hide Encode, Run, Shown, TotalWork, Ready, Pushed;
    }

    // Runs the top function: one look, one step, and whether that was done.
    method Call() returns (process: bool)
      requires Running() && !finished && items != []
      modifies this, stack
      ensures Running() && !finished && looks == old(looks) + 1
      ensures Abs() == Step(config, old(Abs()), camera(old(looks)))
      ensures process == Ready(old(Abs()), old(items[|items| - 1]), camera(old(looks)))
      ensures process == GoesOn(config, camera, old(looks))
      ensures process ==> TotalWork(items) < old(TotalWork(items))
      ensures !process ==> items == old(items)
    {
      hide *;
      ghost var s, n := Abs(), looks;
      AbsIs();
      PtrIs();
      Ahead();
      var id := Top(0);
      var f := Top(1);
      if id == FuncEntry {
        process := Dispatch(f.f);
        After(s, n, process);
      } else {
        assert false;   // the mark is always on top: "Not a Function" is never reported
      }
    }

    method Dispatch(f: Action) returns (process: bool)
      requires OnTop(f)
      modifies this, stack
      ensures Acted(old(Abs()), old(looks), process)
    {
      hide *;
      match f
      case SHOOT => process := AsShoot();
      case PRESS => process := AsPress();
      case RELEASE => process := AsRelease();
      case SLEEP => process := AsSleep();
      case WAIT_FLASH => process := AsWaitFlash();
      case WAIT_SHOOTING_IN_PROGRESS => process := AsWaitInProgress();
      case WAIT_SHOOTING_DONE => process := AsWaitDone();
    }

    method Finish()
      requires items == []
      modifies this`finished
      ensures finished
    {
      finished := true;
    }

    // Runs the topmost functions until one has to wait or none is left.
    method Process()
      requires Running() && !finished && items != []
      modifies this, stack
      ensures Running() && Inv(config, Abs()) && finished == (items == [])
      ensures ptr <= 16 && attempts <= 2 && |status| <= 1 && (finished ==> Ended(Abs()))
      ensures looks > old(looks) && forall n: nat | old(looks) <= n < looks - 1 :: GoesOn(config, camera, n)
      ensures finished == GoesOn(config, camera, looks - 1)
    {
      hide Encode, Run, Inv, Ended, TotalWork, GoesOn, Step, Ready;
      var process := true;
      PtrIs();
      while process && ptr >= 0
        invariant Running() && Valid() && !finished && (items == []) == (ptr < 0) && looks >= old(looks)
        invariant forall n: nat | old(looks) <= n < looks - 1 :: GoesOn(config, camera, n)
        invariant looks > old(looks) ==> process == GoesOn(config, camera, looks - 1)
        invariant looks == old(looks) ==> process && items != []
        invariant !process ==> items != []
        decreases TotalWork(items), process
      {
        process := Call();
        PtrIs();
      }
      if ptr < 0 { Finish(); }
      Promises();
    }

    lemma PtrIs()
      requires Running()
      ensures Valid() && (items == []) == (ptr < 0)
    {
      if items == [] { EncodeNone(); } else { MarkOnTop(items); }
      hide Encode, Run;
    }

    lemma Promises()
      requires Running()
      ensures Inv(config, Abs()) && ptr <= 16 && attempts <= 2 && |status| <= 1 && (items == [] ==> Ended(Abs()))
    {
      RunKeepsInv(config, Shown(camera, looks));
      AtMostOneReport(config, Shown(camera, looks));
      SeventeenWords(config, Shown(camera, looks));
      hide Encode, Run, Inv, Ended;
    }
  }
}
