/** The bakery lock that the GPS tasks share (chdk-src/core/gps.c:174-202).

    Every read or write of `entering` and `number` is one atomic step of one task, and the
    scheduler picks the task that moves next.  The scan for the largest ticket reads `number[i]`
    twice, and the wait condition reads it up to three times; another task may move in between.
    A task's reads of its own slot are part of the step that uses them: no other task writes it. */
module Bakery {

  const NUM_TASKS: nat := 6

  // Where a task is.  The argument is the loop index `i`.
  datatype Pc =
    | Idle                  // outside lock/unlock
    | Scan(i: nat)          // about to read number[i] in "number[i] > max"
    | Reread(i: nat)        // that was true; about to read number[i] again in "max = number[i]"
    | ClearEntering         // ticket written; about to write entering[n] = 0
    | WaitEntering(i: nat)  // about to read entering[i]
    | WaitNonZero(i: nat)   // about to read number[i] in "number[i] != 0"
    | WaitLess(i: nat)      // ... in "number[i] < number[n]"
    | WaitEqual(i: nat)     // ... in "number[i] == number[n]"
    | Critical              // between lock and unlock

  // One slot of the shared arrays, with the locals of the task that owns it.
  datatype Task = Task(entering: nat, number: nat, pc: Pc, max: nat)

  type State = seq<Task>

  ghost predicate WellFormed(s: State) {
    && |s| == NUM_TASKS
    && forall k | 0 <= k < NUM_TASKS ::
         match s[k].pc
         case Scan(i) => i <= NUM_TASKS
         case Reread(i) => i < NUM_TASKS
         case WaitEntering(i) => i <= NUM_TASKS
         case WaitNonZero(i) => i < NUM_TASKS && i != k
         case WaitLess(i) => i < NUM_TASKS && i != k
         case WaitEqual(i) => i < NUM_TASKS && i != k
         case _ => true
  }

  ghost function Init(): State {
    seq(NUM_TASKS, _ => Task(0, 0, Idle, 0))
  }

  // What task n becomes with its next atomic step.
  ghost function Move(s: State, n: nat): Task
    requires WellFormed(s) && n < NUM_TASKS
  {
    var me := s[n];
    match me.pc
    case Idle => Task(1, me.number, Scan(0), 0)
    case Scan(i) =>
      if i == NUM_TASKS then me.(number := me.max + 1, pc := ClearEntering)
      else me.(pc := if s[i].number > me.max then Reread(i) else Scan(i + 1))
    case Reread(i) => me.(max := s[i].number, pc := Scan(i + 1))
    case ClearEntering => me.(entering := 0, pc := WaitEntering(0))
    case WaitEntering(i) =>
      if i == NUM_TASKS then me.(pc := Critical)
      else if i == n then me.(pc := WaitEntering(i + 1))
      else if s[i].entering != 0 then me
      else me.(pc := WaitNonZero(i))
    case WaitNonZero(i) => me.(pc := if s[i].number != 0 then WaitLess(i) else WaitEntering(i + 1))
    case WaitLess(i) => me.(pc := if s[i].number < me.number then WaitNonZero(i) else WaitEqual(i))
    case WaitEqual(i) =>
      me.(pc := if s[i].number == me.number && i < n then WaitNonZero(i) else WaitEntering(i + 1))
    case Critical => me.(number := 0, pc := Idle)
  }

  ghost function Next(s: State, n: nat): State
    requires WellFormed(s) && n < NUM_TASKS
  {
    s[n := Move(s, n)]
  }

  // ----- Runs -----

  // who[t] is the task that moves from run[t] to run[t + 1].
  ghost predicate IsRun(run: seq<State>, who: seq<nat>) {
    && |run| == |who| + 1
    && run[0] == Init()
    && forall t | 0 <= t < |who| ::
         WellFormed(run[t]) && who[t] < NUM_TASKS && run[t + 1] == Next(run[t], who[t])
  }

  // ----- The invariant -----

  ghost predicate Doorway(pc: Pc) { pc.Scan? || pc.Reread? || pc.ClearEntering? }

  ghost predicate Holds(pc: Pc) { !pc.Idle? && !pc.Scan? && !pc.Reread? }

  ghost predicate Before(s: State, k: nat, j: nat)
    requires |s| == NUM_TASKS && k < NUM_TASKS && j < NUM_TASKS
  {
    s[k].number < s[j].number || (s[k].number == s[j].number && k < j)
  }

  // A task at this point has already been let past task j.
  ghost predicate Passed(pc: Pc, j: nat) {
    match pc
    case WaitEntering(i) => j < i
    case WaitNonZero(i) => j < i
    case WaitLess(i) => j < i
    case WaitEqual(i) => j < i
    case Critical => true
    case _ => false
  }

  ghost predicate Checking(pc: Pc, j: nat) {
    pc == WaitNonZero(j) || pc == WaitLess(j) || pc == WaitEqual(j)
  }

  // History: ahead[k] holds the tasks that had a ticket when k set entering[k] and have kept it since.
  type Ahead = seq<set<nat>>

  ghost predicate Own(s: State, a: Ahead, k: nat)
    requires |s| == |a| == NUM_TASKS && k < NUM_TASKS
  {
    && s[k].entering == (if Doorway(s[k].pc) then 1 else 0)
    && (s[k].number != 0 <==> Holds(s[k].pc))
    && (s[k].pc.Idle? ==> a[k] == {})
    && k !in a[k]
  }

  ghost predicate Pair(s: State, a: Ahead, k: nat, j: nat)
    requires WellFormed(s) && |a| == NUM_TASKS && k < NUM_TASKS && j < NUM_TASKS
  {
    var pc, pj := s[k].pc, s[j].pc;
    && (j in a[k] ==> s[j].number != 0)
    && (pc.Scan? && j in a[k] && j < pc.i ==> s[j].number <= s[k].max)
       // A task caught between the two reads of number[i]: while an older ticket below i is still
       // held, number[i] cannot have dropped.
    && (pc.Reread? && j in a[k] && j < pc.i ==> s[j].number <= s[k].max < s[pc.i].number)
    && (Holds(pc) && j in a[k] ==> s[j].number < s[k].number)
    && (Passed(pc, j) && j != k && Doorway(pj) ==> k in a[j])
    && (Passed(pc, j) && j != k && Holds(pj) ==> Before(s, k, j))
    && (Checking(pc, j) && Doorway(pj) ==> k in a[j])
       // Between "number[j] < number[k]" and "number[j] == number[k]".
    && (pc == WaitEqual(j) && Holds(pj) ==> s[k].number <= s[j].number)
  }

  ghost predicate Inv(s: State, a: Ahead) {
    && WellFormed(s) && |a| == NUM_TASKS
    && (forall k | 0 <= k < NUM_TASKS :: Own(s, a, k))
    && (forall k, j | 0 <= k < NUM_TASKS && 0 <= j < NUM_TASKS :: Pair(s, a, k, j))
  }

  ghost function Holders(s: State): set<nat>
    requires WellFormed(s)
  {
    set j: nat | j < NUM_TASKS && s[j].number != 0
  }

  // How the history moves with a step of task n.
  ghost function NextAhead(s: State, a: Ahead, n: nat): (r: Ahead)
    requires WellFormed(s) && |a| == NUM_TASKS && n < NUM_TASKS
  {
    if s[n].pc.Idle? then a[n := Holders(s)]
    else if s[n].pc.Critical? then
      seq(NUM_TASKS, m requires 0 <= m < NUM_TASKS => if m == n then {} else a[m] - {n})
    else a
  }

  lemma InitInv()
    ensures Inv(Init(), seq(NUM_TASKS, _ => {}))
  {
  }

  // The pair (k, j) when k reads a ticket in the scan.
  lemma ScanPair(s: State, a: Ahead, k: nat, j: nat)
    requires Inv(s, a) && k < NUM_TASKS && j < NUM_TASKS && (s[k].pc.Scan? || s[k].pc.Reread?)
    requires WellFormed(Next(s, k))
    ensures Pair(Next(s, k), NextAhead(s, a, k), k, j)
  {
    assert Own(s, a, k) && Own(s, a, j) && Pair(s, a, k, j) && Pair(s, a, j, k);
    if s[k].pc.i < NUM_TASKS { assert Pair(s, a, k, s[k].pc.i); }
  }

  // The pair (k, j) when the step is k's own.
  lemma MoverPair(s: State, a: Ahead, k: nat, j: nat)
    requires Inv(s, a) && k < NUM_TASKS && j < NUM_TASKS
    requires WellFormed(Next(s, k))
    ensures Pair(Next(s, k), NextAhead(s, a, k), k, j)
  {
    if s[k].pc.Scan? || s[k].pc.Reread? {
      ScanPair(s, a, k, j);
    } else {
      assert Own(s, a, k) && Own(s, a, j) && Pair(s, a, k, j) && Pair(s, a, j, k);
    }
  }

  // The pair (k, j) when the step is taken by another task n; j may be n.
  lemma OtherPair(s: State, a: Ahead, n: nat, k: nat, j: nat)
    requires Inv(s, a) && n < NUM_TASKS && k < NUM_TASKS && j < NUM_TASKS && n != k
    requires WellFormed(Next(s, n))
    ensures Pair(Next(s, n), NextAhead(s, a, n), k, j)
  {
    assert Own(s, a, k) && Own(s, a, n) && Pair(s, a, k, j) && Pair(s, a, n, k) && Pair(s, a, k, n);
    // n unlocks between the two reads: whoever is below it in ahead[k] would have to be before n.
    assert Own(s, a, j) && Pair(s, a, n, j) && Pair(s, a, j, n);
  }

  lemma StepWellFormed(s: State, n: nat)
    requires WellFormed(s) && n < NUM_TASKS
    ensures WellFormed(Next(s, n))
  {
  }

  lemma StepInv(s: State, a: Ahead, n: nat)
    requires Inv(s, a) && n < NUM_TASKS
    ensures Inv(Next(s, n), NextAhead(s, a, n))
  {
    StepWellFormed(s, n);
    var s', a' := Next(s, n), NextAhead(s, a, n);
    forall k | 0 <= k < NUM_TASKS ensures Own(s', a', k) {
      assert Own(s, a, k) && Own(s, a, n);
    }
    forall k, j | 0 <= k < NUM_TASKS && 0 <= j < NUM_TASKS ensures Pair(s', a', k, j) {
      if n == k { MoverPair(s, a, k, j); } else { OtherPair(s, a, n, k, j); }
    }
  }

  // ----- What holds over whole runs -----

  ghost function AheadAt(run: seq<State>, who: seq<nat>, t: nat): (a: Ahead)
    requires IsRun(run, who) && t < |run|
    ensures |a| == NUM_TASKS
  {
    if t == 0 then seq(NUM_TASKS, _ => {})
    else NextAhead(run[t - 1], AheadAt(run, who, t - 1), who[t - 1])
  }

  lemma {:induction false} RunInv(run: seq<State>, who: seq<nat>, t: nat)
    requires IsRun(run, who) && t < |run|
    ensures Inv(run[t], AheadAt(run, who, t))
  {
    if t == 0 {
      InitInv();
    } else {
      RunInv(run, who, t - 1);
      StepInv(run[t - 1], AheadAt(run, who, t - 1), who[t - 1]);
    }
  }

  // No two tasks are ever between lock and unlock at once.
  lemma MutualExclusion(run: seq<State>, who: seq<nat>, t: nat, i: nat, j: nat)
    requires IsRun(run, who) && t < |run|
    requires i < NUM_TASKS && j < NUM_TASKS && i != j
    ensures WellFormed(run[t])
    ensures !(run[t][i].pc.Critical? && run[t][j].pc.Critical?)
  {
    RunInv(run, who, t);
    var a := AheadAt(run, who, t);
    assert Pair(run[t], a, i, j) && Pair(run[t], a, j, i);
  }

  // j stays ahead of k for as long as k is in its round and j does not unlock.
  lemma {:induction false} StaysAhead(run: seq<State>, who: seq<nat>, from: nat, t: nat, k: nat, j: nat)
    requires IsRun(run, who) && from < t < |run|
    requires k < NUM_TASKS && j < NUM_TASKS && j != k
    requires who[from] == k && run[from][k].pc.Idle? && run[from][j].number != 0
    requires forall u | from < u <= t :: |run[u]| == NUM_TASKS && !run[u][k].pc.Idle?
    requires forall u | from < u < t :: who[u] == j ==> !run[u][j].pc.Critical?
    ensures j in AheadAt(run, who, t)[k]
  {
    if t > from + 1 {
      StaysAhead(run, who, from, t - 1, k, j);
      assert WellFormed(run[t - 1]) && run[t] == Next(run[t - 1], who[t - 1]);
      assert !run[t - 1][k].pc.Idle? && !run[t][k].pc.Idle?;
    }
  }

  // A task in its critical section has nobody ahead of it.
  lemma NobodyAhead(s: State, a: Ahead, k: nat, j: nat)
    requires Inv(s, a) && k < NUM_TASKS && j < NUM_TASKS && s[k].pc.Critical?
    ensures j !in a[k]
  {
    assert Own(s, a, k) && Own(s, a, j) && Pair(s, a, k, j);
  }

  // First come, first served: if j had its ticket when k set entering[k], and k reaches its critical
  // section in that same round, then j went through unlock in between.
  lemma FirstComeFirstServed(run: seq<State>, who: seq<nat>, from: nat, t: nat, k: nat, j: nat)
    requires IsRun(run, who) && from < t < |run|
    requires k < NUM_TASKS && j < NUM_TASKS && j != k
    requires who[from] == k && run[from][k].pc.Idle? && run[from][j].number != 0
    requires forall u | from < u <= t :: |run[u]| == NUM_TASKS && !run[u][k].pc.Idle?
    requires run[t][k].pc.Critical?
    ensures exists u :: from < u < t && who[u] == j && |run[u]| == NUM_TASKS && run[u][j].pc.Critical?
  {
    RunInv(run, who, t);
    NobodyAhead(run[t], AheadAt(run, who, t), k, j);
    if forall u | from < u < t :: who[u] == j ==> !run[u][j].pc.Critical? {
      StaysAhead(run, who, from, t, k, j);
    }
  }

  // When k last set entering before t.
  lemma {:induction false} LastEntry(run: seq<State>, who: seq<nat>, s: nat, t: nat, k: nat) returns (from: nat)
    requires IsRun(run, who) && s < t < |run| && k < NUM_TASKS
    requires WellFormed(run[s]) && WellFormed(run[t]) && run[s][k].pc.Idle? && !run[t][k].pc.Idle?
    ensures s <= from < t && who[from] == k && WellFormed(run[from]) && run[from][k].pc.Idle?
    ensures forall u | from < u <= t :: |run[u]| == NUM_TASKS && !run[u][k].pc.Idle?
    decreases t
  {
    assert WellFormed(run[t - 1]) && run[t] == Next(run[t - 1], who[t - 1]);
    if run[t - 1][k].pc.Idle? {
      from := t - 1;
    } else {
      from := LastEntry(run, who, s, t - 1, k);
    }
  }

  // Bounded overtaking: while j holds a ticket, no other task goes through its critical section and then
  // into it again.
  lemma BoundedOvertaking(run: seq<State>, who: seq<nat>, s: nat, t: nat, k: nat, j: nat)
    requires IsRun(run, who) && s < t < |run| && k < NUM_TASKS && j < NUM_TASKS && j != k
    requires |run[s]| == NUM_TASKS && run[s][j].number != 0
    requires who[s] == k && run[s][k].pc.Critical?
    requires |run[t]| == NUM_TASKS && run[t][k].pc.Critical?
    ensures exists u :: s <= u < t && who[u] == j && |run[u]| == NUM_TASKS && run[u][j].pc.Critical?
  {
    RunInv(run, who, t);
    assert WellFormed(run[s]) && run[s + 1] == Next(run[s], who[s]);
    RunInv(run, who, s + 1);
    var from := LastEntry(run, who, s + 1, t, k);
    if forall u | s <= u < from :: who[u] == j ==> |run[u]| == NUM_TASKS && !run[u][j].pc.Critical? {
      TicketKept(run, who, s, from, j);
      FirstComeFirstServed(run, who, from, t, k, j);
    } else {
      var u :| s <= u < from && who[u] == j && !(|run[u]| == NUM_TASKS && !run[u][j].pc.Critical?);
      assert WellFormed(run[u]);
    }
  }

  // The ticket a task writes is above every ticket that was out when it set entering, and is still out.
  lemma TicketAboveOlder(run: seq<State>, who: seq<nat>, from: nat, t: nat, k: nat, j: nat)
    requires IsRun(run, who) && from < t < |run|
    requires k < NUM_TASKS && j < NUM_TASKS && j != k
    requires who[from] == k && run[from][k].pc.Idle? && run[from][j].number != 0
    requires forall u | from < u <= t :: |run[u]| == NUM_TASKS && !run[u][k].pc.Idle?
    requires forall u | from < u < t :: who[u] == j ==> !run[u][j].pc.Critical?
    requires run[t][k].number != 0
    ensures run[from][j].number == run[t][j].number < run[t][k].number
  {
    StaysAhead(run, who, from, t, k, j);
    RunInv(run, who, t);
    assert Own(run[t], AheadAt(run, who, t), k) && Pair(run[t], AheadAt(run, who, t), k, j);
    TicketKept(run, who, from, t, j);
  }

  lemma {:induction false} TicketKept(run: seq<State>, who: seq<nat>, from: nat, t: nat, j: nat)
    requires IsRun(run, who) && from <= t < |run| && j < NUM_TASKS
    requires |run[from]| == NUM_TASKS && run[from][j].number != 0
    requires forall u | from <= u < t :: who[u] == j ==> |run[u]| == NUM_TASKS && !run[u][j].pc.Critical?
    ensures |run[t]| == NUM_TASKS && run[t][j].number == run[from][j].number
  {
    if t > from {
      TicketKept(run, who, from, t - 1, j);
      RunInv(run, who, t - 1);
      assert Own(run[t - 1], AheadAt(run, who, t - 1), j);
      assert run[t] == Next(run[t - 1], who[t - 1]);
    }
  }

  // ----- Nobody waits for ever on nobody -----

  // Task k would go round its wait loop again if it looked now.
  ghost predicate Blocked(s: State, k: nat)
    requires WellFormed(s) && k < NUM_TASKS
  {
    match s[k].pc
    case WaitEntering(i) => i < NUM_TASKS && i != k && s[i].entering != 0
    case WaitNonZero(i) => s[i].number != 0 && Before(s, i, k)
    case WaitLess(i) => s[i].number != 0 && Before(s, i, k)
    case WaitEqual(i) => s[i].number != 0 && Before(s, i, k)
    case _ => false
  }

  // The holder that comes first among tasks 0..n.
  lemma {:induction false} FirstHolder(s: State, k: nat, n: nat) returns (m: nat)
    requires WellFormed(s) && k < NUM_TASKS && s[k].number != 0 && n <= NUM_TASKS
    ensures m < NUM_TASKS && s[m].number != 0
    ensures forall j | 0 <= j < n && s[j].number != 0 && j != m :: Before(s, m, j)
    ensures m == k || Before(s, m, k)
  {
    if n == 0 {
      m := k;
    } else {
      m := FirstHolder(s, k, n - 1);
      if s[n - 1].number != 0 && n - 1 != m && !Before(s, m, n - 1) { m := n - 1; }
    }
  }

  // Whenever some task is inside lock, a task that is not idle can move on.
  lemma NoDeadlock(run: seq<State>, who: seq<nat>, t: nat, k: nat)
    requires IsRun(run, who) && t < |run|
    requires k < NUM_TASKS
    requires |run[t]| == NUM_TASKS && !run[t][k].pc.Idle?
    ensures WellFormed(run[t])
    ensures exists m: nat :: m < NUM_TASKS && !run[t][m].pc.Idle? && !Blocked(run[t], m)
  {
    RunInv(run, who, t);
    var s, a := run[t], AheadAt(run, who, t);
    if d: nat :| d < NUM_TASKS && Doorway(s[d].pc) {
      assert !Blocked(s, d);
    } else {
      forall j: nat | j < NUM_TASKS ensures s[j].entering == 0 && (s[j].number != 0 <==> !s[j].pc.Idle?) {
        assert Own(s, a, j);
      }
      var m := FirstHolder(s, k, NUM_TASKS);
      assert !Blocked(s, m);
    }
  }
}
