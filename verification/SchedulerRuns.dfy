/** What holds over every run of the scheduler: life cycle, context preservation, fairness. */
module SchedulerRuns {
  import opened Words
  import opened OrderedArrays
  import opened SchedulerModel

  datatype Event = Timer(regs: Registers) | Exits | Creates(t: uint32, task: Task)

  // A created task has a fresh record, a page directory and a nonzero cr3, and the list has room.
  ghost predicate Allowed(s: State, e: Event) {
    match e
    case Creates(t, task) =>
      && t != 0 && t !in s.tasks && t !in s.list && |s.list| < MAX_TASK_COUNT
      && task.status.Created? && task.directory != 0 && task.cr3 != 0
    case _ => true
  }

  function Step(s: State, e: Event): State
    requires Known(s)
  {
    match e
    case Timer(regs) => Tick(s, Frame(regs))
    case Exits => Exit(s)
    case Creates(t, task) => Create(s, t, task)
  }

  function Boot(cr3: uint32, cpu: Cpu): State {
    State([], map[], 0, 0, 0, 0, cr3, cpu, [])
  }

  // ---- life cycle ----

  function Count(log: seq<uint32>, t: uint32): nat { multiset(log)[t] }

  ghost predicate Inv(s: State) {
    && Known(s) && |s.list| <= MAX_TASK_COUNT && Distinct(s.list) && 0 !in s.list
    && s.previous == s.current && 0 !in s.tasks
    && (s.toDelete != 0 ==> s.toDelete in s.tasks && s.tasks[s.toDelete].status.Zombie? && s.toDelete != s.current)
    && (forall t :: t in s.tasks ==> s.tasks[t].directory != 0 && s.tasks[t].cr3 != 0)
    && (forall t :: t in s.tasks && s.tasks[t].status.Running? ==> t == s.current)
    && (s.current != 0 ==> !s.tasks[s.current].status.Created? && s.cr3 == s.tasks[s.current].cr3)
    && (forall t :: t in s.tasks ==> Count(s.setups, t) == if s.tasks[t].status.Created? then 0 else 1)
    && (forall t :: t in s.setups ==> t in s.tasks)
  }

  lemma BootInv(cr3: uint32, cpu: Cpu)
    ensures Inv(Boot(cr3, cpu))
  {
  }

  lemma {:induction false} ScanDistinct(list: seq<uint32>, tasks: map<uint32, Task>, current: uint32, i: nat,
                                        prevIdx: uint32)
    requires Distinct(list) && |list| < TWO_32
    ensures Distinct(Scan(list, tasks, current, i, prevIdx).list)
    decreases |list| - i
  {
    if i < |list| {
      var p := if prevIdx >= |list| - 1 then 0 else prevIdx;
      if Dead(tasks, list[i]) {
        ScanDistinct(Without(list, i), tasks, current, i, p);
      } else if list[i] == current && |list| > 1 {
        ScanDistinct(list, tasks, current, i + 1, p);
      }
    }
  }

  lemma DispatchInv(s: State, t: uint32)
    requires Known(s) && |s.list| <= MAX_TASK_COUNT && Distinct(s.list) && 0 !in s.list
    requires s.previous == s.current && 0 !in s.tasks && s.toDelete == 0
    requires forall u :: u in s.tasks ==> s.tasks[u].directory != 0 && s.tasks[u].cr3 != 0
    requires forall u :: u in s.tasks ==> !s.tasks[u].status.Running?
    requires forall u :: u in s.tasks ==> Count(s.setups, u) == if s.tasks[u].status.Created? then 0 else 1
    requires forall u :: u in s.setups ==> u in s.tasks
    requires t in s.tasks && t != 0 && t != s.current && !s.tasks[t].status.Zombie?
    ensures Inv(Dispatch(s, t))
  {
    var s' := Dispatch(s, t);
    forall u | u in s'.tasks
      ensures Count(s'.setups, u) == if s'.tasks[u].status.Created? then 0 else 1
    {
      assert Count(s.setups + [t], u) == Count(s.setups, u) + (if u == t then 1 else 0);
    }
  }

  lemma SavedInv(s: State, frame: Frame)
    requires Inv(s)
    ensures var s2 := SaveContext(DropDeleted(s), frame);
      && s2.previous == s2.current == s.current && s2.toDelete == 0 && s2.list == s.list && s2.prevIdx == s.prevIdx
      && s2.tasks.Keys == s.tasks.Keys && s2.setups == s.setups && s2.cr3 == s.cr3
      && (forall u :: u in s.tasks ==>
            s2.tasks[u].directory == s.tasks[u].directory && s2.tasks[u].cr3 == s.tasks[u].cr3)
      && (forall u :: u in s.tasks ==> (s2.tasks[u].status.Created? <==> s.tasks[u].status.Created?))
      && (forall u :: u in s.tasks ==> (s2.tasks[u].status.Zombie? <==> s.tasks[u].status.Zombie?))
      && (frame.Frame? ==> forall u :: u in s.tasks ==> !s2.tasks[u].status.Running?)
  {
  }

  lemma TickInv(s: State, regs: Registers)
    requires Inv(s)
    ensures Inv(Tick(s, Frame(regs)))
  {
    SavedInv(s, Frame(regs));
    var s2 := SaveContext(DropDeleted(s), Frame(regs));
    if |s.list| > 0 {
      var p := Start(s2.prevIdx, |s2.list|);
      ScanKeeps(s2.list, s2.tasks, s2.current, p, p);
      ScanDistinct(s2.list, s2.tasks, s2.current, p, p);
      var r := Scan(s2.list, s2.tasks, s2.current, p, p);
      var s3 := s2.(list := r.list, prevIdx := r.prevIdx);
      if r.next != 0 && r.next != s3.current {
        DispatchInv(s3, r.next);
      }
    }
  }

  lemma StepInv(s: State, e: Event)
    requires Inv(s) && Allowed(s, e)
    ensures Inv(Step(s, e))
  {
    match e
    case Timer(regs) => TickInv(s, regs);
    case Exits =>
    case Creates(t, task) =>
      assert Count(s.setups, t) == 0;
  }

  // ---- what each step does, field by field ----

  // An exit makes the current task a zombie and touches nothing else.
  lemma ExitKills(s: State)
    requires Inv(s) && s.current != 0
    ensures var s', c := Step(s, Exits), s.current;
      && s'.tasks.Keys == s.tasks.Keys && s'.tasks[c].status == Zombie
      && s'.tasks[c].state == s.tasks[c].state && s'.tasks[c].directory == s.tasks[c].directory
      && s'.tasks[c].cr3 == s.tasks[c].cr3 && s'.tasks[c].isThread == s.tasks[c].isThread
      && (forall t :: t in s.tasks && t != c ==> s'.tasks[t] == s.tasks[t])
      && s'.list == s.list && s'.current == c && s'.previous == s.previous && s'.toDelete == s.toDelete
      && s'.prevIdx == s.prevIdx && s'.cr3 == s.cr3 && s'.loaded == s.loaded && s'.setups == s.setups
  {
  }

  // A new task goes in front of the list, which keeps its order, and no other record changes.
  lemma CreatedFirst(s: State, t: uint32, task: Task)
    requires Inv(s) && Allowed(s, Creates(t, task))
    ensures var s' := Step(s, Creates(t, task));
      && |s'.list| == |s.list| + 1 && s'.list[0] == t && s'.list[1..] == s.list
      && s'.tasks.Keys == s.tasks.Keys + {t} && s'.tasks[t] == task
      && (forall u :: u in s.tasks ==> s'.tasks[u] == s.tasks[u])
      && s'.current == s.current && s'.previous == s.previous && s'.toDelete == s.toDelete
      && s'.prevIdx == s.prevIdx && s'.cr3 == s.cr3 && s'.loaded == s.loaded && s'.setups == s.setups
  {
  }

  // The entries whose tasks are not zombies, in order.
  function Alive(list: seq<uint32>, tasks: map<uint32, Task>): seq<uint32>
    requires forall t :: t in list ==> t in tasks
  {
    if list == [] then []
    else (if tasks[list[0]].status == Zombie then [] else [list[0]]) + Alive(list[1..], tasks)
  }

  // `k` is the first place from `p` on with a task that can be switched to, or the end of the list.
  ghost predicate FirstOther(list: seq<uint32>, tasks: map<uint32, Task>, current: uint32, p: nat, k: nat)
    requires forall t :: t in list ==> t in tasks
  {
    && p <= k <= |list|
    && (forall j :: p <= j < k ==> tasks[list[j]].status == Zombie || list[j] == current)
    && (k < |list| ==> tasks[list[k]].status != Zombie && list[k] != current)
  }

  // A scan from `i` that switches to the entry at `k` has taken the zombies between them off the list.
  ghost predicate Swept(list: seq<uint32>, tasks: map<uint32, Task>, current: uint32, i: nat, k: nat, r: Scanned)
    requires forall t :: t in list ==> t in tasks
  {
    && FirstOther(list, tasks, current, i, k)
    && r.list == list[..i] + Alive(list[i..k], tasks) + list[k..]
    && (if k < |list| then r.next == list[k] && r.prevIdx == i + |Alive(list[i..k], tasks)|
        else r.next == 0 || r.next == current)
  }

  lemma SweptDrop(list: seq<uint32>, tasks: map<uint32, Task>, current: uint32, i: nat, k: nat, r: Scanned)
    requires forall t :: t in list ==> t in tasks
    requires i < |list| && tasks[list[i]].status == Zombie && Swept(Without(list, i), tasks, current, i, k, r)
    ensures Swept(list, tasks, current, i, k + 1, r)
  {
    var rest := Without(list, i);
    assert forall j :: i <= j < |rest| ==> rest[j] == list[j + 1];
    assert rest[..i] == list[..i] && rest[k..] == list[k + 1..];
    assert list[i..k + 1] == [list[i]] + rest[i..k];
    forall j | i <= j < k + 1
      ensures tasks[list[j]].status == Zombie || list[j] == current
    {
      if j > i {
        assert list[j] == rest[j - 1];
      }
    }
  }

  lemma SweptPass(list: seq<uint32>, tasks: map<uint32, Task>, current: uint32, i: nat, k: nat, r: Scanned)
    requires forall t :: t in list ==> t in tasks
    requires i < |list| && tasks[list[i]].status != Zombie && list[i] == current
    requires Swept(list, tasks, current, i + 1, k, r)
    ensures Swept(list, tasks, current, i, k, r)
  {
    assert list[i..k] == [list[i]] + list[i + 1..k];
    assert list[..i + 1] == list[..i] + [list[i]];
  }

  lemma SweptStop(list: seq<uint32>, tasks: map<uint32, Task>, current: uint32, i: nat, r: Scanned) returns (k: nat)
    requires forall t :: t in list ==> t in tasks
    requires i < |list| && tasks[list[i]].status != Zombie && (list[i] != current || |list| == 1)
    requires r.list == list && r.next == list[i] && r.prevIdx == i
    ensures Swept(list, tasks, current, i, k, r)
  {
    k := if list[i] == current then 1 else i;
    if list[i] == current {
      assert list == [current] && list[i..k] == [current] && Alive([current][1..], tasks) == [];
    } else {
      assert list[i..k] == [];
    }
  }

  lemma {:induction false} ScanSweeps(list: seq<uint32>, tasks: map<uint32, Task>, current: uint32, i: nat,
                                      prevIdx: uint32)
    returns (k: nat)
    requires i <= |list| < TWO_32 && 0 !in list && (forall t :: t in list ==> t in tasks)
    ensures Swept(list, tasks, current, i, k, Scan(list, tasks, current, i, prevIdx))
    decreases |list| - i
  {
    hide Swept;
    var p := Start(prevIdx, |list|);
    ScanStep(list, tasks, current, i, prevIdx);
    if i == |list| {
      k := i;
      NothingToSweep(list, tasks, current, prevIdx);
    } else if Dead(tasks, list[i]) {
      k := ScanSweeps(Without(list, i), tasks, current, i, p);
      SweptDrop(list, tasks, current, i, k, Scan(Without(list, i), tasks, current, i, p));
      k := k + 1;
    } else if list[i] == current && |list| > 1 {
      k := ScanSweeps(list, tasks, current, i + 1, p);
      SweptPass(list, tasks, current, i, k, Scan(list, tasks, current, i + 1, p));
    } else {
      k := SweptStop(list, tasks, current, i, Scanned(list, list[i], i));
    }
  }

  lemma NothingToSweep(list: seq<uint32>, tasks: map<uint32, Task>, current: uint32, prevIdx: uint32)
    requires forall t :: t in list ==> t in tasks
    ensures Swept(list, tasks, current, |list|, |list|, Scanned(list, 0, prevIdx))
  {
  }

  // Which task a tick makes current, and which zombies leave the list: the search starts at the last place, or at
  // the front after the last entry, and ends at the first task that is neither a zombie nor the current one.
  lemma TickPicks(s: State, regs: Registers) returns (k: nat)
    requires Inv(s) && s.list != []
    ensures var s', list, p := Step(s, Timer(regs)), s.list, if s.prevIdx >= |s.list| - 1 then 0 else s.prevIdx;
      && p <= k <= |list|
      && (forall j :: p <= j < k ==> s.tasks[list[j]].status == Zombie || list[j] == s.current)
      && (k < |list| ==> s.tasks[list[k]].status != Zombie && list[k] != s.current)
      && s'.current == (if k < |list| then list[k] else s.current)
      && s'.list == list[..p] + Alive(list[p..k], s.tasks) + list[k..]
      && (k < |list| ==> s'.prevIdx == p + |Alive(list[p..k], s.tasks)|)
  {
    SavedInv(s, Frame(regs));
    var s2 := SaveContext(DropDeleted(s), Frame(regs));
    var p := Start(s2.prevIdx, |s2.list|);
    k := ScanSweeps(s2.list, s2.tasks, s2.current, p, p);
    AliveAgrees(s.list[p..k], s.tasks, s2.tasks);
    ScanKeeps(s2.list, s2.tasks, s2.current, p, p);
  }

  lemma {:induction false} AliveAgrees(list: seq<uint32>, a: map<uint32, Task>, b: map<uint32, Task>)
    requires forall t :: t in list ==> t in a && t in b && (a[t].status.Zombie? <==> b[t].status.Zombie?)
    ensures Alive(list, a) == Alive(list, b)
  {
    if list != [] {
      AliveAgrees(list[1..], a, b);
    }
  }

  // What a tick does to the records: the interrupted task is saved unless it has exited, the one that takes over
  // runs from its saved registers in its own address space, and no other record changes. A zombie that was left is
  // to be deleted until the next tick.
  lemma TickRecords(s: State, regs: Registers)
    requires Inv(s) && s.list != []
    ensures var s', c, n := Step(s, Timer(regs)), s.current, Step(s, Timer(regs)).current;
      && s'.tasks.Keys == s.tasks.Keys && s'.previous == n
      && (forall t :: t in s.tasks && t != c && t != n ==> s'.tasks[t] == s.tasks[t])
      && (c != 0 ==>
            s'.tasks[c] == if s.tasks[c].status == Zombie then s.tasks[c]
                           else Task(Ready, regs.(esp := regs.useresp), s.tasks[c].directory, s.cr3,
                                     s.tasks[c].isThread))
      && (n != c ==>
            && n in s.tasks && s'.tasks[n] == s.tasks[n].(status := Running)
            && s'.loaded == Loaded(s.tasks[n].state) && s'.cr3 == s.tasks[n].cr3
            && s'.setups == (if s.tasks[n].status == Created then s.setups + [n] else s.setups))
      && (n == c ==> s'.loaded == s.loaded && s'.cr3 == s.cr3 && s'.setups == s.setups)
      && s'.toDelete == (if n != c && c != 0 && s.tasks[c].status == Zombie then c else 0)
  {
    SavedInv(s, Frame(regs));
    var s2 := SaveContext(DropDeleted(s), Frame(regs));
    var p := Start(s2.prevIdx, |s2.list|);
    ScanKeeps(s2.list, s2.tasks, s2.current, p, p);
  }

  // ---- runs ----

  ghost predicate Runs(s: State, es: seq<Event>)
    decreases |es|
  {
    Known(s) && (es == [] || (Allowed(s, es[0]) && Runs(Step(s, es[0]), es[1..])))
  }

  function End(s: State, es: seq<Event>): (r: State)
    requires Runs(s, es)
    ensures Known(r)
    decreases |es|
  {
    if es == [] then s else End(Step(s, es[0]), es[1..])
  }

  lemma {:induction false} RunInv(s: State, es: seq<Event>)
    requires Inv(s) && Runs(s, es)
    ensures Inv(End(s, es))
    decreases |es|
  {
    if es != [] {
      StepInv(s, es[0]);
      RunInv(Step(s, es[0]), es[1..]);
    }
  }

  lemma StepKeepsDead(s: State, e: Event, t: uint32)
    requires Inv(s) && Allowed(s, e) && t in s.tasks && s.tasks[t].status.Zombie?
    ensures t in Step(s, e).tasks && Step(s, e).tasks[t].status.Zombie?
    ensures Step(s, e).current == t ==> s.current == t
    ensures Count(Step(s, e).setups, t) == Count(s.setups, t)
  {
    if e.Timer? {
      SavedInv(s, Frame(e.regs));
      var s2 := SaveContext(DropDeleted(s), Frame(e.regs));
      if |s.list| > 0 {
        var p := Start(s2.prevIdx, |s2.list|);
        ScanKeeps(s2.list, s2.tasks, s2.current, p, p);
      }
    }
  }

  // A task that has exited stays so, and once another task runs it never runs again.
  lemma {:induction false} DeadForever(s: State, es: seq<Event>, t: uint32)
    requires Inv(s) && Runs(s, es) && t in s.tasks && s.tasks[t].status.Zombie?
    ensures var s' := End(s, es); t in s'.tasks && s'.tasks[t].status.Zombie?
    ensures End(s, es).current == t ==> s.current == t
    decreases |es|
  {
    if es != [] {
      StepInv(s, es[0]);
      StepKeepsDead(s, es[0], t);
      DeadForever(Step(s, es[0]), es[1..], t);
    }
  }

  // A task that exits while it runs is never current again once another task is.
  lemma ExitedForGood(s: State, es: seq<Event>, more: seq<Event>)
    requires Inv(s) && s.current != 0 && Runs(Step(s, Exits), es)
    requires End(Step(s, Exits), es).current != s.current && Runs(End(Step(s, Exits), es), more)
    ensures End(End(Step(s, Exits), es), more).current != s.current
  {
    var s1 := Step(s, Exits);
    ExitKills(s);
    StepInv(s, Exits);
    DeadForever(s1, es, s.current);
    RunInv(s1, es);
    DeadForever(End(s1, es), more, s.current);
  }

  // From boot on: at most one task runs and it is the current one, the task whose registers the next
  // tick saves is the current one, the address-space register is the current task's, and the first-run
  // set-up was done once for every task that ever ran and for no other.
  lemma LifeCycle(cr3: uint32, cpu: Cpu, es: seq<Event>)
    requires Runs(Boot(cr3, cpu), es)
    ensures var s := End(Boot(cr3, cpu), es);
      && s.previous == s.current
      && (forall t :: t in s.tasks && s.tasks[t].status.Running? ==> t == s.current)
      && (s.current != 0 ==> s.current in s.tasks && s.cr3 == s.tasks[s.current].cr3)
      && (forall t :: t in s.tasks ==> Count(s.setups, t) == if s.tasks[t].status.Created? then 0 else 1)
      && Distinct(s.list) && |s.list| <= MAX_TASK_COUNT
  {
    BootInv(cr3, cpu);
    RunInv(Boot(cr3, cpu), es);
  }

  // ---- context preservation ----

  lemma StepLeavesOthers(s: State, e: Event, t: uint32)
    requires Inv(s) && Allowed(s, e) && t in s.tasks && t != s.current
    ensures var s' := Step(s, e);
      t in s'.tasks && s'.tasks[t].state == s.tasks[t].state && s'.tasks[t].cr3 == s.tasks[t].cr3
    ensures Step(s, e).current == t ==>
              Step(s, e).loaded == Loaded(s.tasks[t].state) && Step(s, e).cr3 == s.tasks[t].cr3
  {
    if e.Timer? && |s.list| > 0 {
      SavedInv(s, Frame(e.regs));
      var s2 := SaveContext(DropDeleted(s), Frame(e.regs));
      var p := Start(s2.prevIdx, |s2.list|);
      ScanKeeps(s2.list, s2.tasks, s2.current, p, p);
    }
  }

  // `t` is not the current task at any point of the run.
  ghost predicate Away(s: State, es: seq<Event>, t: uint32)
    requires Runs(s, es)
    decreases |es|
  {
    s.current != t && (es == [] || Away(Step(s, es[0]), es[1..], t))
  }

  lemma {:induction false} AwayKeepsContext(s: State, es: seq<Event>, t: uint32)
    requires Inv(s) && Runs(s, es) && t in s.tasks && Away(s, es, t)
    ensures var s' := End(s, es);
      && Inv(s') && t in s'.tasks && s'.current != t
      && s'.tasks[t].state == s.tasks[t].state && s'.tasks[t].cr3 == s.tasks[t].cr3
    decreases |es|
  {
    if es != [] {
      StepInv(s, es[0]);
      StepLeavesOthers(s, es[0], t);
      AwayKeepsContext(Step(s, es[0]), es[1..], t);
    }
  }

  lemma TickSaves(s: State, regs: Registers)
    requires Inv(s) && s.current != 0 && !s.tasks[s.current].status.Zombie? && s.list != []
    ensures var t, s' := s.current, Step(s, Timer(regs));
      t in s'.tasks && s'.tasks[t].state == Saved(regs) && s'.tasks[t].cr3 == s.tasks[t].cr3
  {
    var s2 := SaveContext(DropDeleted(s), Frame(regs));
    var p := Start(s2.prevIdx, |s2.list|);
    ScanKeeps(s2.list, s2.tasks, s2.current, p, p);
  }

  // A task that a tick interrupts and another tick dispatches again, whatever happened in between,
  // finds the registers and the address space it was interrupted with.
  lemma ResumesWhereItStopped(s: State, regs: Registers, es: seq<Event>, regs2: Registers)
    requires Inv(s) && s.current != 0 && !s.tasks[s.current].status.Zombie? && s.list != []
    requires Runs(Step(s, Timer(regs)), es) && Away(Step(s, Timer(regs)), es, s.current)
    requires Step(End(Step(s, Timer(regs)), es), Timer(regs2)).current == s.current
    ensures var s' := Step(End(Step(s, Timer(regs)), es), Timer(regs2));
      s'.loaded == Interrupted(regs) && s'.cr3 == s.tasks[s.current].cr3
  {
    var s1 := Step(s, Timer(regs));
    TickInv(s, regs);
    TickSaves(s, regs);
    AwayKeepsContext(s1, es, s.current);
    StepLeavesOthers(End(s1, es), Timer(regs2), s.current);
    SwitchBackRestores(regs);
  }

  // ---- fairness ----

  // How a scan from `i` that ended in `r` deals with the entry at `q`: it is still listed, at `q'`, and
  // the scan stopped at or before it or started behind it.
  ghost predicate Found(list: seq<uint32>, current: uint32, i: nat, q: nat, r: Scanned, q': nat)
    requires q < |list|
  {
    && |r.list| <= |list| && q' == (if q < i then q else q - (|list| - |r.list|))
    && q' < |r.list| && r.list[q'] == list[q]
    && (r.next == 0 ==> q < i)
    && (r.next != 0 ==> i <= r.prevIdx < |r.list| && r.list[r.prevIdx] == r.next && r.next != current)
    && (r.next != 0 && q >= i ==> r.prevIdx <= q')
  }

  lemma FoundAfterDrop(list: seq<uint32>, current: uint32, i: nat, q: nat, q1: nat, r: Scanned, q': nat)
    requires i < |list| && q < |list| && q != i && q1 == (if q < i then q else q - 1)
    requires q1 < |list| - 1 && Found(Without(list, i), current, i, q1, r, q')
    ensures Found(list, current, i, q, r, q')
  {
    assert Without(list, i)[q1] == list[q];
  }

  lemma FoundAfterPass(list: seq<uint32>, current: uint32, i: nat, q: nat, r: Scanned, q': nat)
    requires i < |list| && q < |list| && q != i && Found(list, current, i + 1, q, r, q')
    ensures Found(list, current, i, q, r, q')
  {
  }

  lemma FoundBehind(list: seq<uint32>, current: uint32, i: nat, q: nat, r: Scanned, q': nat)
    requires q < |list| && Found(list, current, i, q, r, q')
    ensures |r.list| <= |list| && (r.next != 0 ==> i <= r.prevIdx)
  {
  }

  // A live task that is not the current one is found by every scan.
  lemma {:induction false} ScanFinds(list: seq<uint32>, tasks: map<uint32, Task>, current: uint32, i: nat,
                                     prevIdx: uint32, q: nat)
    returns (r: Scanned, q': nat)
    requires q < |list| < TWO_32 && i <= |list| && !Dead(tasks, list[q]) && list[q] != current
    ensures r == Scan(list, tasks, current, i, prevIdx) && Found(list, current, i, q, r, q')
    decreases |list| - i
  {
    var p := Start(prevIdx, |list|);
    if i >= |list| {
      r, q' := Scanned(list, 0, prevIdx), q;
    } else if Dead(tasks, list[i]) {
      hide Scan, Found, Start, Without;
      ScanDrops(list, tasks, current, i, prevIdx);
      var q1 := if q < i then q else q - 1;
      r, q' := ScanFinds(Without(list, i), tasks, current, i, p, q1);
      FoundAfterDrop(list, current, i, q, q1, r, q');
    } else if list[i] == current && |list| > 1 {
      hide Scan, Found, Start;
      ScanSkips(list, tasks, current, i, prevIdx);
      r, q' := ScanFinds(list, tasks, current, i + 1, p, q);
      FoundAfterPass(list, current, i, q, r, q');
    } else {
      r, q' := Scanned(list, list[i], i), q;
    }
  }

  // A scan that starts at an entry it cannot stop at passes it or drops it.
  lemma ScanPasses(list: seq<uint32>, tasks: map<uint32, Task>, current: uint32, i: nat, prevIdx: uint32, q: nat)
    requires q < |list| < TWO_32 && i < |list| && !Dead(tasks, list[q]) && list[q] != current
    requires Dead(tasks, list[i]) || list[i] == current
    ensures var r := Scan(list, tasks, current, i, prevIdx); r.next != 0 ==> r.prevIdx + (|list| - |r.list|) > i
  {
    hide Scan, Start, Found, Without;
    var p := Start(prevIdx, |list|);
    if Dead(tasks, list[i]) {
      ScanDrops(list, tasks, current, i, prevIdx);
      var q1 := if q < i then q else q - 1;
      var r, q' := ScanFinds(Without(list, i), tasks, current, i, p, q1);
      FoundBehind(Without(list, i), current, i, q1, r, q');
    } else {
      ScanSkips(list, tasks, current, i, prevIdx);
      var r, q' := ScanFinds(list, tasks, current, i + 1, p, q);
      FoundBehind(list, current, i + 1, q, r, q');
    }
  }

  // No entry from `i` on is the current task.
  ghost predicate NoneFrom(list: seq<uint32>, current: uint32, i: nat) {
    forall j :: i <= j < |list| ==> list[j] != current
  }

  // A scan that stops nowhere has dropped everything from `i` on but the current task.
  lemma {:induction false} ScanExhausts(list: seq<uint32>, tasks: map<uint32, Task>, current: uint32, i: nat,
                                        prevIdx: uint32)
    returns (r: Scanned)
    requires Distinct(list) && i <= |list| < TWO_32 && Scan(list, tasks, current, i, prevIdx).next == 0
    ensures r == Scan(list, tasks, current, i, prevIdx) && (r.prevIdx == prevIdx || r.prevIdx == 0)
    ensures |r.list| <= i + 1 && (NoneFrom(list, current, i) ==> |r.list| <= i)
    decreases |list| - i
  {
    var p := Start(prevIdx, |list|);
    r := Scanned(list, 0, prevIdx);
    if i < |list| {
      if Dead(tasks, list[i]) {
        DistinctWithout(list, i);
        NoneFromOn(list, current, i);
        hide Scan, Without, Distinct, NoneFrom;
        ScanDrops(list, tasks, current, i, prevIdx);
        r := ScanExhausts(Without(list, i), tasks, current, i, p);
      } else {
        NoneFromOn(list, current, i);
        SkipsOnly(list, tasks, current, i, prevIdx);
        hide Scan, Distinct, NoneFrom;
        ScanSkips(list, tasks, current, i, prevIdx);
        r := ScanExhausts(list, tasks, current, i + 1, p);
      }
    }
  }

  lemma SkipsOnly(list: seq<uint32>, tasks: map<uint32, Task>, current: uint32, i: nat, prevIdx: uint32)
    requires i < |list| < TWO_32 && !Dead(tasks, list[i]) && Scan(list, tasks, current, i, prevIdx).next == 0
    ensures list[i] == current && |list| > 1
  {
  }

  lemma NoneFromOn(list: seq<uint32>, current: uint32, i: nat)
    requires Distinct(list) && i < |list|
    ensures NoneFrom(list, current, i) ==> NoneFrom(Without(list, i), current, i)
    ensures list[i] == current ==> NoneFrom(list, current, i + 1)
    ensures NoneFrom(list, current, i) ==> list[i] != current
  {
  }

  lemma DistinctWithout(list: seq<uint32>, i: nat)
    requires Distinct(list) && i < |list|
    ensures Distinct(Without(list, i))
  {
  }

  // How many ticks the task at position `q` may have to wait.
  function Wait(list: seq<uint32>, current: uint32, prevIdx: uint32, q: nat): nat
    requires q < |list| < TWO_32
  {
    var p := Start(prevIdx, |list|);
    (if q >= p then q - p else |list| - p + q) + (if list[p] == current then 0 else 1)
  }

  lemma WaitAtMostAll(list: seq<uint32>, current: uint32, prevIdx: uint32, q: nat)
    requires q < |list| < TWO_32 && list[q] != current
    ensures 0 < Wait(list, current, prevIdx, q) <= |list|
  {
  }

  // The wait of the entry at `q` after a scan that left `rest` and stopped at its entry `k`.
  lemma WaitAfterStop(list: seq<uint32>, current: uint32, prevIdx: uint32, q: nat, rest: seq<uint32>, k: uint32,
                      q': nat)
    requires q < |list| < TWO_32 && |rest| <= |list| && k < |rest| && q' < |rest| && q' != k
    requires var p := Start(prevIdx, |list|);
      && p <= k && (q >= p ==> k <= q') && q' == (if q < p then q else q - (|list| - |rest|))
      && (list[p] == current ==> k + (|list| - |rest|) > p)
    ensures Wait(rest, rest[k], k, q') < Wait(list, current, prevIdx, q)
  {
    StoppedBefore(list, rest, k, Start(prevIdx, |list|), q, q', list[Start(prevIdx, |list|)] == current);
  }

  // The scan of a tick shortens the wait of every live task it does not stop at.
  lemma ScanShortensWait(list: seq<uint32>, tasks: map<uint32, Task>, current: uint32, prevIdx: uint32, q: nat)
    returns (q': nat)
    requires q < |list| < TWO_32 && Distinct(list) && !Dead(tasks, list[q]) && list[q] != current
    ensures var p := Start(prevIdx, |list|);
      var r := Scan(list, tasks, current, p, p);
      && q' < |r.list| < TWO_32 && r.list[q'] == list[q]
      && (r.next == list[q]
          || Wait(r.list, if r.next != 0 then r.next else current, r.prevIdx, q') < Wait(list, current, prevIdx, q))
  {
    hide Wait, Distinct, Scan;
    var p := Start(prevIdx, |list|);
    var r;
    r, q' := ScanFinds(list, tasks, current, p, p, q);
    if Dead(tasks, list[p]) || list[p] == current {
      ScanPasses(list, tasks, current, p, p, q);
    }
    if r.next == 0 {
      var _ := ScanExhausts(list, tasks, current, p, p);
      WaitAfterExhausting(list, current, prevIdx, q, r.list, r.prevIdx);
    } else if r.next != list[q] {
      WaitAfterStop(list, current, prevIdx, q, r.list, r.prevIdx, q');
    }
  }

  lemma WaitAfterExhausting(list: seq<uint32>, current: uint32, prevIdx: uint32, q: nat, rest: seq<uint32>, k: uint32)
    requires q < |rest| <= |list| < TWO_32
    requires var p := Start(prevIdx, |list|); q < p && |rest| <= p + 1 && k in {p, 0}
    ensures Wait(rest, current, k, q) < Wait(list, current, prevIdx, q)
  {
  }

  lemma StoppedBefore(list: seq<uint32>, rest: seq<uint32>, k: nat, p: nat, q: nat, q': nat, atCurrent: bool)
    requires q < |list| && |rest| <= |list| && k < |rest| && q' < |rest| && q' != k && p <= k && (q >= p ==> k <= q')
    requires q' == if q < p then q else q - (|list| - |rest|)
    requires q < p ==> p < |list| - 1
    requires atCurrent ==> k + (|list| - |rest|) > p
    ensures var p' := if k >= |rest| - 1 then 0 else k;
      (if q' >= p' then q' - p' else |rest| - p' + q') + (if p' == k then 0 else 1)
      < (if q >= p then q - p else |list| - p + q) + (if atCurrent then 0 else 1)
  {
  }

  ghost predicate Waits(s: State, t: uint32, q: nat) {
    q < |s.list| < TWO_32 && s.list[q] == t && !Dead(s.tasks, t) && s.current != t
  }

  // Each tick brings a waiting task closer to the processor, or gives it the processor.
  lemma TickShortensWait(s: State, regs: Registers, t: uint32, q: nat) returns (q': nat)
    requires Inv(s) && Waits(s, t, q)
    ensures var s' := Step(s, Timer(regs));
      s'.current == t
      || (Waits(s', t, q') && Wait(s'.list, s'.current, s'.prevIdx, q') < Wait(s.list, s.current, s.prevIdx, q))
  {
    SavedInv(s, Frame(regs));
    var s2 := SaveContext(DropDeleted(s), Frame(regs));
    var p := Start(s2.prevIdx, |s2.list|);
    ScanKeeps(s2.list, s2.tasks, s2.current, p, p);
    q' := ScanShortensWait(s2.list, s2.tasks, s2.current, s2.prevIdx, q);
  }

  function Ticks(es: seq<Event>): nat {
    if es == [] then 0 else (if es[0].Timer? then 1 else 0) + Ticks(es[1..])
  }

  function Creations(es: seq<Event>): nat {
    if es == [] then 0 else (if es[0].Creates? then 1 else 0) + Creations(es[1..])
  }

  // A task created meanwhile goes to the front: it can turn the scan round and puts every place one further on.
  lemma CreationLengthensWait(list: seq<uint32>, current: uint32, prevIdx: uint32, q: nat, t: uint32)
    requires q < |list| < TWO_32 - 1
    ensures Wait([t] + list, current, prevIdx, q + 1) <= Wait(list, current, prevIdx, q) + 4
  {
  }

  // Task `t` is current at some point of the run.
  ghost predicate GetsProcessor(s: State, es: seq<Event>, t: uint32)
    requires Runs(s, es)
    decreases |es|
  {
    s.current == t || (es != [] && GetsProcessor(Step(s, es[0]), es[1..], t))
  }

  lemma {:induction false} WaitRunsOut(s: State, es: seq<Event>, t: uint32, q: nat)
    requires Inv(s) && Runs(s, es) && Waits(s, t, q)
    requires Wait(s.list, s.current, s.prevIdx, q) + 4 * Creations(es) <= Ticks(es)
    ensures GetsProcessor(s, es, t)
    decreases |es|
  {
    WaitAtMostAll(s.list, s.current, s.prevIdx, q);
    assert es != [];
    var s' := Step(s, es[0]);
    StepInv(s, es[0]);
    if es[0].Timer? {
      var q' := TickShortensWait(s, es[0].regs, t, q);
      if s'.current != t {
        WaitRunsOut(s', es[1..], t, q');
      }
    } else if es[0].Creates? {
      CreationLengthensWait(s.list, s.current, s.prevIdx, q, es[0].t);
      WaitRunsOut(s', es[1..], t, q + 1);
    } else {
      WaitRunsOut(s', es[1..], t, q);
    }
  }

  // No starvation: every live task in a list of n entries gets the processor within n ticks, and four more for
  // each task created meanwhile, whatever other tasks exit.
  lemma NoStarvation(s: State, es: seq<Event>, t: uint32)
    requires Inv(s) && Runs(s, es) && t in s.list && !s.tasks[t].status.Zombie?
    requires Ticks(es) >= |s.list| + 4 * Creations(es)
    ensures GetsProcessor(s, es, t)
  {
    if s.current != t {
      var q :| 0 <= q < |s.list| && s.list[q] == t;
      WaitAtMostAll(s.list, s.current, s.prevIdx, q);
      WaitRunsOut(s, es, t, q);
    }
  }

  // From its creation on, a task gets the processor within one tick for every entry of the list and four more for
  // each task created later.
  lemma CreatedRuns(s: State, t: uint32, task: Task, es: seq<Event>)
    requires Inv(s) && Allowed(s, Creates(t, task)) && Runs(Step(s, Creates(t, task)), es)
    requires Ticks(es) >= |s.list| + 1 + 4 * Creations(es)
    ensures GetsProcessor(Step(s, Creates(t, task)), es, t)
  {
    CreatedFirst(s, t, task);
    StepInv(s, Creates(t, task));
    NoStarvation(Step(s, Creates(t, task)), es, t);
  }

  // Its first dispatch, whenever that is, loads the registers and the address space it was created with.
  lemma FirstDispatch(s: State, t: uint32, task: Task, es: seq<Event>, regs: Registers)
    requires Inv(s) && Allowed(s, Creates(t, task)) && Runs(Step(s, Creates(t, task)), es)
    requires Away(Step(s, Creates(t, task)), es, t)
    requires Step(End(Step(s, Creates(t, task)), es), Timer(regs)).current == t
    ensures var s' := Step(End(Step(s, Creates(t, task)), es), Timer(regs));
      && s'.cr3 == task.cr3
      && s'.loaded == Cpu(task.state.eax, task.state.ebx, task.state.ecx, task.state.edx, task.state.esi,
                          task.state.edi, task.state.ebp, task.state.esp, task.state.eip, task.state.eflags)
  {
    var s1 := Step(s, Creates(t, task));
    CreatedFirst(s, t, task);
    StepInv(s, Creates(t, task));
    AwayKeepsContext(s1, es, t);
    StepLeavesOthers(End(s1, es), Timer(regs), t);
  }

  // ---- round robin ----

  // At least two tasks, all alive, and the current one where the scheduler last stopped.
  ghost predicate Cycling(s: State) {
    && Inv(s) && |s.list| >= 2 && s.prevIdx < |s.list| && s.current == s.list[s.prevIdx]
    && forall i :: 0 <= i < |s.list| ==> !Dead(s.tasks, s.list[i])
  }

  function Next(i: nat, n: nat): nat { if i + 1 >= n then 0 else i + 1 }

  // A scan among live tasks stops at the first one that is not the current task.
  lemma ScanStopsAtNext(list: seq<uint32>, tasks: map<uint32, Task>, i: nat)
    requires Distinct(list) && 2 <= |list| < TWO_32 && i < |list|
    requires forall j :: 0 <= j < |list| ==> !Dead(tasks, list[j])
    ensures var p := Start(i, |list|);
      Scan(list, tasks, list[i], p, p) == Scanned(list, list[Next(i, |list|)], Next(i, |list|))
  {
    var p := Start(i, |list|);
    if i < |list| - 1 {
      assert Scan(list, tasks, list[i], p, p) == Scan(list, tasks, list[i], p + 1, p);
    }
  }

  lemma TickCycles(s: State, regs: Registers)
    requires Cycling(s)
    ensures var s' := Step(s, Timer(regs));
      Cycling(s') && s'.list == s.list && s'.prevIdx == Next(s.prevIdx, |s.list|)
  {
    hide Scan;
    SavedInv(s, Frame(regs));
    TickInv(s, regs);
    var s2 := SaveContext(DropDeleted(s), Frame(regs));
    ScanStopsAtNext(s.list, s2.tasks, s.prevIdx);
    var next := Next(s.prevIdx, |s.list|);
    assert s.list[next] != s.current && s.list[next] != 0;
  }

  // After k ticks the task k places further on is current.
  lemma {:induction false} RoundRobin(s: State, es: seq<Event>)
    requires Cycling(s) && Runs(s, es) && Ticks(es) == |es|
    ensures var s' := End(s, es);
      Cycling(s') && s'.list == s.list && s'.prevIdx == Around(s.prevIdx + |es|, |s.list|)
    decreases |es|
  {
    hide Around, Cycling;
    if es == [] {
      AroundSmall(s, es);
    } else {
      TicksAtMost(es[1..]);
      TickCycles(s, es[0].regs);
      RoundRobin(Step(s, es[0]), es[1..]);
      AroundNext(s, es);
    }
  }

  // x mod n
  function Around(x: nat, n: nat): nat
    requires n > 0
  {
    x % n
  }

  lemma AroundSmall(s: State, es: seq<Event>)
    requires Cycling(s)
    ensures Around(s.prevIdx as nat + 0, |s.list|) == s.prevIdx
  {
    SmallMod(s.prevIdx, |s.list|);
  }

  lemma AroundNext(s: State, es: seq<Event>)
    requires Cycling(s) && es != []
    ensures Around(Next(s.prevIdx, |s.list|) + |es[1..]|, |s.list|) == Around(s.prevIdx as nat + |es|, |s.list|)
  {
    if s.prevIdx + 1 == |s.list| {
      AddOnce(|es| - 1, |s.list|);
    }
  }

  lemma {:induction false} TicksAtMost(es: seq<Event>)
    ensures Ticks(es) <= |es|
  {
    if es != [] {
      TicksAtMost(es[1..]);
    }
  }

  lemma {:induction false} ProductAtLeast(d: int, n: nat)
    requires d >= 1
    ensures d * n >= n
    decreases d
  {
    if d > 1 {
      ProductAtLeast(d - 1, n);
      assert d * n == (d - 1) * n + n;
    }
  }

  // Quotient and remainder are unique.
  lemma SameRemainder(q: int, r: int, q': int, r': int, n: nat)
    requires 0 <= r < n && 0 <= r' < n && q * n + r == q' * n + r'
    ensures r == r'
  {
    assert (q' - q) * n == q' * n - q * n;
    if q' > q {
      ProductAtLeast(q' - q, n);
    } else if q > q' {
      assert (q - q') * n == q * n - q' * n;
      ProductAtLeast(q - q', n);
    }
  }

  lemma RemainderUnique(x: nat, q: int, r: nat, n: nat)
    requires r < n && x == q * n + r
    ensures x % n == r
  {
    assert x == (x / n) * n + x % n;
    SameRemainder(q, r, x / n, x % n, n);
  }

  lemma AddOnce(x: nat, n: nat)
    requires n > 0
    ensures (x + n) % n == x % n
  {
    assert x + n == (x / n + 1) * n + x % n;
    RemainderUnique(x + n, x / n + 1, x % n, n);
  }

  lemma SmallMod(x: nat, n: nat)
    requires 0 < n && x < n + n
    ensures x % n == if x < n then x else x - n
  {
    RemainderUnique(x, if x < n then 0 else 1, if x < n then x else x - n, n);
  }

  lemma CurrentAfter(s: State, es: seq<Event>, j: nat) returns (q: nat)
    requires Cycling(s) && Runs(s, es) && Ticks(es) == |es| == |s.list| && j <= |es|
    ensures Runs(s, es[..j]) && q == if s.prevIdx + j < |s.list| then s.prevIdx + j else s.prevIdx + j - |s.list|
    ensures q < |s.list| && End(s, es[..j]).current == s.list[q]
  {
    hide Around, Inv, Runs, End, Ticks, Cycling;
    CyclingBounds(s);
    PrefixRuns(s, es, j);
    RoundRobin(s, es[..j]);
    q := if s.prevIdx + j < |s.list| then s.prevIdx + j else s.prevIdx + j - |s.list|;
    AroundIs(s.prevIdx as nat + j, |s.list|);
    CyclingBounds(End(s, es[..j]));
  }

  lemma CyclingBounds(s: State)
    requires Cycling(s)
    ensures s.prevIdx < |s.list| && s.current == s.list[s.prevIdx]
  {
  }

  lemma AroundIs(x: nat, n: nat)
    requires 0 < n && x < n + n
    ensures Around(x, n) == if x < n then x else x - n
  {
    SmallMod(x, n);
  }

  // Every window of n ticks makes each of the n tasks current exactly once.
  lemma EachOnce(s: State, es: seq<Event>, t: uint32) returns (k: nat)
    requires Cycling(s) && Runs(s, es) && Ticks(es) == |es| == |s.list| && t in s.list
    ensures 1 <= k <= |es| && Runs(s, es[..k]) && End(s, es[..k]).current == t
    ensures forall j :: 1 <= j <= |es| && j != k ==> Runs(s, es[..j]) && End(s, es[..j]).current != t
  {
    assert Distinct(s.list);
    hide Inv, Runs, End, Ticks;
    var n, p := |s.list|, s.prevIdx as nat;
    var q :| 0 <= q < n && s.list[q] == t;
    k := if q > p then q - p else q + n - p;
    forall j | 1 <= j <= n
      ensures Runs(s, es[..j]) && (End(s, es[..j]).current == t <==> j == k)
    {
      var _ := CurrentAfter(s, es, j);
    }
  }

  lemma {:induction false} PrefixRuns(s: State, es: seq<Event>, j: nat)
    requires Runs(s, es) && Ticks(es) == |es| && j <= |es|
    ensures Runs(s, es[..j]) && Ticks(es[..j]) == j
    decreases |es|
  {
    if j > 0 {
      TicksAtMost(es[1..]);
      PrefixRuns(Step(s, es[0]), es[1..], j - 1);
      assert es[..j][1..] == es[1..][..j - 1] && es[..j][0] == es[0];
    }
  }
}
