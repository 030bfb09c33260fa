/** The timer-driven scheduler over its task array and global variables. */
module TaskScheduler {
  import opened Words
  import opened OrderedArrays
  import opened SchedulerModel

  // Stepping an unsigned index back and forth again leaves it where it was, also at 0.
  lemma StepBack(i: uint32)
    ensures Wrap(Wrap(i - 1) + 1) == i
    ensures i < TWO_32 - 1 ==> Wrap(i + 1) == i + 1
  {
  }

  lemma WithoutShorter(list: seq<uint32>, i: nat)
    requires i < |list|
    ensures |Without(list, i)| == |list| - 1
  {
  }

  class Scheduler {
    const taskList: OrderedArray<uint32>
    var tasks: map<uint32, Task>
    var currentTask: uint32
    var previousTask: uint32
    var toDeleteTask: uint32
    var prevIdx: uint32
    var cr3: uint32
    var loaded: Cpu
    var setups: seq<uint32>

    ghost predicate Valid()
      reads this, taskList, taskList.slots
    {
      taskList.Valid() && taskList.slots.Length == MAX_TASK_COUNT && Known(View())
    }

    ghost function View(): State
      requires taskList.Valid()
      reads this, taskList, taskList.slots
    {
      State(taskList.Contents(), tasks, currentTask, previousTask, toDeleteTask, prevIdx, cr3, loaded, setups)
    }

    constructor (slots: array<uint32>, cr3: uint32, cpu: Cpu)
      requires slots.Length == MAX_TASK_COUNT
      ensures Valid() && fresh(taskList) && taskList.slots == slots
      ensures View() == State([], map[], 0, 0, 0, 0, cr3, cpu, [])
    {
      taskList := new OrderedArray<uint32>(slots);
      tasks := map[];
      currentTask, previousTask, toDeleteTask, prevIdx := 0, 0, 0, 0;
      this.cr3, loaded, setups := cr3, cpu, [];
    }

    // The end of `CreateTask`. No task has priority over another, so `Insert` always finds position 0.
    method AddTask(t: uint32, task: Task)
      requires Valid() && t != 0 && taskList.size < MAX_TASK_COUNT
      modifies this`tasks, taskList`size, taskList.slots
      ensures Valid() && View() == Create(old(View()), t, task)
      ensures taskList.Contents() == [t] + old(taskList.Contents()) && tasks == old(tasks)[t := task]
    {
      tasks := tasks[t := task];
      taskList.InsertAt(0, t);
    }

    method Exit()
      requires Valid()
      modifies this`tasks
      ensures Valid() && View() == SchedulerModel.Exit(old(View()))
      ensures currentTask == 0 ==> tasks == old(tasks)
      ensures currentTask != 0 ==>
                var task := old(tasks[currentTask]);
                && tasks == old(tasks)[currentTask := Task(Zombie, task.state, task.directory, task.cr3, task.isThread)]
    {
      if currentTask == 0 {
        return;
      }
      tasks := tasks[currentTask := tasks[currentTask].(status := Zombie)];
    }

    method ContextSwitch(t: uint32)
      requires Valid() && t in tasks && t != 0
      modifies this
      ensures Valid() && View() == Dispatch(old(View()), t)
      ensures old(tasks)[t].directory == 0 ==> cr3 == old(cr3)
      ensures old(tasks)[t].directory != 0 ==>
                cr3 == if old(tasks)[t].cr3 == 0 then old(tasks)[t].directory else old(tasks)[t].cr3
    {
      hide Loaded;
      currentTask := t;
      if tasks[t].directory != 0 {
        cr3 := if tasks[t].cr3 != 0 then tasks[t].cr3 else tasks[t].directory;
        if tasks[t].status == Created {
          setups := setups + [t];
        }
      }
      if previousTask != 0 && tasks[previousTask].status == Zombie {
        toDeleteTask := previousTask;
      }
      previousTask := currentTask;
      tasks := tasks[t := tasks[t].(status := Running)];
      loaded := Loaded(tasks[t].state);
    }

    // scheduling.cpp:112-135, one round at index `i`: a dead entry is removed and the unsigned index steps back
    // and forth again, the current task is passed over, and anything else ends the scan.
    method ScanRound(i: uint32) returns (stop: bool, next: uint32, j: uint32)
      requires taskList.Valid() && i < taskList.size < TWO_32 - 1
      requires forall t :: t in taskList.Contents() && t != 0 ==> t in tasks
      modifies this`prevIdx, taskList`size, taskList.slots
      ensures taskList.Valid() && forall t :: t in taskList.Contents() ==> t in old(taskList.Contents())
      ensures var list, p := old(taskList.Contents()), Start(old(prevIdx), old(taskList.size));
              && taskList.Contents() == (if Dead(tasks, list[i]) then Without(list, i) else list)
              && if Dead(tasks, list[i]) then !stop && j == i && prevIdx == p
                 else if list[i] == currentTask && |list| > 1 then !stop && j == i + 1 && prevIdx == p
                 else stop && next == list[i] && prevIdx == i
      ensures !stop ==> next == 0
    {
      stop, next, j := false, 0, i;
      StepBack(i);
      if prevIdx >= taskList.size - 1 {
        prevIdx := 0;
      }
      var t := taskList.Get(i);
      if t == 0 || tasks[t].status == Zombie {
        hide Wrap;
        taskList.Remove(i);
        if Wrap(i - 1) >= 0 {
          j := Wrap(i - 1);
        }
        j := Wrap(j + 1);
      } else if t == currentTask && taskList.size > 1 {
        j := Wrap(i + 1);
      } else {
        stop, next, prevIdx := true, t, i;
      }
    }

    // scheduling.cpp:104-136.
    method FindNext() returns (next: uint32)
      requires Valid() && taskList.size > 0
      modifies this`prevIdx, taskList`size, taskList.slots
      ensures taskList.Valid()
      ensures var p := Start(old(prevIdx), old(taskList.size));
        Scanned(taskList.Contents(), next, prevIdx) == Scan(old(taskList.Contents()), tasks, currentTask, p, p)
    {
      hide Scan, Without, Dead;
      next := 0;
      if prevIdx >= taskList.size - 1 {
        prevIdx := 0;
      }
      assert prevIdx == Start(old(prevIdx), old(taskList.size));
      hide Start;
      ghost var found := Scan(taskList.Contents(), tasks, currentTask, prevIdx, prevIdx);
      var i: uint32 := prevIdx;
      while i < taskList.size
        invariant taskList.Valid() && taskList.size <= old(taskList.size)
        invariant forall t :: t in taskList.Contents() && t != 0 ==> t in tasks
        invariant next == 0
        invariant Scan(taskList.Contents(), tasks, currentTask, i, prevIdx) == found
        decreases taskList.size - i
      {
        ScanStep(taskList.Contents(), tasks, currentTask, i, prevIdx);
        WithoutShorter(taskList.Contents(), i);
        var stop;
        stop, next, i := ScanRound(i);
        if stop {
          return;
        }
      }
      ScanStep(taskList.Contents(), tasks, currentTask, i, prevIdx);
    }

    // scheduling.cpp:78-87.
    method ForgetDeleted()
      requires Valid()
      modifies this`previousTask, this`toDeleteTask
      ensures Valid() && View() == DropDeleted(old(View()))
    {
      if toDeleteTask != 0 {
        if previousTask == toDeleteTask {
          previousTask := 0;
        }
        toDeleteTask := 0;
      }
    }

    // scheduling.cpp:92-102.
    method SaveInterrupted(frame: Frame)
      requires Valid()
      modifies this`tasks
      ensures Valid() && View() == SaveContext(old(View()), frame)
    {
      hide Saved;
      if previousTask != 0 && tasks[previousTask].status != Zombie && frame.Frame? {
        tasks := tasks[previousTask := tasks[previousTask].(status := Ready, state := Saved(frame.regs), cr3 := cr3)];
      }
    }

    // `Scheduler_`.
    method Tick(frame: Frame)
      requires Valid()
      modifies this, taskList`size, taskList.slots
      ensures Valid() && View() == SchedulerModel.Tick(old(View()), frame)
    {
      hide Dispatch, SaveContext, Start, Dead;
      ForgetDeleted();
      if taskList.size == 0 {
        return;
      }
      hide DropDeleted;
      SaveInterrupted(frame);
      hide Scan;
      ghost var s2 := View();
      SavedKeeps(old(View()), s2, frame);
      ghost var p := Start(s2.prevIdx, |s2.list|);
      ScanKeeps(s2.list, s2.tasks, s2.current, p, p);
      var next := FindNext();
      if next != 0 && next != currentTask {
        ContextSwitch(next);
      }
    }
  }

  lemma SavedKeeps(s: State, s2: State, frame: Frame)
    requires Known(s) && s2 == SaveContext(DropDeleted(s), frame)
    ensures DropDeleted(s).list == s2.list && Known(s2)
  {
  }
}
