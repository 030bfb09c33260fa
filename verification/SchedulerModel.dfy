/**
 * The scheduler as a state machine on values: what one timer tick, one exit and one task creation do.
 *
 * Tasks are named by the address of their record; address 0 is the null pointer.
 */
module SchedulerModel {
  import opened Words
  import opened OrderedArrays

  const MAX_TASK_COUNT := 256

  datatype Status = Created | Ready | Zombie | Running

  // In the order of the interrupt frame.
  datatype Registers = Registers(
    ds: uint32, edi: uint32, esi: uint32, ebp: uint32, esp: uint32, ebx: uint32, edx: uint32, ecx: uint32,
    eax: uint32, intNo: uint32, errCode: uint32, eip: uint32, cs: uint32, eflags: uint32, useresp: uint32, ss: uint32)

  // The word of the frame at a byte offset.
  function At(r: Registers, offset: nat): uint32 {
    match offset
    case 0 => r.ds case 4 => r.edi case 8 => r.esi case 12 => r.ebp
    case 16 => r.esp case 20 => r.ebx case 24 => r.edx case 28 => r.ecx
    case 32 => r.eax case 36 => r.intNo case 40 => r.errCode case 44 => r.eip
    case 48 => r.cs case 52 => r.eflags case 56 => r.useresp case _ => r.ss
  }

  // The registers a user program can observe.
  datatype Cpu = Cpu(eax: uint32, ebx: uint32, ecx: uint32, edx: uint32, esi: uint32, edi: uint32,
                     ebp: uint32, esp: uint32, eip: uint32, eflags: uint32)

  // What `context_switch` loads, by its byte offsets into the saved frame.
  function Loaded(r: Registers): Cpu {
    Cpu(At(r, 32), At(r, 20), At(r, 28), At(r, 24), At(r, 8), At(r, 4), At(r, 12), At(r, 16), At(r, 44), At(r, 52))
  }

  // What the user program had in its registers when the interrupt pushed frame `r`: the processor
  // pushed its stack pointer last, while `esp` is the kernel's.
  function Interrupted(r: Registers): Cpu {
    Cpu(r.eax, r.ebx, r.ecx, r.edx, r.esi, r.edi, r.ebp, r.useresp, r.eip, r.eflags)
  }

  // What a tick stores for the interrupted task.
  function Saved(r: Registers): Registers { r.(esp := r.useresp) }

  lemma SwitchBackRestores(r: Registers)
    ensures Loaded(Saved(r)) == Interrupted(r)
  {
  }

  datatype Task = Task(status: Status, state: Registers, directory: uint32, cr3: uint32, isThread: bool)

  datatype State = State(
    list: seq<uint32>,
    tasks: map<uint32, Task>,
    current: uint32,
    previous: uint32,
    toDelete: uint32,
    prevIdx: uint32,
    cr3: uint32,         // the processor's page-directory register
    loaded: Cpu,         // what the last context switch put into the registers
    setups: seq<uint32>  // tasks whose first-run set-up was done, in order
  )

  ghost predicate Known(s: State) {
    && (forall t :: t in s.list && t != 0 ==> t in s.tasks)
    && (s.current != 0 ==> s.current in s.tasks)
    && (s.previous != 0 ==> s.previous in s.tasks)
    && |s.list| < TWO_32
  }

  predicate Dead(tasks: map<uint32, Task>, t: uint32) {
    t == 0 || (t in tasks && tasks[t].status.Zombie?)
  }

  function Start(prevIdx: uint32, size: nat): uint32 { if prevIdx >= size - 1 then 0 else prevIdx }

  datatype Scanned = Scanned(list: seq<uint32>, next: uint32, prevIdx: uint32)

  // The scan from position `i`: dead tasks leave the list on the way, and the current task is passed
  // over unless it is alone.
  function Scan(list: seq<uint32>, tasks: map<uint32, Task>, current: uint32, i: nat, prevIdx: uint32): Scanned
    requires |list| < TWO_32
    decreases |list| - i
  {
    if i >= |list| then Scanned(list, 0, prevIdx)
    else
      var p := Start(prevIdx, |list|);
      if Dead(tasks, list[i]) then Scan(Without(list, i), tasks, current, i, p)
      else if list[i] == current && |list| > 1 then Scan(list, tasks, current, i + 1, p)
      else Scanned(list, list[i], i)
  }

  // What a scan does at position `i`.
  lemma ScanStep(list: seq<uint32>, tasks: map<uint32, Task>, current: uint32, i: nat, prevIdx: uint32)
    requires |list| < TWO_32
    ensures var p := Start(prevIdx, |list|);
      Scan(list, tasks, current, i, prevIdx)
      == if i >= |list| then Scanned(list, 0, prevIdx)
         else if Dead(tasks, list[i]) then Scan(Without(list, i), tasks, current, i, p)
         else if list[i] == current && |list| > 1 then Scan(list, tasks, current, i + 1, p)
         else Scanned(list, list[i], i)
  {
  }

  lemma ScanDrops(list: seq<uint32>, tasks: map<uint32, Task>, current: uint32, i: nat, prevIdx: uint32)
    requires i < |list| < TWO_32 && Dead(tasks, list[i])
    ensures Scan(list, tasks, current, i, prevIdx)
         == Scan(Without(list, i), tasks, current, i, Start(prevIdx, |list|))
  {
  }

  lemma ScanSkips(list: seq<uint32>, tasks: map<uint32, Task>, current: uint32, i: nat, prevIdx: uint32)
    requires i < |list| < TWO_32 && !Dead(tasks, list[i]) && list[i] == current && |list| > 1
    ensures Scan(list, tasks, current, i, prevIdx) == Scan(list, tasks, current, i + 1, Start(prevIdx, |list|))
  {
  }

  // `ContextSwitch`.
  function Dispatch(s: State, t: uint32): State
    requires t in s.tasks && (s.previous != 0 ==> s.previous in s.tasks)
  {
    var task := s.tasks[t];
    s.(
      current := t,
      cr3 := if task.directory == 0 then s.cr3 else if task.cr3 != 0 then task.cr3 else task.directory,
      setups := if task.directory != 0 && task.status.Created? then s.setups + [t] else s.setups,
      toDelete := if s.previous != 0 && s.tasks[s.previous].status.Zombie? then s.previous else s.toDelete,
      previous := t,
      tasks := s.tasks[t := task.(status := Running)],
      loaded := Loaded(task.state))
  }

  function DropDeleted(s: State): State {
    if s.toDelete == 0 then s
    else s.(previous := if s.previous == s.toDelete then 0 else s.previous, toDelete := 0)
  }

  datatype Frame = NoFrame | Frame(regs: Registers)

  function SaveContext(s: State, frame: Frame): State
    requires s.previous != 0 ==> s.previous in s.tasks
  {
    if s.previous == 0 || s.tasks[s.previous].status.Zombie? || frame.NoFrame? then s
    else
      var task := s.tasks[s.previous];
      s.(tasks := s.tasks[s.previous := task.(status := Ready, state := Saved(frame.regs), cr3 := s.cr3)])
  }

  // `Scheduler_`, the timer interrupt.
  function Tick(s: State, frame: Frame): State
    requires Known(s)
  {
    var s1 := DropDeleted(s);
    if |s1.list| == 0 then s1
    else
      var s2 := SaveContext(s1, frame);
      var p := Start(s2.prevIdx, |s2.list|);
      var r := Scan(s2.list, s2.tasks, s2.current, p, p);
      ScanKeeps(s2.list, s2.tasks, s2.current, p, p);
      var s3 := s2.(list := r.list, prevIdx := r.prevIdx);
      if r.next != 0 && r.next != s3.current then Dispatch(s3, r.next) else s3
  }

  // `_exit` of the current task.
  function Exit(s: State): State
    requires Known(s)
  {
    if s.current == 0 then s else s.(tasks := s.tasks[s.current := s.tasks[s.current].(status := Zombie)])
  }

  // The end of `CreateTask`: the record is filled in and put at the front of the list.
  function Create(s: State, t: uint32, task: Task): State {
    s.(tasks := s.tasks[t := task], list := [t] + s.list)
  }

  // ---- what a scan keeps and finds ----

  lemma {:induction false} ScanKeeps(list: seq<uint32>, tasks: map<uint32, Task>, current: uint32, i: nat,
                                     prevIdx: uint32)
    requires |list| < TWO_32
    ensures var r := Scan(list, tasks, current, i, prevIdx);
      && |r.list| <= |list|
      && (forall t :: t in r.list ==> t in list)
      && (r.next != 0 ==> r.next in r.list && !Dead(tasks, r.next))
    decreases |list| - i
  {
    if i < |list| {
      var p := if prevIdx >= |list| - 1 then 0 else prevIdx;
      if Dead(tasks, list[i]) {
        ScanKeeps(Without(list, i), tasks, current, i, p);
      } else if list[i] == current && |list| > 1 {
        ScanKeeps(list, tasks, current, i + 1, p);
      }
    }
  }
}
