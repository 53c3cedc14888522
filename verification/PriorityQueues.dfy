/** Four queues, one a priority, read as one list in order of arrival. */
module PriorityQueues {
  import opened Core

  datatype DegradationMode = NormalMode | ModerateMode | HighMode | CriticalMode

  ghost predicate Admits(mode: DegradationMode, p: Priority) {
    match mode
    case NormalMode => true
    case ModerateMode => true
    case HighMode => p != Low
    case CriticalMode => p == Critical
  }

  ghost function Only(t: Task, p: Priority): seq<Task> {
    if t.priority == p then [t] else []
  }

  ghost function OfPriority(tasks: seq<Task>, p: Priority): seq<Task> {
    if tasks == [] then [] else Only(tasks[0], p) + OfPriority(tasks[1..], p)
  }

  /** Among the admitted tasks, i is the earliest of the highest priority. */
  ghost predicate IsChoice(tasks: seq<Task>, mode: DegradationMode, i: int) {
    && 0 <= i < |tasks| && Admits(mode, tasks[i].priority)
    && forall j :: 0 <= j < |tasks| && Admits(mode, tasks[j].priority) ==>
         tasks[j].priority.Level() < tasks[i].priority.Level() || (tasks[j].priority == tasks[i].priority && i <= j)
  }

  ghost function Without(tasks: seq<Task>, i: int): seq<Task>
    requires 0 <= i < |tasks|
  {
    tasks[..i] + tasks[i + 1..]
  }

  ghost predicate Dequeues(before: seq<Task>, mode: DegradationMode, result: Option<Task>, after: seq<Task>) {
    match result
    case None => after == before && forall t :: t in before ==> !Admits(mode, t.priority)
    case Some(t) => exists i :: IsChoice(before, mode, i) && t == before[i] && after == Without(before, i)
  }

  /** In high degradation Low tasks are held back, in critical degradation all but Critical ones, otherwise none. */
  ghost predicate HeldBack(mode: DegradationMode, p: Priority) {
    (mode == HighMode && p == Low) || (mode == CriticalMode && (p == Low || p == Normal || p == High))
  }

  lemma DequeuesByName(before: seq<Task>, mode: DegradationMode, result: Option<Task>, after: seq<Task>)
    requires Dequeues(before, mode, result, after)
    ensures result == None <==> forall t :: t in before ==> HeldBack(mode, t.priority)
    ensures result.Some? ==>
              && result.value in before && !HeldBack(mode, result.value.priority)
              && forall t :: t in before ==> !Lower(result.value.priority, t.priority)
  {
    if result.Some? {
      var i :| IsChoice(before, mode, i) && result.value == before[i];
      forall t | t in before
        ensures !Lower(result.value.priority, t.priority)
      {
        var j :| 0 <= j < |before| && before[j] == t;
        LevelsByName(result.value.priority, t.priority);
      }
    }
  }

  const ALL := [Critical, High, Normal, Low]

  lemma AllPriorities()
    ensures forall p :: p in ALL
    ensures forall i, j :: 0 <= i < j < |ALL| ==> ALL[i].Level() > ALL[j].Level()
  {
    assert ALL[0] == Critical && ALL[1] == High && ALL[2] == Normal && ALL[3] == Low;
    forall p
      ensures p in ALL
    {
      assert p == ALL[3 - p.Level()];
    }
  }

  /** The queues a mode looks into, the highest priority first. */
  function QueuesFor(mode: DegradationMode): (queues: seq<Priority>)
    ensures forall p :: Admits(mode, p) <==> p in queues
    ensures forall i, j :: 0 <= i < j < |queues| ==> queues[i].Level() > queues[j].Level()
  {
    AllPriorities();
    assert forall p :: p == Critical <==> p in [Critical];
    match mode
    case NormalMode => ALL
    case ModerateMode => ALL
    case HighMode =>
      var queues := [Critical, High, Normal];
      assert queues[0] == Critical && queues[1] == High && queues[2] == Normal;
      assert forall p :: p != Low <==> p in queues;
      assert forall i, j :: 0 <= i < j < |queues| ==> queues[i].Level() > queues[j].Level();
      queues
    case CriticalMode => [Critical]
  }

  datatype Stats = Stats(critical: nat, high: nat, normal: nat, low: nat, total: nat, highest: Option<Priority>)

  class PriorityQueueManager {
    var criticalQueue: seq<Task>
    var highQueue: seq<Task>
    var normalQueue: seq<Task>
    var lowQueue: seq<Task>
    var totalDepth: int
    /** The pending tasks in order of arrival. */
    ghost var arrivals: seq<Task>

    ghost predicate Valid()
      reads this
    {
      && totalDepth == |arrivals|
      && forall p :: Queue(p) == OfPriority(arrivals, p)
    }

    function Queue(p: Priority): seq<Task>
      reads this
    {
      match p
      case Critical => criticalQueue
      case High => highQueue
      case Normal => normalQueue
      case Low => lowQueue
    }

    constructor ()
      ensures Valid() && arrivals == []
    {
      criticalQueue, highQueue, normalQueue, lowQueue := [], [], [], [];
      totalDepth, arrivals := 0, [];
    }

    method SetQueue(p: Priority, queue: seq<Task>)
      modifies `criticalQueue, `highQueue, `normalQueue, `lowQueue
      ensures Queue(p) == queue && forall q :: q != p ==> Queue(q) == old(Queue(q))
    {
      match p
      case Critical => criticalQueue := queue;
      case High => highQueue := queue;
      case Normal => normalQueue := queue;
      case Low => lowQueue := queue;
    }

    method EnqueueTask(task: Task)
      requires Valid()
      modifies this
      ensures Valid() && arrivals == old(arrivals) + [task]
    {
      forall p
        ensures OfPriority(arrivals + [task], p) == OfPriority(arrivals, p) + Only(task, p)
        ensures OfPriority(arrivals, p) + [] == OfPriority(arrivals, p)
      {
        FilterAppend(arrivals, task, p);
      }
      SetQueue(task.priority, Queue(task.priority) + [task]);
      totalDepth := totalDepth + 1;
      arrivals := arrivals + [task];
    }

    method DequeueTask(mode: DegradationMode) returns (result: Option<Task>)
      requires Valid()
      modifies this
      ensures Valid() && Dequeues(old(arrivals), mode, result, arrivals)
      ensures result == None <==> forall t :: t in old(arrivals) ==> HeldBack(mode, t.priority)
      ensures result.Some? ==>
                && result.value in old(arrivals) && !HeldBack(mode, result.value.priority)
                && forall t :: t in old(arrivals) ==> !Lower(result.value.priority, t.priority)
    {
      hide OfPriority, Dequeues, Admits, HeldBack;
      var queues := QueuesFor(mode);
      for k := 0 to |queues|
        invariant Valid() && arrivals == old(arrivals)
        invariant forall j :: 0 <= j < k ==> Queue(queues[j]) == []
      {
        var p := queues[k];
        var queue := Queue(p);
        if queue != [] {
          ghost var rest := TakeHead(arrivals, mode, queues, k);
          SetQueue(p, queue[1..]);
          totalDepth := totalDepth - 1;
          arrivals := rest;
          DequeuesByName(old(arrivals), mode, Some(queue[0]), arrivals);
          return Some(queue[0]);
        }
      }
      NothingAdmitted(arrivals, mode);
      DequeuesByName(arrivals, mode, None, arrivals);
      return None;
    }

    method PendingAtPriority(p: Priority) returns (n: nat)
      requires Valid()
      ensures n == |OfPriority(arrivals, p)|
    {
      n := |Queue(p)|;
    }

    method GetStats() returns (s: Stats)
      requires Valid()
      ensures s.total == totalDepth == s.critical + s.high + s.normal + s.low
      ensures s.critical == |OfPriority(arrivals, Critical)| && s.high == |OfPriority(arrivals, High)|
      ensures s.normal == |OfPriority(arrivals, Normal)| && s.low == |OfPriority(arrivals, Low)|
      ensures s.highest == None <==> arrivals == []
      ensures s.highest.Some? ==>
                (exists i :: IsChoice(arrivals, NormalMode, i) && s.highest.value == arrivals[i].priority)
    {
      hide OfPriority, IsChoice;
      var critical := PendingAtPriority(Critical);
      var high := PendingAtPriority(High);
      var normal := PendingAtPriority(Normal);
      var low := PendingAtPriority(Low);
      Partition(arrivals);
      var highest: Option<Priority> :=
        if critical > 0 then Some(Critical) else if high > 0 then Some(High)
        else if normal > 0 then Some(Normal) else if low > 0 then Some(Low) else None;
      if highest.Some? {
        HighestIsNext(arrivals, highest.value);
      }
      return Stats(critical, high, normal, low, critical + high + normal + low, highest);
    }

    method Clear()
      modifies this
      ensures Valid() && arrivals == []
    {
      criticalQueue, highQueue, normalQueue, lowQueue := [], [], [], [];
      totalDepth, arrivals := 0, [];
    }
  }

  // ----- filtering by priority -----

  lemma Associative<T>(a: seq<T>, b: seq<T>, c: seq<T>)
    ensures a + (b + c) == a + b + c
  {
  }

  lemma {:induction false} FilterConcat(a: seq<Task>, b: seq<Task>, p: Priority)
    ensures OfPriority(a + b, p) == OfPriority(a, p) + OfPriority(b, p)
  {
    if a == [] {
      assert a + b == b;
    } else {
      FilterConcat(a[1..], b, p);
      assert (a + b)[1..] == a[1..] + b && (a + b)[0] == a[0];
      Associative(Only(a[0], p), OfPriority(a[1..], p), OfPriority(b, p));
      hide Only;
    }
  }

  lemma OnlyOne(t: Task, p: Priority)
    ensures OfPriority([t], p) == Only(t, p)
  {
    assert OfPriority([t], p) == Only(t, p) + [];
  }

  lemma FilterAppend(tasks: seq<Task>, t: Task, p: Priority)
    ensures OfPriority(tasks + [t], p) == OfPriority(tasks, p) + Only(t, p)
  {
    FilterConcat(tasks, [t], p);
    OnlyOne(t, p);
  }

  lemma {:induction false} EmptyFilter(tasks: seq<Task>, p: Priority)
    ensures OfPriority(tasks, p) == [] <==> forall t :: t in tasks ==> t.priority != p
  {
    if tasks != [] {
      EmptyFilter(tasks[1..], p);
      assert tasks[0] in tasks;
    }
  }

  lemma NothingAdmitted(tasks: seq<Task>, mode: DegradationMode)
    requires forall j :: 0 <= j < |QueuesFor(mode)| ==> OfPriority(tasks, QueuesFor(mode)[j]) == []
    ensures Dequeues(tasks, mode, None, tasks)
  {
    forall p | Admits(mode, p)
      ensures forall t :: t in tasks ==> t.priority != p
    {
      var j :| 0 <= j < |QueuesFor(mode)| && QueuesFor(mode)[j] == p;
      EmptyFilter(tasks, p);
    }
  }

  /** The queues have the tasks between them. */
  lemma {:induction false} Partition(tasks: seq<Task>)
    ensures |tasks| == |OfPriority(tasks, Critical)| + |OfPriority(tasks, High)| + |OfPriority(tasks,
        Normal)| + |OfPriority(tasks, Low)|
  {
    if tasks != [] {
      Partition(tasks[1..]);
    }
  }

  lemma {:induction false} FirstOfPriority(tasks: seq<Task>, p: Priority) returns (i: nat)
    requires OfPriority(tasks, p) != []
    ensures i < |tasks| && tasks[i].priority == p && OfPriority(tasks, p)[0] == tasks[i]
    ensures forall j :: 0 <= j < i ==> tasks[j].priority != p
  {
    if tasks[0].priority == p {
      i := 0;
    } else {
      var k := FirstOfPriority(tasks[1..], p);
      i := k + 1;
      forall j | 0 <= j < i
        ensures tasks[j].priority != p
      {
        if j > 0 { assert tasks[j] == tasks[1..][j - 1]; }
      }
    }
  }

  /** When the queues before the k-th are empty, the head of the k-th is the choice. */
  lemma ChoiceOf(tasks: seq<Task>, mode: DegradationMode, queues: seq<Priority>, k: nat) returns (i: nat)
    requires queues == QueuesFor(mode) && k < |queues|
    requires OfPriority(tasks, queues[k]) != []
    requires forall j :: 0 <= j < k ==> OfPriority(tasks, queues[j]) == []
    ensures IsChoice(tasks, mode, i) && tasks[i].priority == queues[k] && OfPriority(tasks, queues[k])[0] == tasks[i]
    ensures forall j :: 0 <= j < i ==> tasks[j].priority != tasks[i].priority
  {
    i := FirstOfPriority(tasks, queues[k]);
    forall j | 0 <= j < |tasks| && Admits(mode, tasks[j].priority)
      ensures tasks[j].priority.Level() < tasks[i].priority.Level()
          || (tasks[j].priority == tasks[i].priority && i <= j)
    {
      var q :| 0 <= q < |queues| && queues[q] == tasks[j].priority;
      EmptyFilter(tasks, queues[q]);
      assert tasks[j] in tasks;
      assert q >= k;
    }
  }

  /** The highest priority with a pending task is that of the next task in normal mode. */
  lemma HighestIsNext(tasks: seq<Task>, p: Priority)
    requires OfPriority(tasks, p) != [] && forall q: Priority :: q.Level() > p.Level() ==> OfPriority(tasks, q) == []
    ensures exists i :: IsChoice(tasks, NormalMode, i) && tasks[i].priority == p
  {
    hide OfPriority;
    AllPriorities();
    assert ALL[3 - p.Level()] == p;
    var i := ChoiceOf(tasks, NormalMode, ALL, 3 - p.Level());
  }

  /** Removing the first task of its priority takes the head off that queue and leaves the others alone. */
  lemma RemoveFirst(tasks: seq<Task>, i: int)
    requires 0 <= i < |tasks| && forall j :: 0 <= j < i ==> tasks[j].priority != tasks[i].priority
    ensures forall p :: OfPriority(tasks, p) == Only(tasks[i], p) + OfPriority(Without(tasks, i), p)
  {
    forall p {
      RemoveFirstAt(tasks, i, p);
    }
  }

  lemma RemoveFirstAt(tasks: seq<Task>, i: int, p: Priority)
    requires 0 <= i < |tasks| && forall j :: 0 <= j < i ==> tasks[j].priority != tasks[i].priority
    ensures OfPriority(tasks, p) == Only(tasks[i], p) + OfPriority(Without(tasks, i), p)
  {
    var a, t, b := tasks[..i], tasks[i], tasks[i + 1..];
    assert tasks == a + ([t] + b);
    FilterConcat(a, [t] + b, p);
    FilterConcat(a, b, p);
    assert ([t] + b)[1..] == b;
    EmptyFilter(a, t.priority);
  }

  /** Taking the head of the first queue that is not empty is dequeuing. */
  lemma TakeHead(tasks: seq<Task>, mode: DegradationMode, queues: seq<Priority>, k: nat) returns (rest: seq<Task>)
    requires queues == QueuesFor(mode) && k < |queues|
    requires OfPriority(tasks, queues[k]) != []
    requires forall j :: 0 <= j < k ==> OfPriority(tasks, queues[j]) == []
    ensures Dequeues(tasks, mode, Some(OfPriority(tasks, queues[k])[0]), rest) && |rest| == |tasks| - 1
    ensures OfPriority(rest, queues[k]) == OfPriority(tasks, queues[k])[1..]
    ensures forall p :: p != queues[k] ==> OfPriority(rest, p) == OfPriority(tasks, p)
  {
    var i := ChoiceOf(tasks, mode, queues, k);
    rest := Without(tasks, i);
    hide OfPriority, IsChoice, Admits;
    forall p
      ensures OfPriority(tasks, p) == Only(tasks[i], p) + OfPriority(rest, p)
      ensures p != queues[k] ==> OfPriority(rest, p) == OfPriority(tasks, p)
    {
      RemoveFirstAt(tasks, i, p);
    }
  }

  // ----- runs -----

  datatype Op = Enqueue(task: Task) | Dequeue(mode: DegradationMode, result: Option<Task>)

  ghost predicate Step(before: seq<Task>, op: Op, after: seq<Task>) {
    match op
    case Enqueue(t) => after == before + [t]
    case Dequeue(mode, result) => Dequeues(before, mode, result, after)
  }

  ghost function Came(op: Op): seq<Task> {
    match op
    case Enqueue(t) => [t]
    case Dequeue(_, _) => []
  }

  ghost function Left(op: Op): seq<Task> {
    match op
    case Enqueue(_) => []
    case Dequeue(_, result) => if result.Some? then [result.value] else []
  }

  /** The tasks that go in during a run, and those that come out of it. */
  ghost function In(ops: seq<Op>): seq<Task> {
    if ops == [] then [] else In(ops[..|ops| - 1]) + Came(ops[|ops| - 1])
  }

  ghost function Out(ops: seq<Op>): seq<Task> {
    if ops == [] then [] else Out(ops[..|ops| - 1]) + Left(ops[|ops| - 1])
  }

  ghost predicate Run(pending: seq<seq<Task>>, ops: seq<Op>) {
    && |pending| == |ops| + 1 && pending[0] == []
    && forall k {:trigger ops[k]} :: 0 <= k < |ops| ==> Step(pending[k], ops[k], pending[k + 1])
  }

  lemma DequeueFilters(before: seq<Task>, mode: DegradationMode, result: Option<Task>, after: seq<Task>, p: Priority)
    requires Dequeues(before, mode, result, after)
    ensures OfPriority(before, p) == OfPriority(Left(Dequeue(mode, result)), p) + OfPriority(after, p)
  {
    if result.Some? {
      var i :| IsChoice(before, mode, i) && result.value == before[i] && after == Without(before, i);
      RemoveFirstAt(before, i, p);
      OnlyOne(result.value, p);
      hide OfPriority, Only, IsChoice;
    }
  }

  lemma StepFilters(before: seq<Task>, op: Op, after: seq<Task>, p: Priority)
    requires Step(before, op, after)
    ensures OfPriority(before, p) + OfPriority(Came(op), p) == OfPriority(Left(op), p) + OfPriority(after, p)
  {
    match op {
      case Enqueue(t) =>
        FilterConcat(before, [t], p);
      case Dequeue(mode, result) =>
        DequeueFilters(before, mode, result, after, p);
    }
  }

  /**
    Whatever modes the system goes through, tasks of one priority leave in the order they came: those that have
    left, followed by those still pending, are those that came.
   */
  lemma {:induction false} FirstInFirstOut(pending: seq<seq<Task>>, ops: seq<Op>, p: Priority)
    requires Run(pending, ops)
    ensures OfPriority(In(ops), p) == OfPriority(Out(ops), p) + OfPriority(pending[|ops|], p)
    decreases |ops|
  {
    if ops != [] {
      var n := |ops| - 1;
      var front, last := ops[..n], ops[n];
      assert Step(pending[n], last, pending[n + 1]);
      assert Run(pending[..n + 1], front);
      FirstInFirstOut(pending[..n + 1], front, p);
      hide OfPriority, Step, Run;
      StepFilters(pending[n], last, pending[n + 1], p);
      FilterConcat(In(front), Came(last), p);
      FilterConcat(Out(front), Left(last), p);
      Associative(OfPriority(Out(front), p), OfPriority(pending[n], p), OfPriority(Came(last), p));
      Associative(OfPriority(Out(front), p), OfPriority(Left(last), p), OfPriority(pending[n + 1], p));
    }
  }

  // ----- draining -----

  /** Dequeuing in one mode until nothing more comes gives `out`. */
  ghost predicate Drains(tasks: seq<Task>, mode: DegradationMode, out: seq<Task>, left: seq<Task>)
    decreases |out|
  {
    if out == [] then Dequeues(tasks, mode, None, left)
    else exists rest :: Dequeues(tasks, mode, Some(out[0]), rest) && Drains(rest, mode, out[1..], left)
  }

  ghost predicate Descending(tasks: seq<Task>) {
    forall i, j :: 0 <= i < j < |tasks| ==> tasks[i].priority.Level() >= tasks[j].priority.Level()
  }

  /** The stable sort by descending priority: descending, and within each priority in the original order. */
  ghost predicate StablySorted(tasks: seq<Task>, sorted: seq<Task>) {
    Descending(sorted) && forall p :: OfPriority(sorted, p) == OfPriority(tasks, p)
  }

  lemma FilterMembers(tasks: seq<Task>, p: Priority)
    ensures forall t :: t in OfPriority(tasks, p) <==> t in tasks && t.priority == p
  {
    if tasks != [] {
      FilterMembers(tasks[1..], p);
      assert forall t :: t in tasks <==> t == tasks[0] || t in tasks[1..];
    }
  }

  lemma SameTail(a: seq<Task>, b: seq<Task>, p: Priority)
    requires a != [] && b != [] && a[0] == b[0] && OfPriority(a, p) == OfPriority(b, p)
    ensures OfPriority(a[1..], p) == OfPriority(b[1..], p)
  {
    var n := |Only(a[0], p)|;
    assert OfPriority(a, p)[n..] == OfPriority(a[1..], p);
    assert OfPriority(b, p)[n..] == OfPriority(b[1..], p);
  }

  lemma HeadIsAmong(a: seq<Task>, b: seq<Task>)
    requires a != [] && OfPriority(a, a[0].priority) == OfPriority(b, a[0].priority)
    ensures a[0] in b && OfPriority(b, a[0].priority) != [] && OfPriority(b, a[0].priority)[0] == a[0]
  {
    FilterMembers(b, a[0].priority);
    assert OfPriority(a, a[0].priority)[0] == a[0];
  }

  lemma SameHeads(a: seq<Task>, b: seq<Task>)
    requires a != [] && b != [] && Descending(a) && Descending(b)
    requires OfPriority(a, a[0].priority) == OfPriority(b, a[0].priority)
    requires OfPriority(a, b[0].priority) == OfPriority(b, b[0].priority)
    ensures a[0] == b[0]
  {
    HeadIsAmong(a, b);
    HeadIsAmong(b, a);
    assert a[0].priority.Level() >= b[0].priority.Level() && b[0].priority.Level() >= a[0].priority.Level();
    assert a[0].priority == b[0].priority;
  }

  /** There is only one stable sort. */
  lemma {:induction false} StableSortIsUnique(tasks: seq<Task>, a: seq<Task>, b: seq<Task>)
    requires StablySorted(tasks, a) && StablySorted(tasks, b)
    ensures a == b
    decreases |a|
  {
    Partition(a);
    Partition(b);
    assert |a| == |b|;
    if a != [] {
      assert Descending(a[1..]) && Descending(b[1..]);
      hide OfPriority;
      SameHeads(a, b);
      forall r
        ensures OfPriority(a[1..], r) == OfPriority(b[1..], r)
      {
        SameTail(a, b, r);
      }
      hide Descending;
      StableSortIsUnique(a[1..], a[1..], b[1..]);
      assert a == [a[0]] + a[1..] && b == [b[0]] + b[1..];
    }
  }

  lemma FirstDrained(tasks: seq<Task>, mode: DegradationMode, out: seq<Task>, left: seq<Task>) returns (rest: seq<Task>)
    requires out != [] && Drains(tasks, mode, out, left)
    ensures Drains(rest, mode, out[1..], left)
    ensures forall p :: OfPriority(tasks, p) == Only(out[0], p) + OfPriority(rest, p)
    ensures out[0] in tasks && Admits(mode, out[0].priority)
    ensures forall t :: t in rest ==> t in tasks
    ensures forall t :: t in rest && Admits(mode, t.priority) ==> t.priority.Level() <= out[0].priority.Level()
  {
    rest :| Dequeues(tasks, mode, Some(out[0]), rest) && Drains(rest, mode, out[1..], left);
    var i :| IsChoice(tasks, mode, i) && out[0] == tasks[i] && rest == Without(tasks, i);
    RemoveFirst(tasks, i);
  }

  /** What comes out of a queue, followed by what stays in it, is what was in it; admitted queues are emptied. */
  lemma {:induction false} DrainFilters(tasks: seq<Task>, mode: DegradationMode, out: seq<Task>, left: seq<Task>,
      p: Priority)
    requires Drains(tasks, mode, out, left)
    ensures OfPriority(tasks, p) == OfPriority(out, p) + OfPriority(left, p)
    ensures if Admits(mode, p) then OfPriority(left, p) == [] else OfPriority(out, p) == []
    decreases |out|
  {
    hide IsChoice;
    if out == [] {
      EmptyFilter(tasks, p);
      assert OfPriority(out, p) == [] && left == tasks;
      assert [] + OfPriority(left, p) == OfPriority(left, p);
    } else {
      var rest := FirstDrained(tasks, mode, out, left);
      DrainFilters(rest, mode, out[1..], left, p);
      assert OfPriority(out, p) == Only(out[0], p) + OfPriority(out[1..], p);
      hide OfPriority, Drains, Dequeues;
      Associative(Only(out[0], p), OfPriority(out[1..], p), OfPriority(left, p));
    }
  }

  lemma {:induction false} DrainedAreAdmitted(tasks: seq<Task>, mode: DegradationMode, out: seq<Task>, left: seq<Task>)
    requires Drains(tasks, mode, out, left)
    ensures forall t :: t in out ==> t in tasks && Admits(mode, t.priority)
    decreases |out|
  {
    hide OfPriority, Dequeues, IsChoice;
    if out != [] {
      var rest := FirstDrained(tasks, mode, out, left);
      DrainedAreAdmitted(rest, mode, out[1..], left);
      forall t | t in out
        ensures t in tasks && Admits(mode, t.priority)
      {
        assert t == out[0] || t in out[1..];
      }
    }
  }

  lemma DescendingCons(tasks: seq<Task>)
    requires tasks != [] && Descending(tasks[1..])
    requires forall t :: t in tasks[1..] ==> t.priority.Level() <= tasks[0].priority.Level()
    ensures Descending(tasks)
  {
    var rest := tasks[1..];
    forall i, j | 0 <= i < j < |tasks|
      ensures tasks[i].priority.Level() >= tasks[j].priority.Level()
    {
      assert tasks[j] == rest[j - 1];
      if i > 0 { assert tasks[i] == rest[i - 1]; }
    }
  }

  lemma {:induction false} DrainDescends(tasks: seq<Task>, mode: DegradationMode, out: seq<Task>, left: seq<Task>)
    requires Drains(tasks, mode, out, left)
    ensures Descending(out)
    decreases |out|
  {
    hide OfPriority, Dequeues, IsChoice;
    if out != [] {
      var rest := FirstDrained(tasks, mode, out, left);
      DrainDescends(rest, mode, out[1..], left);
      DrainedAreAdmitted(rest, mode, out[1..], left);
      DescendingCons(out);
    }
  }

  /** Draining in normal mode empties the queues and yields the stable sort by descending priority. */
  lemma NormalDrainIsStableSort(tasks: seq<Task>, out: seq<Task>, left: seq<Task>)
    requires Drains(tasks, NormalMode, out, left)
    ensures StablySorted(tasks, out) && left == []
  {
    DrainDescends(tasks, NormalMode, out, left);
    forall p
      ensures OfPriority(out, p) == OfPriority(tasks, p) && OfPriority(left, p) == []
    {
      DrainFilters(tasks, NormalMode, out, left, p);
      assert OfPriority(out, p) + [] == OfPriority(out, p);
    }
    Partition(left);
  }
}
