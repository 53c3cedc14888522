/** Values shared by the scheduler, the workers and the coordinator. */
module Core {

  datatype Option<+T> = None | Some(value: T)

  // Task and worker ids are UUIDs in the program; only equality and the total order on ids matter.
  type TaskId = int
  type WorkerId = int

  datatype Priority = Low | Normal | High | Critical {
    function Level(): nat {
      match this
      case Low => 0
      case Normal => 1
      case High => 2
      case Critical => 3
    }
  }

  /** The order of the priorities by name. */
  predicate Lower(p: Priority, q: Priority) {
    match q
    case Low => false
    case Normal => p == Low
    case High => p == Low || p == Normal
    case Critical => p != Critical
  }

  lemma LevelsByName(p: Priority, q: Priority)
    ensures p.Level() < q.Level() <==> Lower(p, q)
    ensures p.Level() == q.Level() <==> p == q
  {
  }

  function FromLevel(level: nat): Priority
    requires level <= 3
  {
    if level == 0 then Low else if level == 1 then Normal else if level == 2 then High else Critical
  }

  datatype Amounts = Amounts(cpu: int, memory: int, gpu: int) {
    predicate NonNegative() {
      cpu >= 0 && memory >= 0 && gpu >= 0
    }

    predicate FitsIn(limit: Amounts) {
      cpu <= limit.cpu && memory <= limit.memory && gpu <= limit.gpu
    }

    function Plus(other: Amounts): Amounts {
      Amounts(cpu + other.cpu, memory + other.memory, gpu + other.gpu)
    }

    /** Subtraction that stops at zero in each component. */
    function Minus(other: Amounts): Amounts {
      Amounts(Monus(cpu, other.cpu), Monus(memory, other.memory), Monus(gpu, other.gpu))
    }
  }

  function Monus(a: int, b: int): int {
    if a < b then 0 else a - b
  }

  /** CPU is counted in millicores, so that sums are exact; no amount is negative. */
  type Resources = r: Amounts | r.NonNegative() witness Amounts(0, 0, 0)

  const NOTHING: Resources := Amounts(0, 0, 0)

  datatype Task = Task(id: TaskId, priority: Priority, dependencies: seq<TaskId>, resources: Resources, attempt: nat)

  ghost predicate Distinct<T>(s: seq<T>) {
    forall i, j :: 0 <= i < j < |s| ==> s[i] != s[j]
  }

  ghost function Elements<T>(s: seq<T>): set<T> {
    set x | x in s
  }

  /** Some element: hash sets and hash maps are iterated in no particular order. */
  method Any<T(==)>(s: set<T>) returns (x: T)
    requires s != {}
    ensures x in s
  {
    x :| x in s;
  }

  lemma SomeMember<T>(s: set<T>) returns (x: T)
    requires s != {}
    ensures x in s
  {
    x :| x in s;
  }

  lemma SubsetCardinality<T>(a: set<T>, b: set<T>)
    requires a <= b
    ensures |a| <= |b|
    ensures |a| == |b| ==> a == b
  {
    assert b == a + (b - a);
    assert |b| == |a| + |b - a|;
  }

  /** A sequence has at most as many elements as positions, and exactly as many when nothing repeats. */
  lemma {:induction false} ElementsCardinality<T>(s: seq<T>)
    ensures |Elements(s)| <= |s|
    ensures |Elements(s)| == |s| <==> Distinct(s)
  {
    if s == [] {
      assert Elements(s) == {};
    } else {
      var front, last := s[..|s| - 1], s[|s| - 1];
      ElementsCardinality(front);
      assert s == front + [last];
      assert Elements(s) == Elements(front) + {last};
      if last in front {
        assert Elements(s) == Elements(front);
        var i :| 0 <= i < |front| && front[i] == last;
        assert s[i] == s[|s| - 1];
      } else {
        assert |Elements(s)| == |Elements(front)| + 1;
        if Distinct(front) {
          assert Distinct(s);
        } else {
          var i, j :| 0 <= i < j < |front| && front[i] == front[j];
          assert s[i] == s[j];
        }
      }
    }
  }
}
