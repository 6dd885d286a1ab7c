/** The store-buffer experiment: two threads that each write one variable and read the other, started and
    awaited by a main loop over semaphores. Every thread's stores wait in a buffer of its own and reach memory
    one at a time, in order, at any later moment; a fence and a semaphore operation wait for the buffer to drain. */
module StoreBuffers {

  datatype Var = X | Y | R1 | R2

  datatype Memory = Memory(x: int, y: int, r1: int, r2: int)

  function Read(m: Memory, v: Var): (value: int)
  {
    match v
    case X => m.x
    case Y => m.y
    case R1 => m.r1
    case R2 => m.r2
  }

  function Write(m: Memory, v: Var, value: int): (m': Memory)
    ensures Read(m', v) == value && forall w :: w != v ==> Read(m', w) == Read(m, w)
  {
    match v
    case X => m.(x := value)
    case Y => m.(y := value)
    case R1 => m.(r1 := value)
    case R2 => m.(r2 := value)
  }

  datatype Store = Store(v: Var, value: int)

  /** The last value this thread stored, or else what is in memory. */
  function Load(m: Memory, buffer: seq<Store>, v: Var): (value: int)
  {
    if |buffer| == 0 then Read(m, v)
    else if buffer[|buffer| - 1].v == v then buffer[|buffer| - 1].value
    else Load(m, buffer[..|buffer| - 1], v)
  }

  datatype ThreadPc = Waiting | Writing | Fencing | Loading | Storing | Posting

  datatype Thread = Thread(pc: ThreadPc, buffer: seq<Store>, reg: int, sema: nat, runs: nat)

  datatype MainPc = ResetX | ResetY | Signal1 | Signal2 | Await1 | Await2 | Check1 | Check2

  datatype Main = Main(pc: MainPc, buffer: seq<Store>, detected: nat, rounds: nat)

  datatype State = State(memory: Memory, main: Main, t1: Thread, t2: Thread, endSema: nat)

  datatype Who = MainThread | First | Second

  datatype Action = Flush(who: Who) | Go(who: Who)

  function Initial(): (s: State)
  {
    var idle := Thread(Waiting, [], 0, 0, 0);
    State(Memory(0, 0, 0, 0), Main(ResetX, [], 0, 0), idle, idle, 0)
  }

  // ---------------------------------------------------------------- the steps

  predicate CanThread(fenced: bool, t: Thread)
  {
    match t.pc
    case Waiting => t.sema > 0 && t.buffer == []
    case Writing => true
    case Fencing => fenced ==> t.buffer == []
    case Loading => true
    case Storing => true
    case Posting => t.buffer == []
  }

  /** One instruction of a thread that writes `mine`, reads `theirs` and reports in `out`. */
  function StepThread(m: Memory, t: Thread, mine: Var, theirs: Var, out: Var): (t': Thread)
    requires t.pc == Waiting ==> t.sema > 0
  {
    match t.pc
    case Waiting => t.(pc := Writing, sema := t.sema - 1)
    case Writing => t.(pc := Fencing, buffer := t.buffer + [Store(mine, 1)])
    case Fencing => t.(pc := Loading)
    case Loading => t.(pc := Storing, reg := Load(m, t.buffer, theirs))
    case Storing => t.(pc := Posting, buffer := t.buffer + [Store(out, t.reg)])
    case Posting => t.(pc := Waiting, runs := t.runs + 1)
  }

  predicate CanMain(s: State)
  {
    match s.main.pc
    case Signal1 => s.main.buffer == []
    case Signal2 => s.main.buffer == []
    case Await1 => s.main.buffer == [] && s.endSema > 0
    case Await2 => s.main.buffer == [] && s.endSema > 0
    case _ => true
  }

  function StepMain(s: State): (s': State)
    requires CanMain(s)
  {
    var main := s.main;
    match main.pc
    case ResetX => s.(main := main.(pc := ResetY, buffer := main.buffer + [Store(X, 0)], rounds := main.rounds + 1))
    case ResetY => s.(main := main.(pc := Signal1, buffer := main.buffer + [Store(Y, 0)]))
    case Signal1 => s.(main := main.(pc := Signal2), t1 := s.t1.(sema := s.t1.sema + 1))
    case Signal2 => s.(main := main.(pc := Await1), t2 := s.t2.(sema := s.t2.sema + 1))
    case Await1 => s.(main := main.(pc := Await2), endSema := s.endSema - 1)
    case Await2 => s.(main := main.(pc := Check1), endSema := s.endSema - 1)
    case Check1 => s.(main := main.(pc := if Load(s.memory, main.buffer, R1) == 0 then Check2 else ResetX))
    case Check2 =>
      var reorder := Load(s.memory, main.buffer, R2) == 0;
      s.(main := main.(pc := ResetX, detected := if reorder then main.detected + 1 else main.detected))
  }

  function Buffer(s: State, who: Who): (b: seq<Store>)
  {
    match who
    case MainThread => s.main.buffer
    case First => s.t1.buffer
    case Second => s.t2.buffer
  }

  predicate Enabled(fenced: bool, s: State, a: Action)
  {
    match a
    case Flush(who) => Buffer(s, who) != []
    case Go(MainThread) => CanMain(s)
    case Go(First) => CanThread(fenced, s.t1)
    case Go(Second) => CanThread(fenced, s.t2)
  }

  function Perform(fenced: bool, s: State, a: Action): (s': State)
    requires Enabled(fenced, s, a)
  {
    match a
    case Flush(who) =>
      var b := Buffer(s, who);
      var flushed := s.(memory := Write(s.memory, b[0].v, b[0].value));
      (match who
       case MainThread => flushed.(main := s.main.(buffer := b[1..]))
       case First => flushed.(t1 := s.t1.(buffer := b[1..]))
       case Second => flushed.(t2 := s.t2.(buffer := b[1..])))
    case Go(MainThread) => StepMain(s)
    case Go(First) =>
      var posted := if s.t1.pc == Posting then s.endSema + 1 else s.endSema;
      s.(t1 := StepThread(s.memory, s.t1, X, Y, R1), endSema := posted)
    case Go(Second) =>
      var posted := if s.t2.pc == Posting then s.endSema + 1 else s.endSema;
      s.(t2 := StepThread(s.memory, s.t2, Y, X, R2), endSema := posted)
  }

  // ---------------------------------------------------------------- what every step keeps

  /** In the round `rounds`, the thread has reported. */
  predicate Done(t: Thread, rounds: nat)
  {
    t.pc == Waiting && t.runs == rounds
  }

  predicate PastLoad(t: Thread, rounds: nat)
  {
    t.pc == Storing || t.pc == Posting || Done(t, rounds)
  }

  /** A thread with nothing to do: before its signal, or after its report. */
  predicate Resting(t: Thread)
  {
    t.pc == Waiting && t.sema == 0 && t.buffer == []
  }

  /** A thread that was signalled in this round. */
  predicate Active(m: Memory, t: Thread, rounds: nat, mine: Var, out: Var)
  {
    && (t.runs == rounds ==> Resting(t))
    && (t.runs != rounds ==> t.runs + 1 == rounds && (t.sema == if t.pc == Waiting then 1 else 0))
    && (t.pc == Waiting || t.pc == Writing || t.pc == Loading || t.pc == Storing ==> t.buffer == [])
    && (t.pc == Fencing && t.buffer != [] ==> t.buffer == [Store(mine, 1)])
    && (t.pc == Posting && t.buffer != [] ==> t.buffer == [Store(out, t.reg)])
    && Read(m, mine) in {0, 1}
    && ((t.pc == Fencing && t.buffer == []) || t.pc == Loading || PastLoad(t, rounds) ==> Read(m, mine) == 1)
    && (PastLoad(t, rounds) ==> t.reg in {0, 1})
    && ((t.pc == Posting && t.buffer == []) || Done(t, rounds) ==> Read(m, out) == t.reg)
  }

  /** At most one of the two read before the other wrote. */
  predicate NotBothEarly(s: State)
  {
    PastLoad(s.t1, s.main.rounds) && PastLoad(s.t2, s.main.rounds) ==> s.t1.reg == 1 || s.t2.reg == 1
  }

  function Count(b: bool): (n: nat)
  {
    if b then 1 else 0
  }

  /** Where the threads are, by where the main loop is. */
  predicate Sound(s: State)
  {
    var m, n := s.main, s.main.rounds;
    var d1, d2 := Done(s.t1, n), Done(s.t2, n);
    && m.detected == 0
    && match m.pc
       case ResetX => m.buffer == [] && Resting(s.t1) && Resting(s.t2) && s.t1.runs == s.t2.runs == n && s.endSema == 0
       case ResetY =>
         && (m.buffer == [] || m.buffer == [Store(X, 0)]) && (m.buffer == [] ==> s.memory.x == 0)
         && Resting(s.t1) && Resting(s.t2) && s.t1.runs + 1 == s.t2.runs + 1 == n && s.endSema == 0
       case Signal1 =>
         && (m.buffer == [] || m.buffer == [Store(Y, 0)] || m.buffer == [Store(X, 0), Store(Y, 0)])
         && (|m.buffer| < 2 ==> s.memory.x == 0) && (|m.buffer| < 1 ==> s.memory.y == 0)
         && Resting(s.t1) && Resting(s.t2) && s.t1.runs + 1 == s.t2.runs + 1 == n && s.endSema == 0
       case Signal2 =>
         && m.buffer == [] && Active(s.memory, s.t1, n, X, R1) && Resting(s.t2) && s.t2.runs + 1 == n && s.memory.y == 0
         && s.endSema == Count(d1)
       case Await1 =>
         && m.buffer == [] && Active(s.memory, s.t1, n, X, R1) && Active(s.memory, s.t2, n, Y, R2) && NotBothEarly(s)
         && s.endSema == Count(d1) + Count(d2)
       case Await2 =>
         && m.buffer == [] && Active(s.memory, s.t1, n, X, R1) && Active(s.memory, s.t2, n, Y, R2) && NotBothEarly(s)
         && s.endSema + 1 == Count(d1) + Count(d2)
       case Check1 =>
         && m.buffer == [] && Active(s.memory, s.t1, n, X, R1) && Active(s.memory, s.t2, n, Y, R2) && NotBothEarly(s)
         && s.endSema == 0 && d1 && d2
       case Check2 =>
         && m.buffer == [] && Active(s.memory, s.t1, n, X, R1) && Active(s.memory, s.t2, n, Y, R2) && NotBothEarly(s)
         && s.endSema == 0 && d1 && d2 && s.memory.r1 == 0
  }

  lemma InitialSound()
    ensures Sound(Initial())
  {
  }

  lemma MainKeepsSound(s: State)
    requires Sound(s) && Enabled(true, s, Go(MainThread))
    ensures Sound(Perform(true, s, Go(MainThread)))
  {
  }

  lemma FirstKeepsSound(s: State)
    requires Sound(s) && Enabled(true, s, Go(First))
    ensures Sound(Perform(true, s, Go(First)))
  {
  }

  lemma SecondKeepsSound(s: State)
    requires Sound(s) && Enabled(true, s, Go(Second))
    ensures Sound(Perform(true, s, Go(Second)))
  {
  }

  lemma MainFlushKeepsSound(s: State)
    requires Sound(s) && Enabled(true, s, Flush(MainThread))
    ensures Sound(Perform(true, s, Flush(MainThread)))
  {
  }

  lemma FirstFlushKeepsSound(s: State)
    requires Sound(s) && Enabled(true, s, Flush(First))
    ensures Sound(Perform(true, s, Flush(First)))
  {
  }

  lemma SecondFlushKeepsSound(s: State)
    requires Sound(s) && Enabled(true, s, Flush(Second))
    ensures Sound(Perform(true, s, Flush(Second)))
  {
  }

  lemma StepKeepsSound(s: State, a: Action)
    requires Sound(s) && Enabled(true, s, a)
    ensures Sound(Perform(true, s, a))
  {
    hide Sound, Enabled, Perform;
    match a
    case Go(MainThread) => MainKeepsSound(s);
    case Go(First) => FirstKeepsSound(s);
    case Go(Second) => SecondKeepsSound(s);
    case Flush(MainThread) => MainFlushKeepsSound(s);
    case Flush(First) => FirstFlushKeepsSound(s);
    case Flush(Second) => SecondFlushKeepsSound(s);
  }

  // ---------------------------------------------------------------- whole runs

  /** The actions `acts`, each of them enabled, lead from `s` to `s'`. */
  predicate Plays(fenced: bool, s: State, acts: seq<Action>, s': State)
    decreases |acts|
  {
    if |acts| == 0 then s == s'
    else Enabled(fenced, s, acts[0]) && Plays(fenced, Perform(fenced, s, acts[0]), acts[1..], s')
  }

  lemma {:induction false} RunKeepsSound(s: State, acts: seq<Action>, s': State)
    requires Sound(s) && Plays(true, s, acts, s')
    ensures Sound(s')
    decreases |acts|
  {
    if |acts| > 0 {
      StepKeepsSound(s, acts[0]);
      RunKeepsSound(Perform(true, s, acts[0]), acts[1..], s');
    }
  }

  /** With the fence, no run of any length detects a reorder; when the main loop looks, both threads have run
      exactly once in this round, all stores are in memory, and they are those of some order of the two threads. */
  lemma FencedNeverDetects(acts: seq<Action>, s: State)
    requires Plays(true, Initial(), acts, s)
    ensures s.main.detected == 0
    ensures s.main.pc == Check1 || s.main.pc == Check2 ==>
              && s.t1.runs == s.t2.runs == s.main.rounds
              && s.main.buffer == s.t1.buffer == s.t2.buffer == []
              && s.memory.x == s.memory.y == 1
              && (s.memory.r1, s.memory.r2) in {(0, 1), (1, 0), (1, 1)}
  {
    InitialSound();
    RunKeepsSound(Initial(), acts, s);
  }

  /** No reachable state is stuck: some thread can always move or some store can reach memory. */
  lemma FencedNeverStuck(acts: seq<Action>, s: State)
    requires Plays(true, Initial(), acts, s)
    ensures exists a :: Enabled(true, s, a)
  {
    InitialSound();
    RunKeepsSound(Initial(), acts, s);
    if s.main.buffer != [] {
      assert Enabled(true, s, Flush(MainThread));
    } else if CanMain(s) {
      assert Enabled(true, s, Go(MainThread));
    } else if s.t1.buffer != [] {
      assert Enabled(true, s, Flush(First));
    } else if CanThread(true, s.t1) {
      assert Enabled(true, s, Go(First));
    } else if s.t2.buffer != [] {
      assert Enabled(true, s, Flush(Second));
    } else {
      assert Enabled(true, s, Go(Second));
    }
  }

  lemma {:induction false} PlaysOn(fenced: bool, s: State, acts: seq<Action>, mid: State, more: seq<Action>, s': State)
    requires Plays(fenced, s, acts, mid) && Plays(fenced, mid, more, s')
    ensures Plays(fenced, s, acts + more, s')
    decreases |acts|
  {
    if |acts| == 0 {
      assert acts + more == more;
    } else {
      PlaysOn(fenced, Perform(fenced, s, acts[0]), acts[1..], mid, more, s');
      assert (acts + more)[1..] == acts[1..] + more;
    }
  }

  /** One action more at the end. */
  lemma Extend(start: State, acts: seq<Action>, s: State, a: Action) returns (acts': seq<Action>, s': State)
    requires Plays(false, start, acts, s) && Enabled(false, s, a)
    ensures Plays(false, start, acts', s') && s' == Perform(false, s, a)
  {
    acts', s' := acts + [a], Perform(false, s, a);
    assert Plays(false, s', [a][1..], s');
    PlaysOn(false, start, acts, s, [a], s');
  }

  /** Both variables are reset and both threads are signalled. */
  lemma RoundStarts(start: State) returns (acts: seq<Action>, s: State)
    requires start == Initial()
    ensures Plays(false, start, acts, s)
    ensures s == State(Memory(0, 0, 0, 0), Main(Await1, [], 0, 1), Thread(Waiting, [], 0, 1, 0),
                       Thread(Waiting, [], 0, 1, 0), 0)
  {
    acts, s := [], start;
    acts, s := Extend(start, acts, s, Go(MainThread));
    acts, s := Extend(start, acts, s, Go(MainThread));
    acts, s := Extend(start, acts, s, Flush(MainThread));
    acts, s := Extend(start, acts, s, Flush(MainThread));
    acts, s := Extend(start, acts, s, Go(MainThread));
    acts, s := Extend(start, acts, s, Go(MainThread));
  }

  /** Both threads store and load while the stores still wait in their buffers. */
  lemma BothLoadEarly(start: State) returns (acts: seq<Action>, s: State)
    requires start
             == State(Memory(0, 0, 0, 0), Main(Await1, [], 0, 1), Thread(Waiting, [], 0, 1, 0),
                      Thread(Waiting, [], 0, 1, 0), 0)
    ensures Plays(false, start, acts, s)
    ensures s == State(Memory(0, 0, 0, 0), Main(Await1, [], 0, 1), Thread(Storing, [Store(X, 1)], 0, 0, 0),
                       Thread(Storing, [Store(Y, 1)], 0, 0, 0), 0)
  {
    acts, s := [], start;
    acts, s := Extend(start, acts, s, Go(First));
    acts, s := Extend(start, acts, s, Go(First));
    acts, s := Extend(start, acts, s, Go(First));
    acts, s := Extend(start, acts, s, Go(First));
    acts, s := Extend(start, acts, s, Go(Second));
    acts, s := Extend(start, acts, s, Go(Second));
    acts, s := Extend(start, acts, s, Go(Second));
    acts, s := Extend(start, acts, s, Go(Second));
  }

  /** The stores reach memory, too late. */
  lemma FirstReports(start: State) returns (acts: seq<Action>, s: State)
    requires start == State(Memory(0, 0, 0, 0), Main(Await1, [], 0, 1),
                            Thread(Storing, [Store(X, 1)], 0, 0, 0), Thread(Storing, [Store(Y, 1)], 0, 0, 0), 0)
    ensures Plays(false, start, acts, s)
    ensures s == State(Memory(1, 0, 0, 0), Main(Await1, [], 0, 1), Thread(Waiting, [], 0, 0, 1),
                       Thread(Storing, [Store(Y, 1)], 0, 0, 0), 1)
  {
    acts, s := [], start;
    acts, s := Extend(start, acts, s, Go(First));
    acts, s := Extend(start, acts, s, Flush(First));
    acts, s := Extend(start, acts, s, Flush(First));
    acts, s := Extend(start, acts, s, Go(First));
  }

  lemma SecondReports(start: State) returns (acts: seq<Action>, s: State)
    requires start
             == State(Memory(1, 0, 0, 0), Main(Await1, [], 0, 1), Thread(Waiting, [], 0, 0, 1),
                      Thread(Storing, [Store(Y, 1)], 0, 0, 0), 1)
    ensures Plays(false, start, acts, s)
    ensures s == State(Memory(1, 1, 0, 0), Main(Await1, [], 0, 1), Thread(Waiting, [], 0, 0, 1),
                       Thread(Waiting, [], 0, 0, 1), 2)
  {
    acts, s := [], start;
    acts, s := Extend(start, acts, s, Go(Second));
    acts, s := Extend(start, acts, s, Flush(Second));
    acts, s := Extend(start, acts, s, Flush(Second));
    acts, s := Extend(start, acts, s, Go(Second));
  }

  /** The main loop finds both results zero. */
  lemma MainDetects(start: State) returns (acts: seq<Action>, s: State)
    requires start
             == State(Memory(1, 1, 0, 0), Main(Await1, [], 0, 1), Thread(Waiting, [], 0, 0, 1),
                      Thread(Waiting, [], 0, 0, 1), 2)
    ensures Plays(false, start, acts, s)
    ensures s == State(Memory(1, 1, 0, 0), Main(ResetX, [], 1, 1), Thread(Waiting, [], 0, 0, 1),
                       Thread(Waiting, [], 0, 0, 1), 0)
  {
    acts, s := [], start;
    acts, s := Extend(start, acts, s, Go(MainThread));
    acts, s := Extend(start, acts, s, Go(MainThread));
    acts, s := Extend(start, acts, s, Go(MainThread));
    acts, s := Extend(start, acts, s, Go(MainThread));
  }

  /** Without the fence, a run of one round detects a reorder. */
  lemma UnfencedDetects() returns (acts: seq<Action>, s: State)
    ensures Plays(false, Initial(), acts, s) && s.main.detected == 1
  {
    var acts1, s1 := RoundStarts(Initial());
    var acts2, s2 := BothLoadEarly(s1);
    var acts3, s3 := FirstReports(s2);
    var acts4, s4 := SecondReports(s3);
    var acts5, s5 := MainDetects(s4);
    PlaysOn(false, Initial(), acts1, s1, acts2, s2);
    PlaysOn(false, Initial(), acts1 + acts2, s2, acts3, s3);
    PlaysOn(false, Initial(), acts1 + acts2 + acts3, s3, acts4, s4);
    PlaysOn(false, Initial(), acts1 + acts2 + acts3 + acts4, s4, acts5, s5);
    acts, s := acts1 + acts2 + acts3 + acts4 + acts5, s5;
  }
}
