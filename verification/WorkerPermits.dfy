/** The permit counter of `src/docker.rs`: threads reserve drain-worker permits with a
    compare-and-swap loop on one atomic and return them one by one. A thread's steps are the
    atomic accesses; everything between two accesses is its own. */
module WorkerPermits {

  const USIZE_MAX: nat := 0xFFFF_FFFF_FFFF_FFFF

  /** Where a thread is in `reserve`: outside, or about to swap `seen` for `seen + count`. */
  datatype Phase = Outside | Swapping(count: nat, seen: nat)

  datatype State = State(maximum: nat, active: nat, phases: seq<Phase>, held: seq<nat>)

  datatype Event =
    | Load(thread: nat, count: nat)
    | Swap(thread: nat, spurious: bool)
    | DropPermit(thread: nat)
    | HandOver(from: nat, to: nat)

  datatype Outcome = Silent | Granted(count: nat) | Refused(count: nat) | Returned

  function Sum(s: seq<nat>): nat {
    if s == [] then 0 else s[0] + Sum(s[1..])
  }

  /** Which steps the threads can take: a reservation asks for at least one permit, and only a
      live permit can be dropped or handed over. */
  predicate Enabled(s: State, e: Event) {
    |s.held| == |s.phases|
    && match e
       case Load(t, count) => t < |s.phases| && s.phases[t].Outside? && count > 0
       case Swap(t, _) => t < |s.phases| && s.phases[t].Swapping?
       case DropPermit(t) => t < |s.held| && s.held[t] > 0
       case HandOver(from, to) => from < |s.held| && to < |s.held| && s.held[from] > 0
  }

  /** The loop body after reading the counter: give up, or try to swap. */
  function Consider(s: State, thread: nat, count: nat): (State, Outcome)
    requires thread < |s.phases|
  {
    if s.active + count > USIZE_MAX || s.active + count > s.maximum
    then (s.(phases := s.phases[thread := Outside]), Refused(count))
    else (s.(phases := s.phases[thread := Swapping(count, s.active)]), Silent)
  }

  function WrappingDecrement(n: nat): nat {
    if n == 0 then USIZE_MAX else n - 1
  }

  function Step(s: State, e: Event): (State, Outcome)
    requires Enabled(s, e)
  {
    match e
    case Load(t, count) => Consider(s, t, count)
    case Swap(t, spurious) =>
      var p := s.phases[t];
      if s.active == p.seen && !spurious
      then (s.(active := p.seen + p.count, phases := s.phases[t := Outside], held := s.held[t := s.held[t] + p.count]),
            Granted(p.count))
      else Consider(s, t, p.count)
    case DropPermit(t) =>
      (s.(active := WrappingDecrement(s.active), held := s.held[t := s.held[t] - 1]), Returned)
    case HandOver(from, to) =>
      var without := s.held[from := s.held[from] - 1];
      (s.(held := without[to := without[to] + 1]), Silent)
  }

  /** The counter is the number of live permits and never passes the maximum. */
  ghost predicate Valid(s: State) {
    && |s.held| == |s.phases|
    && s.active == Sum(s.held) <= s.maximum <= USIZE_MAX
    && forall t | 0 <= t < |s.phases| && s.phases[t].Swapping? ::
         s.phases[t].count > 0 && s.phases[t].seen + s.phases[t].count <= s.maximum
  }

  lemma {:induction false} SumUpdate(s: seq<nat>, i: nat, v: nat)
    requires i < |s|
    ensures Sum(s[i := v]) == Sum(s) - s[i] + v
  {
    if i == 0 {
      assert s[i := v][1..] == s[1..];
    } else {
      assert s[i := v][1..] == s[1..][i - 1 := v];
      SumUpdate(s[1..], i - 1, v);
    }
  }

  lemma {:induction false} SumAtLeast(s: seq<nat>, i: nat)
    requires i < |s|
    ensures s[i] <= Sum(s)
  {
    if i > 0 {
      SumAtLeast(s[1..], i - 1);
    }
  }

  lemma ConsiderKeeps(s: State, thread: nat, count: nat)
    requires Valid(s) && thread < |s.phases| && count > 0
    ensures Valid(Consider(s, thread, count).0)
    ensures Consider(s, thread, count).0.held == s.held
  {
    hide Sum;
  }

  lemma StepKeeps(s: State, e: Event)
    requires Valid(s) && Enabled(s, e)
    ensures Valid(Step(s, e).0)
  {
    hide Sum;
    hide Consider;
    match e
    case Load(t, count) => ConsiderKeeps(s, t, count);
    case Swap(t, spurious) =>
      ConsiderKeeps(s, t, s.phases[t].count);
      SumUpdate(s.held, t, s.held[t] + s.phases[t].count);
    case DropPermit(t) =>
      SumAtLeast(s.held, t);
      SumUpdate(s.held, t, s.held[t] - 1);
    case HandOver(from, to) =>
      SumUpdate(s.held, from, s.held[from] - 1);
      var without := s.held[from := s.held[from] - 1];
      SumUpdate(without, to, without[to] + 1);
  }

  // ----- The counter behaves like one indivisible counter

  /** The simple counter: a reservation is granted exactly when it fits. */
  predicate AtomicallyAllowed(maximum: nat, live: nat, o: Outcome, after: nat) {
    match o
    case Silent => after == live
    case Granted(count) => live + count <= maximum && after == live + count
    case Refused(count) => live + count > maximum && after == live
    case Returned => live > 0 && after == live - 1
  }

  /** Each step is one step of the simple counter on the permits that are live at that moment:
      grants fit, refusals are justified, no drop underflows. */
  lemma StepRefines(s: State, e: Event)
    requires Valid(s) && Enabled(s, e)
    ensures AtomicallyAllowed(s.maximum, Sum(s.held), Step(s, e).1, Sum(Step(s, e).0.held))
  {
    StepKeeps(s, e);
    if e.DropPermit? {
      SumAtLeast(s.held, e.thread);
    }
    if e.HandOver? {
      SumUpdate(s.held, e.from, s.held[e.from] - 1);
      var without := s.held[e.from := s.held[e.from] - 1];
      SumUpdate(without, e.to, without[e.to] + 1);
    }
  }

  /** A reservation asked for `count` permits: its thread gains exactly `count` of them in one
      step, or nobody's permits change. */
  lemma AllOrNothing(s: State, e: Event, count: nat)
    requires Valid(s) && Enabled(s, e)
    requires (e.Load? && e.count == count) || (e.Swap? && s.phases[e.thread].count == count)
    ensures Step(s, e).0.held == s.held
         || (Step(s, e).1 == Granted(count) && Step(s, e).0.held == s.held[e.thread := s.held[e.thread] + count])
    ensures Step(s, e).1.Granted? <==> Step(s, e).0.held != s.held
  {
    if e.Swap? {
      assert count > 0;
      assert s.held[e.thread := s.held[e.thread] + count][e.thread] != s.held[e.thread];
    }
  }

  function Start(maximum: nat, threads: nat): State {
    State(maximum, 0, seq(threads, _ => Outside), seq(threads, _ => 0))
  }

  ghost predicate Runs(s: State, events: seq<Event>)
    decreases |events|
  {
    events == [] || (Enabled(s, events[0]) && Runs(Step(s, events[0]).0, events[1..]))
  }

  ghost function After(s: State, events: seq<Event>): State
    requires Runs(s, events)
    decreases |events|
  {
    if events == [] then s else After(Step(s, events[0]).0, events[1..])
  }

  ghost function History(s: State, events: seq<Event>): seq<Outcome>
    requires Runs(s, events)
    decreases |events|
  {
    if events == [] then [] else [Step(s, events[0]).1] + History(Step(s, events[0]).0, events[1..])
  }

  /** Replaying a history on the simple counter. */
  ghost predicate Replays(maximum: nat, live: nat, history: seq<Outcome>, end: nat)
    decreases |history|
  {
    if history == [] then end == live
    else exists next: nat :: AtomicallyAllowed(maximum, live, history[0], next) && Replays(maximum, next, history[1..], end)
  }

  /** Any interleaving of any number of threads, spurious failures included, is a history of
      the simple counter, and ends with the counter equal to the permits still alive. */
  lemma {:induction false} RunRefines(s: State, events: seq<Event>)
    requires Valid(s) && Runs(s, events)
    ensures Valid(After(s, events))
    ensures Replays(s.maximum, s.active, History(s, events), After(s, events).active)
    decreases |events|
  {
    if events != [] {
      var next := Step(s, events[0]).0;
      StepKeeps(s, events[0]);
      StepRefines(s, events[0]);
      RunRefines(next, events[1..]);
      var h := History(s, events);
      assert h[1..] == History(next, events[1..]);
      assert AtomicallyAllowed(s.maximum, s.active, h[0], next.active);
      assert next.maximum == s.maximum;
    }
  }

  lemma {:induction false} SumZero(n: nat)
    ensures Sum(seq(n, _ => 0)) == 0
  {
    if n > 0 {
      assert seq(n, _ => 0)[1..] == seq(n - 1, _ => 0);
      SumZero(n - 1);
    }
  }

  /** From a fresh counter: never more permits than the maximum, whatever the schedule. */
  lemma PermitsBounded(maximum: nat, threads: nat, events: seq<Event>)
    requires maximum <= USIZE_MAX && Runs(Start(maximum, threads), events)
    ensures After(Start(maximum, threads), events).active == Sum(After(Start(maximum, threads), events).held) <= maximum
    ensures Replays(maximum, 0, History(Start(maximum, threads), events), After(Start(maximum, threads), events).active)
  {
    SumZero(threads);
    var start := Start(maximum, threads);
    assert start.held == seq(threads, _ => 0);
    RunRefines(start, events);
    MaximumFixed(start, events);
  }

  lemma {:induction false} MaximumFixed(s: State, events: seq<Event>)
    requires Runs(s, events)
    ensures After(s, events).maximum == s.maximum
    decreases |events|
  {
    if events != [] {
      MaximumFixed(Step(s, events[0]).0, events[1..]);
    }
  }

  // ----- Bounded drain

  type Byte = b: int | 0 <= b < 256

  /** A pipe with a known content. How much each read returns is up to the operating system. */
  class Pipe {
    const content: seq<Byte>
    var at: nat

    constructor (content: seq<Byte>)
      ensures Valid() && this.content == content && at == 0
    {
      this.content, at := content, 0;
    }

    predicate Valid()
      reads this
    {
      at <= |content|
    }

    /** At most `capacity` bytes; none means the end. `fails` and `amount` are the system's choice. */
    method Read(capacity: nat, fails: bool, amount: nat) returns (r: seq<Byte>, ok: bool)
      requires Valid() && capacity > 0
      modifies this
      ensures Valid() && ok == !fails
      ensures !ok ==> at == old(at) && r == []
      ensures ok ==> |r| <= capacity && at == old(at) + |r| && r == content[old(at)..at]
      ensures ok && old(at) < |content| ==> r != []
    {
      r, ok := [], !fails;
      if fails { return; }
      var left := |content| - at;
      var most := if left < capacity then left else capacity;
      var n := if amount > most then most else if amount == 0 && most > 0 then 1 else amount;
      r := content[at..at + n];
      at := at + n;
    }
  }

  datatype BoundedOutput = BoundedOutput(bytes: seq<Byte>, exceeded: bool)

  /** What the system answers to one read. */
  datatype Answer = Answer(fails: bool, amount: nat)

  /** `read_output_bounded`: keeps the first `maximum` bytes, says exactly whether there was
      more, and never takes more than one byte past the bound out of the pipe. `schedule` is
      the system's behaviour, read by read. */
  method ReadOutputBounded(pipe: Pipe, maximum: nat, chunk: nat, schedule: nat -> Answer)
    returns (output: BoundedOutput, ok: bool)
    requires pipe.Valid() && pipe.at == 0 && chunk > 0
    modifies pipe
    ensures pipe.Valid() && pipe.at <= maximum + 1
    ensures ok ==> output.exceeded == (|pipe.content| > maximum)
    ensures ok ==> output.bytes == if |pipe.content| > maximum then pipe.content[..maximum] else pipe.content
    ensures (forall i :: !schedule(i).fails) ==> ok
  {
    var bytes, turn := [], 0;
    while true
      invariant pipe.Valid() && |bytes| <= maximum && pipe.at == |bytes| && bytes == pipe.content[..|bytes|]
      decreases |pipe.content| - pipe.at
    {
      var remaining := maximum - |bytes|;
      var capacity := if remaining + 1 < chunk then remaining + 1 else chunk;
      var piece, fine := pipe.Read(capacity, schedule(turn).fails, schedule(turn).amount);
      if !fine {
        return BoundedOutput(bytes, false), false;
      }
      if piece == [] {
        assert bytes == pipe.content;
        break;
      }
      var retained := if |piece| < remaining then |piece| else remaining;
      assert pipe.content[..pipe.at] == bytes + piece;
      bytes := bytes + piece[..retained];
      assert bytes == pipe.content[..|bytes|];
      if retained < |piece| {
        return BoundedOutput(bytes, true), true;
      }
      turn := turn + 1;
    }
    output, ok := BoundedOutput(bytes, false), true;
  }
}
