/** The prefork job protocol: four windowed clients send jobs to one owner through a shared
    bounded ring and get the answers back on a ring each. Every action on a ring is one
    step; the schedule, refused pushes and timeouts are free. */
module JobProtocol {
  import opened Sums

  const CLIENTS: nat := 4
  const JOBS: nat := 10000
  const WINDOW: nat := 32
  const COUNTERS: nat := 8
  const JOB_SLOTS: nat := 64
  /** An answer ring of 1024 bytes; a 12-byte record takes 16 of them. */
  const ANSWER_SLOTS: nat := 64

  datatype Job = Job(client: int, number: int, counter: int, amount: int)
  datatype Answer = Answer(number: int, value: int)

  /** Where a client is: filling its window, about to take an answer, past its loop and
      sending the end mark, about to report, gone. */
  datatype ClientAt = Sending | Waiting | Closing | Reporting | Exited
  /** `heard` is the history of the answers it has taken, which the program does not keep. */
  datatype Client = Client(at: ClientAt, sent: nat, got: nat, wrong: nat, heard: seq<Answer>)

  datatype OwnerAt = Taking | Holding(job: Job) | Stopped
  /** `served` and `marks` are the histories of the jobs it has counted and answered and of the end
      marks it has taken, which the program does not keep. */
  datatype Owner = Owner(at: OwnerAt, counters: seq<int>, done: nat, answered: nat, served: seq<Job>, marks: seq<Job>)

  /** What the workers leave in the shared region. */
  datatype Totals = Totals(failures: int, answered: int, total: int)

  datatype State = State(jobs: seq<Job>, answers: seq<seq<Answer>>, clients: seq<Client>, owner: Owner, totals: Totals)

  function Start(): State {
    State([], [[], [], [], []], [FRESH, FRESH, FRESH, FRESH],
          Owner(Taking, [0, 0, 0, 0, 0, 0, 0, 0], 0, 0, [], []), Totals(0, 0, 0))
  }

  const FRESH: Client := Client(Sending, 1, 0, 0, [])

  /** What a client does in one step. */
  datatype Action =
    | Push       // the next job goes into the job ring
    | Refused    // the push is refused, or the window is full: go on to the answers
    | Retry      // nothing in flight, and no second has passed: try to push again
    | GiveUp     // a second without room, or without an answer
    | Receive    // take the next answer and check it
    | EndMark    // the end mark goes into the job ring
    | NoEndMark  // a million refusals: exit without it
    | Report     // add the failures to the region's, and exit

  /** One step of client `me` (numbered from 0 here, from 1 in its jobs) or of the owner. */
  datatype Step =
    | Acts(me: nat, act: Action)
    | Take       // the owner takes a job
    | Answering  // the owner handles the job it holds
    | Stop       // every client is done, or the ring stayed empty: store the totals

  predicate MaySend(c: Client) {
    c.sent <= JOBS && c.sent - 1 - c.got < WINDOW
  }

  predicate CanAct(c: Client, act: Action, queued: nat, answers: seq<Answer>) {
    match act
    case Push => c.at.Sending? && MaySend(c) && queued < JOB_SLOTS
    case Refused => c.at.Sending?
    case Retry => c.at.Waiting? && c.sent - 1 == c.got
    case GiveUp => c.at.Waiting? && (c.sent - 1 == c.got || answers == [])
    case Receive => c.at.Waiting? && c.sent - 1 != c.got && answers != []
    case EndMark => c.at.Closing? && queued < JOB_SLOTS
    case NoEndMark => c.at.Closing?
    case Report => c.at.Reporting?
  }

  predicate Enabled(s: State, step: Step)
    requires |s.clients| == |s.answers| == CLIENTS
  {
    match step
    case Take => s.owner.at.Taking? && s.owner.done < CLIENTS && s.jobs != []
    case Answering => s.owner.at.Holding? && |s.owner.counters| == COUNTERS
    case Stop => s.owner.at.Taking? && (s.owner.done >= CLIENTS || s.jobs == [])
    case Acts(me, act) => me < CLIENTS && CanAct(s.clients[me], act, |s.jobs|, s.answers[me])
  }

  /** An answer is wrong when it is out of order or smaller than a growing counter can be. */
  function Received(c: Client, a: Answer): Client {
    var got := c.got + 1;
    Client(if got < JOBS then Sending else Closing, c.sent, got,
           if a.number != got || a.value < got then c.wrong + 1 else c.wrong, c.heard + [a])
  }

  function ActsOn(s: State, me: nat, act: Action): (s': State)
    requires |s.clients| == |s.answers| == CLIENTS && me < CLIENTS
    requires CanAct(s.clients[me], act, |s.jobs|, s.answers[me])
    ensures |s'.clients| == |s'.answers| == CLIENTS && s'.owner == s.owner
  {
    var c := s.clients[me];
    match act
    case Push =>
      s.(jobs := s.jobs + [Job(me + 1, c.sent, c.sent % COUNTERS, c.sent)],
         clients := s.clients[me := c.(sent := c.sent + 1)])
    case Refused => s.(clients := s.clients[me := c.(at := Waiting)])
    case Retry => s.(clients := s.clients[me := c.(at := Sending)])
    case GiveUp => s.(clients := s.clients[me := c.(at := Closing)])
    case Receive =>
      s.(answers := s.answers[me := s.answers[me][1..]], clients := s.clients[me := Received(c, s.answers[me][0])])
    case EndMark =>
      // The mark's other fields are stale and never read.
      s.(jobs := s.jobs + [Job(me + 1, 0, -1, 0)], clients := s.clients[me := c.(at := Reporting)])
    case NoEndMark => s.(clients := s.clients[me := c.(at := Reporting)])
    case Report =>
      s.(clients := s.clients[me := c.(at := Exited)],
         totals := s.totals.(failures := s.totals.failures + c.wrong + (JOBS - c.got)))
  }

  function Answered(s: State, j: Job): (s': State)
    requires |s.answers| == CLIENTS && |s.owner.counters| == COUNTERS
    ensures |s'.answers| == CLIENTS && s'.clients == s.clients
  {
    var o := s.owner.(at := Taking);
    if j.counter < 0 then s.(owner := o.(done := o.done + 1, marks := o.marks + [j]))
    else if j.client < 1 || j.client > CLIENTS || j.counter >= |o.counters| then s.(owner := o)
    else
      var value := o.counters[j.counter] + j.amount;
      var ring := s.answers[j.client - 1];
      // The push's result is not looked at: a full ring would lose the answer.
      s.(answers := s.answers[j.client - 1 := if |ring| < ANSWER_SLOTS then ring + [Answer(j.number, value)] else ring],
         owner := o.(counters := o.counters[j.counter := value], answered := o.answered + 1,
                      served := o.served + [j]))
  }

  function Apply(s: State, step: Step): (s': State)
    requires |s.clients| == |s.answers| == CLIENTS && Enabled(s, step)
    ensures |s'.clients| == |s'.answers| == CLIENTS
  {
    match step
    case Take => s.(jobs := s.jobs[1..], owner := s.owner.(at := Holding(s.jobs[0])))
    case Answering => Answered(s, s.owner.at.job)
    case Stop => s.(owner := s.owner.(at := Stopped),
                    totals := s.totals.(answered := s.owner.answered, total := Sum(s.owner.counters)))
    case Acts(me, act) => ActsOn(s, me, act)
  }

  /** The states a schedule leads to. A step that is not enabled does not happen. */
  function Run(steps: seq<Step>): (s: State)
    ensures |s.clients| == |s.answers| == CLIENTS
  {
    if steps == [] then Start()
    else
      var s := Run(steps[..|steps| - 1]);
      if Enabled(s, steps[|steps| - 1]) then Apply(s, steps[|steps| - 1]) else s
  }

  // ---- What is in flight ----

  /** `lo .. hi - 1`. */
  function Range(lo: int, hi: int): seq<int> {
    if hi <= lo then [] else seq(hi - lo, i => lo + i)
  }

  function Numbers(ring: seq<Answer>): seq<int> {
    seq(|ring|, i requires 0 <= i < |ring| => ring[i].number)
  }

  /** The number of `j`, if it is a real job of client `me`. */
  function NumberOf(j: Job, me: nat): seq<int> {
    if j.client == me + 1 && j.counter >= 0 then [j.number] else []
  }

  /** The numbers of client `me`'s jobs in the job ring, in order. */
  function JobsOf(jobs: seq<Job>, me: nat): seq<int> {
    if jobs == [] then [] else JobsOf(jobs[..|jobs| - 1], me) + NumberOf(jobs[|jobs| - 1], me)
  }

  function HeldOf(at: OwnerAt, me: nat): seq<int> {
    if at.Holding? then NumberOf(at.job, me) else []
  }

  /** The numbers in flight for client `me`: answered, then held by the owner, then queued. */
  function InFlight(s: State, me: nat): seq<int>
    requires |s.answers| == CLIENTS && me < CLIENTS
  {
    Numbers(s.answers[me]) + HeldOf(s.owner.at, me) + JobsOf(s.jobs, me)
  }

  // ---- The invariant ----

  /** A job of one of the four clients: an end mark, or one that adds its own number to the
      counter with the number's remainder by 8. */
  predicate GoodJob(j: Job) {
    && 1 <= j.client <= 4
    && (j.counter < 0 || (j.number >= 1 && j.counter == j.number % 8 && j.amount == j.number))
  }

  /** `1 + 2 + ... + n`. */
  function Triangle(n: nat): nat {
    if n == 0 then 0 else Triangle(n - 1) + n
  }

  /** The answers given to client `me` so far. */
  function Given(s: State, me: nat): nat
    requires |s.clients| == |s.answers| == CLIENTS && me < CLIENTS
  {
    s.clients[me].got + |s.answers[me]|
  }

  ghost predicate ClientInv(s: State, me: nat)
    requires |s.clients| == |s.answers| == CLIENTS && me < CLIENTS
  {
    var c := s.clients[me];
    && InFlight(s, me) == Range(c.got + 1, c.sent)
    && c.got < c.sent <= JOBS + 1 && c.sent - 1 - c.got <= WINDOW
    && c.wrong == 0
    && (c.at.Sending? || c.at.Waiting? ==> c.got < JOBS)
    && (forall a | a in s.answers[me] :: a.value >= a.number)
  }

  ghost predicate OwnerInv(s: State)
    requires |s.clients| == |s.answers| == CLIENTS
  {
    && |s.owner.counters| == COUNTERS && (forall v | v in s.owner.counters :: v >= 0)
    && (forall j | j in s.jobs :: GoodJob(j))
    && (s.owner.at.Holding? ==> GoodJob(s.owner.at.job))
    && Sum(s.owner.counters) ==
       Triangle(Given(s, 0)) + Triangle(Given(s, 1)) + Triangle(Given(s, 2)) + Triangle(Given(s, 3))
    && s.owner.answered == Given(s, 0) + Given(s, 1) + Given(s, 2) + Given(s, 3)
  }

  function Missing(c: Client): int {
    if c.at.Exited? then c.wrong + (JOBS - c.got) else 0
  }

  ghost predicate TotalsInv(s: State)
    requires |s.clients| == |s.answers| == CLIENTS
  {
    && s.totals.failures ==
       Missing(s.clients[0]) + Missing(s.clients[1]) + Missing(s.clients[2]) + Missing(s.clients[3])
    && (s.owner.at.Stopped? ==> s.totals.answered == s.owner.answered && s.totals.total == Sum(s.owner.counters))
  }

  ghost predicate Inv(s: State) {
    && |s.clients| == |s.answers| == CLIENTS
    && (forall me: nat | me < CLIENTS :: ClientInv(s, me))
    && OwnerInv(s) && TotalsInv(s)
  }

  // ---- Every step keeps it ----

  lemma JobsOfPush(jobs: seq<Job>, j: Job, me: nat)
    ensures JobsOf(jobs + [j], me) == JobsOf(jobs, me) + NumberOf(j, me)
  {
    assert (jobs + [j])[..|jobs|] == jobs;
  }

  lemma {:induction false} JobsOfPop(jobs: seq<Job>, me: nat)
    requires jobs != []
    ensures JobsOf(jobs, me) == NumberOf(jobs[0], me) + JobsOf(jobs[1..], me)
  {
    var n := |jobs| - 1;
    if n == 0 {
      assert jobs[..0] == [] && jobs[1..] == [];
    } else {
      JobsOfPop(jobs[..n], me);
      assert jobs[..n][1..] == jobs[1..][..n - 1];
      assert jobs[1..][n - 1] == jobs[n];
      hide NumberOf;
      assert JobsOf(jobs[1..], me) == JobsOf(jobs[..n][1..], me) + NumberOf(jobs[n], me);
    }
  }

  lemma RangeLaws(lo: int, hi: int)
    requires lo <= hi
    ensures |Range(lo, hi)| == hi - lo
    ensures Range(lo, hi) + [hi] == Range(lo, hi + 1)
    ensures lo < hi ==> Range(lo, hi) == [lo] + Range(lo + 1, hi)
    ensures forall i | 0 <= i < hi - lo :: Range(lo, hi)[i] == lo + i
  {
  }

  /** A step that leaves client `me`'s part of the state alone keeps what holds of it. */
  lemma Untouched(s: State, s': State, me: nat)
    requires |s.clients| == |s.answers| == |s'.clients| == |s'.answers| == CLIENTS && me < CLIENTS
    requires ClientInv(s, me) && s'.answers[me] == s.answers[me]
    requires InFlight(s', me) == InFlight(s, me)
    requires s'.clients[me] == s.clients[me].(at := s'.clients[me].at)
    requires s'.clients[me].at == s.clients[me].at || s.clients[me].got < JOBS
             || !(s'.clients[me].at.Sending? || s'.clients[me].at.Waiting?)
    ensures ClientInv(s', me)
  {
  }

  /** The job client `me` sends next. */
  function NextJob(c: Client, me: nat): Job {
    Job(me + 1, c.sent, c.sent % COUNTERS, c.sent)
  }

  lemma PushClients(s: State, me: nat, x: nat)
    requires |s.clients| == |s.answers| == CLIENTS && me < CLIENTS && x < CLIENTS
    requires ClientInv(s, me) && ClientInv(s, x) && CanAct(s.clients[me], Push, |s.jobs|, s.answers[me])
    ensures ClientInv(ActsOn(s, me, Push), x)
  {
    hide JobsOf, Numbers, Range;
    var s', c := ActsOn(s, me, Push), s.clients[me];
    JobsOfPush(s.jobs, NextJob(c, me), x);
    if x == me {
      RangeLaws(c.got + 1, c.sent);
      assert InFlight(s', me) == InFlight(s, me) + [c.sent];
    } else {
      assert InFlight(s', x) == InFlight(s, x);
    }
  }

  lemma PushKeeps(s: State, me: nat)
    requires Inv(s) && me < CLIENTS && CanAct(s.clients[me], Push, |s.jobs|, s.answers[me])
    ensures Inv(ActsOn(s, me, Push))
  {
    hide InFlight, Triangle, Sum, Range;
    var s', j := ActsOn(s, me, Push), NextJob(s.clients[me], me);
    assert ClientInv(s, me);
    forall x | x in s'.jobs ensures GoodJob(x) {
      assert x in s.jobs || x == j;
    }
    forall x: nat | x < CLIENTS ensures ClientInv(s', x) {
      PushClients(s, me, x);
    }
  }

  lemma DropFirst(ring: seq<Answer>, rest: seq<int>, lo: int, hi: int)
    requires ring != [] && Numbers(ring) + rest == Range(lo, hi) && lo <= hi
    ensures ring[0].number == lo && Numbers(ring[1..]) + rest == Range(lo + 1, hi)
  {
    RangeLaws(lo, hi);
    assert Numbers(ring) == [ring[0].number] + Numbers(ring[1..]);
    assert Numbers(ring) + rest == [ring[0].number] + (Numbers(ring[1..]) + rest);
    assert (Numbers(ring) + rest)[0] == ring[0].number;
    assert (Numbers(ring) + rest)[1..] == Numbers(ring[1..]) + rest;
  }

  lemma ReceiveClients(s: State, me: nat)
    requires |s.clients| == |s.answers| == CLIENTS && me < CLIENTS && ClientInv(s, me)
    requires CanAct(s.clients[me], Receive, |s.jobs|, s.answers[me])
    ensures ClientInv(ActsOn(s, me, Receive), me)
  {
    hide JobsOf, HeldOf, Numbers, Range;
    var s', c, ring := ActsOn(s, me, Receive), s.clients[me], s.answers[me];
    var rest := HeldOf(s.owner.at, me) + JobsOf(s.jobs, me);
    assert InFlight(s, me) == Numbers(ring) + rest;
    DropFirst(ring, rest, c.got + 1, c.sent);
    assert InFlight(s', me) == Numbers(ring[1..]) + rest;
    assert ring[0] in ring;
  }

  lemma ReceiveKeeps(s: State, me: nat)
    requires Inv(s) && me < CLIENTS && CanAct(s.clients[me], Receive, |s.jobs|, s.answers[me])
    ensures Inv(ActsOn(s, me, Receive))
  {
    hide Triangle, Sum, Range, JobsOf, Numbers, GoodJob;
    var s' := ActsOn(s, me, Receive);
    ReceiveClients(s, me);
    assert Given(s', me) == Given(s, me);
    forall x: nat | x < CLIENTS ensures ClientInv(s', x) {
      if x != me {
        Untouched(s, s', x);
      }
    }
  }

  lemma EndMarkKeeps(s: State, me: nat)
    requires Inv(s) && me < CLIENTS && CanAct(s.clients[me], EndMark, |s.jobs|, s.answers[me])
    ensures Inv(ActsOn(s, me, EndMark))
  {
    hide Triangle, Sum, Range, JobsOf, Numbers;
    var s', mark := ActsOn(s, me, EndMark), Job(me + 1, 0, -1, 0);
    forall x: nat | x < CLIENTS ensures ClientInv(s', x) {
      JobsOfPush(s.jobs, mark, x);
      assert InFlight(s', x) == InFlight(s, x);
      Untouched(s, s', x);
    }
    forall j | j in s'.jobs ensures GoodJob(j) {
      assert j in s.jobs || j == mark;
    }
  }

  /** The steps of a client that touch neither its jobs nor its answers. */
  lemma MoveKeeps(s: State, me: nat, act: Action)
    requires Inv(s) && me < CLIENTS && CanAct(s.clients[me], act, |s.jobs|, s.answers[me])
    requires !act.Push? && !act.Receive? && !act.EndMark?
    ensures Inv(ActsOn(s, me, act))
  {
    hide JobsOf, Numbers, Range, HeldOf, Triangle, Sum, GoodJob;
    var s' := ActsOn(s, me, act);
    forall x: nat | x < CLIENTS ensures ClientInv(s', x) {
      assert ClientInv(s, x);
      Untouched(s, s', x);
    }
  }

  lemma TakeKeeps(s: State)
    requires Inv(s) && Enabled(s, Take)
    ensures Inv(Apply(s, Take))
  {
    var s' := Apply(s, Take);
    forall x: nat | x < CLIENTS ensures ClientInv(s', x) {
      JobsOfPop(s.jobs, x);
      assert InFlight(s', x) == InFlight(s, x);
      Untouched(s, s', x);
    }
  }

  /** The owner never meets a full answer ring, and the job it answers is the client's next. */
  lemma NextAnswer(s: State, me: nat)
    requires Inv(s) && s.owner.at.Holding? && me < CLIENTS && NumberOf(s.owner.at.job, me) != []
    ensures |s.answers[me]| < WINDOW <= ANSWER_SLOTS
    ensures s.owner.at.job.number == Given(s, me) + 1
  {
    assert ClientInv(s, me);
    var c := s.clients[me];
    RangeLaws(c.got + 1, c.sent);
    assert InFlight(s, me)[|s.answers[me]|] == s.owner.at.job.number;
  }

  lemma AnsweringClients(s: State, x: nat)
    requires Inv(s) && Enabled(s, Answering) && x < CLIENTS
    ensures ClientInv(Apply(s, Answering), x)
  {
    hide Triangle, Sum, Range, JobsOf;
    var s', j := Apply(s, Answering), s.owner.at.job;
    assert ClientInv(s, x);
    if NumberOf(j, x) != [] {
      NextAnswer(s, x);
      assert Numbers(s'.answers[x]) == Numbers(s.answers[x]) + [j.number];
      assert s.owner.counters[j.counter] in s.owner.counters;
      forall a | a in s'.answers[x] ensures a.value >= a.number {
        assert a in s.answers[x] || a == Answer(j.number, s.owner.counters[j.counter] + j.amount);
      }
    }
    assert InFlight(s', x) == InFlight(s, x);
  }

  lemma HeldGood(s: State)
    requires Inv(s) && s.owner.at.Holding?
    ensures var j := s.owner.at.job;
      && 1 <= j.client <= 4 && j.counter < 8
      && (j.counter >= 0 ==> j.amount == j.number >= 1 && NumberOf(j, j.client - 1) == [j.number])
  {
  }

  lemma TriangleNext(n: nat)
    ensures Triangle(n + 1) == Triangle(n) + n + 1
  {
  }

  lemma AnsweringOwner(s: State)
    requires Inv(s) && Enabled(s, Answering) && s.owner.at.job.counter >= 0
    ensures OwnerInv(Apply(s, Answering))
  {
    hide Sum, Range, JobsOf, ClientInv, InFlight, GoodJob, Numbers, Triangle, TotalsInv, NumberOf;
    HeldGood(s);
    var s', j := Apply(s, Answering), s.owner.at.job;
    var me := j.client - 1;
    NextAnswer(s, me);
    var value := s.owner.counters[j.counter] + j.amount;
    SumUpdate(s.owner.counters, j.counter, value);
    assert s.owner.counters[j.counter] in s.owner.counters;
    forall v | v in s'.owner.counters ensures v >= 0 {
      assert v in s.owner.counters || v == value;
    }
    assert Given(s', me) == Given(s, me) + 1;
    TriangleNext(Given(s, me));
    assert forall x: nat | x < CLIENTS && x != me :: Given(s', x) == Given(s, x);
  }

  lemma AnsweringKeeps(s: State)
    requires Inv(s) && Enabled(s, Answering)
    ensures Inv(Apply(s, Answering))
  {
    hide ClientInv, Sum, Triangle;
    var s' := Apply(s, Answering);
    forall x: nat | x < CLIENTS ensures ClientInv(s', x) {
      AnsweringClients(s, x);
    }
    if s.owner.at.job.counter >= 0 {
      AnsweringOwner(s);
    }
  }

  lemma StopKeeps(s: State)
    requires Inv(s) && Enabled(s, Stop)
    ensures Inv(Apply(s, Stop))
  {
    var s' := Apply(s, Stop);
    forall x: nat | x < CLIENTS ensures ClientInv(s', x) {
      Untouched(s, s', x);
    }
  }

  lemma StepKeeps(s: State, step: Step)
    requires Inv(s) && Enabled(s, step)
    ensures Inv(Apply(s, step))
  {
    hide Inv;
    match step
    case Take => TakeKeeps(s);
    case Answering => AnsweringKeeps(s);
    case Stop => StopKeeps(s);
    case Acts(me, act) =>
      match act
      case Push => PushKeeps(s, me);
      case Receive => ReceiveKeeps(s, me);
      case EndMark => EndMarkKeeps(s, me);
      case _ => MoveKeeps(s, me, act);
  }

  lemma TriangleZero()
    ensures Triangle(0) == 0
  {
  }

  lemma StartHolds()
    ensures Inv(Start())
  {
    hide Sum, Triangle;
    SumZeros(Start().owner.counters);
    TriangleZero();
    forall me: nat | me < CLIENTS ensures ClientInv(Start(), me) {
      assert InFlight(Start(), me) == [];
    }
  }

  /** Every state of every run satisfies the invariant, whatever the schedule and the timeouts. */
  lemma {:induction false} InvHolds(steps: seq<Step>)
    ensures Inv(Run(steps))
  {
    if steps == [] {
      StartHolds();
    } else {
      hide Inv, Apply, Enabled;
      InvHolds(steps[..|steps| - 1]);
      if Enabled(Run(steps[..|steps| - 1]), steps[|steps| - 1]) {
        StepKeeps(Run(steps[..|steps| - 1]), steps[|steps| - 1]);
      }
    }
  }

  // ---- What follows ----

  lemma WindowOf(s: State, me: nat)
    requires |s.clients| == |s.answers| == CLIENTS && me < CLIENTS && ClientInv(s, me)
    ensures var c := s.clients[me];
      && InFlight(s, me) == Range(c.got + 1, c.sent) && |InFlight(s, me)| <= WINDOW
      && c.wrong == 0 && |s.answers[me]| <= WINDOW
  {
    hide JobsOf, HeldOf, Range;
    RangeLaws(s.clients[me].got + 1, s.clients[me].sent);
  }

  /** In flight for a client are exactly the numbers after the last it got and before the next
      it sends, at most a window of them; no answer is wrong and none is lost to a full ring. */
  lemma WindowKept(steps: seq<Step>, me: nat)
    requires me < CLIENTS
    ensures var s := Run(steps); var c := s.clients[me];
      && InFlight(s, me) == Range(c.got + 1, c.sent) && |InFlight(s, me)| <= 32
      && c.wrong == 0 && |s.answers[me]| <= 32 <= ANSWER_SLOTS
  {
    hide Run, OwnerInv, TotalsInv, ClientInv, InFlight;
    InvHolds(steps);
    WindowOf(Run(steps), me);
  }

  /** The push whose result the owner ignores always finds room. */
  lemma AnswerPushNeverFails(steps: seq<Step>)
    ensures var s := Run(steps);
      s.owner.at.Holding? && s.owner.at.job.counter >= 0 ==>
      && 1 <= s.owner.at.job.client <= CLIENTS && s.owner.at.job.counter < COUNTERS
      && |s.answers[s.owner.at.job.client - 1]| < ANSWER_SLOTS
  {
    InvHolds(steps);
    var s := Run(steps);
    if s.owner.at.Holding? && s.owner.at.job.counter >= 0 {
      NextAnswer(s, s.owner.at.job.client - 1);
    }
  }

  /** What the jobs of a history add to counter `c`. */
  function AmountsOn(served: seq<Job>, c: int): int {
    if served == [] then 0
    else
      var j := served[|served| - 1];
      AmountsOn(served[..|served| - 1], c) + if j.counter == c then j.amount else 0
  }

  function Amounts(served: seq<Job>): seq<int> {
    seq(|served|, i requires 0 <= i < |served| => served[i].amount)
  }

  /** The history accounts for every counter and, client by client, for the numbers answered so far. */
  ghost predicate ServedInv(s: State)
    requires |s.clients| == |s.answers| == CLIENTS
  {
    && |s.owner.served| == s.owner.answered && |s.owner.counters| == COUNTERS
    && (forall j | j in s.owner.served :: GoodJob(j) && j.counter >= 0)
    && (forall c | 0 <= c < COUNTERS :: s.owner.counters[c] == AmountsOn(s.owner.served, c))
    && Sum(s.owner.counters) == Sum(Amounts(s.owner.served))
    && (forall me: nat | me < CLIENTS :: JobsOf(s.owner.served, me) == Range(1, Given(s, me) + 1))
  }

  lemma ServedPush(served: seq<Job>, j: Job)
    ensures forall c: int :: AmountsOn(served + [j], c) == AmountsOn(served, c) + if j.counter == c then j.amount else 0
    ensures Sum(Amounts(served + [j])) == Sum(Amounts(served)) + j.amount
  {
    assert (served + [j])[..|served|] == served;
    assert Amounts(served + [j])[..|served|] == Amounts(served);
  }

  /** No other step counts a job or changes how many answers a client has been given. */
  lemma GivenSame(s: State, step: Step)
    requires |s.clients| == |s.answers| == CLIENTS && Enabled(s, step)
    requires !step.Answering? || s.owner.at.job.counter < 0
    ensures var o, o' := s.owner, Apply(s, step).owner;
      o'.counters == o.counters && o'.answered == o.answered && o'.served == o.served
    ensures forall me: nat | me < CLIENTS :: Given(Apply(s, step), me) == Given(s, me)
  {
    hide Sum;
  }

  lemma AnsweringHolds(s: State)
    requires |s.clients| == |s.answers| == CLIENTS
    ensures Enabled(s, Answering) ==> s.owner.at.Holding?
  {
  }

  lemma ServedAnswer(s: State)
    requires Inv(s) && ServedInv(s) && Enabled(s, Answering) && s.owner.at.job.counter >= 0
    ensures ServedInv(Apply(s, Answering))
  {
    hide ClientInv, Sum, JobsOf, AmountsOn, Amounts, Triangle, InFlight, Range, TotalsInv;
    var s', j := Apply(s, Answering), s.owner.at.job;
    var mine := j.client - 1;
    NextAnswer(s, mine);
    ServedPush(s.owner.served, j);
    SumUpdate(s.owner.counters, j.counter, s.owner.counters[j.counter] + j.amount);
    forall me: nat | me < CLIENTS ensures JobsOf(s'.owner.served, me) == Range(1, Given(s', me) + 1) {
      JobsOfPush(s.owner.served, j, me);
      RangeLaws(1, Given(s, me) + 1);
    }
  }

  lemma ServedStep(s: State, step: Step)
    requires Inv(s) && ServedInv(s) && Enabled(s, step)
    ensures ServedInv(Apply(s, step))
  {
    hide Range, JobsOf, Sum, AmountsOn, Amounts, Apply, Enabled, Given, ClientInv, OwnerInv, TotalsInv;
    AnsweringHolds(s);
    if step.Answering? && s.owner.at.job.counter >= 0 {
      ServedAnswer(s);
    } else {
      GivenSame(s, step);
    }
  }

  lemma ServedStart()
    ensures ServedInv(Start())
  {
    SumZeros(Start().owner.counters);
  }

  lemma {:induction false} ServedHolds(steps: seq<Step>)
    ensures ServedInv(Run(steps))
  {
    if steps == [] {
      ServedStart();
    } else {
      hide Inv, ServedInv, Apply, Enabled;
      var front, step := steps[..|steps| - 1], steps[|steps| - 1];
      ServedHolds(front);
      InvHolds(front);
      if Enabled(Run(front), step) {
        ServedStep(Run(front), step);
      }
    }
  }

  /** Conservation in every state: each counter holds the amounts of exactly the answered jobs that
      name it, and of each client those are its first jobs, in order, each once. */
  lemma CountersConserved(steps: seq<Step>)
    ensures var s := Run(steps); var served := s.owner.served;
      && |s.owner.counters| == COUNTERS && |served| == s.owner.answered
      && (forall c | 0 <= c < COUNTERS :: s.owner.counters[c] == AmountsOn(served, c))
      && Sum(s.owner.counters) == Sum(Amounts(served))
      && (forall me: nat | me < CLIENTS ::
            JobsOf(served, me) == Range(1, s.clients[me].got + |s.answers[me]| + 1))
  {
    hide Run, Sum, Range, JobsOf, AmountsOn, Amounts;
    ServedHolds(steps);
  }

  ghost predicate AllExited(s: State)
    requires |s.clients| == |s.answers| == CLIENTS
  {
    s.owner.at.Stopped? && forall me: nat | me < CLIENTS :: s.clients[me].at.Exited?
  }

  lemma {:induction false} TriangleClosed(n: nat)
    ensures 2 * Triangle(n) == n * (n + 1)
  {
    if n > 0 {
      TriangleClosed(n - 1);
    }
  }

  /** A client that got all its answers has nothing in flight. */
  lemma AllGot(s: State, me: nat)
    requires Inv(s) && me < CLIENTS && s.clients[me].got == JOBS
    ensures Given(s, me) == JOBS
  {
    assert ClientInv(s, me);
    RangeLaws(JOBS + 1, s.clients[me].sent);
  }

  /** What the supervisor makes of the totals: its exit code is 0. */
  predicate ExitsZero(t: Totals) {
    t.failures == 0 && t.total == CLIENTS * JOBS * (JOBS + 1) / 2
  }

  /** When all workers are gone the failures are the answers the clients did not get, and the
      supervisor reports success exactly when every client got all its answers; then every job was
      answered exactly once. */
  lemma SupervisorVerdict(steps: seq<Step>)
    requires AllExited(Run(steps))
    ensures ExitsZero(Run(steps).totals) <==> forall me: nat | me < 4 :: Run(steps).clients[me].got == 10000
    ensures ExitsZero(Run(steps).totals) <==> Run(steps).totals.failures == 0
    ensures var s := Run(steps);
      s.totals.failures == 40000 - s.clients[0].got - s.clients[1].got - s.clients[2].got - s.clients[3].got
    ensures Run(steps).totals.failures == 0 ==>
      Run(steps).totals.answered == 40000 && Run(steps).totals.total == 200_020_000
  {
    hide Run, Sum, InFlight, Triangle;
    InvHolds(steps);
    var s := Run(steps);
    assert ClientInv(s, 0) && ClientInv(s, 1) && ClientInv(s, 2) && ClientInv(s, 3);
    if forall me: nat | me < CLIENTS :: s.clients[me].got == JOBS {
      AllGot(s, 0);
      AllGot(s, 1);
      AllGot(s, 2);
      AllGot(s, 3);
      TriangleClosed(JOBS);
    }
  }
}
