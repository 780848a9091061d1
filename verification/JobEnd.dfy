/** How a run of the job protocol ends: the end marks, when the owner stops, and that a run in
    which everything is answered exists. */
module JobEnd {
  import opened JobProtocol
  import opened Sums

  // ---- End marks ----

  predicate IsMark(j: Job, me: nat) {
    j.counter < 0 && j.client == me + 1
  }

  predicate IsReal(j: Job, me: nat) {
    j.counter >= 0 && j.client == me + 1
  }

  /** How many of the jobs are end marks of client `me`. */
  function Marks(jobs: seq<Job>, me: nat): nat {
    if jobs == [] then 0 else Marks(jobs[..|jobs| - 1], me) + if IsMark(jobs[|jobs| - 1], me) then 1 else 0
  }

  function HeldMarks(at: OwnerAt, me: nat): nat {
    if at.Holding? && IsMark(at.job, me) then 1 else 0
  }

  /** The client has left its loop and tried to send its end mark. */
  predicate Left(c: Client) {
    c.at.Reporting? || c.at.Exited?
  }

  /** No job of client `me` is queued behind one of its end marks. */
  ghost predicate MarkLast(jobs: seq<Job>, me: nat) {
    forall i, k | 0 <= i < k < |jobs| :: IsMark(jobs[i], me) ==> !IsReal(jobs[k], me)
  }

  /** Queued, held or taken there is at most one end mark of a client, and only once it has left
      its loop; nothing of the client comes after it. */
  ghost predicate ClientEnds(s: State, me: nat)
    requires |s.clients| == CLIENTS && me < CLIENTS
  {
    var passed := HeldMarks(s.owner.at, me) + Marks(s.owner.marks, me);
    && Marks(s.jobs, me) + passed <= (if Left(s.clients[me]) then 1 else 0)
    && MarkLast(s.jobs, me)
    && (passed > 0 ==> JobsOf(s.jobs, me) == [])
    && (Marks(s.owner.marks, me) > 0 ==> HeldOf(s.owner.at, me) == [])
  }

  ghost predicate EndInv(s: State) {
    && |s.clients| == |s.answers| == CLIENTS
    && (forall me: nat | me < CLIENTS :: ClientEnds(s, me))
    && s.owner.done == |s.owner.marks| && |s.jobs| <= 64
    && (forall j | j in s.owner.marks :: 1 <= j.client <= 4 && j.counter < 0)
  }

  lemma MarksPush(jobs: seq<Job>, j: Job, me: nat)
    ensures Marks(jobs + [j], me) == Marks(jobs, me) + if IsMark(j, me) then 1 else 0
  {
    assert (jobs + [j])[..|jobs|] == jobs;
  }

  lemma {:induction false} MarksPop(jobs: seq<Job>, me: nat)
    requires jobs != []
    ensures Marks(jobs, me) == (if IsMark(jobs[0], me) then 1 else 0) + Marks(jobs[1..], me)
  {
    var n := |jobs| - 1;
    if n == 0 {
      assert jobs[..0] == [] && jobs[1..] == [];
    } else {
      hide IsMark;
      MarksPop(jobs[..n], me);
      assert jobs[..n][1..] == jobs[1..][..n - 1];
      assert jobs[1..][n - 1] == jobs[n];
    }
  }

  lemma {:induction false} MarksNone(jobs: seq<Job>, me: nat)
    ensures Marks(jobs, me) == 0 <==> forall i | 0 <= i < |jobs| :: !IsMark(jobs[i], me)
  {
    if jobs != [] {
      MarksNone(jobs[..|jobs| - 1], me);
    }
  }

  lemma {:induction false} JobsNone(jobs: seq<Job>, me: nat)
    ensures JobsOf(jobs, me) == [] <==> forall i | 0 <= i < |jobs| :: !IsReal(jobs[i], me)
  {
    if jobs != [] {
      JobsNone(jobs[..|jobs| - 1], me);
    }
  }

  lemma {:induction false} MarksTotal(marks: seq<Job>)
    requires forall j | j in marks :: 1 <= j.client <= 4 && j.counter < 0
    ensures |marks| == Marks(marks, 0) + Marks(marks, 1) + Marks(marks, 2) + Marks(marks, 3)
  {
    if marks != [] {
      assert marks[|marks| - 1] in marks;
      MarksTotal(marks[..|marks| - 1]);
    }
  }

  /** What is pushed goes behind everything: a job only while the client has no end mark anywhere. */
  lemma PushEnds(s: State, s': State, me: nat, j: Job, x: nat)
    requires |s.clients| == |s'.clients| == CLIENTS && x < CLIENTS && ClientEnds(s, x)
    requires s'.jobs == s.jobs + [j] && s'.owner == s.owner && j.client == me + 1
    requires x != me ==> s'.clients[x] == s.clients[x]
    requires x == me ==> !Left(s.clients[x]) && Left(s'.clients[x]) == (j.counter < 0)
    ensures ClientEnds(s', x)
  {
    hide JobsOf;
    MarksPush(s.jobs, j, x);
    JobsOfPush(s.jobs, j, x);
    MarksNone(s.jobs, x);
  }

  lemma ReceivedStays(c: Client, a: Answer)
    ensures !Left(Received(c, a))
  {
  }

  lemma ActsEnds(s: State, me: nat, act: Action)
    requires EndInv(s) && me < CLIENTS && CanAct(s.clients[me], act, |s.jobs|, s.answers[me])
    ensures EndInv(ActsOn(s, me, act))
  {
    hide JobsOf, Marks, MarkLast, Received;
    var s', c := ActsOn(s, me, act), s.clients[me];
    forall x: nat | x < CLIENTS ensures ClientEnds(s', x) {
      assert ClientEnds(s, x);
      if act.Push? {
        PushEnds(s, s', me, Job(me + 1, c.sent, c.sent % COUNTERS, c.sent), x);
      } else if act.EndMark? {
        PushEnds(s, s', me, Job(me + 1, 0, -1, 0), x);
      } else if act.Receive? {
        ReceivedStays(c, s.answers[me][0]);
      }
    }
  }

  lemma TakeEnds(s: State)
    requires EndInv(s) && Enabled(s, Take)
    ensures EndInv(Apply(s, Take))
  {
    var s' := Apply(s, Take);
    forall x: nat | x < CLIENTS ensures ClientEnds(s', x) {
      hide JobsOf, Marks;
      assert ClientEnds(s, x);
      MarksPop(s.jobs, x);
      JobsOfPop(s.jobs, x);
      JobsNone(s'.jobs, x);
    }
  }

  lemma AnsweringEnds(s: State)
    requires Inv(s) && EndInv(s) && Enabled(s, Answering)
    ensures EndInv(Apply(s, Answering))
  {
    hide JobsOf, Marks, MarkLast, ClientInv, TotalsInv;
    var s', j := Apply(s, Answering), s.owner.at.job;
    forall x: nat | x < CLIENTS ensures ClientEnds(s', x) {
      assert ClientEnds(s, x);
      MarksPush(s.owner.marks, j, x);
    }
  }

  lemma StopEnds(s: State)
    requires EndInv(s) && Enabled(s, Stop)
    ensures EndInv(Apply(s, Stop))
  {
    hide JobsOf, Marks, MarkLast, Sum;
    assert forall x: nat | x < CLIENTS :: ClientEnds(s, x) ==> ClientEnds(Apply(s, Stop), x);
  }

  lemma StepEnds(s: State, step: Step)
    requires Inv(s) && EndInv(s) && Enabled(s, step)
    ensures EndInv(Apply(s, step))
  {
    hide Inv, EndInv;
    match step
    case Take => TakeEnds(s);
    case Answering => AnsweringEnds(s);
    case Stop => StopEnds(s);
    case Acts(me, act) => ActsEnds(s, me, act);
  }

  lemma {:induction false} EndHolds(steps: seq<Step>)
    ensures EndInv(Run(steps))
  {
    if steps != [] {
      hide Inv, EndInv, Apply, Enabled;
      var front, step := steps[..|steps| - 1], steps[|steps| - 1];
      EndHolds(front);
      InvHolds(front);
      if Enabled(Run(front), step) {
        StepEnds(Run(front), step);
      }
    }
  }

  /** A client whose end mark the owner has taken has no job left with it. */
  lemma MarkTaken(s: State, me: nat)
    requires EndInv(s) && me < CLIENTS
    ensures Marks(s.jobs, me) + HeldMarks(s.owner.at, me) + Marks(s.owner.marks, me) <= 1
    ensures Marks(s.owner.marks, me) == 1 ==>
      Left(s.clients[me]) && JobsOf(s.jobs, me) == [] && HeldOf(s.owner.at, me) == []
  {
    hide Marks, JobsOf, MarkLast, HeldOf;
    assert ClientEnds(s, me);
  }

  /** The owner's count of finished clients is the number of end marks it has taken: at most one of
      each client, and only of one that has left its loop and none of whose jobs is queued. */
  lemma DoneIsMarks(steps: seq<Step>)
    ensures var s := Run(steps); var marks := s.owner.marks;
      && s.owner.done == |marks| == Marks(marks, 0) + Marks(marks, 1) + Marks(marks, 2) + Marks(marks, 3)
      && forall me: nat | me < 4 :: Marks(marks, me) <= 1
           && (Marks(marks, me) == 1 ==> Left(s.clients[me]) && JobsOf(s.jobs, me) == [])
  {
    hide Run, Marks, JobsOf;
    EndHolds(steps);
    MarksTotal(Run(steps).owner.marks);
    var s := Run(steps);
    forall me: nat | me < 4
      ensures Marks(s.owner.marks, me) <= 1
      ensures Marks(s.owner.marks, me) == 1 ==> Left(s.clients[me]) && JobsOf(s.jobs, me) == []
    {
      MarkTaken(s, me);
    }
  }

  /** When the owner has taken the end marks of all four clients, nothing is queued or held. */
  lemma DoneMeansEmpty(s: State)
    requires Inv(s) && EndInv(s) && s.owner.done >= 4
    ensures s.jobs == [] && !s.owner.at.Holding? && forall me: nat | me < 4 :: Left(s.clients[me])
  {
    hide Marks, JobsOf, ClientInv, TotalsInv, MarkLast, ClientEnds;
    MarksTotal(s.owner.marks);
    MarkTaken(s, 0);
    MarkTaken(s, 1);
    MarkTaken(s, 2);
    MarkTaken(s, 3);
    if s.jobs != [] {
      var j := s.jobs[0];
      assert j in s.jobs && GoodJob(j);
      MarksNone(s.jobs, j.client - 1);
      JobsNone(s.jobs, j.client - 1);
      assert false;
    }
  }

  lemma NoneInFlight(s: State, me: nat)
    requires Inv(s) && ServedInv(s) && me < CLIENTS && s.jobs == [] && !s.owner.at.Holding?
    ensures JobsOf(s.owner.served, me) == Range(1, s.clients[me].sent)
  {
    assert ClientInv(s, me);
    RangeLaws(s.clients[me].got + 1, s.clients[me].sent);
    assert JobsOf([], me) == [];
    assert InFlight(s, me) == Numbers(s.answers[me]);
  }

  /** The owner stops exactly where it would otherwise take a job and the job ring is empty, whether
      it stops for the four end marks or for the empty ring; until then it takes jobs. By then it
      has answered every job that any client has sent so far. */
  lemma OwnerStops(steps: seq<Step>)
    ensures var s := Run(steps);
      && (Enabled(s, Stop) <==> s.owner.at.Taking? && s.jobs == [])
      && (Enabled(s, Take) <==> s.owner.at.Taking? && s.jobs != [])
      && (s.owner.done == 4 ==> s.jobs == [] && forall me: nat | me < 4 :: Left(s.clients[me]))
      && (Enabled(s, Stop) ==> forall me: nat | me < 4 :: JobsOf(s.owner.served, me) == Range(1, s.clients[me].sent))
  {
    hide Run, Inv, EndInv, ServedInv, JobsOf, Range;
    EndHolds(steps);
    InvHolds(steps);
    ServedHolds(steps);
    var s := Run(steps);
    if s.owner.done >= 4 {
      DoneMeansEmpty(s);
    }
    if s.owner.at.Taking? && s.jobs == [] {
      forall me: nat | me < 4 ensures JobsOf(s.owner.served, me) == Range(1, s.clients[me].sent) {
        NoneInFlight(s, me);
      }
    }
  }

  // ---- A run that answers everything ----

  ghost predicate Reached(s: State) {
    exists steps :: Run(steps) == s
  }

  lemma ReachStart()
    ensures Reached(Start())
  {
    assert Run([]) == Start();
  }

  lemma ReachStep(s: State, step: Step) returns (s': State)
    requires Reached(s) && |s.clients| == |s.answers| == CLIENTS && Enabled(s, step)
    ensures s' == Apply(s, step) && Reached(s') && |s'.clients| == |s'.answers| == CLIENTS
  {
    hide Apply, Enabled;
    s' := Apply(s, step);
    var steps :| Run(steps) == s;
    assert (steps + [step])[..|steps|] == steps;
    assert Run(steps + [step]) == s';
  }

  /** Nothing is under way, and client `me` has had `n` of its jobs answered. */
  ghost predicate Quiet(s: State, me: nat, n: nat) {
    && |s.clients| == |s.answers| == CLIENTS && me < CLIENTS
    && s.jobs == [] && s.answers == [[], [], [], []] && s.owner.at.Taking? && s.owner.done < CLIENTS
    && |s.owner.counters| == COUNTERS
    && s.clients[me].sent == n + 1 && s.clients[me].got == n
    && s.clients[me].at == if n < JOBS then Sending else Closing
  }

  /** Only client `me` may have changed, and the owner's counts. */
  ghost predicate Others(s: State, s': State, me: nat, done: nat) {
    && |s.clients| == |s'.clients| == CLIENTS && me < CLIENTS && s'.owner.done == done
    && s'.clients == s.clients[me := s'.clients[me]]
  }

  lemma OthersSame(s: State, me: nat, n: nat)
    requires Quiet(s, me, n)
    ensures Others(s, s, me, s.owner.done)
  {
  }

  /** One job goes all the way round. */
  lemma Round(s: State, me: nat, n: nat) returns (t: State)
    requires Reached(s) && Quiet(s, me, n) && n < JOBS
    ensures Reached(t) && Quiet(t, me, n + 1) && Others(s, t, me, s.owner.done)
  {
    hide Sum;
    t := ReachStep(s, Acts(me, Push));
    t := ReachStep(t, Take);
    t := ReachStep(t, Answering);
    assert |t.answers[me]| == 1 && t.answers == s.answers[me := t.answers[me]];
    t := ReachStep(t, Acts(me, Refused));
    t := ReachStep(t, Acts(me, Receive));
    assert t.answers[me] == [] && t.answers == s.answers[me := []];
  }

  /** A client has all its jobs answered. */
  lemma {:induction false} AllRounds(s: State, me: nat, n: nat) returns (t: State)
    requires Reached(s) && Quiet(s, me, n) && n <= JOBS
    ensures Reached(t) && Quiet(t, me, JOBS) && Others(s, t, me, s.owner.done)
    decreases JOBS - n
  {
    hide Quiet, Reached;
    if n == JOBS {
      t := s;
      OthersSame(s, me, n);
    } else {
      t := Round(s, me, n);
      t := AllRounds(t, me, n + 1);
    }
  }

  /** The four clients before `me` are gone, and those from it on have not begun. */
  ghost predicate Turn(s: State, me: nat) {
    && |s.clients| == |s.answers| == CLIENTS && me <= CLIENTS
    && s.jobs == [] && s.answers == [[], [], [], []] && s.owner.at.Taking? && s.owner.done == me
    && |s.owner.counters| == COUNTERS
    && (forall x: nat | x < me :: s.clients[x].at.Exited? && s.clients[x].got == JOBS)
    && (forall x: nat | me <= x < CLIENTS :: s.clients[x] == FRESH)
  }

  lemma TurnBegins(s: State, me: nat)
    requires Turn(s, me) && me < CLIENTS
    ensures Quiet(s, me, 0)
  {
  }

  /** A client that has everything leaves. */
  lemma Leave(s: State, s0: State, me: nat) returns (t: State)
    requires Turn(s0, me) && me < CLIENTS && Others(s0, s, me, me) && Reached(s) && Quiet(s, me, JOBS)
    ensures Reached(t) && Turn(t, me + 1)
  {
    hide Sum, Received;
    t := ReachStep(s, Acts(me, EndMark));
    t := ReachStep(t, Take);
    t := ReachStep(t, Answering);
    t := ReachStep(t, Acts(me, Report));
  }

  lemma {:induction false} AllLeave(s: State, me: nat) returns (t: State)
    requires Reached(s) && Turn(s, me)
    ensures Reached(t) && Turn(t, CLIENTS)
    decreases CLIENTS - me
  {
    if me == CLIENTS {
      t := s;
    } else {
      hide Reached, Quiet, Others;
      TurnBegins(s, me);
      t := AllRounds(s, me, 0);
      t := Leave(t, s, me);
      t := AllLeave(t, me + 1);
    }
  }

  /** Some run gets every job of every client answered and ends with the exit code 0. */
  lemma SomeRunCompletes()
    ensures exists steps ::
      && AllExited(Run(steps)) && ExitsZero(Run(steps).totals)
      && forall me: nat | me < 4 :: Run(steps).clients[me].got == 10000
  {
    hide Run, Sum;
    ReachStart();
    var t := AllLeave(Start(), 0);
    t := ReachStep(t, Stop);
    var steps :| Run(steps) == t;
    SupervisorVerdict(steps);
  }

  // ---- The bounds are met ----

  /** Clients before `me` have filled their windows, client `me` has sent `k` jobs, nothing else has happened. */
  ghost predicate Filling(s: State, me: nat, k: nat) {
    && |s.clients| == |s.answers| == CLIENTS && me < 2 && |s.jobs| == 32 * me + k && s.answers == [[], [], [], []]
    && s.owner.at.Taking? && s.clients[me] == FRESH.(sent := k + 1)
    && (me == 0 ==> s.clients[1] == FRESH)
    && (me == 1 ==> s.clients[0] == FRESH.(sent := 33))
  }

  lemma {:induction false} Fill(s: State, me: nat, k: nat, full: nat) returns (t: State)
    requires Reached(s) && Filling(s, me, k) && k <= full == 32
    ensures Reached(t) && Filling(t, me, full)
    decreases full - k
  {
    t := s;
    if k < full {
      t := ReachStep(s, Acts(me, Push));
      t := Fill(t, me, k + 1, full);
    }
  }

  lemma BothFull(s: State, full: nat)
    requires Filling(s, 0, full) && full == 32
    ensures Filling(s, 1, 0)
  {
  }

  /** The job ring never holds more than its 64 slots, and with two clients' windows of 32 jobs it is full. */
  lemma RingBound(steps: seq<Step>)
    ensures |Run(steps).jobs| <= 64
    ensures exists other :: |Run(other).jobs| == 64 && |InFlight(Run(other), 0)| == |InFlight(Run(other), 1)| == 32
  {
    hide Run, InFlight;
    EndHolds(steps);
    var full := 32;
    ReachStart();
    var t := Fill(Start(), 0, 0, full);
    BothFull(t, full);
    t := Fill(t, 1, 0, full);
    var other :| Run(other) == t;
    InvHolds(other);
    WindowOf(t, 0);
    WindowOf(t, 1);
    RangeLaws(1, 33);
    assert |InFlight(t, 0)| == 32 && |InFlight(t, 1)| == 32;
  }
}
