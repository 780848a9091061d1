/** What the answers of the job protocol say, and what its counters hold, over every run. */
module JobAnswers {
  import opened JobProtocol
  import opened Sums

  // ---- The value of every answer ----

  /** The answers client `me` is owed for a history of jobs: for each of its own, the sum of the
      amounts of the jobs so far, its own included, that name the same counter. */
  function RepliesTo(served: seq<Job>, me: nat): seq<Answer> {
    if served == [] then []
    else
      var j := served[|served| - 1];
      RepliesTo(served[..|served| - 1], me)
      + if j.client == me + 1 then [Answer(j.number, AmountsOn(served, j.counter))] else []
  }

  /** What client `me` has heard and what is still in its ring are those answers. */
  ghost predicate RepliedTo(s: State, me: nat)
    requires |s.clients| == |s.answers| == CLIENTS && me < CLIENTS
  {
    && s.clients[me].heard + s.answers[me] == RepliesTo(s.owner.served, me)
    && |s.clients[me].heard| == s.clients[me].got
  }

  ghost predicate Replied(s: State) {
    |s.clients| == |s.answers| == CLIENTS && forall me: nat | me < CLIENTS :: RepliedTo(s, me)
  }

  lemma RepliesPush(served: seq<Job>, j: Job, me: nat)
    requires j.counter >= 0
    ensures RepliesTo(served + [j], me) == RepliesTo(served, me)
            + if j.client == me + 1 then [Answer(j.number, AmountsOn(served, j.counter) + j.amount)] else []
  {
    assert (served + [j])[..|served|] == served;
  }

  lemma AnswerReplies(s: State, me: nat)
    requires Inv(s) && ServedInv(s) && Enabled(s, Answering) && s.owner.at.job.counter >= 0
    requires me < CLIENTS && RepliedTo(s, me)
    ensures RepliedTo(Apply(s, Answering), me)
  {
    hide ClientInv, Sum, JobsOf, Triangle, InFlight, Range, TotalsInv, RepliesTo, AmountsOn;
    var j := s.owner.at.job;
    NextAnswer(s, j.client - 1);
    RepliesPush(s.owner.served, j, me);
    if j.client == me + 1 {
      var a := [Answer(j.number, AmountsOn(s.owner.served, j.counter) + j.amount)];
      assert s.clients[me].heard + (s.answers[me] + a) == (s.clients[me].heard + s.answers[me]) + a;
    }
  }

  /** All other steps leave the history alone and move answers at most from the ring to the client. */
  lemma MoveReplies(s: State, step: Step, me: nat)
    requires |s.clients| == |s.answers| == CLIENTS && Enabled(s, step) && me < CLIENTS && RepliedTo(s, me)
    requires !step.Answering? || s.owner.at.job.counter < 0
    ensures RepliedTo(Apply(s, step), me)
  {
    hide Sum, RepliesTo;
    var s' := Apply(s, step);
    if step.Acts? && step.act.Receive? && step.me == me {
      var ring, heard := s.answers[me], s.clients[me].heard;
      assert (heard + [ring[0]]) + ring[1..] == heard + ring;
    }
  }

  lemma StepReplies(s: State, step: Step)
    requires Inv(s) && ServedInv(s) && Replied(s) && Enabled(s, step)
    ensures Replied(Apply(s, step))
  {
    hide ClientInv, OwnerInv, TotalsInv, ServedInv, RepliedTo, Apply, Enabled;
    AnsweringHolds(s);
    forall me: nat | me < CLIENTS ensures RepliedTo(Apply(s, step), me) {
      if step.Answering? && s.owner.at.job.counter >= 0 {
        AnswerReplies(s, me);
      } else {
        MoveReplies(s, step, me);
      }
    }
  }

  lemma {:induction false} RepliesHold(steps: seq<Step>)
    ensures Replied(Run(steps))
  {
    if steps != [] {
      hide Inv, ServedInv, Replied, Apply, Enabled;
      var front, step := steps[..|steps| - 1], steps[|steps| - 1];
      RepliesHold(front);
      InvHolds(front);
      ServedHolds(front);
      if Enabled(Run(front), step) {
        StepReplies(Run(front), step);
      }
    }
  }

  lemma {:induction false} RepliesLength(served: seq<Job>, me: nat)
    requires forall j | j in served :: j.counter >= 0
    ensures |RepliesTo(served, me)| == |JobsOf(served, me)|
  {
    if served != [] {
      RepliesLength(served[..|served| - 1], me);
      assert served[|served| - 1] in served;
    }
  }

  /** Where the answer to `served[i]` is among the answers of its client. */
  lemma {:induction false} ReplyAt(served: seq<Job>, me: nat, i: nat)
    requires i < |served| && (forall j | j in served :: j.counter >= 0) && served[i].client == me + 1
    ensures |RepliesTo(served, me)| == |JobsOf(served, me)|
    ensures var k := |JobsOf(served[..i], me)|;
      && k < |JobsOf(served, me)| && JobsOf(served, me)[k] == served[i].number
      && RepliesTo(served, me)[k] == Answer(served[i].number, AmountsOn(served[..i + 1], served[i].counter))
  {
    var n := |served| - 1;
    RepliesLength(served, me);
    RepliesLength(served[..n], me);
    if i < n {
      ReplyAt(served[..n], me, i);
      assert served[..n][..i] == served[..i] && served[..n][..i + 1] == served[..i + 1];
    } else {
      assert served[..i + 1] == served;
    }
  }

  /** Over every run: the answer to the job the owner served as number `i` (from 0) is, taken or
      still in its client's ring, that client's answer with the job's own number, and its value is
      the sum of the amounts of all jobs served up to and including it that name its counter. */
  lemma AnswersAreSums(steps: seq<Step>, i: nat)
    requires i < |Run(steps).owner.served|
    ensures var s := Run(steps); var j := s.owner.served[i];
      && 1 <= j.client <= 4 && 1 <= j.number <= |s.clients[j.client - 1].heard + s.answers[j.client - 1]|
      && |s.clients[j.client - 1].heard + s.answers[j.client - 1]| == |JobsOf(s.owner.served, j.client - 1)|
      && (s.clients[j.client - 1].heard + s.answers[j.client - 1])[j.number - 1]
         == Answer(j.number, AmountsOn(s.owner.served[..i + 1], j.counter))
  {
    hide Run, AmountsOn, RepliesTo, JobsOf, Sum, Amounts, Range;
    RepliesHold(steps);
    ServedHolds(steps);
    var s := Run(steps);
    var j := s.owner.served[i];
    assert j in s.owner.served && GoodJob(j);
    var me := j.client - 1;
    ReplyAt(s.owner.served, me, i);
    RangeLaws(1, Given(s, me) + 1);
    assert RepliedTo(s, me);
  }

  // ---- The client's check, and the owner's, on anything ----

  /** A new client that has taken these answers. */
  function Heard(answers: seq<Answer>): Client {
    if answers == [] then FRESH else Received(Heard(answers[..|answers| - 1]), answers[|answers| - 1])
  }

  /** The answers that are not the next one in order, or say less than their place. */
  function Bad(answers: seq<Answer>): set<int> {
    set k | 0 <= k < |answers| && (answers[k].number != k + 1 || answers[k].value < k + 1)
  }

  lemma BadLast(answers: seq<Answer>)
    requires answers != []
    ensures var n := |answers| - 1;
      |Bad(answers)| == |Bad(answers[..n])| + if answers[n].number != n + 1 || answers[n].value < n + 1 then 1 else 0
  {
    var n := |answers| - 1;
    var front := Bad(answers[..n]);
    assert Bad(answers) == front + if answers[n].number != n + 1 || answers[n].value < n + 1 then {n} else {};
  }

  /** Whatever a client is sent, it counts wrong exactly the answers that are out of order or too
      small, and it leaves its loop at answer 10000. */
  lemma {:induction false} CheckMeans(answers: seq<Answer>)
    ensures var c := Heard(answers);
      && c.got == |answers| && c.heard == answers && c.wrong == |Bad(answers)|
      && (answers != [] ==> c.at == if |answers| < 10000 then Sending else Closing)
  {
    if answers != [] {
      hide Bad;
      CheckMeans(answers[..|answers| - 1]);
      BadLast(answers);
    } else {
      assert Bad(answers) == {};
    }
  }

  /** The owner takes what it is sent as an end mark, counts and answers it, or drops it: by the
      sign of its counter, and by its client and counter existing. */
  lemma AnsweredChanges(s: State, j: Job)
    requires |s.answers| == CLIENTS && |s.owner.counters| == COUNTERS
    ensures var o, o' := s.owner, Answered(s, j).owner;
      && (o'.done == o.done + 1 <==> j.counter < 0) && (o'.done != o.done <==> o'.marks != o.marks)
      && (o'.answered == o.answered + 1 <==> 0 <= j.counter < 8 && 1 <= j.client <= 4)
      && (o'.served != o.served <==> o'.answered != o.answered)
      && (o'.done == o.done && o'.answered == o.answered ==> Answered(s, j) == s.(owner := o.(at := Taking)))
  {
    assert |s.owner.marks + [j]| > |s.owner.marks| && |s.owner.served + [j]| > |s.owner.served|;
  }

  // ---- What the counters hold ----

  /** The sum of the numbers from 1 to `n` whose remainder by 8 is `c`. */
  function SumOn(n: nat, c: int): nat {
    if n == 0 then 0 else SumOn(n - 1, c) + if n % 8 == c then n else 0
  }

  lemma NoJobs(me: nat)
    ensures JobsOf([], me) == []
  {
  }

  lemma OtherJob(served: seq<Job>, me: nat)
    requires served != [] && served[|served| - 1].client != me + 1
    ensures JobsOf(served, me) == JobsOf(served[..|served| - 1], me)
  {
  }

  lemma LastJob(served: seq<Job>, me: nat, given: nat)
    requires served != [] && JobsOf(served, me) == Range(1, given + 1)
    requires var j := served[|served| - 1]; j.client == me + 1 && j.counter >= 0
    ensures given > 0 && served[|served| - 1].number == given
    ensures JobsOf(served[..|served| - 1], me) == Range(1, given)
  {
    hide Range;
    var front := JobsOf(served[..|served| - 1], me);
    RangeLaws(1, given + 1);
    assert |front| + 1 == given;
    RangeLaws(1, given);
    assert (front + [served[|served| - 1].number])[given - 1] == given;
    assert Range(1, given + 1)[..given - 1] == Range(1, given);
    assert (front + [served[|served| - 1].number])[..given - 1] == front;
  }

  lemma GoodMeans(j: Job)
    requires GoodJob(j) && j.counter >= 0
    ensures 1 <= j.client <= 4 && j.number >= 1 && j.counter == j.number % 8 && j.amount == j.number
  {
  }

  lemma AmountsNone(c: nat)
    ensures AmountsOn([], c) == 0
  {
  }

  lemma SumOnNone(c: nat)
    ensures SumOn(0, c) == 0
  {
  }

  lemma SumOnLast(n: nat, c: nat)
    ensures n > 0 ==> SumOn(n, c) == SumOn(n - 1, c) + if n % 8 == c then n else 0
  {
  }

  lemma AmountsLast(served: seq<Job>, c: nat)
    requires served != []
    ensures var j := served[|served| - 1];
      AmountsOn(served, c) == AmountsOn(served[..|served| - 1], c) + if j.counter == c then j.amount else 0
  {
  }

  /** What jobs `1 .. given` of each client, in any interleaving, add to counter `c`. */
  lemma {:induction false} AmountsFrom(served: seq<Job>, given: seq<nat>, c: nat)
    requires |given| == 4 && (forall j | j in served :: GoodJob(j) && j.counter >= 0)
    requires forall me: nat | me < 4 :: JobsOf(served, me) == Range(1, given[me] + 1)
    ensures AmountsOn(served, c) == SumOn(given[0], c) + SumOn(given[1], c) + SumOn(given[2], c) + SumOn(given[3], c)
  {
    hide JobsOf, Range, GoodJob, SumOn, AmountsOn;
    SumOnNone(c);
    if served == [] {
      AmountsNone(c);
      forall me: nat | me < 4 ensures given[me] == 0 {
        RangeLaws(1, given[me] + 1);
        NoJobs(me);
      }
    } else {
      var n := |served| - 1;
      var j := served[n];
      assert j in served;
      GoodMeans(j);
      var mine := j.client - 1;
      LastJob(served, mine, given[mine]);
      var before := given[mine := (given[mine] - 1) as nat];
      forall me: nat | me < 4 ensures JobsOf(served[..n], me) == Range(1, before[me] + 1) {
        if me != mine {
          OtherJob(served, me);
        }
      }
      AmountsFrom(served[..n], before, c);
      AmountsLast(served, c);
      SumOnLast(given[mine], c);
    }
  }

  /** In every state of every run, counter `c` is, over the four clients, the sum of the numbers
      answered so far whose remainder by 8 is `c`. */
  lemma CounterIs(steps: seq<Step>, c: nat)
    requires c < 8
    ensures var s := Run(steps);
      && |s.owner.counters| == 8
      && s.owner.counters[c] ==
         SumOn(Given(s, 0), c) + SumOn(Given(s, 1), c) + SumOn(Given(s, 2), c) + SumOn(Given(s, 3), c)
  {
    hide Run, AmountsOn, JobsOf, Sum, Amounts, Range, SumOn, GoodJob;
    ServedHolds(steps);
    var s := Run(steps);
    AmountsFrom(s.owner.served, [Given(s, 0), Given(s, 1), Given(s, 2), Given(s, 3)], c);
  }

  lemma SumOnStep(m: nat, r: nat, c: nat)
    requires r < 8
    ensures SumOn(8 * m + r + 1, c) == SumOn(8 * m + r, c) + if (r + 1) % 8 == c then 8 * m + r + 1 else 0
  {
  }

  lemma SumOnEight(m: nat, c: nat)
    requires c < 8
    ensures SumOn(8 * m + 8, c) == SumOn(8 * m, c) + 8 * m + if c == 0 then 8 else c
  {
    hide SumOn;
    SumOnStep(m, 0, c);
    SumOnStep(m, 1, c);
    SumOnStep(m, 2, c);
    SumOnStep(m, 3, c);
    SumOnStep(m, 4, c);
    SumOnStep(m, 5, c);
    SumOnStep(m, 6, c);
    SumOnStep(m, 7, c);
  }

  lemma {:induction false} SumOnClosed(m: nat, c: nat)
    requires c < 8
    ensures SumOn(8 * m, c) == 4 * (m * m) - 4 * m + m * if c == 0 then 8 else c
  {
    if m > 0 {
      hide SumOn;
      var r := if c == 0 then 8 else c;
      SumOnClosed(m - 1, c);
      SumOnEight(m - 1, c);
      assert 8 * (m - 1) + 8 == 8 * m;
      assert m * m == (m - 1) * (m - 1) + 2 * m - 1;
      assert m * r == (m - 1) * r + r;
    } else {
      assert SumOn(0, c) == 0;
    }
  }

  /** When every client has got all its answers, the counters hold these eight numbers. */
  lemma FinalCounters(steps: seq<Step>, c: nat)
    requires c < 8 && forall me: nat | me < 4 :: Run(steps).clients[me].got == 10000
    ensures |Run(steps).owner.counters| == 8
    ensures Run(steps).owner.counters[c] == if c == 0 then 25_020_000 else 24_980_000 + 5000 * c
  {
    hide Run, SumOn, Inv;
    var s, m := Run(steps), 1250;
    InvHolds(steps);
    CounterIs(steps, c);
    AllGot(s, 0);
    AllGot(s, 1);
    AllGot(s, 2);
    AllGot(s, 3);
    SumOnClosed(m, c);
  }

  // ---- What a client can do ----

  lemma FlightLength(s: State, me: nat)
    requires Inv(s) && me < CLIENTS
    ensures |InFlight(s, me)| == s.clients[me].sent - 1 - s.clients[me].got
    ensures s.answers[me] != [] ==> InFlight(s, me) != []
  {
    assert ClientInv(s, me);
    RangeLaws(s.clients[me].got + 1, s.clients[me].sent);
    hide JobsOf, HeldOf, Range;
    assert |InFlight(s, me)| >= |Numbers(s.answers[me])|;
  }

  /** In every state of every run a client in its loop sends while fewer than 32 of its jobs are in
      flight and the ring has room; it waits for answers and takes one if there is one, and may
      give up if there is none; it tries to send again when none is in flight. */
  lemma ClientCan(steps: seq<Step>, me: nat)
    requires me < 4
    ensures var s := Run(steps); var c, flight, ring := s.clients[me], InFlight(s, me), s.answers[me];
      && (CanAct(c, Push, |s.jobs|, ring) <==> c.at.Sending? && c.sent <= 10000 && |flight| < 32 && |s.jobs| < 64)
      && (CanAct(c, Refused, |s.jobs|, ring) <==> c.at.Sending?)
      && (CanAct(c, Retry, |s.jobs|, ring) <==> c.at.Waiting? && flight == [])
      && (CanAct(c, Receive, |s.jobs|, ring) <==> c.at.Waiting? && ring != [])
      && (CanAct(c, GiveUp, |s.jobs|, ring) <==> c.at.Waiting? && ring == [])
      && (CanAct(c, EndMark, |s.jobs|, ring) <==> c.at.Closing? && |s.jobs| < 64)
      && (CanAct(c, NoEndMark, |s.jobs|, ring) <==> c.at.Closing?)
      && (CanAct(c, Report, |s.jobs|, ring) <==> c.at.Reporting?)
  {
    hide Run, Inv, InFlight;
    InvHolds(steps);
    FlightLength(Run(steps), me);
  }

  /** Where a step takes the client: from its loop to the end mark, from there to its report, and
      out; back to sending only by an answer before the last one or for want of anything in flight. */
  lemma ClientGoes(s: State, me: nat, act: Action)
    requires |s.clients| == |s.answers| == CLIENTS && me < CLIENTS
    requires CanAct(s.clients[me], act, |s.jobs|, s.answers[me])
    ensures var c, c' := s.clients[me], ActsOn(s, me, act).clients[me];
      && (c'.at.Exited? <==> c.at.Reporting?) && (c'.at.Reporting? <==> c.at.Closing?)
      && (c'.at.Closing? <==> act.GiveUp? || (act.Receive? && c.got >= 9999))
      && (c'.at.Waiting? <==> act.Refused?)
      && (c'.at.Sending? <==> act.Push? || act.Retry? || (act.Receive? && c.got < 9999))
      && c'.sent == c.sent + (if act.Push? then 1 else 0) && c'.got == c.got + (if act.Receive? then 1 else 0)
  {
  }
}
