/** Request bodies gathered per slot, and one response a request, under any interleaving of the
    slots' events. */
module Assembler {
  type u8 = bv8

  const MAX_BODY: nat := 4096
  const ROUTE_NONE: int := -1
  const ROUTE_ECHO: int := 2
  const ROUTE_ECHO_DOC: int := 3
  const ROUTE_BODY: int := 6

  /** The routes that read a body. */
  predicate TakesBody(route: int) {
    route == ROUTE_ECHO || route == ROUTE_ECHO_DOC || route == ROUTE_BODY
  }

  /** The method and pattern of the first seven routes, in the order they are registered and numbered. */
  const FIRST_ROUTES: seq<(string, string)> := [
    ("GET", "/plaintext"), ("GET", "/json"), ("POST", "/json-echo"), ("POST", "/json-echo-doc"), ("GET", "/"),
    ("GET", "/id/:id"), ("POST", "/json")]

  /** Of the first seven routes exactly the ones for `POST` read a body, and no other route does. */
  lemma BodyRoutes(route: int)
    ensures TakesBody(route) <==> 0 <= route < |FIRST_ROUTES| && FIRST_ROUTES[route].0 == "POST"
    ensures TakesBody(route) ==> FIRST_ROUTES[route].1 in {"/json-echo", "/json-echo-doc", "/json"}
  {
  }

  // ---- What a slot should answer ----

  /** The events of one slot: a head with the route it matched, a chunk of the body, the end. A
      head may come at any time, since a slot whose connection was lost is used again. */
  datatype Event = Head(route: int) | Chunk(data: seq<u8>) | End

  /** From the head alone, from the whole body, or a refusal of a body over `MAX_BODY` bytes. */
  datatype Reply = FromHead(route: int) | FromBody(route: int, body: seq<u8>) | TooLarge

  /** No body is wanted, or all that has come of it. */
  datatype Pending = Nothing | Wanted(route: int, body: seq<u8>)

  function After(p: Pending, e: Event): Pending {
    match e
    case Head(route) => if TakesBody(route) then Wanted(route, []) else Nothing
    case Chunk(data) => if p.Wanted? then p.(body := p.body + data) else Nothing
    case End => Nothing
  }

  function Replies(p: Pending, e: Event): seq<Reply> {
    match e
    case Head(route) => if TakesBody(route) then [] else [FromHead(route)]
    case Chunk(_) => []
    case End =>
      if p.Nothing? then []
      else if |p.body| > MAX_BODY then [TooLarge]
      else [FromBody(p.route, p.body)]
  }

  function Pended(events: seq<Event>): Pending {
    if events == [] then Nothing
    else After(Pended(events[..|events| - 1]), events[|events| - 1])
  }

  /** All replies to the events of a slot. */
  function Answers(events: seq<Event>): seq<Reply> {
    if events == [] then []
    else
      var before := events[..|events| - 1];
      Answers(before) + Replies(Pended(before), events[|events| - 1])
  }

  function Chunks(datas: seq<seq<u8>>): (events: seq<Event>)
    ensures |events| == |datas|
  {
    seq(|datas|, i requires 0 <= i < |datas| => Chunk(datas[i]))
  }

  function Concat(datas: seq<seq<u8>>): seq<u8> {
    if datas == [] then [] else Concat(datas[..|datas| - 1]) + datas[|datas| - 1]
  }

  function Total(datas: seq<seq<u8>>): nat {
    if datas == [] then 0 else Total(datas[..|datas| - 1]) + |datas[|datas| - 1]|
  }

  lemma {:induction false} ConcatLength(datas: seq<seq<u8>>)
    ensures |Concat(datas)| == Total(datas)
  {
    if datas != [] {
      ConcatLength(datas[..|datas| - 1]);
    }
  }

  /** In the joined chunks byte `k` of chunk `i` comes after all bytes of the chunks before it. */
  lemma {:induction false} ConcatAt(datas: seq<seq<u8>>, i: nat, k: nat)
    requires i < |datas| && k < |datas[i]|
    ensures |Concat(datas)| == Total(datas)
    ensures Total(datas[..i]) + k < |Concat(datas)| && Concat(datas)[Total(datas[..i]) + k] == datas[i][k]
  {
    var n := |datas| - 1;
    ConcatLength(datas[..n]);
    if i < n {
      ConcatAt(datas[..n], i, k);
      assert datas[..n][..i] == datas[..i];
    }
  }

  lemma PushEvent(events: seq<Event>, e: Event)
    ensures Pended(events + [e]) == After(Pended(events), e)
    ensures Answers(events + [e]) == Answers(events) + Replies(Pended(events), e)
  {
    assert (events + [e])[..|events|] == events;
  }

  lemma ChunksPush(init: seq<seq<u8>>, last: seq<u8>)
    ensures Chunks(init + [last]) == Chunks(init) + [Chunk(last)]
  {
  }

  /** After a head and any chunks, whatever came before: the body is the chunks joined, and
      nothing but an answer from the head has been given. */
  lemma {:induction false} Gathered(before: seq<Event>, route: int, datas: seq<seq<u8>>)
    ensures var events := before + [Head(route)] + Chunks(datas);
      && Pended(events) == (if TakesBody(route) then Wanted(route, Concat(datas)) else Nothing)
      && Answers(events) == Answers(before) + if TakesBody(route) then [] else [FromHead(route)]
    decreases |datas|
  {
    hide Pended, Answers, Chunks;
    PushEvent(before, Head(route));
    if datas == [] {
      assert before + [Head(route)] + Chunks(datas) == before + [Head(route)];
    } else {
      var init, last := datas[..|datas| - 1], datas[|datas| - 1];
      var events := before + [Head(route)] + Chunks(init);
      Gathered(before, route, init);
      PushEvent(events, Chunk(last));
      ChunksPush(init, last);
      assert datas == init + [last];
      assert before + [Head(route)] + Chunks(datas) == events + [Chunk(last)];
    }
  }

  /** A whole request gets exactly one reply: from its body however it was cut into chunks, a
      refusal when that is too long, or from the head. What came before on the slot does not
      matter, whether it was complete or lost midway. */
  lemma OneReply(before: seq<Event>, route: int, datas: seq<seq<u8>>)
    ensures Answers(before + [Head(route)] + Chunks(datas) + [End]) ==
            Answers(before) + [
              if route != 2 && route != 3 && route != 6 then FromHead(route)
              else if |Concat(datas)| > 4096 then TooLarge
              else FromBody(route, Concat(datas))]
    ensures Pended(before + [Head(route)] + Chunks(datas) + [End]) == Nothing
  {
    Gathered(before, route, datas);
    PushEvent(before + [Head(route)] + Chunks(datas), End);
  }

  // ---- All slots ----

  datatype At = At(slot: nat, event: Event)

  datatype Sent = Sent(slot: nat, reply: Reply)

  /** The events of one slot among all. */
  function Own(trace: seq<At>, slot: nat): seq<Event> {
    if trace == [] then []
    else
      var last := trace[|trace| - 1];
      Own(trace[..|trace| - 1], slot) + if last.slot == slot then [last.event] else []
  }

  function Tagged(slot: nat, replies: seq<Reply>): (sent: seq<Sent>)
    ensures |sent| == |replies|
    ensures forall i | 0 <= i < |replies| :: sent[i] == Sent(slot, replies[i])
  {
    seq(|replies|, i requires 0 <= i < |replies| => Sent(slot, replies[i]))
  }

  /** Everything sent, in order. */
  function AllSent(trace: seq<At>): seq<Sent> {
    if trace == [] then []
    else
      var before, last := trace[..|trace| - 1], trace[|trace| - 1];
      AllSent(before) + Tagged(last.slot, Replies(Pended(Own(before, last.slot)), last.event))
  }

  function SentTo(sent: seq<Sent>, slot: nat): seq<Reply> {
    if sent == [] then []
    else
      var last := sent[|sent| - 1];
      SentTo(sent[..|sent| - 1], slot) + if last.slot == slot then [last.reply] else []
  }

  lemma {:induction false} SentToConcat(a: seq<Sent>, b: seq<Sent>, slot: nat)
    ensures SentTo(a + b, slot) == SentTo(a, slot) + SentTo(b, slot)
  {
    if b == [] {
      assert a + b == a;
    } else {
      SentToConcat(a, b[..|b| - 1], slot);
      assert (a + b)[..|a + b| - 1] == a + b[..|b| - 1];
    }
  }

  lemma {:induction false} SentToTagged(slot: nat, replies: seq<Reply>, to: nat)
    ensures SentTo(Tagged(slot, replies), to) == if to == slot then replies else []
    decreases |replies|
  {
    if replies != [] {
      var init := replies[..|replies| - 1];
      SentToTagged(slot, init, to);
      assert Tagged(slot, replies)[..|replies| - 1] == Tagged(slot, init);
      assert replies == init + [replies[|replies| - 1]];
    }
  }

  /** Under any interleaving each slot is sent what its own events ask for, and no more. */
  lemma {:induction false} SlotsApart(trace: seq<At>, slot: nat)
    ensures SentTo(AllSent(trace), slot) == Answers(Own(trace, slot))
    decreases |trace|
  {
    if trace != [] {
      var before, last := trace[..|trace| - 1], trace[|trace| - 1];
      var more := Replies(Pended(Own(before, last.slot)), last.event);
      SlotsApart(before, slot);
      SentToConcat(AllSent(before), Tagged(last.slot, more), slot);
      SentToTagged(last.slot, more, slot);
      PushEvent(Own(before, slot), last.event);
      assert Own(before, slot) + [] == Own(before, slot);
      assert Answers(Own(before, slot)) + [] == Answers(Own(before, slot));
    }
  }

  // ---- The server ----

  /** A slot's fields hold what has come of its body: all of it, or that it is too long. */
  ghost predicate Holds(route: int, length: int, buffer: seq<u8>, p: Pending) {
    match p
    case Nothing => route == ROUTE_NONE
    case Wanted(r, body) =>
      && route == r && TakesBody(r) && |buffer| == MAX_BODY
      && (if |body| <= MAX_BODY then length == |body| && buffer[..length] == body else length == MAX_BODY + 1)
  }

  lemma HeadHeld(p: Pending, route: int)
    ensures TakesBody(route) ==> forall buffer: seq<u8> | |buffer| == MAX_BODY ::
      Holds(route, 0, buffer, After(p, Head(route)))
    ensures !TakesBody(route) ==> forall length, buffer ::
      Holds(ROUTE_NONE, length, buffer, After(p, Head(route)))
    ensures |Replies(p, Head(route))| == if TakesBody(route) then 0 else 1
  {
  }

  lemma ChunkHeld(route: int, length: int, buffer: seq<u8>, p: Pending, chunk: seq<u8>)
    requires Holds(route, length, buffer, p)
    ensures Replies(p, Chunk(chunk)) == []
    ensures route == ROUTE_NONE ==> Holds(route, length, buffer, After(p, Chunk(chunk)))
    ensures route != ROUTE_NONE ==> 0 <= length && |buffer| == MAX_BODY
    ensures route != ROUTE_NONE && length + |chunk| > MAX_BODY ==>
      Holds(route, MAX_BODY + 1, buffer, After(p, Chunk(chunk)))
    ensures route != ROUTE_NONE && length + |chunk| <= MAX_BODY ==>
      Holds(route, length + |chunk|, buffer[..length] + chunk + buffer[length + |chunk|..], After(p, Chunk(chunk)))
  {
    if route != ROUTE_NONE && length + |chunk| <= MAX_BODY {
      var after := buffer[..length] + chunk + buffer[length + |chunk|..];
      assert after[..length + |chunk|] == p.body + chunk;
    }
  }

  lemma EndHeld(route: int, length: int, buffer: seq<u8>, p: Pending)
    requires Holds(route, length, buffer, p)
    ensures After(p, End) == Nothing && Holds(ROUTE_NONE, length, buffer, Nothing)
    ensures route == ROUTE_NONE ==> Replies(p, End) == []
    ensures route != ROUTE_NONE ==>
      && 0 <= length && (length <= MAX_BODY ==> length <= |buffer|)
      && Replies(p, End) == [if length > MAX_BODY then TooLarge else FromBody(route, buffer[..length])]
  {
  }

  lemma PushAt(trace: seq<At>, e: At)
    ensures Pended(Own(trace + [e], e.slot)) == After(Pended(Own(trace, e.slot)), e.event)
    ensures forall s: nat | s != e.slot :: Own(trace + [e], s) == Own(trace, s)
    ensures AllSent(trace + [e]) == AllSent(trace) + Tagged(e.slot, Replies(Pended(Own(trace, e.slot)), e.event))
  {
    assert (trace + [e])[..|trace|] == trace;
    PushEvent(Own(trace, e.slot), e.event);
  }

  class Bench {
    const route: array<int>
    const bodyLength: array<int>
    const bodies: array<array<u8>>
    var requests: nat
    ghost var trace: seq<At>
    ghost var sent: seq<Sent>

    ghost function Tables(): set<object>
      reads this
    {
      {route, bodyLength, bodies}
    }

    ghost predicate Shaped()
      reads this, bodies
    {
      && bodies as object !in {route as object, bodyLength as object}
      && (forall s | 0 <= s < bodies.Length :: bodies[s] !in Tables())
      && route != bodyLength && route.Length == bodyLength.Length == bodies.Length
      && (forall s, t | 0 <= s < t < bodies.Length :: bodies[s] != bodies[t])
    }

    ghost predicate SlotHolds(s: nat)
      requires s < route.Length == bodyLength.Length == bodies.Length
      reads this, route, bodyLength, bodies, bodies[s]
    {
      && (bodies[s].Length == 0 || bodies[s].Length == MAX_BODY)
      && Holds(route[s], bodyLength[s], bodies[s][..], Pended(Own(trace, s)))
    }

    ghost predicate Valid()
      reads this, route, bodyLength, bodies, bodies[..]
    {
      && Shaped() && requests == |sent| && sent == AllSent(trace)
      && forall s | 0 <= s < bodies.Length :: SlotHolds(s)
    }

    constructor (slots: nat)
      ensures Valid() && trace == [] && route.Length == slots
      ensures fresh(route) && fresh(bodyLength) && fresh(bodies) && forall b | b in bodies[..] :: fresh(b)
    {
      route := new int[slots](_ => ROUTE_NONE);
      bodyLength := new int[slots](_ => 0);
      var none := new u8[0];
      var all := new array<u8>[slots](_ => none);
      bodies := all;
      requests := 0;
      trace, sent := [], [];
      new;
      for k := 0 to slots
        modifies bodies
        invariant forall s | 0 <= s < k :: fresh(bodies[s]) && bodies[s].Length == 0 && bodies[s] != none
        invariant forall s, t | 0 <= s < t < k :: bodies[s] != bodies[t]
      {
        var buffer := new u8[0];
        bodies[k] := buffer;
      }
    }

    /** A request's head: starts the body of a route that takes one, or answers at once. */
    method Begin(slot: nat, matched: int)
      requires Valid() && slot < route.Length
      modifies this`requests, this`trace, this`sent, route, bodyLength, bodies
      ensures Valid() && trace == old(trace) + [At(slot, Head(matched))]
      ensures forall s | 0 <= s < bodies.Length :: bodies[s] == old(bodies[s]) || fresh(bodies[s])
    {
      hide Own, Pended, AllSent, Holds;
      ghost var e := At(slot, Head(matched));
      PushAt(trace, e);
      HeadHeld(Pended(Own(trace, slot)), matched);
      assert SlotHolds(slot);
      bodyLength[slot] := 0;
      if TakesBody(matched) {
        route[slot] := matched;
        if bodies[slot].Length == 0 {
          bodies[slot] := new u8[MAX_BODY](_ => 0);
        }
      } else {
        route[slot] := ROUTE_NONE;
        requests := requests + 1;
        sent := sent + [Sent(slot, FromHead(matched))];
      }
      trace := trace + [e];
      forall s | 0 <= s < bodies.Length ensures SlotHolds(s) {
        if s != slot {
          assert old(SlotHolds(s)) && Own(trace, s) == old(Own(trace, s));
          assert bodies[s] == old(bodies[s]) && bodies[s][..] == old(bodies[s][..]);
        }
      }
    }

    /** A chunk of a body: appended to the slot's buffer, unless the body is too long. */
    method Gather(slot: nat, data: array<u8>, start: nat, n: nat)
      requires Valid() && slot < route.Length && start + n <= data.Length && data !in bodies[..]
      modifies this`trace, bodyLength, bodies[slot]
      ensures Valid() && trace == old(trace) + [At(slot, Chunk(old(data[start..start + n])))]
    {
      hide Own, Pended, AllSent, Holds;
      ghost var chunk := data[start..start + n];
      ghost var e := At(slot, Chunk(chunk));
      PushAt(trace, e);
      assert SlotHolds(slot) && bodies[slot] in bodies[..];
      var have, body := bodyLength[slot], bodies[slot];
      ghost var p, buffer := Pended(Own(trace, slot)), body[..];
      ChunkHeld(route[slot], have, buffer, p, chunk);
      assert body != data;
      trace := trace + [e];
      if route[slot] != ROUTE_NONE {
        if have + n > MAX_BODY {
          bodyLength[slot] := MAX_BODY + 1;
        } else {
          CopyChunk(body, have, data, start, n);
          bodyLength[slot] := have + n;
        }
      }
      forall s | 0 <= s < bodies.Length ensures SlotHolds(s) {
        if s != slot {
          assert old(SlotHolds(s)) && Own(trace, s) == old(Own(trace, s));
          assert bodies[s] == old(bodies[s]) && bodies[s][..] == old(bodies[s][..]);
        }
      }
    }

    /** The copy loop of a chunk. */
    static method CopyChunk(body: array<u8>, have: nat, data: array<u8>, start: nat, n: nat)
      requires have + n <= body.Length && start + n <= data.Length && body != data
      modifies body
      ensures body[..] == old(body[..have]) + data[start..start + n] + old(body[have + n..])
    {
      for k := 0 to n
        invariant body[..have + k] == old(body[..have]) + data[start..start + k]
        invariant body[have + k..] == old(body[have + k..])
      {
        assert old(body[have + k..])[1..] == old(body[have + k + 1..]);
        assert data[start..start + k + 1] == data[start..start + k] + [data[start + k]];
        body[have + k] := data[start + k];
        assert body[..have + k + 1] == body[..have + k] + [body[have + k]];
        assert body[have + k + 1..] == body[have + k..][1..];
      }
      assert body[..] == body[..have + n] + body[have + n..];
    }

    /** The end of a request: answers a route that took a body. */
    method Finish(slot: nat)
      requires Valid() && slot < route.Length
      modifies this`requests, this`trace, this`sent, route
      ensures Valid() && trace == old(trace) + [At(slot, End)]
    {
      hide Own, Pended, AllSent, Holds;
      ghost var e := At(slot, End);
      PushAt(trace, e);
      assert SlotHolds(slot);
      ghost var p := Pended(Own(trace, slot));
      var length := bodyLength[slot];
      var r := route[slot];
      EndHeld(r, length, bodies[slot][..], p);
      trace := trace + [e];
      if r != ROUTE_NONE {
        route[slot] := ROUTE_NONE;
        requests := requests + 1;
        var reply := if length > MAX_BODY then TooLarge else FromBody(r, bodies[slot][..length]);
        sent := sent + [Sent(slot, reply)];
      }
      forall s | 0 <= s < bodies.Length ensures SlotHolds(s) {
        if s != slot {
          assert old(SlotHolds(s)) && Own(trace, s) == old(Own(trace, s));
          assert bodies[s] == old(bodies[s]) && bodies[s][..] == old(bodies[s][..]);
        }
      }
    }
  }
}
