/**
The Redis channel to extensions (internal/extensions/rpc/rpc.go). Senders run Call; the worker is not part of the
repository and does what docs/RPC.md:62-86 demands. Times are nanoseconds, expires_at is in whole milliseconds.
*/
module Rpc {
  import opened Wrappers

  datatype Request = Request(id: nat, body: string, replyKey: string, expiresAt: int)

  // forId is the request a worker was answering when it pushed the reply.
  datatype Reply = Reply(forId: nat, payload: string)

  datatype Sender =
    | Prepared(req: Request, timeout: nat)
    | Pushed(req: Request, timeout: nat)
    | Waiting(req: Request, timeout: nat, since: int)
    | Returned(req: Request, reply: Reply)
    | TimedOut(req: Request, at: int)
    | Failed(req: Request)

  // What a worker found when it took a request off the list.
  datatype Pop = Pop(req: Request, at: int, expired: bool)

  // queue is the request list, head first: LPUSH adds in front, BRPOP takes from the back.
  // pushed, pops and answered are the ids pushed, the requests popped and the ids answered so far.
  datatype System = System(now: int, queue: seq<Request>, senders: map<nat, Sender>, replies: map<string, seq<Reply>>,
                           workers: map<nat, Request>, pushed: seq<nat>, pops: seq<Pop>, answered: seq<nat>)

  datatype Event =
    | Tick(passed: nat)
    | Prepare(id: nat, body: string, replyKey: string, timeout: nat)
    | Push(id: nat, delivered: bool, acknowledged: bool)
    | StartWait(id: nat)
    | TakeReply(id: nat)
    | GiveUp(id: nat)
    | LoseConnection(id: nat)
    | WorkerPop(worker: nat)
    | WorkerReply(worker: nat, payload: string)
    | WorkerCrash(worker: nat)
    | ReplyExpires(replyKey: string)

  const MILLISECOND := 1_000_000

  function ExpiresAt(now: int, timeout: nat): (t: int)
    ensures now + timeout - 1_000_000 < t <= now + timeout && t % 1_000_000 == 0
  {
    (now + timeout) / MILLISECOND * MILLISECOND
  }

  // The random reply key is new.
  predicate KeyIsNew(s: System, replyKey: string) {
    forall id :: id in s.senders ==> s.senders[id].req.replyKey != replyKey
  }

  function SetSender(s: System, id: nat, p: Sender): System {
    s.(senders := s.senders[id := p])
  }

  function RepliesAt(s: System, key: string): seq<Reply> {
    if key in s.replies then s.replies[key] else []
  }

  function SenderStep(s: System, e: Event): System
    requires e.Push? || e.StartWait? || e.TakeReply? || e.GiveUp? || e.LoseConnection?
    requires e.id in s.senders
  {
    match (e, s.senders[e.id])
    case (Push(id, delivered, acknowledged), Prepared(req, timeout)) =>
      var s' := if delivered then s.(queue := [req] + s.queue, pushed := s.pushed + [id]) else s;
      SetSender(s', id, if delivered && acknowledged then Pushed(req, timeout) else Failed(req))
    case (StartWait(id), Pushed(req, timeout)) => SetSender(s, id, Waiting(req, timeout, s.now))
    case (TakeReply(id), Waiting(req, timeout, since)) =>
      var list := RepliesAt(s, req.replyKey);
      if list == [] then s
      else SetSender(s.(replies := s.replies[req.replyKey := list[1..]]), id, Returned(req, list[0]))
    case (GiveUp(id), Waiting(req, timeout, since)) =>
      if s.now < since + timeout then s else SetSender(s, id, TimedOut(req, s.now))
    case (LoseConnection(id), Waiting(req, timeout, since)) => SetSender(s, id, Failed(req))
    case _ => s
  }

  // An event that is not possible in a state leaves it as it is.
  function Step(s: System, e: Event): System {
    match e
    case Tick(passed) => s.(now := s.now + passed)
    case Prepare(id, body, key, timeout) =>
      if id in s.senders || !KeyIsNew(s, key) then s
      else SetSender(s, id, Prepared(Request(id, body, key, ExpiresAt(s.now, timeout)), timeout))
    case WorkerPop(w) =>
      if w in s.workers || s.queue == [] then s else
      var n := |s.queue| - 1;
      var req := s.queue[n];
      var expired := s.now > req.expiresAt;
      s.(queue := s.queue[..n], pops := s.pops + [Pop(req, s.now, expired)],
         workers := if expired then s.workers else s.workers[w := req])
    case WorkerReply(w, payload) =>
      if w !in s.workers then s else
      var req := s.workers[w];
      s.(workers := s.workers - {w}, answered := s.answered + [req.id],
         replies := s.replies[req.replyKey := [Reply(req.id, payload)] + RepliesAt(s, req.replyKey)])
    case WorkerCrash(w) => s.(workers := s.workers - {w})
    case ReplyExpires(key) => s.(replies := s.replies - {key})
    case _ => if e.id in s.senders then SenderStep(s, e) else s
  }

  function Run(start: int, events: seq<Event>): System {
    if events == [] then System(start, [], map[], map[], map[], [], [], [])
    else Step(Run(start, events[..|events| - 1]), events[|events| - 1])
  }

  // ---- every sender

  // The deadline in the request is never later than the end of the sender's wait, because it is
  // fixed before the push and the wait of the same length starts after it.
  predicate SenderSound(s: System, id: nat)
    requires id in s.senders
  {
    var p := s.senders[id];
    p.req.id == id &&
    match p
    case Prepared(req, timeout) => req.expiresAt <= s.now + timeout
    case Pushed(req, timeout) => req.expiresAt <= s.now + timeout
    case Waiting(req, timeout, since) => req.expiresAt <= since + timeout
    case Returned(req, reply) => reply.forId == id
    case TimedOut(req, at) => req.expiresAt <= at
    case Failed(_) => true
  }

  // Whose request this is, as its sender made it.
  predicate Genuine(s: System, req: Request) {
    req.id in s.senders && s.senders[req.id].req == req && !s.senders[req.id].Prepared?
  }

  predicate ReplySound(s: System, key: string, r: Reply) {
    r.forId in s.senders && s.senders[r.forId].req.replyKey == key
  }

  predicate PopSound(s: System, p: Pop) {
    Genuine(s, p.req) && (p.expired <==> p.at > p.req.expiresAt)
  }

  predicate RepliesSound(s: System, key: string) {
    key in s.replies ==> forall i :: 0 <= i < |s.replies[key]| ==> ReplySound(s, key, s.replies[key][i])
  }

  predicate KeysDiffer(s: System, a: nat, b: nat) {
    a in s.senders && b in s.senders && a != b ==> s.senders[a].req.replyKey != s.senders[b].req.replyKey
  }

  ghost predicate Inv(s: System) {
    && (forall id :: id in s.senders ==> SenderSound(s, id))
    && (forall a, b :: KeysDiffer(s, a, b))
    && (forall i :: 0 <= i < |s.queue| ==> Genuine(s, s.queue[i]))
    && (forall w :: w in s.workers ==> Genuine(s, s.workers[w]))
    && (forall key :: RepliesSound(s, key))
    && (forall i :: 0 <= i < |s.pops| ==> PopSound(s, s.pops[i]))
  }

  // Requests and replies stay what they were.
  lemma RequestsStay(s: System, e: Event)
    ensures var s' := Step(s, e);
            forall id :: id in s.senders ==> id in s'.senders && s'.senders[id].req == s.senders[id].req &&
                                             (s'.senders[id].Prepared? ==> s.senders[id].Prepared?)
  {
  }

  predicate ActsFor(e: Event, id: nat) {
    (e.Push? || e.StartWait? || e.TakeReply? || e.GiveUp? || e.LoseConnection?) && e.id == id
  }

  lemma OtherSenderStays(s: System, e: Event, id: nat)
    requires id in s.senders && !ActsFor(e, id)
    ensures var s' := Step(s, e); id in s'.senders && s'.senders[id] == s.senders[id] && s'.now >= s.now
  {
  }

  lemma TakenIsOwn(s: System, id: nat)
    requires Inv(s) && id in s.senders && RepliesAt(s, s.senders[id].req.replyKey) != []
    ensures RepliesAt(s, s.senders[id].req.replyKey)[0].forId == id
  {
    var key := s.senders[id].req.replyKey;
    assert RepliesSound(s, key) && ReplySound(s, key, s.replies[key][0]);
    assert KeysDiffer(s, id, s.replies[key][0].forId);
  }

  lemma ActorKept(s: System, e: Event, id: nat)
    requires Inv(s) && id in s.senders && ActsFor(e, id)
    ensures id in SenderStep(s, e).senders && SenderSound(SenderStep(s, e), id)
  {
    assert SenderSound(s, id);
    if e.TakeReply? && RepliesAt(s, s.senders[id].req.replyKey) != [] { TakenIsOwn(s, id); }
  }

  lemma SenderKept(s: System, e: Event, id: nat)
    requires Inv(s) && id in Step(s, e).senders
    ensures SenderSound(Step(s, e), id)
  {
    if id in s.senders {
      assert SenderSound(s, id);
      if ActsFor(e, id) { ActorKept(s, e, id); } else { OtherSenderStays(s, e, id); }
    }
  }

  lemma SendersKept(s: System, e: Event)
    requires Inv(s)
    ensures forall id :: id in Step(s, e).senders ==> SenderSound(Step(s, e), id)
  {
    forall id | id in Step(s, e).senders
      ensures SenderSound(Step(s, e), id)
    {
      SenderKept(s, e, id);
    }
  }

  lemma KeysKept(s: System, e: Event)
    requires Inv(s)
    ensures forall a, b :: KeysDiffer(Step(s, e), a, b)
  {
    RequestsStay(s, e);
    forall a, b
      ensures KeysDiffer(Step(s, e), a, b)
    {
      assert KeysDiffer(s, a, b);
    }
  }

  lemma GenuineStays(s: System, e: Event, req: Request)
    requires Genuine(s, req)
    ensures Genuine(Step(s, e), req)
  {
    RequestsStay(s, e);
  }

  lemma QueueKept(s: System, e: Event)
    requires Inv(s)
    ensures forall i :: 0 <= i < |Step(s, e).queue| ==> Genuine(Step(s, e), Step(s, e).queue[i])
  {
    var s' := Step(s, e);
    if e.Push? && e.id in s.senders { assert SenderSound(s, e.id); }
    forall i | 0 <= i < |s'.queue|
      ensures Genuine(s', s'.queue[i])
    {
      if s'.queue[i] in s.queue { GenuineStays(s, e, s'.queue[i]); }
    }
  }

  lemma WorkersKept(s: System, e: Event)
    requires Inv(s)
    ensures forall w :: w in Step(s, e).workers ==> Genuine(Step(s, e), Step(s, e).workers[w])
  {
    var s' := Step(s, e);
    forall w | w in s'.workers
      ensures Genuine(s', s'.workers[w])
    {
      GenuineStays(s, e, s'.workers[w]);
    }
  }

  lemma PopsKept(s: System, e: Event)
    requires Inv(s)
    ensures forall i :: 0 <= i < |Step(s, e).pops| ==> PopSound(Step(s, e), Step(s, e).pops[i])
  {
    var s' := Step(s, e);
    forall i | 0 <= i < |s'.pops|
      ensures PopSound(s', s'.pops[i])
    {
      if i < |s.pops| { assert s'.pops[i] == s.pops[i] && PopSound(s, s.pops[i]); }
      GenuineStays(s, e, s'.pops[i].req);
    }
  }

  // One reply more in the worker's answer, one less when a sender takes it.
  lemma ListsKept(s: System, e: Event, key: string)
    requires Inv(s) && key in Step(s, e).replies
    ensures forall i :: 0 <= i < |Step(s, e).replies[key]| ==> ReplySound(s, key, Step(s, e).replies[key][i])
  {
    assert RepliesSound(s, key);
    if e.WorkerReply? && e.worker in s.workers { assert Genuine(s, s.workers[e.worker]); }
  }

  lemma RepliesKept(s: System, e: Event)
    requires Inv(s)
    ensures forall key :: RepliesSound(Step(s, e), key)
  {
    RequestsStay(s, e);
    forall key
      ensures RepliesSound(Step(s, e), key)
    {
      if key in Step(s, e).replies { ListsKept(s, e, key); }
    }
  }

  lemma StepKeeps(s: System, e: Event)
    requires Inv(s)
    ensures Inv(Step(s, e))
  {
    SendersKept(s, e);
    KeysKept(s, e);
    QueueKept(s, e);
    WorkersKept(s, e);
    PopsKept(s, e);
    RepliesKept(s, e);
  }

  lemma {:induction false} RunKeeps(start: int, events: seq<Event>)
    ensures Inv(Run(start, events))
  {
    if events != [] {
      RunKeeps(start, events[..|events| - 1]);
      StepKeeps(Run(start, events[..|events| - 1]), events[|events| - 1]);
    }
  }

  // ---- the request list is first in, first out

  // The ids on the list, oldest first.
  function Queued(queue: seq<Request>): (ids: seq<nat>)
    ensures |ids| == |queue|
  {
    if queue == [] then [] else Queued(queue[1..]) + [queue[0].id]
  }

  function Popped(pops: seq<Pop>): (ids: seq<nat>)
    ensures |ids| == |pops|
    ensures forall i :: 0 <= i < |ids| ==> ids[i] == pops[i].req.id
  {
    if pops == [] then [] else Popped(pops[..|pops| - 1]) + [pops[|pops| - 1].req.id]
  }

  lemma {:induction false} OldestFirst(queue: seq<Request>)
    requires queue != []
    ensures Queued(queue) == [queue[|queue| - 1].id] + Queued(queue[..|queue| - 1])
  {
    if |queue| > 1 {
      OldestFirst(queue[1..]);
      assert queue[1..][..|queue| - 2] == queue[..|queue| - 1][1..];
    }
  }

  predicate NoRepeat(ids: seq<nat>) { forall i, j :: 0 <= i < j < |ids| ==> ids[i] != ids[j] }

  // Requests leave the list in the order they were put on it, and none is put on it twice.
  predicate InOrder(s: System) {
    && s.pushed == Popped(s.pops) + Queued(s.queue)
    && NoRepeat(s.pushed)
    && (forall i :: 0 <= i < |s.pushed| ==> s.pushed[i] in s.senders && !s.senders[s.pushed[i]].Prepared?)
  }

  lemma PushInOrder(s: System, id: nat, delivered: bool, acknowledged: bool)
    requires InOrder(s) && id in s.senders && s.senders[id].Prepared? && s.senders[id].req.id == id
    ensures InOrder(SenderStep(s, Push(id, delivered, acknowledged)))
  {
    if delivered {
      var req := s.senders[id].req;
      assert ([req] + s.queue)[1..] == s.queue;
      assert id !in s.pushed;
      Assoc(Popped(s.pops), Queued(s.queue), [id]);
    }
  }

  lemma PopInOrder(s: System, w: nat)
    requires InOrder(s)
    ensures InOrder(Step(s, WorkerPop(w)))
  {
    if w !in s.workers && s.queue != [] {
      var s', n := Step(s, WorkerPop(w)), |s.queue| - 1;
      OldestFirst(s.queue);
      assert s'.pops[..|s.pops|] == s.pops;
      Assoc(Popped(s.pops), [s.queue[n].id], Queued(s.queue[..n]));
    }
  }

  lemma ListUntouched(s: System, e: Event)
    requires !e.Push? && !e.WorkerPop?
    ensures Step(s, e).queue == s.queue && Step(s, e).pushed == s.pushed && Step(s, e).pops == s.pops
  {
  }

  lemma InOrderStep(s: System, e: Event)
    requires InOrder(s) && forall id :: id in s.senders ==> s.senders[id].req.id == id
    ensures InOrder(Step(s, e))
  {
    match e
    case Push(id, delivered, acknowledged) =>
      if id in s.senders && s.senders[id].Prepared? { PushInOrder(s, id, delivered, acknowledged); }
    case WorkerPop(w) => PopInOrder(s, w);
    case _ =>
      ListUntouched(s, e);
      RequestsStay(s, e);
  }

  lemma {:induction false} RunInOrder(start: int, events: seq<Event>)
    ensures InOrder(Run(start, events))
  {
    if events != [] {
      RunInOrder(start, events[..|events| - 1]);
      RunKeeps(start, events[..|events| - 1]);
      var s := Run(start, events[..|events| - 1]);
      assert forall id :: id in s.senders ==> SenderSound(s, id);
      InOrderStep(s, events[|events| - 1]);
    }
  }

  // ---- answers

  predicate Answerable(s: System) {
    && NoRepeat(s.answered)
    && (forall i :: 0 <= i < |s.answered| ==> InPops(s.pops, s.answered[i]))
    && (forall w :: w in s.workers ==> InPops(s.pops, s.workers[w].id) && s.workers[w].id !in s.answered)
    && (forall v, w :: v in s.workers && w in s.workers && v != w ==> s.workers[v].id != s.workers[w].id)
  }

  // The request was taken off the list and had not expired.
  predicate InPops(pops: seq<Pop>, id: nat) {
    exists i :: 0 <= i < |pops| && pops[i].req.id == id && !pops[i].expired
  }

  lemma PopsGrow(pops: seq<Pop>, p: Pop)
    ensures forall id :: InPops(pops, id) ==> InPops(pops + [p], id)
    ensures InPops(pops + [p], p.req.id) || p.expired
  {
    forall id | InPops(pops, id)
      ensures InPops(pops + [p], id)
    {
      var i :| 0 <= i < |pops| && pops[i].req.id == id && !pops[i].expired;
      assert (pops + [p])[i] == pops[i];
    }
    assert (pops + [p])[|pops|] == p;
  }

  lemma NotPoppedBefore(s: System)
    requires InOrder(s) && s.queue != []
    ensures !InPops(s.pops, s.queue[|s.queue| - 1].id)
  {
    OldestFirst(s.queue);
    forall i | 0 <= i < |s.pops|
      ensures s.pops[i].req.id != s.queue[|s.queue| - 1].id
    {
      assert s.pushed[i] == s.pops[i].req.id && s.pushed[|s.pops|] == s.queue[|s.queue| - 1].id;
    }
  }

  lemma PopAnswerable(s: System, w: nat)
    requires InOrder(s) && Answerable(s) && w !in s.workers && s.queue != []
    ensures Answerable(Step(s, WorkerPop(w)))
  {
    var s' := Step(s, WorkerPop(w));
    var p := s'.pops[|s.pops|];
    NotPoppedBefore(s);
    PopsGrow(s.pops, p);
    assert s'.pops == s.pops + [p];
  }

  lemma NothingAnswered(s: System, e: Event)
    requires !e.WorkerReply? && !e.WorkerPop?
    ensures Step(s, e).answered == s.answered && Step(s, e).pops == s.pops
    ensures forall w :: w in Step(s, e).workers ==> w in s.workers && Step(s, e).workers[w] == s.workers[w]
  {
  }

  lemma ReplyAnswerable(s: System, w: nat, payload: string)
    requires Answerable(s) && w in s.workers
    ensures Answerable(Step(s, WorkerReply(w, payload)))
  {
    assert InPops(s.pops, s.workers[w].id);
  }

  lemma AnswerableStep(s: System, e: Event)
    requires InOrder(s) && Answerable(s)
    ensures Answerable(Step(s, e))
  {
    match e
    case WorkerPop(w) => if w !in s.workers && s.queue != [] { PopAnswerable(s, w); }
    case WorkerReply(w, payload) => if w in s.workers { ReplyAnswerable(s, w, payload); }
    case _ => NothingAnswered(s, e);
  }

  lemma {:induction false} RunAnswerable(start: int, events: seq<Event>)
    ensures Answerable(Run(start, events))
  {
    if events != [] {
      var n := |events| - 1;
      RunInOrder(start, events[..n]);
      RunAnswerable(start, events[..n]);
      AnswerableStep(Run(start, events[..n]), events[n]);
    }
  }

  // ---- where a reply comes from

  // Event i: a worker that held this request pushed the reply for it.
  ghost predicate AnsweredAt(start: int, events: seq<Event>, i: nat, w: nat, req: Request, payload: string) {
    && i < |events| && events[i] == WorkerReply(w, payload)
    && w in Run(start, events[..i]).workers && Run(start, events[..i]).workers[w] == req
  }

  ghost predicate Answered(start: int, events: seq<Event>, r: Reply) {
    exists i: nat, w: nat, req :: AnsweredAt(start, events, i, w, req, r.payload) && req.id == r.forId
  }

  ghost predicate ListAnswered(start: int, events: seq<Event>, list: seq<Reply>) {
    forall i :: 0 <= i < |list| ==> Answered(start, events, list[i])
  }

  ghost predicate KeyAnswered(start: int, events: seq<Event>, key: string) {
    ListAnswered(start, events, RepliesAt(Run(start, events), key))
  }

  ghost predicate SenderAnswered(start: int, events: seq<Event>, p: Sender) {
    p.Returned? ==> Answered(start, events, p.reply)
  }

  ghost predicate AllFromWorkers(start: int, events: seq<Event>) {
    && (forall key :: KeyAnswered(start, events, key))
    && (forall id :: id in Run(start, events).senders ==>
          SenderAnswered(start, events, Run(start, events).senders[id]))
  }

  lemma AnsweredStays(start: int, events: seq<Event>, e: Event, r: Reply)
    requires Answered(start, events, r)
    ensures Answered(start, events + [e], r)
  {
    var i: nat, w: nat, req :| AnsweredAt(start, events, i, w, req, r.payload) && req.id == r.forId;
    assert (events + [e])[..i] == events[..i];
    assert AnsweredAt(start, events + [e], i, w, req, r.payload);
  }

  lemma JustAnswered(start: int, events: seq<Event>, w: nat, payload: string)
    requires w in Run(start, events).workers
    ensures Answered(start, events + [WorkerReply(w, payload)], Reply(Run(start, events).workers[w].id, payload))
  {
    var more := events + [WorkerReply(w, payload)];
    assert more[..|events|] == events;
    assert AnsweredAt(start, more, |events|, w, Run(start, events).workers[w], payload);
  }

  // A step adds no reply but the one a worker pushes.
  lemma ListAfter(s: System, e: Event, key: string)
    ensures var list, before := RepliesAt(Step(s, e), key), RepliesAt(s, key);
            forall i :: 0 <= i < |list| ==>
              list[i] in before ||
              (e.WorkerReply? && e.worker in s.workers && list[i] == Reply(s.workers[e.worker].id, e.payload))
  {
  }

  lemma SenderAfter(s: System, e: Event, id: nat)
    requires id in Step(s, e).senders && Step(s, e).senders[id].Returned?
    ensures var r := Step(s, e).senders[id].reply;
            || (id in s.senders && s.senders[id] == Step(s, e).senders[id])
            || (id in s.senders && r in RepliesAt(s, s.senders[id].req.replyKey))
  {
  }

  lemma KeyStaysAnswered(start: int, events: seq<Event>, e: Event, key: string)
    requires KeyAnswered(start, events, key)
    ensures KeyAnswered(start, events + [e], key)
  {
    var s := Run(start, events);
    var _ := RunOn(start, events, e);
    var list := RepliesAt(Step(s, e), key);
    ListAfter(s, e, key);
    forall i | 0 <= i < |list|
      ensures Answered(start, events + [e], list[i])
    {
      if list[i] in RepliesAt(s, key) {
        AnsweredStays(start, events, e, list[i]);
      } else {
        JustAnswered(start, events, e.worker, e.payload);
      }
    }
  }

  lemma SenderStaysAnswered(start: int, events: seq<Event>, e: Event, id: nat)
    requires AllFromWorkers(start, events) && id in Run(start, events + [e]).senders
    ensures SenderAnswered(start, events + [e], Run(start, events + [e]).senders[id])
  {
    var s := Run(start, events);
    var s' := RunOn(start, events, e);
    if s'.senders[id].Returned? {
      SenderAfter(s, e, id);
      assert KeyAnswered(start, events, s.senders[id].req.replyKey);
      AnsweredStays(start, events, e, s'.senders[id].reply);
    }
  }

  lemma {:induction false} RunFromWorkers(start: int, events: seq<Event>)
    ensures AllFromWorkers(start, events)
  {
    if events != [] {
      var before, e := events[..|events| - 1], events[|events| - 1];
      RunFromWorkers(start, before);
      assert events == before + [e];
      forall key
        ensures KeyAnswered(start, events, key)
      {
        KeyStaysAnswered(start, before, e, key);
      }
      forall id | id in Run(start, events).senders
        ensures SenderAnswered(start, events, Run(start, events).senders[id])
      {
        SenderStaysAnswered(start, before, e, id);
      }
    }
  }

  lemma HeldIsPushed(start: int, events: seq<Event>, i: nat, w: nat, req: Request, payload: string)
    requires AnsweredAt(start, events, i, w, req, payload)
    ensures req.id in Run(start, events).senders && Run(start, events).senders[req.id].req == req
    decreases |events|
  {
    if i == |events| - 1 {
      RunKeeps(start, events[..i]);
      assert Genuine(Run(start, events[..i]), req);
    } else {
      var before := events[..|events| - 1];
      assert before[..i] == events[..i];
      HeldIsPushed(start, before, i, w, req, payload);
    }
    RequestsStay(Run(start, events[..|events| - 1]), events[|events| - 1]);
  }

  // Event j: the call that made this request, its deadline at most a millisecond before the end of the timeout.
  ghost predicate MadeAt(start: int, events: seq<Event>, j: nat, timeout: nat, req: Request) {
    && j < |events| && events[j] == Prepare(req.id, req.body, req.replyKey, timeout)
    && var end := Run(start, events[..j]).now + timeout; end - 1_000_000 < req.expiresAt <= end
  }

  ghost predicate Made(start: int, events: seq<Event>, req: Request) {
    exists j: nat, timeout: nat :: MadeAt(start, events, j, timeout, req)
  }

  lemma {:induction false} SendersMade(start: int, events: seq<Event>, id: nat)
    requires id in Run(start, events).senders
    ensures Made(start, events, Run(start, events).senders[id].req)
  {
    var n := |events| - 1;
    var before, e, req := events[..n], events[n], Run(start, events).senders[id].req;
    if id in Run(start, before).senders {
      SendersMade(start, before, id);
      RequestsStay(Run(start, before), e);
      var j: nat, timeout: nat :| MadeAt(start, before, j, timeout, req);
      assert before[..j] == events[..j];
      assert MadeAt(start, events, j, timeout, req);
    } else {
      assert MadeAt(start, events, n, e.timeout, req);
    }
  }

  // ---- main results, for any senders and workers in any interleaving

  // A call that returns a reply returns, unchanged, what a worker pushed that held the very request of this call.
  lemma OwnReply(start: int, events: seq<Event>, id: nat)
    requires id in Run(start, events).senders && Run(start, events).senders[id].Returned?
    ensures var p := Run(start, events).senders[id];
            p.req.id == id && exists i: nat, w: nat :: AnsweredAt(start, events, i, w, p.req, p.reply.payload)
  {
    var p := Run(start, events).senders[id];
    RunKeeps(start, events);
    assert SenderSound(Run(start, events), id);
    RunFromWorkers(start, events);
    assert SenderAnswered(start, events, p);
    var i: nat, w: nat, req :| AnsweredAt(start, events, i, w, req, p.reply.payload) && req.id == p.reply.forId;
    HeldIsPushed(start, events, i, w, req, p.reply.payload);
  }

  // Every request is popped at most once and in push order, and answered at most once, only after
  // it was popped in time.
  lemma AtMostOnce(start: int, events: seq<Event>)
    ensures var s := Run(start, events);
            && NoRepeat(Popped(s.pops)) && Popped(s.pops) <= s.pushed
            && NoRepeat(s.answered)
            && forall i :: 0 <= i < |s.answered| ==> InPops(s.pops, s.answered[i])
  {
    var s := Run(start, events);
    RunInOrder(start, events);
    RunAnswerable(start, events);
    assert forall i :: 0 <= i < |s.pops| ==> Popped(s.pops)[i] == s.pushed[i];
  }

  // A worker that pops a request strictly after its sender timed out finds it expired.
  lemma LatePopIsExpired(start: int, events: seq<Event>, i: nat)
    requires i < |Run(start, events).pops|
    ensures var s := Run(start, events);
            var p := s.pops[i];
            p.req.id in s.senders &&
            (s.senders[p.req.id].TimedOut? && p.at > s.senders[p.req.id].at ==> p.expired)
  {
    var s := Run(start, events);
    RunKeeps(start, events);
    assert PopSound(s, s.pops[i]);
    assert SenderSound(s, s.pops[i].req.id);
  }

  // What a worker pops, executes and answers is what the call of that id made of its arguments, and pushed.
  lemma RequestsAreGenuine(start: int, events: seq<Event>, i: nat)
    requires i < |Run(start, events).pops|
    ensures var s := Run(start, events); Genuine(s, s.pops[i].req) && Made(start, events, s.pops[i].req)
  {
    RunKeeps(start, events);
    assert PopSound(Run(start, events), Run(start, events).pops[i]);
    SendersMade(start, events, Run(start, events).pops[i].req.id);
  }

  // The sender waits for a request with this deadline.
  function Sent(deadline: int): Request { Request(1, "", "", deadline) }

  lemma SenderWaits(timeout: nat) returns (events: seq<Event>)
    ensures Run(0, events) ==
            System(0, [Sent(ExpiresAt(0, timeout))], map[1 := Waiting(Sent(ExpiresAt(0, timeout)), timeout, 0)],
                   map[], map[], [1], [], [])
  {
    var req := Sent(ExpiresAt(0, timeout));
    var s := RunOn(0, [], Prepare(1, "", "", timeout));
    assert s == System(0, [], map[1 := Prepared(req, timeout)], map[], map[], [], [], []);
    events := [Prepare(1, "", "", timeout)];
    s := RunOn(0, events, Push(1, true, true));
    assert s == System(0, [req], map[1 := Pushed(req, timeout)], map[], map[], [1], [], []);
    events := events + [Push(1, true, true)];
    s := RunOn(0, events, StartWait(1));
    events := events + [StartWait(1)];
  }

  // At the very instant the sender gives up, a worker can still accept the request.
  lemma PopAtTimeoutIsAccepted(timeout: nat) returns (events: seq<Event>)
    requires timeout % MILLISECOND == 0
    ensures var s := Run(0, events);
            && |s.pops| == 1 && s.pops[0].req.id in s.senders && s.senders[s.pops[0].req.id].TimedOut?
            && s.pops[0].at == s.senders[s.pops[0].req.id].at && !s.pops[0].expired
  {
    events := SenderWaits(timeout);
    assert ExpiresAt(0, timeout) == timeout;
    var s := RunOn(0, events, Tick(timeout));
    events := events + [Tick(timeout)];
    s := RunOn(0, events, GiveUp(1));
    events := events + [GiveUp(1)];
    s := RunOn(0, events, WorkerPop(7));
    events := events + [WorkerPop(7)];
  }

  lemma RunOn(start: int, events: seq<Event>, e: Event) returns (s: System)
    ensures s == Run(start, events + [e]) == Step(Run(start, events), e)
  {
    assert (events + [e])[..|events|] == events;
    s := Step(Run(start, events), e);
  }

  // ---- the code of Call

  datatype CallResult = CallResult(ok: bool, result: string, error: string, code: string)

  datatype Caller = Caller(name: string, scopes: seq<string>)

  datatype Envelope = Envelope(tool: string, params: string, caller: Caller, replyKey: string, expiresAt: int)

  // What BLPOP brings back: nothing within the timeout, a broken reply, the popped value, or an error.
  datatype PopOutcome = Nothing | TooShort | Value(payload: string) | PopError

  datatype Command = LPush(request: Envelope) | BLPop(replyKey: string, timeout: nat)

  function Unavailable(error: string): CallResult {
    CallResult(false, "", error, "execution_error")
  }

  // The commands a call has sent to Redis.
  class Connection {
    ghost var sent: seq<Command>

    method Push(request: Envelope, accepted: bool) returns (ok: bool)
      modifies this
      ensures sent == old(sent) + [LPush(request)] && ok == accepted
    {
      sent := sent + [LPush(request)];
      ok := accepted;
    }

    method Pop(replyKey: string, timeout: nat, outcome: PopOutcome) returns (r: PopOutcome)
      modifies this
      ensures sent == old(sent) + [BLPop(replyKey, timeout)] && r == outcome
    {
      sent := sent + [BLPop(replyKey, timeout)];
      r := outcome;
    }
  }

  // What is pushed: the deadline fixed at `now`, an empty object for missing parameters, no scopes for nil.
  predicate IsRequest(request: Envelope, tool: string, name: string, scopes: Option<seq<string>>, params: string,
                      timeout: nat, now: int, uuid: string) {
    && request.replyKey == "sb:rpc:reply:" + uuid && request.expiresAt == ExpiresAt(now, timeout)
    && request.tool == tool && request.caller == Caller(name, scopes.GetOr([]))
    && request.params == if params == "" || params == "null" then "{}" else params
  }

  // now is the clock reading before the push, uuid the fresh suffix of the reply key; encodes says of a
  // request whether it can be marshalled (parameters that are no JSON cannot), accepted and outcome are
  // what Redis does, decode is the JSON decoder of replies. scopes is None for a nil slice.
  method Call(rdb: Connection, tool: string, name: string, scopes: Option<seq<string>>, params: string, timeout: nat,
              now: int, uuid: string, encodes: Envelope -> bool, accepted: bool, outcome: PopOutcome,
              decode: string -> Option<CallResult>)
    returns (r: Result<CallResult>, ghost request: Envelope)
    modifies rdb
    ensures IsRequest(request, tool, name, scopes, params, timeout, now, uuid)
    ensures rdb.sent == old(rdb.sent) + (if encodes(request) then [LPush(request)] else []) +
                        (if encodes(request) && accepted then [BLPop(request.replyKey, timeout)] else [])
    ensures r.Err? <==> !encodes(request) || !accepted || outcome == PopError
    ensures r.Ok? ==>
              r.value == if outcome.Value? && decode(outcome.payload).Some? then decode(outcome.payload).value
                         else r.value.(ok := false, code := "execution_error")
  {
    var replyKey := "sb:rpc:reply:" + uuid;
    var expiresAt := ExpiresAt(now, timeout);
    var p := params;
    if |p| == 0 || p == "null" {
      p := "{}";
    }
    var callerScopes := [];
    if scopes.Some? {
      callerScopes := scopes.value;
    }
    var req := Envelope(tool, p, Caller(name, callerScopes), replyKey, expiresAt);
    request := req;
    ghost var before := rdb.sent;
    if !encodes(req) {
      r := Err("rpc: marshalling request");
      return;
    }
    var ok := rdb.Push(req, accepted);
    assert rdb.sent == before + [LPush(request)] + [];
    if !ok {
      r := Err("rpc: LPUSH");
      return;
    }
    var popped := rdb.Pop(replyKey, timeout, outcome);
    match popped
    case Nothing =>
      r := Ok(Unavailable("rpc: service unavailable"));
    case PopError =>
      r := Err("rpc: BLPOP");
    case TooShort =>
      r := Ok(Unavailable("rpc: unexpected BLPOP response format"));
    case Value(payload) =>
      var decoded := decode(payload);
      if decoded.None? {
        r := Ok(Unavailable("rpc: invalid JSON in reply"));
      } else {
        r := Ok(decoded.value);
      }
  }
}
