/**
 * The reporter's bounded event queue, offered to by the supervisor while the
 * reporter drains it: internal/agent/report.go.
 */
module EventQueue {

  import opened Options

  const EVENT_BUFFER: nat := 256
  const MAX_BATCH: nat := 100

  /** An observed event and whether the channel had room for it. */
  datatype Observed<E> = Observed(event: E, taken: bool)

  /**
   * `uncounted` are observers that found the channel full and have not yet
   * counted it; `handed` is everything given to SendEvents, in order, and
   * `batches` how much at a time; `history` is everything ever observed.
   */
  datatype Queue<E> = Queue(
    waiting: seq<E>,
    uncounted: nat,
    dropped: nat,
    logged: nat,
    batch: seq<E>,
    handed: seq<E>,
    batches: seq<nat>,
    history: seq<Observed<E>>
  )

  function Empty<E>(): Queue<E> { Queue([], 0, 0, 0, [], [], [], []) }

  /** One atomic step of an observer or of the reporter. */
  datatype Step<E> =
    | Offer(event: E)
    | CountDrop
    | Receive
    | HandOver
    | LogDrops

  predicate Enabled<E>(q: Queue<E>, step: Step<E>) {
    match step
    case Offer(_) => true
    case CountDrop => q.uncounted > 0
    case Receive => q.waiting != [] && |q.batch| < MAX_BATCH
    case HandOver => q.batch != []
    case LogDrops => true
  }

  function Apply<E>(q: Queue<E>, step: Step<E>): Queue<E>
    requires Enabled(q, step)
  {
    match step
    case Offer(e) =>
      if |q.waiting| < EVENT_BUFFER
      then q.(waiting := q.waiting + [e], history := q.history + [Observed(e, true)])
      else q.(uncounted := q.uncounted + 1, history := q.history + [Observed(e, false)])
    case CountDrop => q.(uncounted := q.uncounted - 1, dropped := q.dropped + 1)
    case Receive => q.(batch := q.batch + [q.waiting[0]], waiting := q.waiting[1..])
    case HandOver => q.(handed := q.handed + q.batch, batches := q.batches + [|q.batch|], batch := [])
    case LogDrops => q.(logged := q.logged + q.dropped, dropped := 0)
  }

  /** The events of the first n observations that were taken, in order. */
  function Taken<E>(history: seq<Observed<E>>, n: nat): seq<E>
    requires n <= |history|
  {
    if n == 0 then []
    else if history[n - 1].taken then Taken(history, n - 1) + [history[n - 1].event]
    else Taken(history, n - 1)
  }

  function Turned<E>(history: seq<Observed<E>>, n: nat): nat
    requires n <= |history|
  {
    if n == 0 then 0 else Turned(history, n - 1) + if history[n - 1].taken then 0 else 1
  }

  /**
   * What was handed over, then what is in hand, then what is queued is exactly
   * what was taken, in the order it was observed; and every event missing from
   * that is logged, counted, or about to be counted as dropped.
   */
  ghost predicate Conserved<E>(q: Queue<E>) {
    && q.handed + q.batch + q.waiting == Taken(q.history, |q.history|)
    && q.logged + q.dropped + q.uncounted == Turned(q.history, |q.history|)
    && |q.waiting| <= EVENT_BUFFER && |q.batch| <= MAX_BATCH
    && forall i :: 0 <= i < |q.batches| ==> 0 < q.batches[i] <= MAX_BATCH
  }

  lemma {:induction false} TakenPrefix<E>(a: seq<Observed<E>>, b: seq<Observed<E>>, n: nat)
    requires n <= |a| && a <= b
    ensures Taken(a, n) == Taken(b, n) && Turned(a, n) == Turned(b, n)
  {
    if n > 0 { TakenPrefix(a, b, n - 1); }
  }

  lemma StepConserves<E>(q: Queue<E>, step: Step<E>)
    requires Conserved(q) && Enabled(q, step)
    ensures Conserved(Apply(q, step))
  {
    var after := Apply(q, step);
    match step
    case Offer(e) =>
      TakenPrefix(q.history, after.history, |q.history|);
      if |q.waiting| < EVENT_BUFFER {
        assert q.handed + q.batch + (q.waiting + [e]) == (q.handed + q.batch + q.waiting) + [e];
      }
    case Receive =>
      assert q.waiting == [q.waiting[0]] + q.waiting[1..];
      assert after.handed + after.batch + after.waiting == q.handed + q.batch + q.waiting;
    case HandOver =>
      assert after.handed + after.batch + after.waiting == q.handed + q.batch + q.waiting;
    case _ =>
  }

  /** The queue after the first n steps, or nothing when one of them was not possible. */
  function After<E>(steps: seq<Step<E>>, n: nat): (q: Queue<E>)
    requires n <= |steps|
  {
    if n == 0 then Empty()
    else
      var before := After(steps, n - 1);
      if Enabled(before, steps[n - 1]) then Apply(before, steps[n - 1]) else before
  }

  /** Over every interleaving of observers and the reporter, nothing is lost unaccounted or reordered. */
  lemma {:induction false} EventsAreConserved<E>(steps: seq<Step<E>>, n: nat)
    requires n <= |steps|
    ensures Conserved(After(steps, n))
  {
    if n > 0 {
      EventsAreConserved(steps, n - 1);
      var before := After(steps, n - 1);
      if Enabled(before, steps[n - 1]) { StepConserves(before, steps[n - 1]); }
    }
  }

  /** An event is turned away only while the channel holds all 256 it can. */
  lemma DropsOnlyWhenFull<E>(steps: seq<Step<E>>, n: nat)
    requires n < |steps| && Turned(After(steps, n + 1).history, |After(steps, n + 1).history|) >
                            Turned(After(steps, n).history, |After(steps, n).history|)
    ensures steps[n].Offer? && |After(steps, n).waiting| == EVENT_BUFFER
  {
    var before, after := After(steps, n), After(steps, n + 1);
    EventsAreConserved(steps, n);
    if steps[n].Offer? { TakenPrefix(before.history, after.history, |before.history|); }
  }

  /** What the control plane makes of a heartbeat. */
  datatype Reply = Accepted | Refused | Failed

  /**
   * What wakes the reporter: `arrived` is what was offered to the channel while
   * it slept, and `arrivals` what is offered before each receive of a drain.
   */
  datatype Wake<E> =
    | EventReady(arrived: seq<E>, arrivals: seq<seq<E>>)
    | Tick(arrived: seq<E>, reply: Reply)
    | Cancelled(arrived: seq<E>, arrivals: seq<seq<E>>, reply: Reply)

  datatype Sent = SentEvents(count: nat) | SentBeat(reply: Reply)

  /** Heartbeats among the first n requests. */
  function Beats(requests: seq<Sent>, n: nat): nat
    requires n <= |requests|
  {
    if n == 0 then 0 else Beats(requests, n - 1) + if requests[n - 1].SentBeat? then 1 else 0
  }

  lemma {:induction false} BeatsOfAPrefix(a: seq<Sent>, b: seq<Sent>, n: nat)
    requires n <= |a| && a <= b
    ensures Beats(a, n) == Beats(b, n)
  {
    if n > 0 { BeatsOfAPrefix(a, b, n - 1); }
  }

  /** Ticks and cancellations among the first n wake-ups. */
  function BeatsDue<E>(wakes: seq<Wake<E>>, n: nat): nat
    requires n <= |wakes|
  {
    if n == 0 then 0 else BeatsDue(wakes, n - 1) + if wakes[n - 1].EventReady? then 0 else 1
  }

  /** What one wake-up found queued, sent, and left queued. */
  datatype Turn = Turn(queued: nat, sent: seq<Sent>, left: nat)

  lemma BeatsOfATurn(before: seq<Sent>, sent: seq<Sent>)
    requires |sent| <= 2 && (|sent| == 2 ==> sent[0].SentEvents?)
    ensures Beats(before + sent, |before + sent|) ==
            Beats(before, |before|) + if sent != [] && sent[|sent| - 1].SentBeat? then 1 else 0
  {
    var all := before + sent;
    BeatsOfAPrefix(before, all, |before|);
    if |sent| == 1 {
      assert all[|before|] == sent[0];
    } else if |sent| == 2 {
      assert all[|before|] == sent[0] && all[|before| + 1] == sent[1];
      assert Beats(all, |before| + 1) == Beats(all, |before|);
    }
  }

  /** The reporter: its channel, its counters, and the requests it has made. */
  class Reporter<E> {
    var events: seq<E>
    var dropped: nat
    var refused: bool
    var requests: seq<Sent>

    // What has become of every event so far
    ghost var logged: nat
    ghost var handed: seq<E>
    ghost var batches: seq<nat>
    ghost var history: seq<Observed<E>>

    ghost function Abstract(batch: seq<E>): Queue<E>
      reads this
    {
      Queue(events, 0, dropped, logged, batch, handed, batches, history)
    }

    constructor ()
      ensures Abstract([]) == Empty() && !refused && requests == []
    {
      events, dropped, refused, requests := [], 0, false, [];
      logged, handed, batches, history := 0, [], [], [];
    }

    /** Never blocks: an event that does not fit is counted and forgotten. */
    method Enqueue(event: E, ghost batch: seq<E>)
      requires Conserved(Abstract(batch))
      modifies this`events, this`dropped, this`history
      ensures Conserved(Abstract(batch))
      ensures history == old(history) + [Observed(event, |old(events)| < EVENT_BUFFER)]
      ensures events == if |old(events)| < EVENT_BUFFER then old(events) + [event] else old(events)
    {
      StepConserves(Abstract(batch), Offer(event));
      if |events| < EVENT_BUFFER {
        history := history + [Observed(event, true)];
        events := events + [event];
      } else {
        history := history + [Observed(event, false)];
        dropped := dropped + 1;
      }
    }

    method EnqueueAll(arriving: seq<E>, ghost batch: seq<E>)
      requires Conserved(Abstract(batch))
      modifies this`events, this`dropped, this`history
      ensures Conserved(Abstract(batch)) && old(history) <= history && |history| == |old(history)| + |arriving|
      ensures |events| == Least(256, |old(events)| + |arriving|)
    {
      for i := 0 to |arriving|
        invariant Conserved(Abstract(batch)) && old(history) <= history && |history| == |old(history)| + i
        invariant |events| == Least(256, |old(events)| + i)
      {
        Enqueue(arriving[i], batch);
      }
    }

    /** Takes up to `limit` events after those already in hand, while others keep arriving. */
    method Drain(limit: nat, arrivals: seq<seq<E>>, first: seq<E>) returns (out: seq<E>)
      requires |first| + limit <= MAX_BATCH && Conserved(Abstract(first))
      modifies this`events, this`dropped, this`history
      ensures Conserved(Abstract(first + out)) && old(history) <= history
      ensures |out| <= limit && (|out| < limit ==> events == []) && (limit > 0 && old(events) != [] ==> out != [])
    {
      out := [];
      assert first + out == first;
      while |out| < limit
        invariant |out| <= limit && Conserved(Abstract(first + out)) && old(history) <= history
        invariant out == [] && old(events) != [] ==> events != []
      {
        if |out| < |arrivals| {
          EnqueueAll(arrivals[|out|], first + out);
        }
        if events == [] {
          return;
        }
        StepConserves(Abstract(first + out), Receive);
        assert (first + out) + [events[0]] == first + (out + [events[0]]);
        out, events := out + [events[0]], events[1..];
      }
    }

    /** Hands a batch to SendEvents, which may fail: it is not tried again. */
    method SendEvents(batch: seq<E>)
      requires batch != [] && Conserved(Abstract(batch))
      modifies this`requests, this`handed, this`batches
      ensures Conserved(Abstract([])) && handed == old(handed) + batch
      ensures requests == old(requests) + [SentEvents(|batch|)]
    {
      StepConserves(Abstract(batch), HandOver);
      handed, batches := handed + batch, batches + [|batch|];
      requests := requests + [SentEvents(|batch|)];
    }

    /** Logs and clears the drop count, then reports; only a refusal is remembered. */
    method Heartbeat(reply: Reply)
      requires Conserved(Abstract([]))
      modifies this`dropped, this`logged, this`requests, this`refused
      ensures Conserved(Abstract([])) && dropped == 0 && logged == old(logged) + old(dropped)
      ensures requests == old(requests) + [SentBeat(reply)] && refused == (old(refused) || reply.Refused?)
    {
      StepConserves(Abstract([]), LogDrops);
      logged := logged + dropped;
      dropped := 0;
      requests := requests + [SentBeat(reply)];
      if reply.Refused? {
        refused := true;
      }
    }

    /** Sends the event that woke the reporter and what else is queued, up to a hundred in all. */
    method FlushEvents(arrivals: seq<seq<E>>)
      requires events != [] && Conserved(Abstract([]))
      modifies this
      ensures Conserved(Abstract([])) && old(history) <= history && refused == old(refused)
      ensures |handed| > |old(handed)| && requests == old(requests) + [SentEvents(|handed| - |old(handed)|)]
      ensures |handed| - |old(handed)| <= 100 && (|handed| - |old(handed)| < 100 ==> events == [])
    {
      var first := [events[0]];
      StepConserves(Abstract([]), Receive);
      assert [] + first == first;
      events := events[1..];
      var more := Drain(MAX_BATCH - 1, arrivals, first);
      SendEvents(first + more);
    }

    /** Hands over at most one more batch, leaving the rest queued, then says goodbye. */
    method FinalReport(arrivals: seq<seq<E>>, reply: Reply)
      requires Conserved(Abstract([])) && !refused
      modifies this
      ensures Conserved(Abstract([])) && old(history) <= history && refused == reply.Refused?
      ensures var batch := |handed| - |old(handed)|;
              && 0 <= batch <= 100 && (batch < 100 ==> events == []) && (old(events) != [] ==> batch > 0)
              && requests == old(requests) + (if batch > 0 then [SentEvents(batch)] else []) + [SentBeat(reply)]
    {
      var remaining := Drain(MAX_BATCH, arrivals, []);
      assert [] + remaining == remaining;
      if remaining != [] {
        SendEvents(remaining);
      }
      Heartbeat(reply);
    }

    /** One wake-up of the select loop, and whether the loop is over. */
    method Wakened(wake: Wake<E>) returns (done: bool)
      requires Conserved(Abstract([])) && !refused
      modifies this
      ensures Conserved(Abstract([])) && old(history) <= history
      ensures done <==> wake.Cancelled? || (wake.Tick? && wake.reply.Refused?)
      ensures refused <==> !wake.EventReady? && wake.reply.Refused?
      ensures wake.Tick? ==>
                && requests == old(requests) + [SentBeat(wake.reply)]
                && |events| == Least(256, |old(events)| + |wake.arrived|)
      ensures wake.EventReady? && old(events) == [] && wake.arrived == [] ==> requests == old(requests) && events == []
      ensures wake.EventReady? && (old(events) != [] || wake.arrived != []) ==>
                var batch := |handed| - |old(handed)|;
                1 <= batch <= 100 && requests == old(requests) + [SentEvents(batch)] && (batch < 100 ==> events == [])
      ensures wake.Cancelled? ==>
                var batch := |handed| - |old(handed)|;
                && 0 <= batch <= 100 && (batch < 100 ==> events == [])
                && (old(events) != [] || wake.arrived != [] ==> batch > 0)
                && requests == old(requests) + (if batch > 0 then [SentEvents(batch)] else []) + [SentBeat(wake.reply)]
    {
      EnqueueAll(wake.arrived, []);
      match wake
      case Cancelled(_, arrivals, reply) =>
        FinalReport(arrivals, reply);
        return true;
      case EventReady(_, arrivals) =>
        if events != [] {
          FlushEvents(arrivals);
        }
        return false;
      case Tick(_, reply) =>
        Heartbeat(reply);
        return refused;
    }

    /**
     * The select loop, through as many wake-ups as it takes. Every tick sends its
     * heartbeat and nothing else; a wake-up that finds something queued sends one
     * batch, and leaves nothing unless the batch is full; a cancellation sends a
     * last batch if there is anything, and one goodbye. It is over at the first
     * cancellation or refused tick, and at nothing else.
     */
    method Run(wakes: seq<Wake<E>>) returns (n: nat, ghost turns: seq<Turn>)
      requires Conserved(Abstract([])) && !refused
      modifies this
      ensures n <= |wakes| && |turns| == n && Conserved(Abstract([])) && old(history) <= history
      ensures n < |wakes| ==> n > 0 && (wakes[n - 1].Cancelled? || (wakes[n - 1].Tick? && wakes[n - 1].reply.Refused?))
      ensures forall i :: 0 <= i < n - 1 ==> !Ends(wakes[i])
      ensures refused <==> n > 0 && !wakes[n - 1].EventReady? && wakes[n - 1].reply.Refused?
      ensures AllAsked(wakes, turns, n, |old(events)|)
      ensures requests == old(requests) + AllSent(turns, n)
      ensures Beats(requests, |requests|) == Beats(old(requests), |old(requests)|) + BeatsDue(wakes, n)
    {
      n, turns := 0, [];
      var done := false;
      while n < |wakes| && !done
        invariant n <= |wakes| && |turns| == n && Conserved(Abstract([])) && old(history) <= history
        invariant done ==> n > 0 && Ends(wakes[n - 1])
        invariant refused <==> n > 0 && !wakes[n - 1].EventReady? && wakes[n - 1].reply.Refused?
        invariant |events| == if n == 0 then |old(events)| else turns[n - 1].left
        invariant NoneEnds(wakes, if done then n - 1 else n)
        invariant AllAsked(wakes, turns, n, |old(events)|)
        invariant requests == old(requests) + AllSent(turns, n)
      {
        ghost var turn;
        done, turn := TakeTurn(wakes[n]);
        AllSentMore(old(requests), turns, turn);
        AskedMore(wakes, turns, turn, |old(events)|);
        turns := turns + [turn];
        n := n + 1;
      }
      BeatsOfAllTurns(wakes, turns, n, |old(events)|, old(requests));
    }

    /** The same wake-up, with what it found, sent and left. */
    method TakeTurn(wake: Wake<E>) returns (done: bool, ghost turn: Turn)
      requires Conserved(Abstract([])) && !refused
      modifies this
      ensures Conserved(Abstract([])) && old(history) <= history && (done <==> Ends(wake))
      ensures refused <==> !wake.EventReady? && wake.reply.Refused?
      ensures turn.queued == Least(256, |old(events)| + |wake.arrived|) && turn.left == |events| && Asked(wake, turn)
      ensures requests == old(requests) + turn.sent
    {
      done := Wakened(wake);
      turn := Turn(Least(256, |old(events)| + |wake.arrived|), requests[|old(requests)|..], |events|);
      assert requests == old(requests) + turn.sent;
    }
  }

  ghost predicate NoneEnds<E>(wakes: seq<Wake<E>>, n: int)
    requires n <= |wakes|
  {
    forall i :: 0 <= i < n ==> !Ends(wakes[i])
  }

  /** The loop is over. */
  predicate Ends<E>(wake: Wake<E>) { wake.Cancelled? || (wake.Tick? && wake.reply.Refused?) }

  /** Each of n wake-ups finds what the one before left and what has arrived since, and makes of it what it should. */
  ghost predicate AllAsked<E>(wakes: seq<Wake<E>>, turns: seq<Turn>, n: nat, first: nat)
    requires n <= |turns| && n <= |wakes|
  {
    n > 0 ==>
      && AllAsked(wakes, turns, n - 1, first)
      && turns[n - 1].queued == Least(256, (if n == 1 then first else turns[n - 2].left) + |wakes[n - 1].arrived|)
      && Asked(wakes[n - 1], turns[n - 1])
  }

  /** What a wake-up should make of what it finds. */
  predicate Asked<E>(wake: Wake<E>, turn: Turn) {
    match wake
    case Tick(_, reply) => turn.sent == [SentBeat(reply)] && turn.left == turn.queued
    case EventReady(_, _) =>
      if turn.queued == 0 then turn.sent == [] && turn.left == 0
      else
        && |turn.sent| == 1 && turn.sent[0].SentEvents? && 1 <= turn.sent[0].count <= 100
        && (turn.sent[0].count < 100 ==> turn.left == 0)
    case Cancelled(_, _, reply) =>
      && 1 <= |turn.sent| <= 2 && turn.sent[|turn.sent| - 1] == SentBeat(reply)
      && (turn.queued > 0 ==> |turn.sent| == 2)
      && (|turn.sent| == 2 ==> turn.sent[0].SentEvents? && 1 <= turn.sent[0].count <= 100)
      && (turn.left == 0 || (|turn.sent| == 2 && turn.sent[0].count == 100))
  }

  function AllSent(turns: seq<Turn>, n: nat): seq<Sent>
    requires n <= |turns|
  {
    if n == 0 then [] else AllSent(turns, n - 1) + turns[n - 1].sent
  }

  lemma {:induction false} AllSentPrefix(a: seq<Turn>, b: seq<Turn>, n: nat)
    requires n <= |a| && a <= b
    ensures AllSent(a, n) == AllSent(b, n)
  {
    if n > 0 { AllSentPrefix(a, b, n - 1); }
  }

  lemma AllSentMore(before: seq<Sent>, turns: seq<Turn>, turn: Turn)
    ensures before + AllSent(turns + [turn], |turns| + 1) == before + AllSent(turns, |turns|) + turn.sent
  {
    AllSentPrefix(turns, turns + [turn], |turns|);
    assert AllSent(turns + [turn], |turns| + 1) == AllSent(turns, |turns|) + turn.sent;
  }

  lemma {:induction false} AskedPrefix<E>(wakes: seq<Wake<E>>, a: seq<Turn>, b: seq<Turn>, n: nat, first: nat)
    requires n <= |a| && n <= |wakes| && a <= b && AllAsked(wakes, a, n, first)
    ensures AllAsked(wakes, b, n, first)
  {
    if n > 0 { AskedPrefix(wakes, a, b, n - 1, first); }
  }

  lemma AskedMore<E>(wakes: seq<Wake<E>>, turns: seq<Turn>, turn: Turn, first: nat)
    requires |turns| < |wakes| && AllAsked(wakes, turns, |turns|, first) && Asked(wakes[|turns|], turn)
    requires turn.queued ==
             Least(256, (if turns == [] then first else turns[|turns| - 1].left) + |wakes[|turns|].arrived|)
    ensures AllAsked(wakes, turns + [turn], |turns| + 1, first)
  {
    AskedPrefix(wakes, turns, turns + [turn], |turns|, first);
  }

  /** A heartbeat for every tick and cancellation, and for nothing else. */
  lemma {:induction false} BeatsOfAllTurns<E>(wakes: seq<Wake<E>>, turns: seq<Turn>, n: nat, first: nat,
                                              before: seq<Sent>)
    requires n <= |turns| && n <= |wakes| && AllAsked(wakes, turns, n, first)
    ensures var all := before + AllSent(turns, n);
            Beats(all, |all|) == Beats(before, |before|) + BeatsDue(wakes, n)
  {
    if n == 0 {
      assert before + AllSent(turns, 0) == before;
    } else {
      BeatsOfAllTurns(wakes, turns, n - 1, first, before);
      var all := before + AllSent(turns, n - 1);
      assert Asked(wakes[n - 1], turns[n - 1]);
      BeatsOfATurn(all, turns[n - 1].sent);
      assert before + AllSent(turns, n) == all + turns[n - 1].sent;
    }
  }
}
