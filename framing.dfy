/** Framing one prompt's answer out of the child's unframed stdout: the body of
    `prompt` after the stdin write (src/gpt4allplus.ts:372-455,
    src/gpt4all.ts:114-194).

    The exchange is driven by three kinds of event, handled one at a time in
    arrival order: a stdout data chunk, the firing of the armed timer, and a
    stdout error. Promise semantics are kept: only the first settlement counts.

    - Plus variant: every chunk cancels the pending timer, arms a new 4000 ms
      one and is appended; only the timer's firing completes the exchange.
    - Basic variant: a chunk containing `>` cancels the timer and completes the
      exchange at once with the text received BEFORE it (the chunk is appended
      afterwards); any other chunk re-arms a 16000 ms timer and is appended.

    Completion and errors remove the data and error listeners; the timer is
    cleared only by the next chunk, so after an error it can still fire. */
module Framing {
  import opened Common
  import opened JsText
  import opened Sanitizer

  /** The delay, in milliseconds, of the timer a chunk arms. */
  function Window(v: Variant): nat
  {
    match v
    case Plus => 4000
    case Basic => 16000
  }

  datatype Event =
    | Chunk(text: string)       // a stdout 'data' event, already decoded
    | TimerFire                 // the armed timer's callback runs
    | StreamError(error: string) // a stdout 'error' event

  /** The state of one exchange: the `response` buffer, the delay of the armed
      timer (if any), the promise's settlement (if any) and whether the data
      and error listeners are still attached. */
  datatype Exchange = Exchange(response: string, timer: Option<nat>, outcome: Option<Answer>, listening: bool)

  /** Right after the prompt is written: nothing received, no timer. */
  const Initial: Exchange := Exchange("", None, None, true)

  /** A promise settles once; later `resolve`/`reject` calls are ignored. */
  function Settle(outcome: Option<Answer>, a: Answer): (r: Option<Answer>)
    ensures r.Some?
    ensures outcome.Some? ==> r == outcome
  {
    if outcome.Some? then outcome else Some(a)
  }

  /** `terminateAndRespond(response)`: detach the listeners and settle with the
      sanitized buffer. */
  function Terminate(v: Variant, x: Exchange): Exchange
  {
    x.(listening := false, outcome := Settle(x.outcome, Sanitize(v, x.response)))
  }

  /** One event handled. The buffer only grows; a settled promise keeps its
      settlement; detached listeners stay detached and take nothing more in;
      a timer, when armed, is either the one already there or a new one with
      the variant's delay. */
  function Step(v: Variant, x: Exchange, e: Event): (r: Exchange)
    ensures x.response <= r.response
    ensures x.outcome.Some? ==> r.outcome == x.outcome
    ensures !x.listening ==> !r.listening && r.response == x.response
    ensures r.timer.Some? ==> r.timer == x.timer || r.timer == Some(Window(v))
  {
    match e
    case Chunk(t) =>
      if !x.listening then x
      else if v == Basic && Contains(t, ">") then Terminate(v, x.(timer := None)).(response := x.response + t)
      else x.(timer := Some(Window(v)), response := x.response + t)
    case TimerFire =>
      if x.timer.None? then x else Terminate(v, x.(timer := None))
    case StreamError(err) =>
      if !x.listening then x
      else x.(listening := false, outcome := Settle(x.outcome, Rejected(StreamFailure(err))))
  }

  /** The exchange after a sequence of events. An armed timer always has the
      variant's delay. */
  function Run(v: Variant, events: seq<Event>): (r: Exchange)
    decreases |events|
    ensures r.timer.Some? ==> r.timer == Some(Window(v))
  {
    if |events| == 0 then Initial
    else Step(v, Run(v, events[..|events| - 1]), events[|events| - 1])
  }

  /** The concatenation of every chunk in `events`. */
  function Received(events: seq<Event>): string
    decreases |events|
  {
    if |events| == 0 then ""
    else
      var last := events[|events| - 1];
      Received(events[..|events| - 1]) + (if last.Chunk? then last.text else "")
  }

  /** `events` holds at least one chunk. */
  predicate HasChunk(events: seq<Event>)
  {
    exists k :: 0 <= k < |events| && events[k].Chunk?
  }

  lemma RunSnoc(v: Variant, events: seq<Event>, e: Event)
    ensures Run(v, events + [e]) == Step(v, Run(v, events), e)
    ensures Received(events + [e]) == Received(events) + (if e.Chunk? then e.text else "")
  {
    assert (events + [e])[..|events|] == events;
  }

  // ---------------------------------------------------------------------------
  // Invariants of every run.

  /** While the listeners are attached the promise is unsettled and the buffer
      is exactly everything received; once they are removed the promise has
      settled. */
  lemma {:induction false} RunInvariant(v: Variant, events: seq<Event>)
    ensures Run(v, events).listening <==> Run(v, events).outcome.None?
    ensures Run(v, events).listening ==> Run(v, events).response == Received(events)
    decreases |events|
  {
    if |events| > 0 {
      var init := events[..|events| - 1];
      var e := events[|events| - 1];
      RunInvariant(v, init);
      RunSnoc(v, init, e);
      assert init + [e] == events;
    }
  }

  /** No timer exists and nothing is buffered before the first chunk; in the
      plus variant, while listening, a timer is armed exactly once a chunk has
      arrived. */
  lemma {:induction false} TimerOnlyAfterChunk(v: Variant, events: seq<Event>)
    ensures !HasChunk(events) ==> Run(v, events).timer.None? && Run(v, events).response == ""
    ensures v == Plus && Run(v, events).listening ==> (Run(v, events).timer.Some? <==> HasChunk(events))
    decreases |events|
  {
    if |events| > 0 {
      var init := events[..|events| - 1];
      var e := events[|events| - 1];
      TimerOnlyAfterChunk(v, init);
      RunSnoc(v, init, e);
      HasChunkSnoc(init, e);
      assert init + [e] == events;
    }
  }

  lemma HasChunkSnoc(events: seq<Event>, e: Event)
    ensures HasChunk(events + [e]) <==> HasChunk(events) || e.Chunk?
  {
    var all := events + [e];
    if HasChunk(events) {
      var k :| 0 <= k < |events| && events[k].Chunk?;
      assert all[k] == events[k];
    }
    if HasChunk(all) && !e.Chunk? {
      var k :| 0 <= k < |all| && all[k].Chunk?;
      assert k < |events| && events[k] == all[k];
    }
    if e.Chunk? {
      assert all[|events|] == e;
    }
  }

  /** A prompt that never gets output never settles: without a first chunk no
      timer is armed, so only a stream error can end the exchange. */
  lemma SilenceNeverSettles(v: Variant, events: seq<Event>)
    requires forall k :: 0 <= k < |events| ==> events[k] == TimerFire
    ensures Run(v, events).outcome.None?
  {
    assert !HasChunk(events);
    TimerOnlyAfterChunk(v, events);
    SilenceKeepsListening(v, events);
  }

  lemma {:induction false} SilenceKeepsListening(v: Variant, events: seq<Event>)
    requires forall k :: 0 <= k < |events| ==> events[k] == TimerFire
    ensures Run(v, events).listening && Run(v, events).timer.None?
    decreases |events|
  {
    if |events| > 0 {
      var init := events[..|events| - 1];
      SilenceKeepsListening(v, init);
      RunSnoc(v, init, TimerFire);
      assert init + [TimerFire] == events;
      RunInvariant(v, events);
    }
  }

  // ---------------------------------------------------------------------------
  // How an exchange settles.

  /** Only the first settlement counts: once settled, no later event changes
      the outcome. */
  lemma {:induction false} SettleOnce(v: Variant, events: seq<Event>, later: seq<Event>)
    requires Run(v, events).outcome.Some?
    ensures Run(v, events + later).outcome == Run(v, events).outcome
    decreases |later|
  {
    if |later| > 0 {
      var init := later[..|later| - 1];
      var e := later[|later| - 1];
      SettleOnce(v, events, init);
      RunSnoc(v, events + init, e);
      assert (events + init) + [e] == events + later;
    } else {
      assert events + later == events;
    }
  }

  /** The event that settles an unsettled exchange, and what it settles with:
      a stream error rejects with that error; otherwise the sanitized text of
      every chunk received before the event — by the timer firing in either
      variant, or (basic variant only) by a chunk containing `>`, whose own text
      is left out. A chunk never settles the plus variant. */
  lemma SettlingEvent(v: Variant, events: seq<Event>, e: Event)
    requires Run(v, events).outcome.None?
    requires Run(v, events + [e]).outcome.Some?
    ensures e.StreamError? ==> Run(v, events + [e]).outcome == Some(Rejected(StreamFailure(e.error)))
    ensures !e.StreamError? ==> Run(v, events + [e]).outcome == Some(Sanitize(v, Received(events)))
    ensures e.Chunk? ==> v == Basic && Contains(e.text, ">")
    ensures e.TimerFire? ==> Run(v, events).timer.Some?
  {
    RunInvariant(v, events);
    RunSnoc(v, events, e);
  }

  /** While listening, a chunk that does not complete the exchange is appended
      and (re-)arms the timer with the variant's delay. */
  lemma ChunkRearms(v: Variant, events: seq<Event>, t: string)
    requires Run(v, events).listening
    requires v == Plus || !Contains(t, ">")
    ensures Run(v, events + [Chunk(t)]).timer == Some(Window(v))
    ensures Run(v, events + [Chunk(t)]).listening
    ensures Run(v, events + [Chunk(t)]).response == Received(events) + t
  {
    RunInvariant(v, events);
    RunSnoc(v, events, Chunk(t));
  }

  /** After completion or an error the listeners are gone: later chunks are
      not appended and arm no timer. */
  lemma LateChunkIgnored(v: Variant, events: seq<Event>, t: string)
    requires !Run(v, events).listening
    ensures Run(v, events + [Chunk(t)]) == Run(v, events)
  {
    RunSnoc(v, events, Chunk(t));
  }

  /** An error while listening rejects with that error and leaves an armed
      timer armed; when it fires, the outcome stays the rejection. */
  lemma ErrorThenTimer(v: Variant, events: seq<Event>, err: string)
    requires Run(v, events).listening
    ensures Run(v, events + [StreamError(err)]).outcome == Some(Rejected(StreamFailure(err)))
    ensures Run(v, events + [StreamError(err)]).timer == Run(v, events).timer
    ensures Run(v, events + [StreamError(err), TimerFire]).outcome == Some(Rejected(StreamFailure(err)))
  {
    RunInvariant(v, events);
    RunSnoc(v, events, StreamError(err));
    SettleOnce(v, events + [StreamError(err)], [TimerFire]);
    assert events + [StreamError(err)] + [TimerFire] == events + [StreamError(err), TimerFire];
  }

  /** A reply streamed as "hello\n", "world\n" and the prompt marker ">":
      the plus variant answers "hello world" when its timer fires after the
      last chunk; the basic variant answers the same at the marker chunk. */
  lemma PlusTranscript(hello: string, world: string, marker: string)
    requires hello == "hello\n" && world == "world\n" && marker == ">"
    ensures Run(Plus, [Chunk(hello), Chunk(world), Chunk(marker), TimerFire]).outcome
      == Some(Resolved("hello world"))
  {
    PlusThreeChunksThenTimer(hello, world, marker);
    HelloWorld(hello, world, marker);
  }

  lemma BasicTranscript(hello: string, world: string, marker: string)
    requires hello == "hello\n" && world == "world\n" && marker == ">"
    ensures Run(Basic, [Chunk(hello), Chunk(world), Chunk(marker)]).outcome
      == Some(Resolved("hello world"))
  {
    assert !Contains(hello, ">") by { ContainsChar(hello, '>'); }
    assert !Contains(world, ">") by { ContainsChar(world, '>'); }
    assert Contains(marker, ">") by { ContainsChar(marker, '>'); }
    BasicMarkerAfterTwoChunks(hello, world, marker);
    HelloWorld(hello, world, marker);
  }

  /** Two chunks without a completing marker: both buffered, timer armed. */
  lemma TwoChunks(v: Variant, a: string, b: string)
    requires v == Plus || (!Contains(a, ">") && !Contains(b, ">"))
    ensures Run(v, [Chunk(a), Chunk(b)]) == Exchange(a + b, Some(Window(v)), None, true)
  {
    ChunkStep(v, [], a);
    assert [] + [Chunk(a)] == [Chunk(a)];
    ChunkStep(v, [Chunk(a)], b);
    assert [Chunk(a)] + [Chunk(b)] == [Chunk(a), Chunk(b)];
  }

  lemma PlusThreeChunksThenTimer(a: string, b: string, c: string)
    ensures Run(Plus, [Chunk(a), Chunk(b), Chunk(c), TimerFire]).outcome == Some(Sanitize(Plus, a + b + c))
  {
    TwoChunks(Plus, a, b);
    ChunkStep(Plus, [Chunk(a), Chunk(b)], c);
    assert [Chunk(a), Chunk(b)] + [Chunk(c)] == [Chunk(a), Chunk(b), Chunk(c)];
    RunSnoc(Plus, [Chunk(a), Chunk(b), Chunk(c)], TimerFire);
    assert [Chunk(a), Chunk(b), Chunk(c)] + [TimerFire] == [Chunk(a), Chunk(b), Chunk(c), TimerFire];
  }

  lemma BasicMarkerAfterTwoChunks(a: string, b: string, c: string)
    requires !Contains(a, ">") && !Contains(b, ">") && Contains(c, ">")
    ensures Run(Basic, [Chunk(a), Chunk(b), Chunk(c)]).outcome == Some(Sanitize(Basic, a + b))
  {
    TwoChunks(Basic, a, b);
    RunSnoc(Basic, [Chunk(a), Chunk(b)], Chunk(c));
    assert [Chunk(a), Chunk(b)] + [Chunk(c)] == [Chunk(a), Chunk(b), Chunk(c)];
  }

  /** A chunk that does not complete a listening exchange. */
  lemma ChunkStep(v: Variant, events: seq<Event>, t: string)
    requires Run(v, events).listening && (v == Plus || !Contains(t, ">"))
    ensures Run(v, events + [Chunk(t)]) ==
      Run(v, events).(timer := Some(Window(v)), response := Run(v, events).response + t)
  {
    RunSnoc(v, events, Chunk(t));
  }

  // ---------------------------------------------------------------------------
  // The exchange as the source holds it: locals of `prompt` updated by the
  // event handlers.

  class PendingExchange {
    const variant: Variant
    var response: string
    var timer: Option<nat>
    var outcome: Option<Answer>
    var listening: bool
    /** The events handled so far. */
    ghost var events: seq<Event>

    function State(): Exchange
      reads this
    {
      Exchange(response, timer, outcome, listening)
    }

    ghost predicate Valid()
      reads this
    {
      State() == Run(variant, events)
    }

    /** The state `prompt` sets up after writing to stdin. */
    constructor (v: Variant)
      ensures Valid() && variant == v && events == []
      ensures response == "" && timer.None? && outcome.None? && listening
    {
      variant := v;
      response := "";
      timer := None;
      outcome := None;
      listening := true;
      events := [];
    }

    /** `terminateAndRespond(response)`: the last step the handlers below
        share. It is called between recording an event and restoring
        `Valid()`, so it neither needs nor keeps `Valid()` itself. */
    method Terminate()
      modifies this
      ensures listening == false && outcome == Settle(old(outcome), Sanitize(variant, old(response)))
      ensures response == old(response) && timer == old(timer) && events == old(events)
    {
      listening := false;
      if outcome.None? {
        outcome := Some(Sanitize(variant, response));
      }
    }

    /** The stdout 'data' handler. */
    method OnChunk(text: string)
      requires Valid()
      modifies this
      ensures Valid() && events == old(events) + [Chunk(text)]
      ensures !old(listening) ==> response == old(response) && timer == old(timer) && outcome == old(outcome) && !listening
      ensures old(listening) ==> response == old(response) + text
      ensures old(listening) && variant == Basic && Contains(text, ">") ==>
        timer.None? && !listening && outcome == Some(Sanitize(Basic, old(response)))
      ensures old(listening) && !(variant == Basic && Contains(text, ">")) ==>
        timer == Some(Window(variant)) && listening && outcome.None?
    {
      RunInvariant(variant, events);
      RunSnoc(variant, events, Chunk(text));
      events := events + [Chunk(text)];
      if listening {
        timer := None;
        if variant == Basic && Contains(text, ">") {
          Terminate();
        } else {
          timer := Some(Window(variant));
        }
        response := response + text;
      }
    }

    /** The armed timer's callback. */
    method OnTimerFire()
      requires Valid()
      modifies this
      ensures Valid() && events == old(events) + [TimerFire]
      ensures response == old(response) && timer.None?
      ensures old(timer).Some? ==> !listening && outcome == Settle(old(outcome), Sanitize(variant, old(response)))
      ensures old(timer).None? ==> listening == old(listening) && outcome == old(outcome)
    {
      RunSnoc(variant, events, TimerFire);
      events := events + [TimerFire];
      if timer.Some? {
        timer := None;
        Terminate();
      }
    }

    /** The stdout 'error' handler. */
    method OnStreamError(error: string)
      requires Valid()
      modifies this
      ensures Valid() && events == old(events) + [StreamError(error)]
      ensures response == old(response) && timer == old(timer) && !listening
      ensures old(listening) ==> outcome == Some(Rejected(StreamFailure(error)))
      ensures !old(listening) ==> outcome == old(outcome)
    {
      RunInvariant(variant, events);
      RunSnoc(variant, events, StreamError(error));
      events := events + [StreamError(error)];
      if listening {
        listening := false;
        outcome := Settle(outcome, Rejected(StreamFailure(error)));
      }
    }
  }
}
