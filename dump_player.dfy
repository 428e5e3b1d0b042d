/**
 * The playback controller: it replays a decoded event log as if it were a
 * live stream, appending token deltas to an accumulator and running the
 * chart-spec extractor after each token, while stop, pause and resume
 * requests arrive between the pass's suspension points.
 *
 * The pass is cooperative: it suspends only in the pause-wait poll and in
 * the delay before each event. A suspended pass is a state with `running`
 * set and its frame in `pass`: `waiting` tells which of the two it is
 * suspended in, `pos` is its loop index, `events` the event list it
 * captured when it started, `acc` its accumulator, and `start`/`base` the
 * index and the text it started from. `Step` resumes it up to its next suspension, so the
 * control requests interleave between steps with no real concurrency.
 */
module DumpPlayer {
  import opened Wrappers
  import opened JsonValue
  import opened VegaExtract
  import opened Dump

  datatype PlayerStatus = Idle | Streaming | Done | Error | Paused

  // ---------------------------------------------------------------------------
  // withHardcodedData
  // ---------------------------------------------------------------------------

  function DataRow(region: string, revenue: real): Json {
    JObject(map["region" := JString(region), "revenue" := JNumber(revenue)])
  }

  /** `HARD_DATA`: the revenue table every rendered spec shows. */
  const HardData: Json := JArray([DataRow("Almaty", 120.0), DataRow("Astana", 90.0), DataRow("Shymkent", 70.0)])

  /** The `data` member the injector sets: `{ values: HARD_DATA }`. */
  const InlineData: Json := JObject(map["values" := HardData])

  /** `{ ...spec, data: { values: HARD_DATA } }`: a new object, the input left as it is. */
  function WithHardcodedData(spec: map<string, Json>): (r: map<string, Json>)
    ensures r.Keys == spec.Keys + {"data"}
    ensures r["data"] == InlineData
    ensures forall k :: k in spec && k != "data" ==> r[k] == spec[k]
  {
    spec["data" := InlineData]
  }

  /** Injecting twice is injecting once. */
  lemma WithHardcodedDataIdempotent(spec: map<string, Json>)
    ensures WithHardcodedData(WithHardcodedData(spec)) == WithHardcodedData(spec)
  {
  }

  /** The spec the player renders for an extracted spec: the object with its data replaced. */
  function Injected(spec: Json): (r: Json)
    requires spec.JObject?
    ensures r.JObject? && r.fields == WithHardcodedData(spec.fields)
  {
    JObject(WithHardcodedData(spec.fields))
  }

  /** Injection keeps the shape a Vega-Lite spec needs. */
  lemma InjectedIsValid(spec: Json)
    requires IsValidVegaLite(spec)
    ensures IsValidVegaLite(Injected(spec))
  {
  }

  // ---------------------------------------------------------------------------
  // The extraction fields
  // ---------------------------------------------------------------------------

  /** `vegaRaw`, `vegaSpec`, `vegaHint` and `vegaSource`. */
  datatype Chart = Chart(vegaRaw: string, vegaSpec: Option<Json>, vegaHint: Option<string>, vegaSource: Option<Source>)

  const NoChart := Chart("", None, None, None)

  const DefaultHint := "Invalid Vega schema"

  /**
   * How one extraction result updates the four fields: `ok` replaces the
   * raw text, the spec and the source and clears the hint; `invalid_schema`
   * sets only the hint; `not_found` and `invalid_json` touch nothing.
   */
  function ApplyExtraction(c: Chart, res: VegaExtractResult): (r: Chart)
    requires res.Found? ==> res.spec.JObject?
    ensures res.Found? ==> r.vegaRaw == res.raw && r.vegaSpec == Some(Injected(res.spec))
                           && r.vegaHint.None? && r.vegaSource == Some(res.source)
    ensures res.Failed? && res.reason == InvalidSchema ==> r == c.(vegaHint := Some(res.error.GetOr(DefaultHint)))
    ensures res.Failed? && res.reason != InvalidSchema ==> r == c
  {
    match res
    case Found(spec, raw, source) => Chart(raw, Some(Injected(spec)), None, Some(source))
    case Failed(reason, e) => if reason == InvalidSchema then c.(vegaHint := Some(e.GetOr(DefaultHint))) else c
  }

  // ---------------------------------------------------------------------------
  // The controller's state and its transitions
  // ---------------------------------------------------------------------------

  /**
   * The frame of a suspended pass: the event list it captured, the index and
   * the text it started from, its accumulator `acc`, its loop index, and
   * whether it sits in the pause wait rather than in the delay.
   */
  datatype Pass = Pass(events: seq<StreamEvent>, start: nat, base: string, acc: string, pos: nat, waiting: bool)

  datatype PlayerState = PlayerState(
    events: seq<StreamEvent>,
    status: PlayerStatus,
    streamText: string,
    error: Option<string>,
    chart: Chart,
    stopFlag: bool,
    pauseFlag: bool,
    running: bool,
    idx: nat,
    pass: Pass)

  /** The hook's state on first render. */
  const Initial := PlayerState([], Idle, "", None, NoChart, false, false, false, 0, Pass([], 0, "", "", 0, false))

  /** A suspended pass is suspended at an index of its event list. */
  predicate WellFormed(st: PlayerState) {
    st.running ==> st.pass.pos < |st.pass.events|
  }

  /** `ev.data.message || "Unknown error"`. */
  function ErrorText(message: string): string {
    if message == "" then "Unknown error" else message
  }

  /** The code after the loop, reached on a break or when the events run out; `finally` clears `running`. */
  function AfterLoop(st: PlayerState): (r: PlayerState)
    ensures !r.running
  {
    st.(status := if st.stopFlag then Idle else if !st.pauseFlag then Done else st.status, running := false)
  }

  /** The loop top at index i: set `idx`, then suspend in the pause wait, leave on stop, or suspend in the delay. */
  function EnterLoop(st: PlayerState, i: nat): (r: PlayerState)
    ensures WellFormed(r)
    ensures r.running ==> st.running && r.pass.pos == i && r.pass.acc == st.pass.acc && r.pass.events == st.pass.events
                          && r.pass.start == st.pass.start && r.pass.base == st.pass.base
  {
    if i >= |st.pass.events| then AfterLoop(st)
    else
      var s := st.(idx := i, pass := st.pass.(pos := i));
      if s.pauseFlag && !s.stopFlag then s.(pass := s.pass.(waiting := true))
      else if s.stopFlag then AfterLoop(s)
      else s.(pass := s.pass.(waiting := false))
  }

  /** What the pass does with the event at its index once the delay is over. */
  function Process(parse: Parser, st: PlayerState, ev: StreamEvent): (r: PlayerState)
    ensures WellFormed(r)
  {
    match ev
    case TokenEvent(delta) =>
      var acc := st.pass.acc + delta;
      var res := TryExtractVegaSpec(parse, acc);
      EnterLoop(st.(pass := st.pass.(acc := acc), streamText := acc, chart := ApplyExtraction(st.chart, res)), st.pass.pos + 1)
    case ErrorEvent(message) => st.(status := Error, error := Some(ErrorText(message)), running := false)
    case DoneEvent => st.(status := Done, running := false)
    case OtherEvent => EnterLoop(st, st.pass.pos + 1)
  }

  /** A suspended pass runs on to its next suspension point, or to its end. */
  function Step(parse: Parser, st: PlayerState): (r: PlayerState)
    requires WellFormed(st)
    ensures WellFormed(r)
  {
    if !st.running then st
    else if st.pass.waiting then
      if st.pauseFlag && !st.stopFlag then st
      else if st.stopFlag then AfterLoop(st)
      else st.(pass := st.pass.(waiting := false))
    else if st.stopFlag then AfterLoop(st)
    else Process(parse, st, st.pass.events[st.pass.pos])
  }

  /** `loadEvents`: it resets the visible state and the flags, but an in-flight pass keeps running on its own events. */
  function LoadEvents(st: PlayerState, ev: seq<StreamEvent>): (r: PlayerState)
    requires WellFormed(st)
    ensures WellFormed(r)
  {
    st.(events := ev, status := Idle, streamText := "", error := None, chart := NoChart,
        stopFlag := false, pauseFlag := false, idx := 0)
  }

  function Stop(st: PlayerState): (r: PlayerState)
    requires WellFormed(st)
    ensures WellFormed(r)
  {
    st.(stopFlag := true, pauseFlag := false)
  }

  function Pause(st: PlayerState): (r: PlayerState)
    requires WellFormed(st)
    ensures WellFormed(r)
  {
    st.(pauseFlag := true, status := Paused)
  }

  function Resume(st: PlayerState): (r: PlayerState)
    requires WellFormed(st)
    ensures WellFormed(r)
  {
    if |st.events| == 0 then st else st.(pauseFlag := false, status := Streaming)
  }

  /** `play`: a no-op with no events or while a pass runs; otherwise a full reset and a new pass from index 0. */
  function Play(st: PlayerState): (r: PlayerState)
    requires WellFormed(st)
    ensures WellFormed(r)
  {
    if |st.events| == 0 || st.running then st
    else
      EnterLoop(st.(running := true, stopFlag := false, pauseFlag := false, status := Streaming, error := None,
                    idx := 0, streamText := "", chart := NoChart,
                    pass := Pass(st.events, 0, "", "", 0, false)), 0)
  }

  /**
   * `continueFromPause`. `seenStatus` and `seenText` are the `status` and
   * `streamText` of the render whose callback runs, which may lag behind the
   * state. The pause flag is not cleared.
   */
  function ContinueFromPause(st: PlayerState, seenStatus: PlayerStatus, seenText: string): (r: PlayerState)
    requires WellFormed(st)
    ensures WellFormed(r)
  {
    if |st.events| == 0 || st.running || seenStatus != Paused then st
    else
      EnterLoop(st.(running := true, stopFlag := false, status := Streaming, error := None,
                    pass := Pass(st.events, st.idx + 1, seenText, seenText, st.idx + 1, false)),
                st.idx + 1)
  }

  predicate CanPlay(st: PlayerState) {
    |st.events| > 0 && (st.status == Idle || st.status == Done || st.status == Error)
  }

  predicate CanStop(st: PlayerState) {
    st.status == Streaming || st.status == Paused
  }

  predicate CanPause(st: PlayerState) {
    st.status == Streaming
  }

  predicate CanResume(st: PlayerState) {
    st.status == Paused
  }

  /** What can happen to the state: a control request from the page, or a suspended pass resuming (`Tick`). */
  datatype Action =
    | LoadAction(ev: seq<StreamEvent>)
    | StopAction
    | PauseAction
    | ResumeAction
    | PlayAction
    | ContinueAction(seenStatus: PlayerStatus, seenText: string)
    | Tick

  function Apply(parse: Parser, st: PlayerState, a: Action): (r: PlayerState)
    requires WellFormed(st)
    ensures WellFormed(r)
  {
    match a
    case LoadAction(ev) => LoadEvents(st, ev)
    case StopAction => Stop(st)
    case PauseAction => Pause(st)
    case ResumeAction => Resume(st)
    case PlayAction => Play(st)
    case ContinueAction(seenStatus, seenText) => ContinueFromPause(st, seenStatus, seenText)
    case Tick => Step(parse, st)
  }

  function ApplyAll(parse: Parser, st: PlayerState, actions: seq<Action>): (r: PlayerState)
    requires WellFormed(st)
    ensures WellFormed(r)
    decreases |actions|
  {
    if actions == [] then st else ApplyAll(parse, Apply(parse, st, actions[0]), actions[1..])
  }

  /** n steps of the pass with no request in between. */
  function Run(parse: Parser, st: PlayerState, n: nat): (r: PlayerState)
    requires WellFormed(st)
    ensures WellFormed(r)
    decreases n
  {
    if n == 0 then st else Run(parse, Step(parse, st), n - 1)
  }

  // ---------------------------------------------------------------------------
  // The accumulation invariant
  // ---------------------------------------------------------------------------

  /** The concatenated deltas of the token events, in order. */
  function TokenText(es: seq<StreamEvent>): string {
    if es == [] then ""
    else TokenText(es[..|es| - 1]) + (if es[|es| - 1].TokenEvent? then es[|es| - 1].delta else "")
  }

  /** No error or done event among es. */
  predicate NoTerminal(es: seq<StreamEvent>) {
    forall i :: 0 <= i < |es| ==> !es[i].ErrorEvent? && !es[i].DoneEvent?
  }

  /**
   * While a pass runs, its accumulator is the text it started from followed
   * by the deltas of the token events at the indices it has processed, in
   * order, and none of those was a terminal event.
   */
  predicate Valid(st: PlayerState) {
    WellFormed(st)
    && (st.running ==>
          && st.pass.start <= st.pass.pos
          && st.pass.acc == st.pass.base + TokenText(st.pass.events[st.pass.start..st.pass.pos])
          && NoTerminal(st.pass.events[st.pass.start..st.pass.pos]))
  }

  lemma Initially()
    ensures Valid(Initial) && Initial.status == Idle && !Initial.running
  {
  }

  /** One more processed event: the slice grows by that event. */
  lemma SliceGrows(es: seq<StreamEvent>, lo: nat, hi: nat)
    requires lo <= hi < |es|
    ensures es[lo..hi + 1] == es[lo..hi] + [es[hi]]
    ensures TokenText(es[lo..hi + 1]) == TokenText(es[lo..hi]) + (if es[hi].TokenEvent? then es[hi].delta else "")
  {
    assert es[lo..hi + 1] == es[lo..hi] + [es[hi]];
    assert es[lo..hi + 1][..hi - lo] == es[lo..hi];
  }

  /** A processed event that is not terminal keeps the slice free of terminal events. */
  lemma NoTerminalGrows(es: seq<StreamEvent>, e: StreamEvent)
    requires NoTerminal(es) && !e.ErrorEvent? && !e.DoneEvent?
    ensures NoTerminal(es + [e])
  {
    assert forall i :: 0 <= i < |es + [e]| ==> (es + [e])[i] == if i < |es| then es[i] else e;
  }

  /** The loop top keeps the invariant of a pass whose accumulator matches the events before index i. */
  lemma EnterLoopKeepsValid(st: PlayerState, i: nat)
    requires st.running && st.pass.start <= i <= |st.pass.events|
    requires st.pass.acc == st.pass.base + TokenText(st.pass.events[st.pass.start..i])
    requires NoTerminal(st.pass.events[st.pass.start..i])
    ensures Valid(EnterLoop(st, i))
  {
  }

  /** After the delay, a token event extends the accumulator and the output, reruns the extractor, and moves to the next index. */
  lemma TokenStep(parse: Parser, st: PlayerState, delta: string)
    requires WellFormed(st) && st.running && !st.pass.waiting && !st.stopFlag && st.pass.events[st.pass.pos] == TokenEvent(delta)
    ensures var acc := st.pass.acc + delta;
      Step(parse, st) == EnterLoop(st.(pass := st.pass.(acc := acc), streamText := acc, chart := ApplyExtraction(st.chart, TryExtractVegaSpec(parse, acc))), st.pass.pos + 1)
  {
  }

  /** An event of an unknown kind is skipped. */
  lemma OtherStep(parse: Parser, st: PlayerState)
    requires WellFormed(st) && st.running && !st.pass.waiting && !st.stopFlag && st.pass.events[st.pass.pos] == OtherEvent
    ensures Step(parse, st) == EnterLoop(st, st.pass.pos + 1)
  {
  }

  /** A token event processed after the delay keeps the accumulation invariant. */
  lemma TokenStepKeepsValid(parse: Parser, st: PlayerState, delta: string)
    requires Valid(st) && st.running && !st.pass.waiting && !st.stopFlag && st.pass.events[st.pass.pos] == TokenEvent(delta)
    ensures Valid(Step(parse, st))
  {
    SliceGrows(st.pass.events, st.pass.start, st.pass.pos);
    NoTerminalGrows(st.pass.events[st.pass.start..st.pass.pos], TokenEvent(delta));
    TokenStep(parse, st, delta);
    var acc := st.pass.acc + delta;
    var c := ApplyExtraction(st.chart, TryExtractVegaSpec(parse, acc));
    EnterLoopKeepsValid(st.(pass := st.pass.(acc := acc), streamText := acc, chart := c), st.pass.pos + 1);
  }

  /** Skipping an event at the loop top keeps the accumulation invariant. */
  lemma SkipKeepsValid(st: PlayerState)
    requires Valid(st) && st.running && st.pass.events[st.pass.pos] == OtherEvent
    ensures Valid(EnterLoop(st, st.pass.pos + 1))
  {
    var es, lo, hi := st.pass.events, st.pass.start, st.pass.pos;
    SliceGrows(es, lo, hi);
    NoTerminalGrows(es[lo..hi], OtherEvent);
    EnterLoopKeepsValid(st, hi + 1);
  }

  /** A skipped event processed after the delay keeps the accumulation invariant. */
  lemma OtherStepKeepsValid(parse: Parser, st: PlayerState)
    requires Valid(st) && st.running && !st.pass.waiting && !st.stopFlag && st.pass.events[st.pass.pos] == OtherEvent
    ensures Valid(Step(parse, st))
  {
    SkipKeepsValid(st);
    OtherStep(parse, st);
  }

  /** A resumed pass keeps the accumulation invariant. */
  lemma StepKeepsValid(parse: Parser, st: PlayerState)
    requires Valid(st)
    ensures Valid(Step(parse, st))
  {
    if st.running && !st.pass.waiting && !st.stopFlag {
      match st.pass.events[st.pass.pos]
      case TokenEvent(delta) => TokenStepKeepsValid(parse, st, delta);
      case OtherEvent => OtherStepKeepsValid(parse, st);
      case DoneEvent =>
      case ErrorEvent(_) =>
    }
  }

  /**
   * The accumulation invariant holds in every state reachable by any
   * interleaving of requests and steps: whatever the page does, a running
   * pass's accumulator is exactly its processed token deltas.
   */
  lemma {:induction false} ApplyKeepsValid(parse: Parser, st: PlayerState, a: Action)
    requires Valid(st)
    ensures Valid(Apply(parse, st, a))
  {
    if a.Tick? {
      StepKeepsValid(parse, st);
    }
  }

  lemma {:induction false} ApplyAllKeepsValid(parse: Parser, st: PlayerState, actions: seq<Action>)
    requires Valid(st)
    ensures Valid(ApplyAll(parse, st, actions))
    decreases |actions|
  {
    if actions != [] {
      ApplyKeepsValid(parse, st, actions[0]);
      ApplyAllKeepsValid(parse, Apply(parse, st, actions[0]), actions[1..]);
    }
  }

  /** Without a play or a continue, the pass that runs is the one that ran: same events, same starting index and text. */
  lemma {:induction false} SamePass(parse: Parser, st: PlayerState, actions: seq<Action>)
    requires WellFormed(st)
    requires forall i :: 0 <= i < |actions| ==> !actions[i].PlayAction? && !actions[i].ContinueAction?
    ensures var fin := ApplyAll(parse, st, actions);
      fin.running ==> st.running && fin.pass.events == st.pass.events && fin.pass.start == st.pass.start
                      && fin.pass.base == st.pass.base
    decreases |actions|
  {
    if actions != [] {
      assert forall i :: 0 <= i < |actions[1..]| ==> actions[1..][i] == actions[i + 1];
      SamePass(parse, Apply(parse, st, actions[0]), actions[1..]);
    }
  }

  /**
   * The accumulation invariant of a pass started by play: whatever stop,
   * pause, resume, load and steps follow, while the pass runs its
   * accumulator is the deltas of the token events before its index, in
   * order, and none of those events was terminal.
   */
  lemma PlayAccumulates(parse: Parser, st: PlayerState, actions: seq<Action>)
    requires WellFormed(st) && |st.events| > 0 && !st.running
    requires forall i :: 0 <= i < |actions| ==> !actions[i].PlayAction? && !actions[i].ContinueAction?
    ensures var fin := ApplyAll(parse, Play(st), actions);
      fin.running ==> fin.pass.pos < |st.events| && fin.pass.acc == TokenText(st.events[..fin.pass.pos])
                      && NoTerminal(st.events[..fin.pass.pos])
  {
    ApplyKeepsValid(parse, st, PlayAction);
    ApplyAllKeepsValid(parse, Play(st), actions);
    SamePass(parse, Play(st), actions);
    var fin := ApplyAll(parse, Play(st), actions);
    if fin.running {
      assert st.events[0..fin.pass.pos] == st.events[..fin.pass.pos];
    }
  }

  // ---------------------------------------------------------------------------
  // What an uninterrupted pass produces
  // ---------------------------------------------------------------------------

  /** The visible state: status, accumulated output, error message and extraction fields. */
  datatype Outcome = Outcome(status: PlayerStatus, streamText: string, error: Option<string>, chart: Chart)

  function Observe(st: PlayerState): Outcome {
    Outcome(st.status, st.streamText, st.error, st.chart)
  }

  /**
   * The reference replay: feed the events one by one to the accumulator and
   * the extractor and stop at the first terminal event; running out of
   * events ends in done.
   */
  function Finish(parse: Parser, es: seq<StreamEvent>, acc: string, o: Outcome): Outcome
    decreases |es|
  {
    if es == [] then o.(status := Done)
    else
      match es[0]
      case TokenEvent(delta) =>
        var a := acc + delta;
        Finish(parse, es[1..], a, o.(streamText := a, chart := ApplyExtraction(o.chart, TryExtractVegaSpec(parse, a))))
      case ErrorEvent(message) => o.(status := Error, error := Some(ErrorText(message)))
      case DoneEvent => o.(status := Done)
      case OtherEvent => Finish(parse, es[1..], acc, o)
  }

  /** What the suspended pass will have produced when it ends, if nothing interrupts it. */
  function Rest(parse: Parser, st: PlayerState): Outcome
    requires st.pass.pos <= |st.pass.events|
  {
    Finish(parse, st.pass.events[st.pass.pos..], st.pass.acc, Observe(st))
  }

  /** Where the replay ends, the status it sets does not depend on the status it started with. */
  lemma {:induction false} FinishIgnoresStatus(parse: Parser, es: seq<StreamEvent>, acc: string, o: Outcome, s: PlayerStatus)
    ensures Finish(parse, es, acc, o.(status := s)) == Finish(parse, es, acc, o)
    decreases |es|
  {
    if es != [] && (es[0].TokenEvent? || es[0].OtherEvent?) {
      var a := if es[0].TokenEvent? then acc + es[0].delta else acc;
      var o' := if es[0].TokenEvent? then o.(streamText := a, chart := ApplyExtraction(o.chart, TryExtractVegaSpec(parse, a))) else o;
      FinishIgnoresStatus(parse, es[1..], a, o', s);
    }
  }

  /** The reference replay, unrolled over a leading token event. */
  lemma FinishToken(parse: Parser, es: seq<StreamEvent>, acc: string, o: Outcome)
    requires es != [] && es[0].TokenEvent?
    ensures var a := acc + es[0].delta;
      Finish(parse, es, acc, o) == Finish(parse, es[1..], a, o.(streamText := a, chart := ApplyExtraction(o.chart, TryExtractVegaSpec(parse, a))))
  {
  }

  /** The replay of the events from pos, unrolled by one event. */
  lemma RestUnroll(parse: Parser, st: PlayerState)
    requires st.pass.pos < |st.pass.events|
    ensures st.pass.events[st.pass.pos..][1..] == st.pass.events[st.pass.pos + 1..]
    ensures st.pass.events[st.pass.pos..][0] == st.pass.events[st.pass.pos]
  {
  }

  /**
   * A step of a pass that is not cancelled changes nothing about how the pass
   * will end: it either stays suspended with the same future, or it ends in
   * exactly that future (up to the status when the pass ran out of events
   * with the pause flag set).
   */
  lemma {:induction false} StepKeepsRest(parse: Parser, st: PlayerState)
    requires WellFormed(st) && st.running && !st.stopFlag
    ensures var s := Step(parse, st);
      && !s.stopFlag
      && (s.running ==> Rest(parse, s) == Rest(parse, st))
      && (!s.running ==>
            && s.streamText == Rest(parse, st).streamText && s.error == Rest(parse, st).error
            && s.chart == Rest(parse, st).chart
            && (s.status == Rest(parse, st).status || s.pauseFlag))
  {
    var s := Step(parse, st);
    RestUnroll(parse, st);
    if st.pass.waiting {
      FinishIgnoresStatus(parse, st.pass.events[st.pass.pos..], st.pass.acc, Observe(st), s.status);
      assert Observe(s) == Observe(st).(status := s.status);
    } else {
      var ev := st.pass.events[st.pass.pos];
      if ev.TokenEvent? || ev.OtherEvent? {
        var a := if ev.TokenEvent? then st.pass.acc + ev.delta else st.pass.acc;
        var o' := if ev.TokenEvent? then Observe(st).(streamText := a, chart := ApplyExtraction(st.chart, TryExtractVegaSpec(parse, a)))
                  else Observe(st);
        assert Rest(parse, st) == Finish(parse, st.pass.events[st.pass.pos + 1..], a, o');
        if s.running {
          assert s.pass.pos == st.pass.pos + 1 && s.pass.acc == a;
          FinishIgnoresStatus(parse, st.pass.events[st.pass.pos + 1..], a, o', s.status);
          assert Observe(s) == o'.(status := s.status);
        } else {
          assert st.pass.pos + 1 == |st.pass.events|;
          assert st.pass.events[st.pass.pos + 1..] == [];
        }
      }
    }
  }

  /** A pass that has ended stays ended under steps and pause and resume, and its output stays as it is. */
  lemma {:induction false} EndedKeepsOutput(parse: Parser, st: PlayerState, actions: seq<Action>)
    requires WellFormed(st) && !st.running
    requires forall i :: 0 <= i < |actions| ==> actions[i] in {PauseAction, ResumeAction, Tick}
    ensures var fin := ApplyAll(parse, st, actions);
      !fin.running && fin.streamText == st.streamText && fin.error == st.error && fin.chart == st.chart
    decreases |actions|
  {
    if actions != [] {
      EndedKeepsOutput(parse, Apply(parse, st, actions[0]), actions[1..]);
    }
  }

  /** A pause, a resume or a step of a pass that is not cancelled keeps how the pass will end. */
  lemma ActionKeepsRest(parse: Parser, st: PlayerState, a: Action)
    requires WellFormed(st) && st.running && !st.stopFlag && a in {PauseAction, ResumeAction, Tick}
    ensures var s := Apply(parse, st, a);
      && !s.stopFlag
      && (s.running ==> Rest(parse, s) == Rest(parse, st))
      && (!s.running ==>
            s.streamText == Rest(parse, st).streamText && s.error == Rest(parse, st).error
            && s.chart == Rest(parse, st).chart)
  {
    var s := Apply(parse, st, a);
    if a == Tick {
      StepKeepsRest(parse, st);
    } else {
      FinishIgnoresStatus(parse, st.pass.events[st.pass.pos..], st.pass.acc, Observe(st), s.status);
      assert Observe(s) == Observe(st).(status := s.status);
    }
  }

  /**
   * Pausing and resuming are transparent to the output: for any interleaving
   * of pause, resume and steps with a pass that is not cancelled, the pass
   * that ends leaves the output, the error and the extraction fields that an
   * uninterrupted replay from the same point produces, and a pass still
   * suspended has that same future.
   */
  lemma {:induction false} PauseResumeTransparent(parse: Parser, st: PlayerState, actions: seq<Action>)
    requires WellFormed(st) && st.running && !st.stopFlag
    requires forall i :: 0 <= i < |actions| ==> actions[i] in {PauseAction, ResumeAction, Tick}
    ensures var fin := ApplyAll(parse, st, actions);
      && (fin.running ==> Rest(parse, fin) == Rest(parse, st))
      && (!fin.running ==>
            fin.streamText == Rest(parse, st).streamText && fin.error == Rest(parse, st).error
            && fin.chart == Rest(parse, st).chart)
    decreases |actions|
  {
    if actions != [] {
      var s := Apply(parse, st, actions[0]);
      ActionKeepsRest(parse, st, actions[0]);
      assert forall i :: 0 <= i < |actions[1..]| ==> actions[1..][i] == actions[i + 1];
      if s.running {
        PauseResumeTransparent(parse, s, actions[1..]);
      } else {
        EndedKeepsOutput(parse, s, actions[1..]);
      }
    }
  }

  /** Steps of an ended pass change nothing. */
  lemma {:induction false} RunEnded(parse: Parser, st: PlayerState, n: nat)
    requires WellFormed(st) && !st.running
    ensures Run(parse, st, n) == st
  {
    if n > 0 {
      RunEnded(parse, st, n - 1);
    }
  }

  /** A step of a pass with neither flag set, if the pass goes on, leaves it in the delay at the next index of the same events. */
  lemma FreeStep(parse: Parser, st: PlayerState)
    requires WellFormed(st) && st.running && !st.stopFlag && !st.pauseFlag && !st.pass.waiting
    ensures var s := Step(parse, st);
      && !s.stopFlag && !s.pauseFlag && s.events == st.events
      && (s.running ==> !s.pass.waiting && s.pass.pos == st.pass.pos + 1 && s.pass.events == st.pass.events)
  {
  }

  /** One step of Run. */
  lemma RunUnroll(parse: Parser, st: PlayerState, n: nat)
    requires WellFormed(st) && n > 0
    ensures Run(parse, st, n) == Run(parse, Step(parse, st), n - 1)
  {
  }

  /** A trace of a pass: each state after the first is the step of the one before. */
  predicate IsTrace(parse: Parser, t: seq<PlayerState>) {
    forall i :: 0 <= i < |t| - 1 ==> WellFormed(t[i]) && t[i + 1] == Step(parse, t[i])
  }

  /** A trace extended by the step of its last state is a trace, with the same first state. */
  lemma TraceSnoc(parse: Parser, t: seq<PlayerState>, s: PlayerState)
    requires IsTrace(parse, t) && |t| > 0 && WellFormed(t[|t| - 1]) && s == Step(parse, t[|t| - 1])
    ensures IsTrace(parse, t + [s]) && (t + [s])[0] == t[0] && (t + [s])[|t|] == s
  {
    var u := t + [s];
    forall i | 0 <= i < |u| - 1
      ensures WellFormed(u[i]) && u[i + 1] == Step(parse, u[i])
    {
      if i < |t| - 1 {
        assert u[i] == t[i] && u[i + 1] == t[i + 1];
      }
    }
  }

  /** The last state of a trace is the run of as many steps from its first. */
  lemma {:induction false} TraceIsRun(parse: Parser, t: seq<PlayerState>)
    requires IsTrace(parse, t) && |t| > 0 && WellFormed(t[0])
    ensures t[|t| - 1] == Run(parse, t[0], |t| - 1)
  {
    if |t| > 1 {
      var u := t[1..];
      assert IsTrace(parse, u) by {
        forall i | 0 <= i < |u| - 1
          ensures WellFormed(u[i]) && u[i + 1] == Step(parse, u[i])
        {
          assert u[i] == t[i + 1] && u[i + 1] == t[i + 2];
        }
      }
      TraceIsRun(parse, u);
      assert u[0] == t[1] == Step(parse, t[0]) && u[|u| - 1] == t[|t| - 1];
    }
  }

  /** Once a run has ended within k steps, running it for more steps changes nothing. */
  lemma {:induction false} RunSettles(parse: Parser, st: PlayerState, k: nat, n: nat)
    requires WellFormed(st) && k <= n && !Run(parse, st, k).running
    ensures Run(parse, st, n) == Run(parse, st, k)
    decreases k
  {
    if k == 0 {
      RunEnded(parse, st, n);
    } else {
      RunSettles(parse, Step(parse, st), k - 1, n - 1);
    }
  }

  /** Left alone, a suspended pass with neither flag set ends within one step per remaining event, in its replay. */
  lemma {:induction false} RunToEnd(parse: Parser, st: PlayerState)
    requires WellFormed(st) && st.running && !st.stopFlag && !st.pauseFlag && !st.pass.waiting
    ensures var fin := Run(parse, st, |st.pass.events| - st.pass.pos);
      !fin.running && Observe(fin) == Rest(parse, st)
    decreases |st.pass.events| - st.pass.pos
  {
    var n := |st.pass.events| - st.pass.pos;
    var s := Step(parse, st);
    StepKeepsRest(parse, st);
    FreeStep(parse, st);
    RunUnroll(parse, st, n);
    if s.running {
      assert |s.pass.events| - s.pass.pos == n - 1;
      RunToEnd(parse, s);
    } else {
      RunEnded(parse, s, n - 1);
      assert Observe(s) == Rest(parse, st);
    }
  }

  /** A free pass that has ended after k of its steps, k at most one per remaining event, has ended in its replay. */
  lemma PassRanOut(parse: Parser, st: PlayerState, k: nat)
    requires WellFormed(st) && st.running && !st.stopFlag && !st.pauseFlag && !st.pass.waiting
    requires k <= |st.pass.events| - st.pass.pos && !Run(parse, st, k).running
    ensures Run(parse, st, k) == Run(parse, st, |st.pass.events| - st.pass.pos) && Observe(Run(parse, st, k)) == Rest(parse, st)
  {
    RunSettles(parse, st, k, |st.pass.events| - st.pass.pos);
    RunToEnd(parse, st);
  }

  /**
   * Playing a log to completion with no request in between ends, after one
   * step per event, in the replay of the whole log from an empty accumulator.
   */
  lemma PlayToCompletion(parse: Parser, st: PlayerState)
    requires WellFormed(st) && |st.events| > 0 && !st.running
    ensures var fin := Run(parse, Play(st), |st.events|);
      !fin.running && Observe(fin) == Finish(parse, st.events, "", Outcome(Streaming, "", None, NoChart))
  {
    var p := Play(st);
    assert p.running && !p.stopFlag && !p.pauseFlag && !p.pass.waiting && p.pass.pos == 0 && p.pass.events == st.events;
    assert Observe(p) == Outcome(Streaming, "", None, NoChart) && p.pass.acc == "";
    assert p.pass.events[p.pass.pos..] == st.events;
    RunToEnd(parse, p);
  }

  // ---------------------------------------------------------------------------
  // Stop, pause and the end of a pass
  // ---------------------------------------------------------------------------

  /** A pass that observes the stop flag, at either checkpoint, ends idle without processing anything. */
  lemma StopTakesEffect(parse: Parser, st: PlayerState)
    requires WellFormed(st) && st.running && st.stopFlag
    ensures Step(parse, st) == st.(status := Idle, running := false)
  {
  }

  /**
   * After stop, whatever pause, resume, stop and steps follow, the pass
   * processes no further event: the accumulator, output, error and
   * extraction fields stay as they were, and the first step ends the pass.
   */
  lemma {:induction false} StopIsFinal(parse: Parser, st: PlayerState, actions: seq<Action>)
    requires WellFormed(st) && st.stopFlag
    requires forall i :: 0 <= i < |actions| ==> actions[i] in {StopAction, PauseAction, ResumeAction, Tick}
    ensures var fin := ApplyAll(parse, st, actions);
      && fin.pass.acc == st.pass.acc && fin.streamText == st.streamText && fin.error == st.error && fin.chart == st.chart
      && (Tick in actions ==> !fin.running)
      && (fin.running ==> fin.stopFlag)
    decreases |actions|
  {
    if actions != [] {
      var s := Apply(parse, st, actions[0]);
      assert forall i :: 0 <= i < |actions[1..]| ==> actions[1..][i] == actions[i + 1];
      if s.running {
        StopIsFinal(parse, s, actions[1..]);
      } else {
        StopIsFinalWhenEnded(parse, s, actions[1..]);
      }
      assert Tick in actions ==> actions[0] == Tick || Tick in actions[1..];
    }
  }

  /** Without a play or a continue nothing restarts an ended pass, so its accumulator stays too. */
  lemma {:induction false} StopIsFinalWhenEnded(parse: Parser, st: PlayerState, actions: seq<Action>)
    requires WellFormed(st) && !st.running
    requires forall i :: 0 <= i < |actions| ==> actions[i] in {StopAction, PauseAction, ResumeAction, Tick}
    ensures var fin := ApplyAll(parse, st, actions);
      !fin.running && fin.pass.acc == st.pass.acc && fin.streamText == st.streamText && fin.error == st.error && fin.chart == st.chart
    decreases |actions|
  {
    if actions != [] {
      var s := Apply(parse, st, actions[0]);
      assert forall i :: 0 <= i < |actions[1..]| ==> actions[1..][i] == actions[i + 1];
      StopIsFinalWhenEnded(parse, s, actions[1..]);
    }
  }

  /** Stop wins over pause, in either order: the next step ends the pass idle. */
  lemma StopWinsOverPause(parse: Parser, st: PlayerState)
    requires WellFormed(st) && st.running
    ensures Step(parse, Pause(Stop(st))).status == Idle && !Step(parse, Pause(Stop(st))).running
    ensures Step(parse, Stop(Pause(st))).status == Idle && !Step(parse, Stop(Pause(st))).running
  {
  }

  /** In the pause wait, a pass with the pause flag set and no stop stays where it is. */
  lemma PauseHolds(parse: Parser, st: PlayerState)
    requires WellFormed(st) && st.running && st.pass.waiting && st.pauseFlag && !st.stopFlag
    ensures Step(parse, st) == st
  {
  }

  /**
   * Pause is observed only at the loop top: a pause requested during the
   * delay lets the current event through, and the pass, if it goes on,
   * holds in the pause wait at the next index.
   */
  lemma PauseTakesEffectAtNextIndex(parse: Parser, st: PlayerState)
    requires WellFormed(st) && st.running && !st.pass.waiting && st.pauseFlag && !st.stopFlag
    ensures var s := Step(parse, st);
      s.running ==> s.pass.waiting && s.pass.pos == st.pass.pos + 1 && s.idx == st.pass.pos + 1 && Step(parse, s) == s
  {
  }

  /**
   * Running out of events: stop gives idle, otherwise a clear pause flag
   * gives done and a set one leaves the status as it is (paused, after a
   * pause); the pass ends either way.
   */
  lemma EventsExhausted(st: PlayerState, i: nat)
    requires i >= |st.pass.events|
    ensures var r := EnterLoop(st, i);
      && !r.running
      && (st.stopFlag ==> r.status == Idle)
      && (!st.stopFlag && !st.pauseFlag ==> r.status == Done)
      && (!st.stopFlag && st.pauseFlag ==> r.status == st.status)
      && r.streamText == st.streamText && r.chart == st.chart && r.error == st.error
  {
  }

  /** An error event ends the pass with its message, or "Unknown error" for an empty one; a done event ends it done. */
  lemma TerminalEvents(parse: Parser, st: PlayerState)
    requires WellFormed(st) && st.running && !st.pass.waiting && !st.stopFlag
    ensures var ev := st.pass.events[st.pass.pos]; var s := Step(parse, st);
      && (ev.ErrorEvent? ==> s == st.(status := Error, error := Some(if ev.message == "" then "Unknown error" else ev.message), running := false))
      && (ev.DoneEvent? ==> s == st.(status := Done, running := false))
  {
  }

  // ---------------------------------------------------------------------------
  // The extraction fields stay consistent
  // ---------------------------------------------------------------------------

  /**
   * The fields describe the last successful extraction: a shown spec is the
   * injected parse of the shown raw text, which passes the shape check, and
   * with no spec there is no raw text and no source.
   */
  predicate ChartConsistent(parse: Parser, c: Chart) {
    && (c.vegaSpec.None? ==> c.vegaRaw == "" && c.vegaSource.None?)
    && (c.vegaSpec.Some? ==>
          parse(c.vegaRaw).Parsed? && IsValidVegaLite(parse(c.vegaRaw).value)
          && c.vegaSpec == Some(Injected(parse(c.vegaRaw).value)) && c.vegaSource.Some?)
  }

  lemma ApplyExtractionConsistent(parse: Parser, c: Chart, text: string)
    requires ChartConsistent(parse, c)
    ensures ChartConsistent(parse, ApplyExtraction(c, TryExtractVegaSpec(parse, text)))
  {
  }

  /** Every request and every step keeps the extraction fields consistent. */
  lemma ApplyKeepsChartConsistent(parse: Parser, st: PlayerState, a: Action)
    requires WellFormed(st) && ChartConsistent(parse, st.chart)
    ensures ChartConsistent(parse, Apply(parse, st, a).chart)
  {
    if a == Tick && st.running && !st.pass.waiting && !st.stopFlag && st.pass.events[st.pass.pos].TokenEvent? {
      ApplyExtractionConsistent(parse, st.chart, st.pass.acc + st.pass.events[st.pass.pos].delta);
    }
  }

  // ---------------------------------------------------------------------------
  // Guards, play, continue and load
  // ---------------------------------------------------------------------------

  /** With events loaded and not running, play resets everything and starts streaming at index 0. */
  lemma PlayStarts(st: PlayerState)
    requires WellFormed(st) && |st.events| > 0 && !st.running
    ensures var s := Play(st);
      && s.running && s.status == Streaming && !s.stopFlag && !s.pauseFlag && s.error.None?
      && s.idx == 0 && s.pass.pos == 0 && !s.pass.waiting && s.pass.acc == "" && s.streamText == "" && s.chart == NoChart
      && s.pass.events == st.events && s.events == st.events
      && CanStop(s) && CanPause(s) && !CanPlay(s) && !CanResume(s)
  {
  }

  /** play does nothing with no events or while a pass runs, so at most one pass advances at a time. */
  lemma PlayNoOp(st: PlayerState)
    requires WellFormed(st) && (|st.events| == 0 || st.running)
    ensures Play(st) == st
  {
  }

  /** continueFromPause runs only when no pass runs and its render saw paused; it starts at idx + 1 from the text it saw. */
  lemma ContinueStarts(st: PlayerState, seenStatus: PlayerStatus, seenText: string)
    requires WellFormed(st)
    ensures var s := ContinueFromPause(st, seenStatus, seenText);
      && (|st.events| == 0 || st.running || seenStatus != Paused ==> s == st)
      && (|st.events| > 0 && !st.running && seenStatus == Paused ==>
            && s.pass.start == st.idx + 1 && s.pass.base == seenText && s.pass.events == st.events
            && !s.stopFlag && s.pauseFlag == st.pauseFlag && s.error.None?
            && (s.running ==> s.pass.pos == st.idx + 1 && s.pass.acc == seenText))
  {
  }

  /** loadEvents returns to idle with everything cleared; play is then possible exactly when the log is non-empty. */
  lemma LoadResets(st: PlayerState, ev: seq<StreamEvent>)
    requires WellFormed(st)
    ensures var s := LoadEvents(st, ev);
      && s.events == ev && s.status == Idle && s.streamText == "" && s.error.None? && s.chart == NoChart
      && !s.stopFlag && !s.pauseFlag && s.idx == 0
      && (CanPlay(s) <==> |ev| > 0) && !CanStop(s) && !CanPause(s) && !CanResume(s)
  {
  }

  /** loadEvents does not cancel a running pass: it even clears the stop flag, and the pass goes on with the events it captured. */
  lemma LoadDoesNotCancel(st: PlayerState, ev: seq<StreamEvent>)
    requires WellFormed(st) && st.running
    ensures var s := LoadEvents(st, ev);
      s.running && !s.stopFlag && s.pass.events == st.pass.events && s.pass.pos == st.pass.pos && s.pass.acc == st.pass.acc
  {
  }

  /** pause shows paused at once, whatever the pass is doing; resume and stop become the possible requests. */
  lemma PauseGuards(st: PlayerState)
    requires WellFormed(st)
    ensures var s := Pause(st); CanResume(s) && CanStop(s) && !CanPause(s) && !CanPlay(s) && s.pauseFlag
  {
  }

  /** resume with events shows streaming and clears the pause flag; with no events it does nothing. */
  lemma ResumeGuards(st: PlayerState)
    requires WellFormed(st)
    ensures var s := Resume(st);
      && (|st.events| > 0 ==> !s.pauseFlag && CanPause(s) && CanStop(s) && !CanResume(s) && !CanPlay(s))
      && (|st.events| == 0 ==> s == st)
  {
  }

  // ---------------------------------------------------------------------------
  // A concrete session
  // ---------------------------------------------------------------------------

  /** A reply streamed in two tokens that split the spec inside its first member, then done. */
  const BodyHead := "{\"mark\""
  const BodyTail := ":\"bar\",\"encoding\":{}}"
  const FirstDelta := "```json\n" + BodyHead
  const SecondDelta := BodyTail + "\n```"
  const ScenarioBody := BodyHead + BodyTail
  const ScenarioSpec := JObject(map["mark" := JString("bar"), "encoding" := JObject(map[])])

  /** Neither half of the body holds a backquote, and its first half holds no closing brace. */
  lemma ScenarioCharacters()
    ensures forall i :: 0 <= i < |BodyHead| ==> BodyHead[i] != '`' && BodyHead[i] != '}'
    ensures forall i :: 0 <= i < |BodyTail| ==> BodyTail[i] != '`'
    ensures |BodyHead| == 7 && |BodyTail| == 21
  {
    var h := "{\"mark\"";
    var t := ":\"bar\",\"encoding\":{}}";
    assert forall i :: 0 <= i < |h| ==> h[i] != '`' && h[i] != '}';
    assert forall i :: 0 <= i < |t| ==> t[i] != '`';
  }

  /** After the first token the block is still open and no object is closed: nothing is found. */
  lemma ScenarioFirstToken(parse: Parser)
    ensures TryExtractVegaSpec(parse, FirstDelta) == Failed(NotFound, None)
  {
    ScenarioCharacters();
    var t := FirstDelta;
    assert t[..8] == "```json\n" && t[8..] == BodyHead;
    assert forall i :: 8 <= i < |t| ==> t[i] == BodyHead[i - 8];
    assert t[7] == '\n';
    assert forall i :: 0 <= i < 8 ==> t[i] != '}';
    NoClosingFence(t);
    NoCloseBraceNoCandidate(t);
  }

  /** The two deltas together are one closed block around the body. */
  lemma ScenarioFence()
    ensures FencedJson(FirstDelta + SecondDelta) == Some(ScenarioBody)
  {
    ScenarioCharacters();
    var body := ScenarioBody;
    assert FirstDelta + SecondDelta == FencedBlock(body);
    assert forall i :: 0 <= i < |body| ==> body[i] == if i < 7 then BodyHead[i] else BodyTail[i - 7];
    assert body[0] == '{' && body[|body| - 1] == '}';
    FencedBlockRoundTrip(body);
  }

  /** After the second token the block is closed, and a parser that reads the body as the spec yields it, from the fence. */
  lemma ScenarioSecondToken(parse: Parser)
    requires parse(ScenarioBody) == Parsed(ScenarioSpec)
    ensures TryExtractVegaSpec(parse, FirstDelta + SecondDelta) == Found(ScenarioSpec, ScenarioBody, Fenced)
  {
    ScenarioFence();
    TryExtractOutcomes(parse, FirstDelta + SecondDelta);
  }

  /** The scenario's result chart: the fenced body as raw text, the injected spec, no hint. */
  const ScenarioChart := Chart(ScenarioBody, Some(Injected(ScenarioSpec)), None, Some(Fenced))

  /** The reference replay of the scenario's log. */
  lemma ScenarioReplay(parse: Parser)
    requires parse(ScenarioBody) == Parsed(ScenarioSpec)
    ensures Finish(parse, [TokenEvent(FirstDelta), TokenEvent(SecondDelta), DoneEvent], "", Outcome(Streaming, "", None, NoChart))
            == Outcome(Done, FirstDelta + SecondDelta, None, ScenarioChart)
  {
    var es := [TokenEvent(FirstDelta), TokenEvent(SecondDelta), DoneEvent];
    var o0 := Outcome(Streaming, "", None, NoChart);
    FinishToken(parse, es, "", o0);
    assert "" + FirstDelta == FirstDelta;
    ScenarioFirstToken(parse);
    var o1 := Outcome(Streaming, FirstDelta, None, NoChart);
    assert Finish(parse, es, "", o0) == Finish(parse, es[1..], FirstDelta, o1);
    FinishToken(parse, es[1..], FirstDelta, o1);
    ScenarioSecondToken(parse);
    var o2 := Outcome(Streaming, FirstDelta + SecondDelta, None, ScenarioChart);
    assert Finish(parse, es[1..], FirstDelta, o1) == Finish(parse, es[1..][1..], FirstDelta + SecondDelta, o2);
    assert es[1..][1..] == [DoneEvent];
  }

  /**
   * Playing that log to completion ends done, with both deltas as the
   * output, no error, and the spec from the fenced block injected with the
   * revenue table.
   */
  lemma ScenarioPlayback(parse: Parser, st: PlayerState)
    requires WellFormed(st) && !st.running
    requires st.events == [TokenEvent(FirstDelta), TokenEvent(SecondDelta), DoneEvent]
    requires parse(ScenarioBody) == Parsed(ScenarioSpec)
    ensures var fin := Run(parse, Play(st), 3);
      && !fin.running && fin.status == Done && fin.error == None
      && fin.streamText == FencedBlock(ScenarioBody) && fin.chart == ScenarioChart
  {
    PlayToCompletion(parse, st);
    ScenarioReplay(parse);
    assert FirstDelta + SecondDelta == FencedBlock(ScenarioBody);
  }
}
