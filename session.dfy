/**
 * The player hook as an object: its state variables and refs are the fields
 * of a `Session`, and each control callback is a method that updates them
 * in place. Each method is proved to make exactly the transition the
 * controller's state functions describe: `Accumulate` the token case up to
 * the loop top, `ApplyResult` the chart update of `ApplyExtraction`,
 * `RunPass` (the rest of a pass's loop, run with no request in between) one
 * `Step` per remaining event, `FreeStepOnce` one `Step`, the others their
 * namesake. All but `Accumulate`, `EnterLoop` and `ApplyResult`, which run
 * mid-step, keep the accumulation invariant.
 */
module PlayerSession {
  import opened Wrappers
  import opened JsonValue
  import opened VegaExtract
  import opened Dump
  import opened DumpPlayer

  class Session {
    /** `JSON.parse`, as the extractor sees it. */
    const parse: Parser

    // The hook's state variables.
    var events: seq<StreamEvent>
    var status: PlayerStatus
    var streamText: string
    var error: Option<string>
    /** `vegaRaw`, `vegaSpec`, `vegaHint` and `vegaSource`, as one record. */
    var chart: Chart

    // The refs.
    var stopFlag: bool
    var pauseFlag: bool
    var running: bool
    var idx: nat

    /** The frame of the suspended pass, if `running` says there is one. */
    var pass: Pass

    /** The fields as a controller state. */
    function State(): PlayerState
      reads this
    {
      PlayerState(events, status, streamText, error, chart, stopFlag, pauseFlag, running, idx, pass)
    }

    /** The accumulation invariant of the suspended pass, if there is one. */
    predicate Inv()
      reads this
    {
      Valid(State())
    }

    /** The hook on first render. */
    constructor (parse: Parser)
      ensures this.parse == parse && State() == Initial && Inv()
    {
      this.parse := parse;
      events := [];
      status := Idle;
      streamText := "";
      error := None;
      chart := NoChart;
      stopFlag := false;
      pauseFlag := false;
      running := false;
      idx := 0;
      pass := Pass([], 0, "", "", 0, false);
      Initially();
    }

    method LoadEvents(ev: seq<StreamEvent>)
      requires Inv()
      modifies this
      ensures State() == DumpPlayer.LoadEvents(old(State()), ev) && Inv()
    {
      events := ev;
      status := Idle;
      streamText := "";
      error := None;
      chart := NoChart;
      stopFlag := false;
      pauseFlag := false;
      idx := 0;
    }

    method Stop()
      requires Inv()
      modifies this
      ensures State() == DumpPlayer.Stop(old(State())) && Inv()
    {
      stopFlag := true;
      pauseFlag := false;
    }

    method Pause()
      requires Inv()
      modifies this
      ensures State() == DumpPlayer.Pause(old(State())) && Inv()
    {
      pauseFlag := true;
      status := Paused;
    }

    method Resume()
      requires Inv()
      modifies this
      ensures State() == DumpPlayer.Resume(old(State())) && Inv()
    {
      if |events| == 0 {
        return;
      }
      pauseFlag := false;
      status := Streaming;
    }

    /** The code after the loop, and the `finally` block. */
    method AfterLoop()
      modifies this
      ensures State() == DumpPlayer.AfterLoop(old(State())) && Inv()
    {
      if stopFlag {
        status := Idle;
      } else if !pauseFlag {
        status := Done;
      }
      running := false;
    }

    /** The loop top at index i, up to the next suspension point or the end of the pass. */
    method EnterLoop(i: nat)
      modifies this
      ensures State() == DumpPlayer.EnterLoop(old(State()), i)
    {
      if i >= |pass.events| {
        AfterLoop();
        return;
      }
      idx := i;
      pass := pass.(pos := i);
      if pauseFlag && !stopFlag {
        pass := pass.(waiting := true);
      } else if stopFlag {
        AfterLoop();
      } else {
        pass := pass.(waiting := false);
      }
    }

    method Play()
      requires Inv()
      modifies this
      ensures State() == DumpPlayer.Play(old(State())) && Inv()
    {
      if |events| == 0 || running {
        return;
      }
      running := true;
      stopFlag := false;
      pauseFlag := false;
      status := Streaming;
      error := None;
      idx := 0;
      streamText := "";
      chart := NoChart;
      pass := Pass(events, 0, "", "", 0, false);
      ghost var st := State();
      EnterLoopKeepsValid(st, 0);
      EnterLoop(0);
    }

    /** `continueFromPause`, run by a render that saw `seenStatus` and `seenText`. */
    method ContinueFromPause(seenStatus: PlayerStatus, seenText: string)
      requires Inv()
      modifies this
      ensures State() == DumpPlayer.ContinueFromPause(old(State()), seenStatus, seenText) && Inv()
    {
      if |events| == 0 || running || seenStatus != Paused {
        return;
      }
      running := true;
      stopFlag := false;
      status := Streaming;
      error := None;
      pass := Pass(events, idx + 1, seenText, seenText, idx + 1, false);
      ghost var st := State();
      if idx + 1 <= |pass.events| {
        assert pass.events[pass.start..idx + 1] == [];
        EnterLoopKeepsValid(st, idx + 1);
      }
      EnterLoop(idx + 1);
    }

    /** A token event: the delta joins the accumulated text, which is shown and re-extracted. */
    method AppendToken(delta: string)
      requires Inv() && running && !pass.waiting && !stopFlag && pass.events[pass.pos] == TokenEvent(delta)
      modifies this
      ensures State() == DumpPlayer.Step(parse, old(State())) && Inv()
    {
      ghost var st := State();
      Accumulate(delta);
      EnterLoop(pass.pos + 1);
      TokenStep(parse, st, delta);
      TokenStepKeepsValid(parse, st, delta);
    }

    /** The token case before the loop top: grow the accumulator, show it, apply the extractor to it. */
    method Accumulate(delta: string)
      modifies this
      ensures var acc := old(pass.acc) + delta;
        State() == old(State()).(pass := old(pass).(acc := acc), streamText := acc,
          chart := ApplyExtraction(old(chart), TryExtractVegaSpec(parse, acc)))
    {
      var acc := pass.acc + delta;
      pass := pass.(acc := acc);
      streamText := acc;
      var res := TryExtractVegaSpec(parse, acc);
      ApplyResult(res);
    }

    /** The effect of one extraction result on the four fields. */
    method ApplyResult(res: VegaExtractResult)
      requires res.Found? ==> res.spec.JObject?
      modifies this
      ensures State() == old(State()).(chart := ApplyExtraction(old(State()).chart, res))
    {
      match res
      case Found(spec, raw, source) =>
        chart := Chart(raw, Some(Injected(spec)), None, Some(source));
      case Failed(reason, e) =>
        if reason == InvalidSchema {
          chart := chart.(vegaHint := Some(e.GetOr(DefaultHint)));
        }
    }

    /** The suspended pass resumes and runs to its next suspension point, or to its end. */
    method Step()
      requires Inv()
      modifies this
      ensures State() == DumpPlayer.Step(parse, old(State())) && Inv()
    {
      ghost var st := State();
      StepKeepsValid(parse, st);
      if !running {
        return;
      }
      if pass.waiting {
        if pauseFlag && !stopFlag {
          return;
        } else if stopFlag {
          AfterLoop();
        } else {
          pass := pass.(waiting := false);
        }
        return;
      }
      if stopFlag {
        AfterLoop();
        return;
      }
      match pass.events[pass.pos]
      case TokenEvent(delta) =>
        AppendToken(delta);
      case ErrorEvent(message) =>
        status := Error;
        error := Some(ErrorText(message));
        running := false;
      case DoneEvent =>
        status := Done;
        running := false;
      case OtherEvent =>
        EnterLoop(pass.pos + 1);
    }

    /** One step of a pass with neither flag set: if the pass goes on, it is free again, one event further. */
    method FreeStepOnce()
      requires Inv() && running && !stopFlag && !pauseFlag && !pass.waiting
      modifies this
      ensures State() == DumpPlayer.Step(parse, old(State())) && Inv()
      ensures !stopFlag && !pauseFlag && events == old(events)
      ensures running ==> !pass.waiting && pass.pos == old(pass.pos) + 1 && pass.events == old(pass.events)
    {
      ghost var before := State();
      Step();
      FreeStep(parse, before);
    }

    /**
     * The rest of a pass that is neither paused nor stopped, with no request
     * in between: it takes one step per remaining event, leaves the loaded
     * events and both flags alone, and ends with the status, output, error
     * and extraction fields of the reference replay of its remaining events.
     */
    method RunPass()
      requires Inv() && running && !stopFlag && !pauseFlag && !pass.waiting
      modifies this
      ensures State() == Run(parse, old(State()), |old(pass.events)| - old(pass.pos))
      ensures events == old(events) && !stopFlag && !pauseFlag
      ensures !running && Inv() && Observe(State()) == Rest(parse, old(State()))
    {
      ghost var st0 := State();
      ghost var n := |pass.events| - pass.pos;
      ghost var trace := [st0];
      while running
        invariant Inv() && !stopFlag && !pauseFlag && events == st0.events
        invariant |trace| - 1 <= n && (running ==> !pass.waiting && pass.events == st0.pass.events && pass.pos == st0.pass.pos + |trace| - 1)
        invariant IsTrace(parse, trace) && trace[0] == st0 && trace[|trace| - 1] == State()
        decreases n - |trace|
      {
        FreeStepOnce();
        TraceSnoc(parse, trace, State());
        trace := trace + [State()];
      }
      TraceIsRun(parse, trace);
      PassRanOut(parse, st0, |trace| - 1);
    }
  }
}
