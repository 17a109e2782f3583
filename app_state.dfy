/** The debugger's cursor over a trace (forth-elf/src/app-state.ts). */
module AppStates {
  import opened Lexing
  import opened Parse
  import opened Stepper

  /** The frame being shown and the trace of the whole run. */
  datatype AppState = AppState(frame: int, states: seq<State>)

  /** The cursor points into the trace. */
  predicate InBounds(app: AppState) {
    0 <= app.frame <= |app.states| - 1
  }

  /** `mkAppState`: parse the input, run it from the initial state, and show
      the first frame, which is the initial state. */
  method MkAppState(input: string) returns (app: AppState)
    ensures app.frame == 0
    ensures app.states == Trace(MkState(Tokenize(Words(input))), MaxSteps)
    ensures InBounds(app) && app.states[0] == MkState(Tokenize(Words(input)))
  {
    var toks := Parse.Parse(input);
    var states := Run(MkState(toks));
    TraceShape(MkState(toks), MaxSteps);
    app := AppState(0, states);
  }

  /** Blank or comment-only input: no tokens, so the trace is the initial
      state alone (the corrected step; the source throws here). */
  lemma BlankInput(input: string)
    requires Words(input) == []
    ensures Tokenize(Words(input)) == []
    ensures Trace(MkState(Tokenize(Words(input))), MaxSteps) == [MkState([])]
  {
    assert StepForward(MkState([])).None?;
  }

  /** `nextStep`: one frame forward unless already at or past the last frame. */
  function NextStep(app: AppState): (r: AppState)
    ensures r.states == app.states
    ensures app.frame >= |app.states| - 1 ==> r == app
    ensures app.frame < |app.states| - 1 ==> r.frame == app.frame + 1
  {
    if app.frame >= |app.states| - 1 then app
    else app.(frame := app.frame + 1)
  }

  /** `prevStep`: one frame back unless already at or before the first frame. */
  function PrevStep(app: AppState): (r: AppState)
    ensures r.states == app.states
    ensures app.frame <= 0 ==> r == app
    ensures app.frame > 0 ==> r.frame == app.frame - 1
  {
    if app.frame <= 0 then app
    else app.(frame := app.frame - 1)
  }

  /** Both moves keep the cursor inside the trace. */
  lemma StepsKeepBounds(app: AppState)
    requires InBounds(app)
    ensures InBounds(NextStep(app)) && InBounds(PrevStep(app))
  {
  }

  /** Away from the ends, each move is undone by the other. */
  lemma StepsUndo(app: AppState)
    requires InBounds(app)
    ensures app.frame < |app.states| - 1 ==> PrevStep(NextStep(app)) == app
    ensures app.frame > 0 ==> NextStep(PrevStep(app)) == app
  {
  }

  /** `k` moves forward from a cursor inside the trace reach frame
      `min(frame + k, last)`. */
  function Forward(app: AppState, k: nat): AppState
    decreases k
  {
    if k == 0 then app else Forward(NextStep(app), k - 1)
  }

  lemma {:induction false} ForwardClamps(app: AppState, k: nat)
    requires InBounds(app)
    ensures Forward(app, k).states == app.states
    ensures Forward(app, k).frame == if app.frame + k <= |app.states| - 1 then app.frame + k else |app.states| - 1
    decreases k
  {
    if k > 0 {
      ForwardClamps(NextStep(app), k - 1);
    }
  }
}
