/** Runtime: the epoch/sequence state machine on top of the evaluator (csf/runtime.go). */
module CsfRuntime {
  import opened Wrappers
  import opened GoIntegers
  import opened CsfController
  import opened CsfCompiler
  import opened CsfEvaluator

  const MAX_AGE_TICKS := 3

  datatype Observation =
    | NilObservation
    | Observation(features: seq<int64>, sequence: uint64, epoch: uint64, tick: uint64)

  datatype Request =
    | NilOrUnknownFields
    | CompileRequest(controller: Controller)
    | ActivateRequest(controller: Controller, epoch: uint64)
    | StepRequest(observation: Observation, tick: uint64)
    | ResetRequest(epoch: uint64)
    | EvaluateRequest(program: Program, observation: Observation)
    | UnsupportedKind

  datatype Response = Response(program: Option<Program>, action: Option<Action>, failed: bool, epoch: uint64)

  /** The fields of a Runtime, as a value. */
  datatype State = State(program: Program, epoch: uint64, sequence: uint64, lastTick: uint64, hasObservation: bool)

  const FRESH := State(NilProgram, 0, 0, 0, false)

  function Fallback(s: State, reason: string): Action {
    Action(0, -SCALE, s.epoch, 0, true, reason)
  }

  predicate Stale(observation: Observation, nowTick: uint64)
    requires observation.Observation?
  {
    observation.tick > nowTick || nowTick - observation.tick > MAX_AGE_TICKS
  }

  predicate Replayed(s: State, observation: Observation)
    requires observation.Observation?
  {
    s.hasObservation && (observation.sequence <= s.sequence || observation.tick < s.lastTick)
  }

  function StepSpec(s: State, observation: Observation, nowTick: uint64): (State, Action) {
    if s.program.NilProgram? || observation.NilObservation? then (s, Fallback(s, "no_active_controller_or_observation"))
    else if observation.epoch != s.epoch then (s, Fallback(s, "wrong_epoch"))
    else if Stale(observation, nowTick) then (s, Fallback(s, "stale_observation"))
    else if Replayed(s, observation) then (s, Fallback(s, "replayed_observation"))
    else
      match EvaluateSpec(s.program, observation.features)
      case Failure(_) => (s, Fallback(s, "invalid_observation"))
      case Success(action) =>
        (s.(hasObservation := true, sequence := observation.sequence, lastTick := observation.tick),
         action.(epoch := s.epoch, sequence := observation.sequence))
  }

  function NewEpisode(program: Program, epoch: uint64): State {
    State(program, epoch, 0, 0, false)
  }

  /** One request, as Handle dispatches it. */
  function HandleSpec(s: State, request: Request): (State, Response) {
    match request
    case NilOrUnknownFields => (s, Response(None, None, true, s.epoch))
    case UnsupportedKind => (s, Response(None, None, true, s.epoch))
    case CompileRequest(controller) =>
      (match Compile(controller)
       case Failure(_) => (s, Response(None, None, true, s.epoch))
       case Success(program) => (s, Response(Some(program), None, false, s.epoch)))
    case ActivateRequest(controller, epoch) =>
      if epoch == 0 || epoch <= s.epoch || Compile(controller).Failure? then
        (s, Response(None, None, true, s.epoch))
      else
        (NewEpisode(Compile(controller).value, epoch), Response(Some(Compile(controller).value), None, false, epoch))
    case StepRequest(observation, tick) =>
      var (s', action) := StepSpec(s, observation, tick);
      (s', Response(None, Some(action), false, s'.epoch))
    case ResetRequest(epoch) =>
      if s.program.NilProgram? || epoch <= s.epoch then
        (s, Response(None, None, true, s.epoch))
      else
        (NewEpisode(s.program, epoch), Response(None, None, false, epoch))
    case EvaluateRequest(program, observation) =>
      if observation.NilObservation? then (s, Response(None, None, true, s.epoch)) else
      (match EvaluateSpec(program, observation.features)
       case Failure(_) => (s, Response(None, None, true, s.epoch))
       case Success(action) => (s, Response(None, Some(action), false, s.epoch)))
  }

  class Runtime {
    var program: Program
    var epoch: uint64
    var sequence: uint64
    var lastTick: uint64
    var hasObservation: bool

    ghost function Now(): State
      reads this
    {
      State(program, epoch, sequence, lastTick, hasObservation)
    }

    constructor ()
      ensures Now() == FRESH
    {
      program, epoch, sequence, lastTick, hasObservation := NilProgram, 0, 0, 0, false;
    }

    method Activate(controller: Controller, newEpoch: uint64) returns (r: Option<Program>)
      modifies this
      ensures var (s, response) := HandleSpec(old(Now()), ActivateRequest(controller, newEpoch));
              Now() == s && r == response.program
    {
      if newEpoch == 0 || newEpoch <= epoch {
        return None;
      }
      var compiled := Compile(controller);
      if compiled.Failure? {
        return None;
      }
      program, epoch := compiled.value, newEpoch;
      sequence, lastTick, hasObservation := 0, 0, false;
      return Some(compiled.value);
    }

    method Reset(newEpoch: uint64) returns (ok: bool)
      modifies this
      ensures var (s, response) := HandleSpec(old(Now()), ResetRequest(newEpoch));
              Now() == s && ok == !response.failed
    {
      if program.NilProgram? || newEpoch <= epoch {
        return false;
      }
      epoch := newEpoch;
      sequence, lastTick, hasObservation := 0, 0, false;
      return true;
    }

    method Step(observation: Observation, nowTick: uint64) returns (action: Action)
      modifies this
      ensures (Now(), action) == StepSpec(old(Now()), observation, nowTick)
    {
      if program.NilProgram? || observation.NilObservation? {
        return Action(0, -SCALE, epoch, 0, true, "no_active_controller_or_observation");
      }
      if observation.epoch != epoch {
        return Action(0, -SCALE, epoch, 0, true, "wrong_epoch");
      }
      if observation.tick > nowTick || nowTick - observation.tick > MAX_AGE_TICKS {
        return Action(0, -SCALE, epoch, 0, true, "stale_observation");
      }
      if hasObservation && (observation.sequence <= sequence || observation.tick < lastTick) {
        return Action(0, -SCALE, epoch, 0, true, "replayed_observation");
      }
      var evaluated := Evaluate(program, observation.features);
      if evaluated.Failure? {
        return Action(0, -SCALE, epoch, 0, true, "invalid_observation");
      }
      hasObservation, sequence, lastTick := true, observation.sequence, observation.tick;
      return evaluated.value.(epoch := epoch, sequence := observation.sequence);
    }

    method Handle(request: Request) returns (response: Response)
      modifies this
      ensures (Now(), response) == HandleSpec(old(Now()), request)
    {
      var answer: Option<Program>, action: Option<Action>, failed := None, None, false;
      match request {
        case NilOrUnknownFields => failed := true;
        case UnsupportedKind => failed := true;
        case CompileRequest(controller) =>
          var compiled := Compile(controller);
          if compiled.Success? { answer := Some(compiled.value); } else { failed := true; }
        case ActivateRequest(controller, newEpoch) =>
          answer := Activate(controller, newEpoch);
          failed := answer.None?;
        case StepRequest(observation, tick) =>
          var stepped := Step(observation, tick);
          action := Some(stepped);
        case ResetRequest(newEpoch) =>
          var ok := Reset(newEpoch);
          failed := !ok;
        case EvaluateRequest(candidate, observation) =>
          if observation.NilObservation? {
            failed := true;
          } else {
            var evaluated := Evaluate(candidate, observation.features);
            if evaluated.Success? { action := Some(evaluated.value); } else { failed := true; }
          }
      }
      response := Response(answer, action, failed, epoch);
    }
  }

  // ---- Whole runs ----

  /** The state after the first k requests of a run that starts from a fresh runtime. */
  function StateAt(requests: seq<Request>, k: nat): State
    requires k <= |requests|
  {
    if k == 0 then FRESH else HandleSpec(StateAt(requests, k - 1), requests[k - 1]).0
  }

  function ResponseAt(requests: seq<Request>, k: nat): Response
    requires k < |requests|
  {
    HandleSpec(StateAt(requests, k), requests[k]).1
  }

  /** Request k stepped the controller and the runtime acted on the observation. */
  predicate Acts(requests: seq<Request>, k: nat) {
    && k < |requests| && requests[k].StepRequest?
    && !StepSpec(StateAt(requests, k), requests[k].observation, requests[k].tick).1.fallback
  }

  ghost predicate ProgramIsCompiled(s: State) {
    s.program.NilProgram? || exists controller :: Compile(controller) == Success(s.program)
  }

  predicate EpisodeNotBehind(s: State, s': State) {
    || s.epoch < s'.epoch
    || (s.epoch == s'.epoch && (s.hasObservation ==>
         s'.hasObservation && s.sequence <= s'.sequence && s.lastTick <= s'.lastTick))
  }

  lemma {:induction false} StatesAdvance(requests: seq<Request>, i: nat, j: nat)
    requires i <= j <= |requests|
    ensures EpisodeNotBehind(StateAt(requests, i), StateAt(requests, j))
    decreases j
  {
    if i < j {
      StatesAdvance(requests, i, j - 1);
    }
  }

  lemma {:induction false} ActiveProgramIsCompiled(requests: seq<Request>, k: nat)
    requires k <= |requests|
    ensures ProgramIsCompiled(StateAt(requests, k))
  {
    if k > 0 {
      ActiveProgramIsCompiled(requests, k - 1);
    }
  }

  // Between any two acted-on observations the (epoch, sequence) pair strictly increases, ticks do not
  // go back within an epoch, and no acted-on observation is from the future or more than three ticks old.
  lemma ActionsAdvance(requests: seq<Request>, i: nat, j: nat)
    requires i < j && Acts(requests, i) && Acts(requests, j)
    ensures var a, b := ResponseAt(requests, i).action.value, ResponseAt(requests, j).action.value;
            var x, y := requests[i].observation, requests[j].observation;
            && (a.epoch, a.sequence) == (x.epoch, x.sequence) && (b.epoch, b.sequence) == (y.epoch, y.sequence)
            && (a.epoch < b.epoch || (a.epoch == b.epoch && a.sequence < b.sequence && x.tick <= y.tick))
            && y.tick <= requests[j].tick <= y.tick + MAX_AGE_TICKS
  {
    StatesAdvance(requests, i + 1, j);
  }

  // A request that fails, or that is answered by the fallback, changes nothing.
  lemma FailureChangesNothing(requests: seq<Request>, k: nat)
    requires k < |requests|
    ensures ResponseAt(requests, k).failed ==> StateAt(requests, k + 1) == StateAt(requests, k)
    ensures requests[k].StepRequest? && !Acts(requests, k) ==>
              && StateAt(requests, k + 1) == StateAt(requests, k)
              && ResponseAt(requests, k).action.value.acceleration == -SCALE
              && ResponseAt(requests, k).action.value.steering == 0
  {
  }

  // An observation that passes the epoch, age and replay checks is refused exactly when its features are bad.
  lemma InvalidObservationMeansBadFeatures(requests: seq<Request>, k: nat)
    requires k < |requests| && requests[k].StepRequest? && requests[k].observation.Observation?
    ensures var s, x := StateAt(requests, k), requests[k].observation;
            s.program.Program? && x.epoch == s.epoch && !Stale(x, requests[k].tick) && !Replayed(s, x) ==>
              && (Acts(requests, k) <==> InRangeFeatures(x.features))
              && (!InRangeFeatures(x.features) ==>
                   ResponseAt(requests, k).action == Some(Fallback(s, "invalid_observation")))
  {
    ActiveProgramIsCompiled(requests, k);
    var s := StateAt(requests, k);
    if s.program.Program? {
      var controller :| Compile(controller) == Success(s.program);
      CompiledControllerComputesItsMeaning(controller, requests[k].observation.features);
    }
  }
}
