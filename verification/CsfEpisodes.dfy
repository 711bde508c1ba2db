/** What the runtime answers, told from the requests before it (csf/runtime.go, csf/compiler.go). */
module CsfEpisodes {
  import opened Wrappers
  import opened GoIntegers
  import opened CsfController
  import opened CsfCompiler
  import opened CsfEvaluator
  import opened CsfRuntime

  predicate Accepted(requests: seq<Request>, k: nat)
    requires k < |requests|
  {
    !ResponseAt(requests, k).failed
  }

  predicate StartsEpisode(requests: seq<Request>, k: nat)
    requires k < |requests|
  {
    (requests[k].ActivateRequest? || requests[k].ResetRequest?) && Accepted(requests, k)
  }

  /** The controller of the last accepted activation among the first k requests. */
  function ControllerAt(requests: seq<Request>, k: nat): Option<Controller>
    requires k <= |requests|
  {
    if k == 0 then None
    else if requests[k - 1].ActivateRequest? && Accepted(requests, k - 1) then Some(requests[k - 1].controller)
    else ControllerAt(requests, k - 1)
  }

  /** The epoch of the last accepted activation or reset. */
  function EpochAt(requests: seq<Request>, k: nat): uint64
    requires k <= |requests|
  {
    if k == 0 then 0
    else if StartsEpisode(requests, k - 1) then requests[k - 1].epoch
    else EpochAt(requests, k - 1)
  }

  /** The last observation acted on since then. */
  function LastActed(requests: seq<Request>, k: nat): Option<Observation>
    requires k <= |requests|
  {
    if k == 0 || StartsEpisode(requests, k - 1) then None
    else if Acts(requests, k - 1) then Some(requests[k - 1].observation)
    else LastActed(requests, k - 1)
  }

  /** The state is what the requests so far say. */
  predicate Told(s: State, controller: Option<Controller>, epoch: uint64, last: Option<Observation>) {
    && s.epoch == epoch
    && (if controller.None? then s.program.NilProgram? && last.None?
        else Compile(controller.value) == Success(s.program) && s.program.Program?)
    && (last.Some? <==> s.hasObservation)
    && (last.Some? ==> last.value.Observation? && last.value.sequence == s.sequence && last.value.tick == s.lastTick)
  }

  lemma CompiledIsProgram(controller: Controller)
    ensures Compile(controller).Success? ==> Compile(controller).value.Program?
  {
  }

  lemma StepTells(s: State, request: Request, controller: Option<Controller>, epoch: uint64, last: Option<Observation>)
    requires Told(s, controller, epoch, last)
    ensures var (s', response) := HandleSpec(s, request);
            var starts := (request.ActivateRequest? || request.ResetRequest?) && !response.failed;
            var acts := request.StepRequest? && !StepSpec(s, request.observation, request.tick).1.fallback;
            Told(s', if request.ActivateRequest? && !response.failed then Some(request.controller) else controller,
                 if starts then request.epoch else epoch,
                 if starts then None else if acts then Some(request.observation) else last)
  {
    if request.ActivateRequest? {
      CompiledIsProgram(request.controller);
    }
    hide Compile, Outcome, Stale, InRangeFeatures;
  }

  // In every reachable state: program, epoch and observation are those of the last accepted activation, of the last
  // accepted activation or reset, and of the last observation acted on since.
  lemma {:induction false} StateIsItsHistory(requests: seq<Request>, k: nat)
    requires k <= |requests|
    ensures Told(StateAt(requests, k), ControllerAt(requests, k), EpochAt(requests, k), LastActed(requests, k))
  {
    if k > 0 {
      StateIsItsHistory(requests, k - 1);
      hide Told, HandleSpec, StepSpec;
      StepTells(StateAt(requests, k - 1), requests[k - 1], ControllerAt(requests, k - 1), EpochAt(requests, k - 1),
                LastActed(requests, k - 1));
    }
  }

  predicate Supported(controller: Controller) {
    && controller.Controller? && controller.schemaVersion == 1 && 1 <= |controller.name| <= 128 && !controller.unknown
    && WellFormed(controller.steering) && Size(controller.steering) <= 128 && Height(controller.steering) <= 16
    && WellFormed(controller.acceleration) && Size(controller.acceleration) <= 128 && Height(controller.acceleration) <= 16
  }

  // An activation is accepted exactly for a later epoch and a supported controller, a reset exactly for a later epoch
  // when some controller is active.
  lemma EpisodesStartExactly(requests: seq<Request>, k: nat)
    requires k < |requests|
    ensures requests[k].ActivateRequest? ==>
              (Accepted(requests, k) <==> EpochAt(requests, k) < requests[k].epoch && Supported(requests[k].controller))
    ensures requests[k].ResetRequest? ==>
              (Accepted(requests, k) <==> EpochAt(requests, k) < requests[k].epoch && ControllerAt(requests, k).Some?)
    ensures ResponseAt(requests, k).epoch == EpochAt(requests, k + 1)
  {
    StateIsItsHistory(requests, k);
    StateIsItsHistory(requests, k + 1);
    if requests[k].ActivateRequest? {
      CompileSucceedsExactly(requests[k].controller);
    }
    hide Compile, StepSpec, EvaluateSpec, WellFormed;
  }

  predicate InProfile(features: seq<int64>) {
    |features| == 4 && forall i | 0 <= i < 4 :: -10_000 <= features[i] as int <= 10_000
  }

  lemma InProfileExactly(features: seq<int64>)
    ensures InProfile(features) <==> InRangeFeatures(features)
  {
    assert forall i | 0 <= i < |features| :: features[i] in features;
  }

  lemma EvaluatesInProfile(controller: Controller, program: Program, features: seq<int64>)
    requires Compile(controller) == Success(program)
    ensures EvaluateSpec(program, features).Success? <==> InProfile(features)
    ensures WellFormed(controller.steering) && WellFormed(controller.acceleration)
    ensures InProfile(features) ==>
              var action := EvaluateSpec(program, features).value;
              && Nearest(action.steering, Meaning(controller.steering, features), -1000, 1000)
              && Nearest(action.acceleration, Meaning(controller.acceleration, features), -1000, 1000)
              && !action.fallback
  {
    InProfileExactly(features);
    CompiledControllerComputesItsMeaning(controller, features);
    hide Compile, Outcome, InProfile, InRangeFeatures, Meaning;
  }

  /** The observation is of this episode, recent, and newer than the last one acted on. */
  predicate Current(observation: Observation, tick: uint64, epoch: uint64, last: Option<Observation>)
    requires observation.Observation? && (last.Some? ==> last.value.Observation?)
  {
    && observation.epoch == epoch && observation.tick <= tick <= observation.tick + 3
    && (last.Some? ==> last.value.sequence < observation.sequence && last.value.tick <= observation.tick)
  }

  /** Each output is the value of the controller's tree, or the actuator's limit nearest to it. */
  predicate Drives(action: Action, controller: Controller, observation: Observation, epoch: uint64) {
    && controller.Controller? && observation.Observation? && |observation.features| == 4
    && WellFormed(controller.steering) && WellFormed(controller.acceleration)
    && Nearest(action.steering, Meaning(controller.steering, observation.features), -1000, 1000)
    && Nearest(action.acceleration, Meaning(controller.acceleration, observation.features), -1000, 1000)
    && (action.epoch, action.sequence) == (epoch, observation.sequence)
  }

  lemma StepActsExactly(s: State, observation: Observation, tick: uint64, controller: Option<Controller>, epoch: uint64,
                        last: Option<Observation>)
    requires Told(s, controller, epoch, last)
    ensures !StepSpec(s, observation, tick).1.fallback
            <==> controller.Some? && observation.Observation? && Current(observation, tick, epoch, last)
                 && InProfile(observation.features)
    ensures !StepSpec(s, observation, tick).1.fallback ==>
              Drives(StepSpec(s, observation, tick).1, controller.value, observation, epoch)
  {
    if controller.Some? && observation.Observation? {
      EvaluatesInProfile(controller.value, s.program, observation.features);
    }
    hide Compile, EvaluateSpec, InProfile, Meaning, WellFormed;
  }

  // A step acts exactly when some controller is active, and the observation is of the current epoch, at most three ticks
  // old, newer than the last one acted on in the episode, and in the profile; and then it drives by the active
  // controller.
  lemma StepsExactly(requests: seq<Request>, k: nat)
    requires k < |requests| && requests[k].StepRequest?
    ensures LastActed(requests, k).Some? ==> LastActed(requests, k).value.Observation?
    ensures Acts(requests, k)
            <==> ControllerAt(requests, k).Some? && requests[k].observation.Observation?
                 && Current(requests[k].observation, requests[k].tick, EpochAt(requests, k), LastActed(requests, k))
                 && InProfile(requests[k].observation.features)
    ensures Acts(requests, k) ==>
              && ResponseAt(requests, k).action.Some?
              && Drives(ResponseAt(requests, k).action.value, ControllerAt(requests, k).value, requests[k].observation,
                        EpochAt(requests, k))
  {
    hide *;
    StateIsItsHistory(requests, k);
    ToldIsObservation(StateAt(requests, k), ControllerAt(requests, k), EpochAt(requests, k), LastActed(requests, k));
    StepResponse(requests, k);
    StepActsExactly(StateAt(requests, k), requests[k].observation, requests[k].tick, ControllerAt(requests, k),
                    EpochAt(requests, k), LastActed(requests, k));
  }

  lemma ToldIsObservation(s: State, controller: Option<Controller>, epoch: uint64, last: Option<Observation>)
    requires Told(s, controller, epoch, last)
    ensures last.Some? ==> last.value.Observation?
  {
    hide Compile;
  }

  lemma StepResponse(requests: seq<Request>, k: nat)
    requires k < |requests| && requests[k].StepRequest?
    ensures Acts(requests, k) <==> !StepSpec(StateAt(requests, k), requests[k].observation, requests[k].tick).1.fallback
    ensures ResponseAt(requests, k).action == Some(StepSpec(StateAt(requests, k), requests[k].observation, requests[k].tick).1)
  {
    hide StepSpec;
  }

  // Every other step brakes, and says the first thing that was wrong; a current observation was not in the profile.
  lemma FallbackSaysWhy(requests: seq<Request>, k: nat)
    requires k < |requests| && requests[k].StepRequest? && !Acts(requests, k)
    ensures ResponseAt(requests, k).action.Some?
    ensures var action, x := ResponseAt(requests, k).action.value, requests[k].observation;
            var last := LastActed(requests, k);
            && action.steering == 0 && action.acceleration == -1000 && action.fallback && action.epoch == EpochAt(requests, k)
            && (action.reason == "no_active_controller_or_observation"
                <==> ControllerAt(requests, k).None? || x.NilObservation?)
            && (action.reason == "wrong_epoch"
                <==> ControllerAt(requests, k).Some? && x.Observation? && x.epoch != EpochAt(requests, k))
            && (action.reason == "stale_observation"
                <==> ControllerAt(requests, k).Some? && x.Observation? && x.epoch == EpochAt(requests, k)
                     && !(x.tick <= requests[k].tick <= x.tick + 3))
            && (action.reason == "replayed_observation"
                <==> ControllerAt(requests, k).Some? && x.Observation? && x.epoch == EpochAt(requests, k)
                     && x.tick <= requests[k].tick <= x.tick + 3
                     && last.Some? && last.value.Observation?
                     && !(last.value.sequence < x.sequence && last.value.tick <= x.tick))
            && (action.reason == "invalid_observation"
                <==> ControllerAt(requests, k).Some? && x.Observation? && (last.Some? ==> last.value.Observation?)
                     && Current(x, requests[k].tick, EpochAt(requests, k), last))
  {
    StateIsItsHistory(requests, k);
    var s := StateAt(requests, k);
    if ControllerAt(requests, k).Some? && requests[k].observation.Observation? {
      EvaluatesInProfile(ControllerAt(requests, k).value, s.program, requests[k].observation.features);
    }
    hide Compile, EvaluateSpec, InProfile, Meaning, WellFormed;
  }

  // Which requests succeed, and what a response carries: a supported controller's program, a step's action, and the action
  // of an evaluation that succeeds.
  lemma ResponsesExactly(requests: seq<Request>, k: nat)
    requires k < |requests|
    ensures var request, response := requests[k], ResponseAt(requests, k);
            match request
            case NilOrUnknownFields => response.failed && response.program.None? && response.action.None?
            case UnsupportedKind => response.failed && response.program.None? && response.action.None?
            case CompileRequest(controller) =>
              && (!response.failed <==> Supported(controller)) && response.action.None?
              && (!response.failed <==> response.program.Some?)
              && (!response.failed ==> Compiles(response.program.value, controller))
            case ActivateRequest(controller, _) =>
              && response.action.None? && (!response.failed <==> response.program.Some?)
              && (!response.failed ==> Compiles(response.program.value, controller))
            case StepRequest(_, _) => !response.failed && response.program.None? && response.action.Some?
            case ResetRequest(_) => response.program.None? && response.action.None?
            case EvaluateRequest(program, observation) =>
              && response.program.None?
              && (!response.failed <==> observation.Observation? && EvaluateSpec(program, observation.features).Success?)
              && (response.failed ==> response.action.None?)
              && (!response.failed ==> response.action == Some(EvaluateSpec(program, observation.features).value))
  {
    if requests[k].CompileRequest? || requests[k].ActivateRequest? {
      CompileSucceedsExactly(requests[k].controller);
    }
    hide Compile, StepSpec, EvaluateSpec, WellFormed, Size, Height, Postfix, StateAt;
  }

  /** The program is the postfix form of the controller's two trees. */
  predicate Compiles(program: Program, controller: Controller) {
    && program.Program? && program.schemaVersion == 1 && !program.unknown && controller.Controller?
    && program.controllerHash == HashOf(controller)
    && program.steering == Postfix(controller.steering) && program.acceleration == Postfix(controller.acceleration)
  }
}
