/**
 * The controller that owns the active vault runtime (src/application/workspace-controller.ts).
 * Every wait in the original is a suspended call here, and any event may come in between.
 */
module WorkspaceController {
  import opened Options

  type Runtime = nat
  type CallId = nat

  /** A call at one of its waits, with the local variables it still needs. */
  datatype Call =
    | ActivationSnapshot(generation: nat, target: string)
    | ActivationFactory(generation: nat, target: string)
    | ActivationHolding(generation: nat, target: string, runtime: Runtime)
    | SwitchSnapshot
    | SwitchFactory
    | SwitchHolding(runtime: Runtime)
    | SwitchSaving(runtime: Runtime)
    | Reading(runtime: Runtime, expectedVault: string)

  datatype Answer = Refused | StaleVault(vault: string) | Response(from: Runtime)

  /**
   * `issuedTo`, `adopted` and `closes` record what the original's outside world sees: which call
   * each runtime was made for, which runtimes were current so far, and every request to close one.
   */
  datatype State = State(current: Runtime, deferred: Option<string>, generation: nat,
                         calls: map<CallId, Call>, nextCall: CallId, answers: map<CallId, Answer>,
                         issuedTo: seq<Option<CallId>>, adopted: seq<Runtime>, closes: multiset<Runtime>)

  /** `ok` tells whether the awaited promise is fulfilled, `throws` whether a snapshot listener throws. */
  datatype Event =
    | Activate
    | Switch
    | Read(expectedVault: string)
    | Settle(id: CallId, ok: bool, throws: bool)
    | Close

  function Initial(deferred: Option<string>): State {
    State(0, deferred, 0, map[], 0, map[], [None], [0], multiset{})
  }

  // ---------- one event ----------

  predicate IsActivation(call: Call) {
    call.ActivationSnapshot? || call.ActivationFactory? || call.ActivationHolding?
  }

  predicate Overtaken(s: State, generation: nat, target: string) {
    generation != s.generation || s.deferred != Some(target)
  }

  function Begin(s: State, call: Call): State {
    s.(calls := s.calls[s.nextCall := call], nextCall := s.nextCall + 1)
  }

  function Reply(s: State, answer: Answer): State {
    s.(answers := s.answers[s.nextCall := answer], nextCall := s.nextCall + 1)
  }

  function Finish(s: State, id: CallId): State {
    s.(calls := s.calls - {id})
  }

  function CloseRuntime(s: State, runtime: Runtime): State {
    s.(closes := s.closes + multiset{runtime})
  }

  /** A throwing listener leaves before the replaced runtime is closed. */
  function Adopt(s: State, runtime: Runtime, throws: bool): State {
    var adopted := s.(current := runtime, adopted := s.adopted + [runtime]);
    if throws then adopted else CloseRuntime(adopted, s.current)
  }

  /** The factory hands out runtimes that did not exist before. */
  function Issue(s: State, id: CallId): State {
    s.(issuedTo := s.issuedTo + [Some(id)])
  }

  function SettleCall(s: State, id: CallId, ok: bool, throws: bool, vaultOf: Runtime -> string): State
    requires id in s.calls
  {
    match s.calls[id]
    case ActivationSnapshot(g, t) =>
      if ok && !throws then s.(calls := s.calls[id := ActivationFactory(g, t)]) else Finish(s, id)
    case ActivationFactory(g, t) =>
      if ok then Issue(s, id).(calls := s.calls[id := ActivationHolding(g, t, |s.issuedTo|)])
      else if Overtaken(s, g, t) then Finish(s, id)
      else Finish(s, id).(deferred := None)
    case ActivationHolding(g, t, runtime) =>
      if !ok || Overtaken(s, g, t) then CloseRuntime(Finish(s, id), runtime)
      else Adopt(Finish(s, id).(deferred := None), runtime, throws)
    case SwitchSnapshot =>
      if ok && !throws then s.(calls := s.calls[id := SwitchFactory]) else Finish(s, id)
    case SwitchFactory =>
      if ok then Issue(s, id).(calls := s.calls[id := SwitchHolding(|s.issuedTo|)]) else Finish(s, id)
    case SwitchHolding(runtime) =>
      if ok then s.(calls := s.calls[id := SwitchSaving(runtime)]) else CloseRuntime(Finish(s, id), runtime)
    case SwitchSaving(runtime) =>
      if ok then Adopt(Finish(s, id), runtime, throws) else CloseRuntime(Finish(s, id), runtime)
    case Reading(runtime, expectedVault) =>
      if !ok then Finish(s, id)
      else if s.current != runtime || vaultOf(s.current) != expectedVault then
        Finish(s, id).(answers := s.answers[id := StaleVault(vaultOf(s.current))])
      else Finish(s, id).(answers := s.answers[id := Response(runtime)])
  }

  function Step(s: State, event: Event, vaultOf: Runtime -> string): State {
    match event
    case Activate =>
      if s.deferred.None? then s
      else Begin(s.(generation := s.generation + 1), ActivationSnapshot(s.generation + 1, s.deferred.value))
    case Switch =>
      if s.deferred.Some? then Begin(s.(deferred := None, generation := s.generation + 1), SwitchSnapshot)
      else Begin(s, SwitchFactory)
    case Read(expectedVault) =>
      if s.deferred.Some? then Reply(s, Refused)
      else if vaultOf(s.current) != expectedVault then Reply(s, StaleVault(vaultOf(s.current)))
      else Begin(s, Reading(s.current, expectedVault))
    case Settle(id, ok, throws) =>
      if id in s.calls then SettleCall(s, id, ok, throws, vaultOf) else s
    case Close =>
      CloseRuntime(s.(deferred := None, generation := s.generation + 1), s.current)
  }

  /** The state after a run of events; every prefix of a run is a run. */
  function After(s: State, events: seq<Event>, vaultOf: Runtime -> string): State
    decreases |events|
  {
    if events == [] then s else After(Step(s, events[0], vaultOf), events[1..], vaultOf)
  }

  // ---------- the controller itself ----------

  class Controller {
    var runtime: Runtime
    var deferredInitialVault: Option<string>
    var activationGeneration: nat
    var calls: map<CallId, Call>
    var nextCall: CallId
    var answers: map<CallId, Answer>
    var issuedTo: seq<Option<CallId>>
    ghost var adopted: seq<Runtime>
    var closes: multiset<Runtime>
    const vaultOf: Runtime -> string

    ghost function Abstract(): State reads this {
      State(runtime, deferredInitialVault, activationGeneration, calls, nextCall, answers, issuedTo, adopted, closes)
    }

    constructor (deferred: Option<string>, vaultOf: Runtime -> string)
      ensures Abstract() == Initial(deferred) && this.vaultOf == vaultOf
    {
      runtime, deferredInitialVault, activationGeneration := 0, deferred, 0;
      calls, nextCall, answers := map[], 0, map[];
      issuedTo, adopted, closes := [None], [0], multiset{};
      this.vaultOf := vaultOf;
    }

    method Suspend(call: Call)
      modifies this
      ensures Abstract() == Begin(old(Abstract()), call)
    {
      calls := calls[nextCall := call];
      nextCall := nextCall + 1;
    }

    method ActivateDeferredInitialVault()
      modifies this
      ensures Abstract() == Step(old(Abstract()), Activate, vaultOf)
    {
      var target := deferredInitialVault;
      if target.None? {
        return;
      }
      activationGeneration := activationGeneration + 1;
      Suspend(ActivationSnapshot(activationGeneration, target.value));
    }

    method SwitchVault()
      modifies this
      ensures Abstract() == Step(old(Abstract()), Switch, vaultOf)
    {
      if deferredInitialVault.Some? {
        deferredInitialVault := None;
        activationGeneration := activationGeneration + 1;
        Suspend(SwitchSnapshot);
      } else {
        Suspend(SwitchFactory);
      }
    }

    /** The shape of every read that is guarded by the vault it is meant for. */
    method GuardedRead(expectedVault: string)
      modifies this
      ensures Abstract() == Step(old(Abstract()), Read(expectedVault), vaultOf)
    {
      if deferredInitialVault.Some? {
        answers, nextCall := answers[nextCall := Refused], nextCall + 1;
        return;
      }
      if vaultOf(runtime) != expectedVault {
        answers, nextCall := answers[nextCall := StaleVault(vaultOf(runtime))], nextCall + 1;
        return;
      }
      Suspend(Reading(runtime, expectedVault));
    }

    method CloseController()
      modifies this
      ensures Abstract() == Step(old(Abstract()), Close, vaultOf)
    {
      activationGeneration := activationGeneration + 1;
      deferredInitialVault := None;
      closes := closes + multiset{runtime};
    }

    method AdoptRuntime(next: Runtime, throws: bool)
      modifies this
      ensures Abstract() == Adopt(old(Abstract()), next, throws)
    {
      var previous := runtime;
      runtime := next;
      adopted := adopted + [next];
      if throws {
        return;
      }
      closes := closes + multiset{previous};
    }

    /** Resumes a suspended call: the segments after each wait, in the order they follow. */
    method Resume(id: CallId, ok: bool, throws: bool)
      requires id in calls
      modifies this
      ensures Abstract() == Step(old(Abstract()), Settle(id, ok, throws), vaultOf)
    {
      if calls[id].ActivationSnapshot? || calls[id].ActivationFactory? || calls[id].ActivationHolding? {
        ResumeActivation(id, ok, throws);
      } else if calls[id].Reading? {
        ResumeRead(id, ok);
      } else {
        ResumeSwitch(id, ok, throws);
      }
    }

    method ResumeActivation(id: CallId, ok: bool, throws: bool)
      requires id in calls && IsActivation(calls[id])
      modifies this
      ensures Abstract() == SettleCall(old(Abstract()), id, ok, throws, vaultOf)
    {
      var call := calls[id];
      var overtaken := call.generation != activationGeneration || deferredInitialVault != Some(call.target);
      if call.ActivationSnapshot? && ok && !throws {
        calls := calls[id := ActivationFactory(call.generation, call.target)];
      } else if call.ActivationFactory? && ok {
        calls := calls[id := ActivationHolding(call.generation, call.target, |issuedTo|)];
        issuedTo := issuedTo + [Some(id)];
      } else {
        calls := calls - {id};
        if call.ActivationFactory? && !overtaken {
          deferredInitialVault := None;
        }
        if call.ActivationHolding? {
          if !ok || overtaken {
            closes := closes + multiset{call.runtime};
          } else {
            deferredInitialVault := None;
            AdoptRuntime(call.runtime, throws);
          }
        }
      }
    }

    method ResumeSwitch(id: CallId, ok: bool, throws: bool)
      requires id in calls && !IsActivation(calls[id]) && !calls[id].Reading?
      modifies this
      ensures Abstract() == SettleCall(old(Abstract()), id, ok, throws, vaultOf)
    {
      var call := calls[id];
      if call.SwitchSnapshot? && ok && !throws {
        calls := calls[id := SwitchFactory];
      } else if call.SwitchFactory? && ok {
        calls := calls[id := SwitchHolding(|issuedTo|)];
        issuedTo := issuedTo + [Some(id)];
      } else if call.SwitchHolding? && ok {
        calls := calls[id := SwitchSaving(call.runtime)];
      } else {
        calls := calls - {id};
        if call.SwitchSaving? && ok {
          AdoptRuntime(call.runtime, throws);
        } else if call.SwitchHolding? || call.SwitchSaving? {
          closes := closes + multiset{call.runtime};
        }
      }
    }

    method ResumeRead(id: CallId, ok: bool)
      requires id in calls && calls[id].Reading?
      modifies this
      ensures forall throws :: Abstract() == SettleCall(old(Abstract()), id, ok, throws, vaultOf)
    {
      var call := calls[id];
      calls := calls - {id};
      if ok {
        if runtime != call.runtime || vaultOf(runtime) != call.expectedVault {
          answers := answers[id := StaleVault(vaultOf(runtime))];
        } else {
          answers := answers[id := Response(call.runtime)];
        }
      }
    }
  }

  // ---------- what every run keeps ----------

  function Holds(call: Call): Option<Runtime> {
    if call.ActivationHolding? || call.SwitchHolding? || call.SwitchSaving? then Some(call.runtime) else None
  }

  function Holders(s: State, runtime: Runtime): set<CallId> {
    set id | id in s.calls && Holds(s.calls[id]) == Some(runtime)
  }

  /** In how many places a runtime is: current, held by an unfinished call, or closed. */
  function Places(s: State, runtime: Runtime): nat {
    (if runtime == s.current then 1 else 0) + |Holders(s, runtime)| + s.closes[runtime]
  }

  /** Every runtime handed out is current, held by exactly one unfinished call, or closed exactly once. */
  ghost predicate Conserved(s: State) {
    forall r: nat :: r < |s.issuedTo| ==> Places(s, r) == 1
  }

  /** A call that holds a runtime is the one it was made for, and nobody else has touched that runtime. */
  ghost predicate CallOk(s: State, id: CallId, call: Call) {
    && id < s.nextCall
    && (IsActivation(call) ==> call.generation <= s.generation)
    && match Holds(call)
       case Some(r) => r < |s.issuedTo| && s.issuedTo[r] == Some(id) && r !in s.adopted && r !in s.closes
       case None => Some(id) !in s.issuedTo
  }

  /** What holds in every run, whatever is closed and whoever throws. */
  ghost predicate Shape(s: State) {
    && s.current in s.adopted
    && (forall r :: r in s.adopted ==> r < |s.issuedTo|)
    && (forall r :: r in s.closes ==> r < |s.issuedTo|)
    && (forall id :: id in s.calls ==> CallOk(s, id, s.calls[id]))
    && (forall r :: 0 <= r < |s.issuedTo| && s.issuedTo[r].Some? ==> s.issuedTo[r].value < s.nextCall)
    && (forall i, j :: 0 <= i < j < |s.issuedTo| && s.issuedTo[i].Some? ==> s.issuedTo[i] != s.issuedTo[j])
  }

  lemma InitialShape(deferred: Option<string>)
    ensures Shape(Initial(deferred)) && Conserved(Initial(deferred))
  {
  }

  lemma {:induction false} BeginKeepsShape(s: State, call: Call, generation: nat, deferred: Option<string>)
    requires Shape(s) && s.generation <= generation && Holds(call).None? && (IsActivation(call) ==> call.generation <= generation)
    ensures Shape(Begin(s.(generation := generation, deferred := deferred), call))
  {
    var s' := Begin(s.(generation := generation, deferred := deferred), call);
    forall id | id in s'.calls ensures CallOk(s', id, s'.calls[id]) {
      if id != s.nextCall {
        assert CallOk(s, id, s.calls[id]);
      }
    }
  }

  /** The call `id` moves on to another wait, or ends, without a runtime changing hands. */
  lemma {:induction false} MoveKeepsShape(s: State, id: CallId, call: Call, s': State)
    requires Shape(s) && id in s.calls && Holds(call) == Holds(s.calls[id])
    requires IsActivation(call) ==> IsActivation(s.calls[id]) && call.generation == s.calls[id].generation
    requires s'.calls == s.calls[id := call] || (s'.calls == s.calls - {id} && Holds(call).None?)
    requires s'.current == s.current && s'.nextCall == s.nextCall && s'.generation == s.generation
    requires s'.issuedTo == s.issuedTo && s'.adopted == s.adopted && s'.closes == s.closes
    ensures Shape(s')
  {
    forall x | x in s'.calls ensures CallOk(s', x, s'.calls[x]) {
      assert CallOk(s, x, s.calls[x]);
    }
  }

  lemma {:induction false} IssueKeepsShape(s: State, id: CallId, call: Call)
    requires Shape(s) && id in s.calls && Holds(s.calls[id]).None? && Holds(call) == Some(|s.issuedTo|)
    requires IsActivation(call) ==> IsActivation(s.calls[id]) && call.generation == s.calls[id].generation
    ensures Shape(Issue(s, id).(calls := s.calls[id := call]))
  {
    var s' := Issue(s, id).(calls := s.calls[id := call]);
    assert CallOk(s, id, s.calls[id]);
    forall x | x in s'.calls ensures CallOk(s', x, s'.calls[x]) {
      assert CallOk(s, x, s.calls[x]);
    }
  }

  /** The call `id` ends and its runtime is closed. */
  lemma {:induction false} DropKeepsShape(s: State, id: CallId, runtime: Runtime)
    requires Shape(s) && id in s.calls && Holds(s.calls[id]) == Some(runtime)
    ensures Shape(CloseRuntime(Finish(s, id), runtime))
  {
    var s' := CloseRuntime(Finish(s, id), runtime);
    assert CallOk(s, id, s.calls[id]);
    forall x | x in s'.calls ensures CallOk(s', x, s'.calls[x]) {
      assert CallOk(s, x, s.calls[x]);
    }
  }

  lemma {:induction false} AdoptKeepsShape(s: State, id: CallId, runtime: Runtime, deferred: Option<string>, throws: bool)
    requires Shape(s) && id in s.calls && Holds(s.calls[id]) == Some(runtime)
    ensures Shape(Adopt(Finish(s, id).(deferred := deferred), runtime, throws))
  {
    var s' := Adopt(Finish(s, id).(deferred := deferred), runtime, throws);
    assert CallOk(s, id, s.calls[id]);
    forall x | x in s'.calls ensures CallOk(s', x, s'.calls[x]) {
      assert CallOk(s, x, s.calls[x]);
    }
  }

  lemma {:induction false} StepKeepsShape(s: State, event: Event, vaultOf: Runtime -> string)
    requires Shape(s)
    ensures Shape(Step(s, event, vaultOf))
  {
    var s' := Step(s, event, vaultOf);
    match event {
      case Activate =>
        if s.deferred.Some? { BeginKeepsShape(s, ActivationSnapshot(s.generation + 1, s.deferred.value), s.generation + 1, s.deferred); }
      case Switch =>
        if s.deferred.Some? { BeginKeepsShape(s, SwitchSnapshot, s.generation + 1, None); }
        else { BeginKeepsShape(s, SwitchFactory, s.generation, s.deferred); }
      case Read(expectedVault) =>
        ReadKeepsShape(s, expectedVault, vaultOf);
      case Settle(id, ok, throws) =>
        if id in s.calls { SettleKeepsShape(s, id, ok, throws, vaultOf); }
      case Close => ShapeWithClosed(s);
    }
  }

  lemma {:induction false} ShapeWithClosed(s: State)
    requires Shape(s)
    ensures Shape(CloseRuntime(s.(deferred := None, generation := s.generation + 1), s.current))
  {
    var s' := CloseRuntime(s.(deferred := None, generation := s.generation + 1), s.current);
    forall x | x in s'.calls ensures CallOk(s', x, s'.calls[x]) {
      assert CallOk(s, x, s.calls[x]);
    }
  }

  lemma {:induction false} ReadKeepsShape(s: State, expectedVault: string, vaultOf: Runtime -> string)
    requires Shape(s)
    ensures Shape(Step(s, Read(expectedVault), vaultOf))
  {
    var s' := Step(s, Read(expectedVault), vaultOf);
    BeginKeepsShape(s, Reading(s.current, expectedVault), s.generation, s.deferred);
    if s'.calls == s.calls {
      forall x | x in s'.calls ensures CallOk(s', x, s'.calls[x]) {
        assert CallOk(s, x, s.calls[x]);
      }
    }
  }

  lemma {:induction false} SettleKeepsShape(s: State, id: CallId, ok: bool, throws: bool, vaultOf: Runtime -> string)
    requires Shape(s) && id in s.calls
    ensures Shape(SettleCall(s, id, ok, throws, vaultOf))
  {
    var s' := SettleCall(s, id, ok, throws, vaultOf);
    hide Shape;
    match s.calls[id] {
      case ActivationSnapshot(g, t) => MoveKeepsShape(s, id, ActivationFactory(g, t), s');
      case ActivationFactory(g, t) =>
        if ok { IssueKeepsShape(s, id, ActivationHolding(g, t, |s.issuedTo|)); }
        else { MoveKeepsShape(s, id, s.calls[id], s'); }
      case ActivationHolding(g, t, runtime) =>
        if !ok || Overtaken(s, g, t) { DropKeepsShape(s, id, runtime); }
        else { AdoptKeepsShape(s, id, runtime, None, throws); }
      case SwitchSnapshot => MoveKeepsShape(s, id, SwitchFactory, s');
      case SwitchFactory =>
        if ok { IssueKeepsShape(s, id, SwitchHolding(|s.issuedTo|)); }
        else { MoveKeepsShape(s, id, s.calls[id], s'); }
      case SwitchHolding(runtime) =>
        if ok { MoveKeepsShape(s, id, SwitchSaving(runtime), s'); } else { DropKeepsShape(s, id, runtime); }
      case SwitchSaving(runtime) =>
        if ok { AdoptKeepsShape(s, id, runtime, s.deferred, throws); } else { DropKeepsShape(s, id, runtime); }
      case Reading(_, _) => MoveKeepsShape(s, id, s.calls[id], s');
    }
  }

  lemma {:induction false} RunKeepsShape(s: State, events: seq<Event>, vaultOf: Runtime -> string)
    requires Shape(s)
    ensures Shape(After(s, events, vaultOf))
    decreases |events|
  {
    if events != [] {
      StepKeepsShape(s, events[0], vaultOf);
      RunKeepsShape(Step(s, events[0], vaultOf), events[1..], vaultOf);
    }
  }

  // ---------- conservation of runtimes ----------

  /** The call that settles here makes its runtime the current one. */
  predicate Adopts(s: State, event: Event) {
    && event.Settle? && event.id in s.calls && event.ok
    && match s.calls[event.id]
       case ActivationHolding(g, t, _) => !Overtaken(s, g, t)
       case SwitchSaving(_) => true
       case _ => false
  }

  /** Closing while the controller lives on, or a listener that throws while a runtime is replaced. */
  predicate Leaks(s: State, event: Event) {
    event.Close? || (Adopts(s, event) && event.throws)
  }

  lemma {:induction false} OneHolder(s: State, runtime: Runtime)
    requires Shape(s)
    ensures |Holders(s, runtime)| <= 1
    ensures runtime in s.adopted || runtime >= |s.issuedTo| ==> Holders(s, runtime) == {}
  {
    forall id | id in Holders(s, runtime)
      ensures runtime < |s.issuedTo| && s.issuedTo[runtime] == Some(id) && runtime !in s.adopted
    {
      assert CallOk(s, id, s.calls[id]);
    }
    if Holders(s, runtime) != {} {
      var id :| id in Holders(s, runtime);
      assert Holders(s, runtime) == {id};
    }
  }

  lemma {:induction false} SameHolders(s: State, s': State, id: CallId, r: Runtime)
    requires id in s.calls
    requires s'.calls == s.calls[id := s.calls[id]] || (id in s'.calls && s'.calls == s.calls[id := s'.calls[id]]) || s'.calls == s.calls - {id}
    ensures Holds(s.calls[id]) != Some(r) && (id in s'.calls ==> Holds(s'.calls[id]) != Some(r)) ==> Holders(s', r) == Holders(s, r)
    ensures id in s'.calls && Holds(s'.calls[id]) == Holds(s.calls[id]) ==> Holders(s', r) == Holders(s, r)
    ensures Holds(s.calls[id]) == Some(r) && id !in s'.calls ==> |Holders(s', r)| == |Holders(s, r)| - 1
  {
    if Holds(s.calls[id]) == Some(r) && id !in s'.calls {
      assert Holders(s', r) == Holders(s, r) - {id};
    }
  }

  lemma {:induction false} BeginKeepsPlaces(s: State, call: Call, generation: nat, deferred: Option<string>, r: Runtime)
    requires Shape(s) && Holds(call).None?
    ensures Places(Begin(s.(generation := generation, deferred := deferred), call), r) == Places(s, r)
  {
    var s' := Begin(s.(generation := generation, deferred := deferred), call);
    assert s.nextCall !in s.calls;
    assert Holders(s', r) == Holders(s, r);
  }

  lemma {:induction false} MovePlaces(s: State, id: CallId, s': State, r: Runtime)
    requires id in s.calls && s'.current == s.current && s'.closes == s.closes && (Holds(s.calls[id]) == None || id in s'.calls)
    requires s'.calls == s.calls - {id} || (id in s'.calls && s'.calls == s.calls[id := s'.calls[id]])
    requires id in s'.calls ==> (Holds(s'.calls[id]) == Some(r) <==> Holds(s.calls[id]) == Some(r))
    ensures Places(s', r) == Places(s, r)
  {
    SameHolders(s, s', id, r);
    if id in s'.calls && Holds(s.calls[id]) == Some(r) {
      assert Holders(s', r) == Holders(s, r);
    }
  }

  lemma {:induction false} DropPlaces(s: State, id: CallId, runtime: Runtime, r: Runtime)
    requires id in s.calls && Holds(s.calls[id]) == Some(runtime)
    ensures Places(CloseRuntime(Finish(s, id), runtime), r) == Places(s, r)
  {
    SameHolders(s, Finish(s, id), id, r);
    assert Holders(CloseRuntime(Finish(s, id), runtime), r) == Holders(Finish(s, id), r);
    hide Holders;
  }

  lemma {:induction false} AdoptPlaces(s: State, id: CallId, runtime: Runtime, deferred: Option<string>, throws: bool, r: Runtime)
    requires Shape(s) && id in s.calls && Holds(s.calls[id]) == Some(runtime)
    ensures Places(Adopt(Finish(s, id).(deferred := deferred), runtime, throws), r)
            == Places(s, r) - if throws && r == s.current then 1 else 0
  {
    var s' := Adopt(Finish(s, id).(deferred := deferred), runtime, throws);
    assert CallOk(s, id, s.calls[id]) && runtime != s.current;
    SameHolders(s, Finish(s, id), id, r);
    assert Holders(s', r) == Holders(Finish(s, id), r);
    OneHolder(s, s.current);
    hide Holders, Shape;
  }

  /** How a settling call changes the places of a runtime that was there before. */
  lemma {:induction false} SettlePlaces(s: State, id: CallId, ok: bool, throws: bool, vaultOf: Runtime -> string, r: Runtime)
    requires Shape(s) && id in s.calls && r < |s.issuedTo|
    ensures var s' := SettleCall(s, id, ok, throws, vaultOf);
            Places(s', r) == Places(s, r) - if Adopts(s, Settle(id, ok, throws)) && throws && r == s.current then 1 else 0
  {
    if IsActivation(s.calls[id]) { SettleActivationPlaces(s, id, ok, throws, vaultOf, r); }
    else { SettleOtherPlaces(s, id, ok, throws, vaultOf, r); }
  }

  lemma {:induction false} SettleActivationPlaces(s: State, id: CallId, ok: bool, throws: bool, vaultOf: Runtime -> string, r: Runtime)
    requires Shape(s) && id in s.calls && IsActivation(s.calls[id]) && r < |s.issuedTo|
    ensures var s' := SettleCall(s, id, ok, throws, vaultOf);
            Places(s', r) == Places(s, r) - if Adopts(s, Settle(id, ok, throws)) && throws && r == s.current then 1 else 0
  {
    var s' := SettleCall(s, id, ok, throws, vaultOf);
    hide Shape, Places;
    match s.calls[id] {
      case ActivationSnapshot(g, t) => MovePlaces(s, id, s', r);
      case ActivationFactory(g, t) => MovePlaces(s, id, s', r);
      case ActivationHolding(g, t, runtime) =>
        if !ok || Overtaken(s, g, t) { DropPlaces(s, id, runtime, r); } else { AdoptPlaces(s, id, runtime, None, throws, r); }
    }
  }

  lemma {:induction false} SettleOtherPlaces(s: State, id: CallId, ok: bool, throws: bool, vaultOf: Runtime -> string, r: Runtime)
    requires Shape(s) && id in s.calls && !IsActivation(s.calls[id]) && r < |s.issuedTo|
    ensures var s' := SettleCall(s, id, ok, throws, vaultOf);
            Places(s', r) == Places(s, r) - if Adopts(s, Settle(id, ok, throws)) && throws && r == s.current then 1 else 0
  {
    var s' := SettleCall(s, id, ok, throws, vaultOf);
    hide Shape, Places;
    match s.calls[id] {
      case SwitchSnapshot => MovePlaces(s, id, s', r);
      case SwitchFactory => MovePlaces(s, id, s', r);
      case SwitchHolding(runtime) =>
        if ok { MovePlaces(s, id, s', r); } else { DropPlaces(s, id, runtime, r); }
      case SwitchSaving(runtime) =>
        if ok { AdoptPlaces(s, id, runtime, s.deferred, throws, r); } else { DropPlaces(s, id, runtime, r); }
      case Reading(_, _) => MovePlaces(s, id, s', r);
    }
  }

  lemma {:induction false} IssuedPlaces(s: State, id: CallId, call: Call)
    requires Shape(s) && id in s.calls && Holds(s.calls[id]).None? && Holds(call) == Some(|s.issuedTo|)
    ensures Places(Issue(s, id).(calls := s.calls[id := call]), |s.issuedTo|) == 1
  {
    var s' := Issue(s, id).(calls := s.calls[id := call]);
    OneHolder(s, |s.issuedTo|);
    assert Holders(s', |s.issuedTo|) == Holders(s, |s.issuedTo|) + {id};
  }

  lemma {:induction false} StepPlaces(s: State, event: Event, vaultOf: Runtime -> string, r: Runtime)
    requires Shape(s) && r < |s.issuedTo|
    ensures Places(Step(s, event, vaultOf), r) + (if Adopts(s, event) && event.throws && r == s.current then 1 else 0)
            == Places(s, r) + (if event.Close? && r == s.current then 1 else 0)
  {
    match event {
      case Activate =>
        if s.deferred.Some? { BeginKeepsPlaces(s, ActivationSnapshot(s.generation + 1, s.deferred.value), s.generation + 1, s.deferred, r); }
      case Switch =>
        if s.deferred.Some? { BeginKeepsPlaces(s, SwitchSnapshot, s.generation + 1, None, r); }
        else { BeginKeepsPlaces(s, SwitchFactory, s.generation, s.deferred, r); }
      case Read(expectedVault) =>
        BeginKeepsPlaces(s, Reading(s.current, expectedVault), s.generation, s.deferred, r);
      case Settle(id, ok, throws) =>
        if id in s.calls { SettlePlaces(s, id, ok, throws, vaultOf, r); }
      case Close =>
    }
  }

  lemma {:induction false} NewRuntimeIsPlaced(s: State, event: Event, vaultOf: Runtime -> string)
    requires Shape(s)
    ensures var s' := Step(s, event, vaultOf);
            |s.issuedTo| <= |s'.issuedTo| <= |s.issuedTo| + 1
            && (|s'.issuedTo| > |s.issuedTo| ==> Places(s', |s.issuedTo|) == 1 && !Leaks(s, event))
  {
    if event.Settle? && event.id in s.calls && event.ok {
      var call := s.calls[event.id];
      if call.ActivationFactory? {
        IssuedPlaces(s, event.id, ActivationHolding(call.generation, call.target, |s.issuedTo|));
      } else if call.SwitchFactory? {
        IssuedPlaces(s, event.id, SwitchHolding(|s.issuedTo|));
      }
    }
  }

  /** One event keeps every runtime accounted for exactly when it does not leak one. */
  lemma {:induction false} StepConserves(s: State, event: Event, vaultOf: Runtime -> string)
    requires Shape(s) && Conserved(s)
    ensures Conserved(Step(s, event, vaultOf)) <==> !Leaks(s, event)
  {
    var s' := Step(s, event, vaultOf);
    NewRuntimeIsPlaced(s, event, vaultOf);
    StepPlaces(s, event, vaultOf, s.current);
    CurrentIsIssued(s);
    hide Shape, Step, Places, Adopts;
    if !Leaks(s, event) {
      forall r: nat | r < |s'.issuedTo| ensures Places(s', r) == 1 {
        if r < |s.issuedTo| { StepPlaces(s, event, vaultOf, r); }
      }
    }
  }

  /** How often the controller is closed while `r` is current. */
  function ClosedWhileCurrent(s: State, events: seq<Event>, vaultOf: Runtime -> string, r: Runtime): nat
    decreases |events|
  {
    if events == [] then 0
    else (if events[0].Close? && r == s.current then 1 else 0)
         + ClosedWhileCurrent(Step(s, events[0], vaultOf), events[1..], vaultOf, r)
  }

  /** How often a listener throws while `r` is replaced. */
  function LeftOpen(s: State, events: seq<Event>, vaultOf: Runtime -> string, r: Runtime): nat
    decreases |events|
  {
    if events == [] then 0
    else (if Adopts(s, events[0]) && events[0].throws && r == s.current then 1 else 0)
         + LeftOpen(Step(s, events[0], vaultOf), events[1..], vaultOf, r)
  }

  lemma {:induction false} RunPlaces(s: State, events: seq<Event>, vaultOf: Runtime -> string, r: Runtime)
    requires Shape(s) && r < |After(s, events, vaultOf).issuedTo|
    ensures Places(After(s, events, vaultOf), r) + LeftOpen(s, events, vaultOf, r)
            == (if r < |s.issuedTo| then Places(s, r) else 1) + ClosedWhileCurrent(s, events, vaultOf, r)
    decreases |events|
  {
    if events != [] {
      var s1 := Step(s, events[0], vaultOf);
      StepKeepsShape(s, events[0], vaultOf);
      OneStepPlaces(s, events[0], vaultOf, r);
      hide Shape, Places, Step, Adopts;
      RunPlaces(s1, events[1..], vaultOf, r);
      CountsUnfold(s, events, vaultOf, r);
    }
  }

  lemma {:induction false} OneStepPlaces(s: State, event: Event, vaultOf: Runtime -> string, r: Runtime)
    requires Shape(s)
    ensures var s1 := Step(s, event, vaultOf);
            var before := if r < |s.issuedTo| then Places(s, r) else 1;
            (if r < |s1.issuedTo| then Places(s1, r) else 1) + (if Adopts(s, event) && event.throws && r == s.current then 1 else 0)
              == before + (if event.Close? && r == s.current then 1 else 0)
  {
    NewRuntimeIsPlaced(s, event, vaultOf);
    CurrentIsIssued(s);
    if r < |s.issuedTo| { StepPlaces(s, event, vaultOf, r); }
    hide Shape, Places, Step, Adopts;
  }

  lemma CountsUnfold(s: State, events: seq<Event>, vaultOf: Runtime -> string, r: Runtime)
    requires events != []
    ensures var s1, rest := Step(s, events[0], vaultOf), events[1..];
            && ClosedWhileCurrent(s, events, vaultOf, r)
                == ClosedWhileCurrent(s1, rest, vaultOf, r) + (if events[0].Close? && r == s.current then 1 else 0)
            && LeftOpen(s, events, vaultOf, r)
                == LeftOpen(s1, rest, vaultOf, r) + (if Adopts(s, events[0]) && events[0].throws && r == s.current then 1 else 0)
  {
    hide Step, Adopts;
  }

  lemma CurrentIsIssued(s: State)
    requires Shape(s)
    ensures s.current < |s.issuedTo|
  {
  }

  predicate Balanced(s: State, events: seq<Event>, vaultOf: Runtime -> string, r: Runtime) {
    ClosedWhileCurrent(s, events, vaultOf, r) == LeftOpen(s, events, vaultOf, r)
  }

  /**
   * After any run every runtime is current, held by one unfinished call or closed once, exactly
   * when each was closed along with the controller as often as a listener left it open.
   */
  lemma {:induction false} RunConserves(s: State, events: seq<Event>, vaultOf: Runtime -> string)
    requires Shape(s) && Conserved(s)
    ensures Conserved(After(s, events, vaultOf)) <==>
      forall r: nat :: r < |After(s, events, vaultOf).issuedTo| ==> Balanced(s, events, vaultOf, r)
  {
    hide Shape, Places;
    var last := After(s, events, vaultOf);
    forall r: nat | r < |last.issuedTo| ensures Places(last, r) == 1 <==> Balanced(s, events, vaultOf, r) {
      RunPlaces(s, events, vaultOf, r);
      assert r < |s.issuedTo| ==> Places(s, r) == 1;
    }
  }

  ghost predicate NoLeaks(s: State, events: seq<Event>, vaultOf: Runtime -> string)
    decreases |events|
  {
    events == [] || (!Leaks(s, events[0]) && NoLeaks(Step(s, events[0], vaultOf), events[1..], vaultOf))
  }

  ghost predicate AlwaysConserved(s: State, events: seq<Event>, vaultOf: Runtime -> string)
    decreases |events|
  {
    Conserved(s) && (events == [] || AlwaysConserved(Step(s, events[0], vaultOf), events[1..], vaultOf))
  }

  /**
   * From the start and over every interleaving of activations, switches, reads and failures: no
   * runtime is lost or closed twice at any moment, exactly as long as none is leaked.
   */
  lemma {:induction false} RunsFromTheStart(deferred: Option<string>, events: seq<Event>, vaultOf: Runtime -> string)
    ensures Shape(After(Initial(deferred), events, vaultOf))
    ensures AlwaysConserved(Initial(deferred), events, vaultOf) <==> NoLeaks(Initial(deferred), events, vaultOf)
  {
    InitialShape(deferred);
    RunKeepsShape(Initial(deferred), events, vaultOf);
    hide Shape, Conserved;
    LeaksShow(Initial(deferred), events, vaultOf);
  }

  lemma {:induction false} LeaksShow(s: State, events: seq<Event>, vaultOf: Runtime -> string)
    requires Shape(s) && Conserved(s)
    ensures AlwaysConserved(s, events, vaultOf) <==> NoLeaks(s, events, vaultOf)
    decreases |events|
  {
    if events != [] {
      StepKeepsShape(s, events[0], vaultOf);
      StepConserves(s, events[0], vaultOf);
      hide Shape, Conserved, Step, Leaks;
      if !Leaks(s, events[0]) {
        LeaksShow(Step(s, events[0], vaultOf), events[1..], vaultOf);
      } else {
        NotConservedThen(Step(s, events[0], vaultOf), events[1..], vaultOf);
      }
    }
  }

  lemma NotConservedThen(s: State, events: seq<Event>, vaultOf: Runtime -> string)
    requires !Conserved(s)
    ensures !AlwaysConserved(s, events, vaultOf)
  {
  }

  // ---------- closing ----------

  predicate IsSwitch(call: Call) {
    call.SwitchSnapshot? || call.SwitchFactory? || call.SwitchHolding? || call.SwitchSaving?
  }

  ghost predicate NoSwitchUnderWay(s: State) {
    forall id :: id in s.calls ==> !IsSwitch(s.calls[id])
  }

  /** Nobody switches or closes again; calls under way go on in any order, with or without success. */
  ghost predicate StartsNothing(events: seq<Event>) {
    forall e :: e in events ==> !e.Switch? && !e.Close?
  }

  /** No runtime is adopted any more, and each is closed once, or will be by the one call that holds it. */
  ghost predicate WoundDown(atClose: State, s: State) {
    && s.current == atClose.current && s.adopted == atClose.adopted
    && forall r: nat :: r < |s.issuedTo| ==> |Holders(s, r)| + s.closes[r] == 1
  }

  ghost predicate Closing(atClose: State, s: State) {
    Shape(s) && s.deferred.None? && NoSwitchUnderWay(s) && WoundDown(atClose, s)
  }

  lemma {:induction false} CloseBegins(s: State, vaultOf: Runtime -> string)
    requires Shape(s) && Conserved(s) && NoSwitchUnderWay(s)
    ensures Closing(s, Step(s, Close, vaultOf))
  {
    var s' := Step(s, Close, vaultOf);
    StepKeepsShape(s, Close, vaultOf);
    hide Shape;
    forall r: nat | r < |s'.issuedTo| ensures |Holders(s', r)| + s'.closes[r] == 1 {
      assert Places(s, r) == 1 && Holders(s', r) == Holders(s, r);
    }
  }

  lemma {:induction false} ClosingGoesOn(atClose: State, s: State, event: Event, vaultOf: Runtime -> string)
    requires Closing(atClose, s) && !event.Switch? && !event.Close?
    ensures Closing(atClose, Step(s, event, vaultOf))
  {
    var s' := Step(s, event, vaultOf);
    StepKeepsShape(s, event, vaultOf);
    NewRuntimeIsPlaced(s, event, vaultOf);
    CurrentIsIssued(s);
    NothingAdopted(s, event, vaultOf);
    hide Shape, Step;
    forall r: nat | r < |s'.issuedTo| ensures |Holders(s', r)| + s'.closes[r] == 1 {
      if r < |s.issuedTo| { StepPlaces(s, event, vaultOf, r); }
    }
  }

  /** Every activation still under way is overtaken, since nothing is deferred any more. */
  lemma {:induction false} NothingAdopted(s: State, event: Event, vaultOf: Runtime -> string)
    requires s.deferred.None? && NoSwitchUnderWay(s) && !event.Switch? && !event.Close?
    ensures !Adopts(s, event)
    ensures var s' := Step(s, event, vaultOf);
            s'.current == s.current && s'.adopted == s.adopted && s'.deferred.None? && NoSwitchUnderWay(s')
  {
  }

  lemma {:induction false} ClosingLasts(atClose: State, s: State, events: seq<Event>, vaultOf: Runtime -> string)
    requires Closing(atClose, s) && StartsNothing(events)
    ensures Closing(atClose, After(s, events, vaultOf))
    decreases |events|
  {
    if events != [] {
      assert events[0] in events;
      assert StartsNothing(events[1..]);
      hide Closing, Step;
      ClosingGoesOn(atClose, s, events[0], vaultOf);
      ClosingLasts(atClose, Step(s, events[0], vaultOf), events[1..], vaultOf);
    }
  }

  /** How many more waits an activation or a switch has. */
  function WaitsLeft(call: Call): nat {
    match call
    case SwitchSnapshot => 4
    case SwitchFactory => 3
    case SwitchHolding(_) => 2
    case SwitchSaving(_) => 1
    case ActivationSnapshot(_, _) => 3
    case ActivationFactory(_, _) => 2
    case ActivationHolding(_, _, _) => 1
    case Reading(_, _) => 1
  }

  /** The call `id` settles `n` times with success. */
  function Succeeds(id: CallId, n: nat): seq<Event> {
    if n == 0 then [] else [Settle(id, true, false)] + Succeeds(id, n - 1)
  }

  lemma {:induction false} SucceedsStartsNothing(id: CallId, n: nat)
    ensures StartsNothing(Succeeds(id, n))
    decreases n
  {
    if n > 0 {
      SucceedsStartsNothing(id, n - 1);
    }
  }

  lemma {:induction false} SwitchMovesOn(s: State, vaultOf: Runtime -> string, id: CallId)
    requires Shape(s) && id in s.calls && IsSwitch(s.calls[id])
    ensures var s' := Step(s, Settle(id, true, false), vaultOf);
            if s.calls[id].SwitchSaving? then
              && s'.current == s.calls[id].runtime && s'.current !in s.adopted && s'.current !in s.closes
              && s'.adopted == s.adopted + [s'.current] && s'.closes == s.closes + multiset{s.current}
            else
              && s'.current == s.current && s'.adopted == s.adopted && s'.closes == s.closes
              && id in s'.calls && IsSwitch(s'.calls[id]) && WaitsLeft(s'.calls[id]) == WaitsLeft(s.calls[id]) - 1
  {
    assert CallOk(s, id, s.calls[id]);
  }

  /** A switch that succeeds at every wait makes a new runtime current and closes the one before. */
  lemma {:induction false} SwitchSucceeds(s: State, vaultOf: Runtime -> string, id: CallId)
    requires Shape(s) && id in s.calls && IsSwitch(s.calls[id])
    ensures var s' := After(s, Succeeds(id, WaitsLeft(s.calls[id])), vaultOf);
            && s'.current !in s.adopted && s'.adopted == s.adopted + [s'.current]
            && s'.closes == s.closes + multiset{s.current} && s'.current !in s.closes
    decreases WaitsLeft(s.calls[id])
  {
    var n, event := WaitsLeft(s.calls[id]), Settle(id, true, false);
    var s1 := Step(s, event, vaultOf);
    StepKeepsShape(s, event, vaultOf);
    SwitchMovesOn(s, vaultOf, id);
    hide Step, Shape;
    assert Succeeds(id, n)[0] == event && Succeeds(id, n)[1..] == Succeeds(id, n - 1);
    assert After(s, Succeeds(id, n), vaultOf) == After(s1, Succeeds(id, n - 1), vaultOf);
    if n > 1 {
      SwitchSucceeds(s1, vaultOf, id);
    }
  }

  /**
   * A switch under way outlives `close`, whatever it waits for: the runtime it replaces is closed
   * a second time, and the new one is current and never closed.
   */
  lemma {:induction false} SwitchOutlivesClose(s: State, vaultOf: Runtime -> string, id: CallId)
    requires Shape(s) && Conserved(s) && id in s.calls && IsSwitch(s.calls[id])
    ensures var s' := After(Step(s, Close, vaultOf), Succeeds(id, WaitsLeft(s.calls[id])), vaultOf);
            s'.closes[s.current] == 2 && s'.current != s.current && s'.closes[s'.current] == 0 && !WoundDown(s, s')
  {
    var s1 := Step(s, Close, vaultOf);
    assert Places(s, s.current) == 1 && s.closes[s.current] == 0;
    StepKeepsShape(s, Close, vaultOf);
    assert s.current in s.adopted;
    assert s1.current == s.current && s1.closes == s.closes + multiset{s.current} && s1.adopted == s.adopted && s1.calls == s.calls;
    hide Shape, Conserved, Places, Step, After;
    SwitchSucceeds(s1, vaultOf, id);
  }

  /**
   * `close` is final in every continuation, exactly when no switch is under way: nothing is adopted
   * and every runtime ever handed out is closed once, as soon as the call that holds it settles.
   */
  lemma {:induction false} CloseIsFinal(s: State, vaultOf: Runtime -> string)
    requires Shape(s) && Conserved(s)
    ensures (forall events :: StartsNothing(events) ==> WoundDown(s, After(Step(s, Close, vaultOf), events, vaultOf)))
      <==> NoSwitchUnderWay(s)
  {
    hide Shape, Conserved, WoundDown, Step;
    if NoSwitchUnderWay(s) {
      CloseBegins(s, vaultOf);
      forall events | StartsNothing(events) ensures WoundDown(s, After(Step(s, Close, vaultOf), events, vaultOf)) {
        ClosingLasts(s, Step(s, Close, vaultOf), events, vaultOf);
      }
    } else {
      var id :| id in s.calls && IsSwitch(s.calls[id]);
      SwitchOutlivesClose(s, vaultOf, id);
      SucceedsStartsNothing(id, WaitsLeft(s.calls[id]));
    }
  }

  // ---------- what cannot come back ----------

  /** A runtime that was replaced is never current again. */
  lemma {:induction false} ReplacedNeverReturns(s: State, events: seq<Event>, vaultOf: Runtime -> string, r: Runtime)
    requires Shape(s) && r in s.adopted && r != s.current
    ensures After(s, events, vaultOf).current != r
    decreases |events|
  {
    if events != [] {
      var s1 := Step(s, events[0], vaultOf);
      StepKeepsShape(s, events[0], vaultOf);
      NextCurrent(s, events[0], vaultOf);
      hide Shape, Step;
      ReplacedNeverReturns(s1, events[1..], vaultOf, r);
    }
  }

  lemma {:induction false} NextCurrent(s: State, event: Event, vaultOf: Runtime -> string)
    requires Shape(s)
    ensures var s' := Step(s, event, vaultOf);
            && (forall r :: r in s.adopted ==> r in s'.adopted)
            && (s'.current == s.current || s'.current !in s.adopted)
  {
    if event.Settle? && event.id in s.calls {
      assert CallOk(s, event.id, s.calls[event.id]);
    }
  }

  lemma {:induction false} ReadsStay(s: State, events: seq<Event>, vaultOf: Runtime -> string, id: CallId)
    requires id < s.nextCall && (id in s.calls ==> s.calls[id].Reading?)
    ensures var s' := After(s, events, vaultOf); id in s'.calls ==> id in s.calls && s'.calls[id] == s.calls[id]
    ensures id < After(s, events, vaultOf).nextCall
    decreases |events|
  {
    if events != [] {
      ReadsStay(Step(s, events[0], vaultOf), events[1..], vaultOf, id);
    }
  }

  lemma {:induction false} AfterJoin(s: State, a: seq<Event>, b: seq<Event>, vaultOf: Runtime -> string)
    ensures After(s, a + b, vaultOf) == After(After(s, a, vaultOf), b, vaultOf)
    decreases |a|
  {
    if a == [] {
      assert a + b == b;
    } else {
      assert (a + b)[1..] == a[1..] + b;
      AfterJoin(Step(s, a[0], vaultOf), a[1..], b, vaultOf);
    }
  }

  /**
   * A guarded read that begins in `s` and is answered with a response after the events `a + b`:
   * its runtime was the current one at every moment in between, and is of the vault asked for.
   */
  lemma {:induction false} GuardedReadIsCurrent(s: State, expectedVault: string, a: seq<Event>, b: seq<Event>, vaultOf: Runtime -> string, from: Runtime)
    requires Shape(s)
    requires var id := s.nextCall;
             var begun := Step(s, Read(expectedVault), vaultOf);
             var last := After(begun, a + b, vaultOf);
             id in begun.calls && id in last.calls && id !in last.answers
             && var done := Step(last, Settle(id, true, false), vaultOf);
                id in done.answers && done.answers[id] == Response(from)
    ensures from == s.current && vaultOf(from) == expectedVault
    ensures After(Step(s, Read(expectedVault), vaultOf), a, vaultOf).current == from
  {
    var id := s.nextCall;
    var begun := Step(s, Read(expectedVault), vaultOf);
    var middle := After(begun, a, vaultOf);
    var last := After(begun, a + b, vaultOf);
    assert begun.calls[id] == Reading(s.current, expectedVault);
    ReadsStay(begun, a + b, vaultOf, id);
    AfterJoin(begun, a, b, vaultOf);
    StepKeepsShape(s, Read(expectedVault), vaultOf);
    RunKeepsShape(begun, a, vaultOf);
    AdoptedGrows(begun, a, vaultOf, from);
    if middle.current != from {
      ReplacedNeverReturns(middle, b, vaultOf, from);
    }
  }

  lemma {:induction false} AdoptedGrows(s: State, events: seq<Event>, vaultOf: Runtime -> string, r: Runtime)
    requires Shape(s)
    ensures r in s.adopted ==> r in After(s, events, vaultOf).adopted
    decreases |events|
  {
    if events != [] {
      StepKeepsShape(s, events[0], vaultOf);
      NextCurrent(s, events[0], vaultOf);
      hide Shape, Step;
      AdoptedGrows(Step(s, events[0], vaultOf), events[1..], vaultOf, r);
    }
  }

  /** The call `id` is an activation that was overtaken, or is over; its runtime is not current. */
  ghost predicate Lost(s: State, id: CallId) {
    && id < s.nextCall && s.current < |s.issuedTo| && s.issuedTo[s.current] != Some(id)
    && (id in s.calls ==> IsActivation(s.calls[id]) && Overtaken(s, s.calls[id].generation, s.calls[id].target))
  }

  lemma {:induction false} LostStaysLost(s: State, event: Event, vaultOf: Runtime -> string, id: CallId)
    requires Shape(s) && Lost(s, id)
    ensures Lost(Step(s, event, vaultOf), id)
  {
    if id in s.calls {
      assert CallOk(s, id, s.calls[id]);
    }
    if event.Settle? && event.id in s.calls {
      assert CallOk(s, event.id, s.calls[event.id]);
      LostSettles(s, event.id, event.ok, event.throws, vaultOf, id);
    }
  }

  lemma {:induction false} LostSettles(s: State, settling: CallId, ok: bool, throws: bool, vaultOf: Runtime -> string, id: CallId)
    requires Shape(s) && Lost(s, id) && settling in s.calls && CallOk(s, settling, s.calls[settling])
    ensures Lost(SettleCall(s, settling, ok, throws, vaultOf), id)
  {
    hide Shape;
  }

  /** An activation that was overtaken, by a newer one or by a switch, never makes its runtime current. */
  lemma {:induction false} OvertakenNeverCurrent(s: State, events: seq<Event>, vaultOf: Runtime -> string, id: CallId)
    requires Shape(s) && id in s.calls && IsActivation(s.calls[id])
    requires Overtaken(s, s.calls[id].generation, s.calls[id].target)
    ensures var s' := After(s, events, vaultOf); s'.current < |s'.issuedTo| && s'.issuedTo[s'.current] != Some(id)
  {
    assert CallOk(s, id, s.calls[id]);
    LostForGood(s, events, vaultOf, id);
  }

  lemma {:induction false} LostForGood(s: State, events: seq<Event>, vaultOf: Runtime -> string, id: CallId)
    requires Shape(s) && Lost(s, id)
    ensures Lost(After(s, events, vaultOf), id)
    decreases |events|
  {
    if events != [] {
      StepKeepsShape(s, events[0], vaultOf);
      LostStaysLost(s, events[0], vaultOf, id);
      hide Shape, Lost, Step;
      LostForGood(Step(s, events[0], vaultOf), events[1..], vaultOf, id);
    }
  }

  /** A later activation, a switch and a close each overtake every activation still under way. */
  lemma {:induction false} NewerCallsOvertake(s: State, vaultOf: Runtime -> string, id: CallId)
    requires Shape(s) && id in s.calls && IsActivation(s.calls[id])
    ensures s.deferred.Some? ==>
      Overtaken(Step(s, Activate, vaultOf), s.calls[id].generation, s.calls[id].target)
    ensures Overtaken(Step(s, Switch, vaultOf), s.calls[id].generation, s.calls[id].target)
    ensures Overtaken(Step(s, Close, vaultOf), s.calls[id].generation, s.calls[id].target)
  {
    assert CallOk(s, id, s.calls[id]);
  }

  // ---------- what a call comes to ----------

  /** How often the call `id` settles in a run. */
  function Settles(id: CallId, events: seq<Event>): nat {
    if events == [] then 0
    else (if events[0].Settle? && events[0].id == id then 1 else 0) + Settles(id, events[1..])
  }

  /** Whenever the call `id` settles, the promise it waits for is fulfilled and no listener throws. */
  predicate NeverFails(id: CallId, events: seq<Event>) {
    forall e :: e in events && e.Settle? && e.id == id ==> e.ok && !e.throws
  }

  /** The call has `k` waits less than the call it started as, for the same purpose. */
  predicate FurtherOn(was: Call, call: Call, k: nat) {
    && WaitsLeft(call) + k == WaitsLeft(was)
    && (IsSwitch(was) <==> IsSwitch(call)) && (IsActivation(was) <==> IsActivation(call))
    && (IsActivation(was) ==> call.generation == was.generation && call.target == was.target)
    && (was.Reading? ==> call == was)
  }

  lemma {:induction false} MovesOn(s: State, event: Event, vaultOf: Runtime -> string, id: CallId)
    requires Shape(s) && id in s.calls
    requires event.Settle? && event.id == id ==> event.ok && !event.throws && WaitsLeft(s.calls[id]) > 1
    ensures var s', k := Step(s, event, vaultOf), Settles(id, [event]);
            id in s'.calls && FurtherOn(s.calls[id], s'.calls[id], k)
  {
    assert CallOk(s, id, s.calls[id]);
    assert Settles(id, [event]) == if event.Settle? && event.id == id then 1 else 0;
    hide Shape, CallOk;
    if event.Settle? && event.id in s.calls && event.id != id {
      OtherCallsStay(s, event, vaultOf, id);
    }
  }

  lemma {:induction false} OtherCallsStay(s: State, event: Event, vaultOf: Runtime -> string, id: CallId)
    requires event.Settle? && event.id in s.calls && id in s.calls && event.id != id
    ensures var s' := Step(s, event, vaultOf); id in s'.calls && s'.calls[id] == s.calls[id]
  {
  }

  /** A call goes on, wait after wait, whatever happens in between. */
  lemma {:induction false} RunMovesOn(s: State, events: seq<Event>, vaultOf: Runtime -> string, id: CallId)
    requires Shape(s) && id in s.calls && NeverFails(id, events) && Settles(id, events) < WaitsLeft(s.calls[id])
    ensures var s' := After(s, events, vaultOf);
            Shape(s') && id in s'.calls && FurtherOn(s.calls[id], s'.calls[id], Settles(id, events))
    decreases |events|
  {
    if events != [] {
      var s1 := Step(s, events[0], vaultOf);
      assert events[0] in events && NeverFails(id, events[1..]);
      assert Settles(id, [events[0]]) + Settles(id, events[1..]) == Settles(id, events);
      StepKeepsShape(s, events[0], vaultOf);
      MovesOn(s, events[0], vaultOf, id);
      hide Shape, Step;
      RunMovesOn(s1, events[1..], vaultOf, id);
    }
  }

  lemma {:induction false} AfterOneMore(s: State, events: seq<Event>, event: Event, vaultOf: Runtime -> string)
    ensures After(s, events + [event], vaultOf) == Step(After(s, events, vaultOf), event, vaultOf)
  {
    AfterJoin(s, events, [event], vaultOf);
    var s1 := After(s, events, vaultOf);
    assert After(s1, [event], vaultOf) == After(Step(s1, event, vaultOf), [], vaultOf);
  }

  /** No runtime is adopted between the two states. */
  predicate NothingAdoptedBetween(before: State, after: State) {
    after.current == before.current && after.adopted == before.adopted
  }

  /** A runtime made for the call `id`, never current before, replaces the current one. */
  predicate TakesOver(before: State, after: State, id: CallId) {
    && after.adopted == before.adopted + [after.current] && after.current !in before.adopted
    && after.current < |before.issuedTo| && before.issuedTo[after.current] == Some(id)
  }

  /** The one runtime that was made for the call `id` is closed, once. */
  ghost predicate GivesBack(before: State, after: State, id: CallId) {
    exists r: nat :: r < |before.issuedTo| && before.issuedTo[r] == Some(id)
                  && r !in before.closes && r != before.current && after.closes == before.closes + multiset{r}
  }

  /**
   * What an activation comes to: `events` bring it, with success and among whatever else happens,
   * to one of its three waits, and there it settles for the last time. It takes effect exactly
   * when it succeeds at all three waits and no other activation, switch or close came in between.
   */
  lemma {:induction false} ActivationEnds(s: State, events: seq<Event>, vaultOf: Runtime -> string, id: CallId, ok: bool, throws: bool)
    requires Shape(s) && id in s.calls && IsActivation(s.calls[id])
    requires NeverFails(id, events) && Settles(id, events) < WaitsLeft(s.calls[id])
    requires WaitsLeft(s.calls[id]) - Settles(id, events) > 1 ==> !ok || (WaitsLeft(s.calls[id]) - Settles(id, events) == 3 && throws)
    ensures var left := WaitsLeft(s.calls[id]) - Settles(id, events);
            var before := After(s, events, vaultOf);
            var after := After(s, events + [Settle(id, ok, throws)], vaultOf);
            var inTime := before.generation == s.calls[id].generation && before.deferred == Some(s.calls[id].target);
            && after.calls == before.calls - {id} && after.issuedTo == before.issuedTo && after.answers == before.answers
            && if left == 1 && ok && inTime then
                 && TakesOver(before, after, id) && after.deferred == None
                 && after.closes == before.closes + if throws then multiset{} else multiset{before.current}
               else
                 && NothingAdoptedBetween(before, after)
                 && after.deferred == (if left == 2 && inTime then None else before.deferred)
                 && if left == 1 then GivesBack(before, after, id) else after.closes == before.closes && Some(id) !in before.issuedTo
  {
    var before := After(s, events, vaultOf);
    RunMovesOn(s, events, vaultOf, id);
    AfterOneMore(s, events, Settle(id, ok, throws), vaultOf);
    ActivationSettles(before, vaultOf, id, ok, throws);
  }

  lemma {:induction false} ActivationSettles(s: State, vaultOf: Runtime -> string, id: CallId, ok: bool, throws: bool)
    requires Shape(s) && id in s.calls && IsActivation(s.calls[id])
    requires WaitsLeft(s.calls[id]) > 1 ==> !ok || (WaitsLeft(s.calls[id]) == 3 && throws)
    ensures var left := WaitsLeft(s.calls[id]);
            var after := Step(s, Settle(id, ok, throws), vaultOf);
            var inTime := s.generation == s.calls[id].generation && s.deferred == Some(s.calls[id].target);
            && after.calls == s.calls - {id} && after.issuedTo == s.issuedTo && after.answers == s.answers
            && if left == 1 && ok && inTime then
                 && TakesOver(s, after, id) && after.deferred == None
                 && after.closes == s.closes + if throws then multiset{} else multiset{s.current}
               else
                 && NothingAdoptedBetween(s, after)
                 && after.deferred == (if left == 2 && inTime then None else s.deferred)
                 && if left == 1 then GivesBack(s, after, id) else after.closes == s.closes && Some(id) !in s.issuedTo
  {
    assert CallOk(s, id, s.calls[id]);
  }

  /** An activation that is not overtaken takes effect after as many successes as it has waits. */
  lemma {:induction false} ActivationSucceeds(s: State, vaultOf: Runtime -> string, id: CallId)
    requires Shape(s) && id in s.calls && IsActivation(s.calls[id])
    requires s.generation == s.calls[id].generation && s.deferred == Some(s.calls[id].target)
    ensures var n: nat := if s.calls[id].ActivationSnapshot? then 3 else if s.calls[id].ActivationFactory? then 2 else 1;
            var after := After(s, Succeeds(id, n), vaultOf);
            && after.current !in s.adopted && after.current < |after.issuedTo| && after.issuedTo[after.current] == Some(id)
            && after.deferred == None && after.closes == s.closes + multiset{s.current} && after.calls == s.calls - {id}
    decreases WaitsLeft(s.calls[id])
  {
    assert CallOk(s, id, s.calls[id]);
    var n, event := WaitsLeft(s.calls[id]), Settle(id, true, false);
    var s1 := Step(s, event, vaultOf);
    StepKeepsShape(s, event, vaultOf);
    assert Succeeds(id, n)[0] == event && Succeeds(id, n)[1..] == Succeeds(id, n - 1);
    assert After(s, Succeeds(id, n), vaultOf) == After(s1, Succeeds(id, n - 1), vaultOf);
    if n > 1 {
      ActivationSucceeds(s1, vaultOf, id);
    } else {
      ActivationSettles(s, vaultOf, id, true, false);
    }
  }

  /**
   * What a switch comes to, in the same way: it takes effect exactly when it succeeds at every wait,
   * and a new runtime that does not take over is closed.
   */
  lemma {:induction false} SwitchEnds(s: State, events: seq<Event>, vaultOf: Runtime -> string, id: CallId, ok: bool, throws: bool)
    requires Shape(s) && id in s.calls && IsSwitch(s.calls[id])
    requires NeverFails(id, events) && Settles(id, events) < WaitsLeft(s.calls[id])
    requires WaitsLeft(s.calls[id]) - Settles(id, events) > 1 ==> !ok || (WaitsLeft(s.calls[id]) - Settles(id, events) == 4 && throws)
    ensures var left := WaitsLeft(s.calls[id]) - Settles(id, events);
            var before := After(s, events, vaultOf);
            var after := After(s, events + [Settle(id, ok, throws)], vaultOf);
            && after.calls == before.calls - {id} && after.issuedTo == before.issuedTo && after.answers == before.answers
            && after.deferred == before.deferred && after.generation == before.generation
            && if left == 1 && ok then
                 && TakesOver(before, after, id)
                 && after.closes == before.closes + if throws then multiset{} else multiset{before.current}
               else
                 && NothingAdoptedBetween(before, after)
                 && if left <= 2 then GivesBack(before, after, id) else after.closes == before.closes && Some(id) !in before.issuedTo
  {
    var before := After(s, events, vaultOf);
    RunMovesOn(s, events, vaultOf, id);
    AfterOneMore(s, events, Settle(id, ok, throws), vaultOf);
    assert CallOk(before, id, before.calls[id]);
  }

  /** Each activation and each switch starts as a call of its own and leaves all others as they were. */
  lemma CallsBegin(s: State, vaultOf: Runtime -> string)
    requires Shape(s)
    ensures var a := Step(s, Activate, vaultOf);
            if s.deferred.None? then a == s
            else
              && s.nextCall !in s.calls && a.calls.Keys == s.calls.Keys + {s.nextCall}
              && (forall id :: id in s.calls ==> a.calls[id] == s.calls[id])
              && a.calls[s.nextCall] == ActivationSnapshot(a.generation, s.deferred.value) && a.deferred == s.deferred
              && NothingAdoptedBetween(s, a) && a.closes == s.closes && a.issuedTo == s.issuedTo && a.answers == s.answers
    ensures var w := Step(s, Switch, vaultOf);
            && s.nextCall !in s.calls && w.calls.Keys == s.calls.Keys + {s.nextCall}
            && (forall id :: id in s.calls ==> w.calls[id] == s.calls[id])
            && IsSwitch(w.calls[s.nextCall]) && WaitsLeft(w.calls[s.nextCall]) == (if s.deferred.Some? then 4 else 3)
            && w.deferred == None && NothingAdoptedBetween(s, w)
            && w.closes == s.closes && w.issuedTo == s.issuedTo && w.answers == s.answers
  {
    assert s.nextCall in s.calls ==> CallOk(s, s.nextCall, s.calls[s.nextCall]);
  }

  /** Until it settles, a guarded read neither moves nor is answered. */
  lemma {:induction false} ReadWaits(s: State, events: seq<Event>, vaultOf: Runtime -> string, id: CallId)
    requires Shape(s) && id in s.calls && s.calls[id].Reading? && Settles(id, events) == 0
    ensures var s' := After(s, events, vaultOf); Shape(s') && id in s'.calls && s'.calls[id] == s.calls[id]
  {
    NeverSettles(id, events);
    RunMovesOn(s, events, vaultOf, id);
  }

  lemma {:induction false} NeverSettles(id: CallId, events: seq<Event>)
    requires Settles(id, events) == 0
    ensures NeverFails(id, events)
  {
    if events != [] {
      NeverSettles(id, events[1..]);
      forall e | e in events && e.Settle? && e.id == id ensures e.ok && !e.throws {
        assert e == events[0] || e in events[1..];
      }
    }
  }

  /**
   * What a guarded read answers, whatever happens while it waits: refused while an initial vault is
   * still to be opened; stale, with the vault that is open, for another vault than the current one;
   * and otherwise a response exactly when the same runtime is current at the end.
   */
  lemma {:induction false} GuardedReadAnswers(s: State, expectedVault: string, events: seq<Event>, vaultOf: Runtime -> string, ok: bool, throws: bool)
    requires Shape(s) && Settles(s.nextCall, events) == 0
    ensures var id, begun := s.nextCall, Step(s, Read(expectedVault), vaultOf);
            var last := After(begun, events, vaultOf);
            var done := After(begun, events + [Settle(id, ok, throws)], vaultOf);
            && NothingAdoptedBetween(s, begun) && begun.deferred == s.deferred && begun.closes == s.closes && begun.issuedTo == s.issuedTo
            && if s.deferred.Some? then id in begun.answers && begun.answers[id] == Refused && begun.calls == s.calls
               else if vaultOf(s.current) != expectedVault then
                 id in begun.answers && begun.answers[id] == StaleVault(vaultOf(s.current)) && begun.calls == s.calls
               else
                 && done.calls == last.calls - {id} && NothingAdoptedBetween(last, done)
                 && done.deferred == last.deferred && done.closes == last.closes && done.issuedTo == last.issuedTo
                 && (!ok ==> done.answers == last.answers)
                 && (ok ==> id in done.answers && done.answers[id] ==
                              if last.current == s.current then Response(s.current) else StaleVault(vaultOf(last.current)))
  {
    var id, begun := s.nextCall, Step(s, Read(expectedVault), vaultOf);
    StepKeepsShape(s, Read(expectedVault), vaultOf);
    if s.deferred.None? && vaultOf(s.current) == expectedVault {
      ReadWaits(begun, events, vaultOf, id);
      AfterOneMore(begun, events, Settle(id, ok, throws), vaultOf);
    }
  }

  /** An answer, once given, stays. */
  lemma {:induction false} AnswersStay(s: State, events: seq<Event>, vaultOf: Runtime -> string, id: CallId)
    requires id < s.nextCall && id !in s.calls
    ensures var s' := After(s, events, vaultOf);
            (id in s'.answers <==> id in s.answers) && (id in s.answers ==> s'.answers[id] == s.answers[id])
    decreases |events|
  {
    if events != [] {
      AnswerStays(s, events[0], vaultOf, id);
      hide Step;
      AnswersStay(Step(s, events[0], vaultOf), events[1..], vaultOf, id);
    }
  }

  lemma {:induction false} AnswerStays(s: State, event: Event, vaultOf: Runtime -> string, id: CallId)
    requires id < s.nextCall && id !in s.calls
    ensures var s' := Step(s, event, vaultOf);
            && id < s'.nextCall && id !in s'.calls
            && (id in s'.answers <==> id in s.answers) && (id in s.answers ==> s'.answers[id] == s.answers[id])
  {
  }
}
