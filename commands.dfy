/**
 * Commands as the handler sees them: an `ICommand`, which is either a plain
 * fire-and-forget command or an undoable one (a subclass of
 * `UndoableCommandBase`). A command's behaviour is an `Action`; invoking it
 * appends one `Invocation` to the application's `World` log and then, if the
 * action is one that throws, fails with that exception. The effect recorded
 * before the throw stays in the log.
 */
module Commands {
  import opened Wrappers

  /** The exceptions of the core. A command's own exception travels unchanged. */
  datatype Exception =
    | ApplicationException(message: Option<string>)
    | ArgumentNullException(paramName: string)

  /**
   * A delegate or an overridden `Execute`/`Undo` body: `name` is the name of the
   * method behind it, `delta` what it adds to the application's counter (as the
   * tests' `Number++`), `failure` the exception it throws after its effect, if any.
   */
  datatype Action = Action(name: string, delta: int, failure: Option<Exception>)

  datatype Phase = Forward | Backward

  /** One invocation of a command's behaviour: forward is `Execute`, backward is `Undo`. */
  datatype Invocation = Invocation(command: nat, phase: Phase, action: Action)

  /**
   * An object deriving from `UndoableCommandBase`. `id` stands for the object's
   * reference identity (two commands are the same object exactly when they
   * are equal); `isImplicit` is set once by the base constructor.
   *   Subclass: any other subclass, such as the `AddOneCommand` of the tests;
   *   Delegate: a `DelegateUndoableCommand`, which also has a display header.
   */
  datatype UndoableCommandBase =
    | Subclass(id: nat, isImplicit: bool, executeAction: Action, undoAction: Action)
    | Delegate(id: nat, isImplicit: bool, executeAction: Action, undoAction: Action, header: Option<string>)

  /** An `ICommand`: undoable exactly when it is an `UndoableCommandBase`. */
  datatype Command =
    | Plain(id: nat, action: Action)
    | Undoable(cmd: UndoableCommandBase)
  {
    function Id(): nat {
      match this
      case Plain(id, _) => id
      case Undoable(c) => c.id
    }
  }

  /** `c as UndoableCommandBase`: the handler's `IsAssignableFrom`/`is` test and cast. */
  function AsUndoable(c: Command): (r: Option<UndoableCommandBase>)
    ensures r.Some? <==> c.Undoable?
    ensures r.Some? ==> Undoable(r.value) == c
  {
    match c
    case Plain(_, _) => None
    case Undoable(u) => Some(u)
  }

  /** The protected parameterless base constructor, which chains to `this(false)`. */
  function NewCommandBase(id: nat, executeAction: Action, undoAction: Action): (c: UndoableCommandBase)
    ensures !c.isImplicit && c.id == id
  {
    NewImplicitCommandBase(id, false, executeAction, undoAction)
  }

  /** The protected base constructor taking the flag; the flag has a private setter. */
  function NewImplicitCommandBase(id: nat, isImplicit: bool, executeAction: Action, undoAction: Action): (c: UndoableCommandBase)
    ensures c.isImplicit == isImplicit && c.id == id
    ensures c.executeAction == executeAction && c.undoAction == undoAction
  {
    Subclass(id, isImplicit, executeAction, undoAction)
  }

  /** What `ICommand.Execute(parameter)` runs; an undoable command forwards to its own `Execute()`. */
  function ExecuteActionOf(c: Command): (a: Action)
    ensures c.Undoable? ==> a == c.cmd.executeAction
  {
    match c
    case Plain(_, a) => a
    case Undoable(u) => u.executeAction
  }

  /** The effect of invoking action `a` of command `id` on the application log, and its outcome. */
  function Invoke(log: seq<Invocation>, id: nat, phase: Phase, a: Action): (r: (seq<Invocation>, Outcome<Exception>))
    ensures r.0 == log + [Invocation(id, phase, a)]
    ensures r.1.Fail? <==> a.failure.Some?
    ensures r.1.Fail? ==> r.1.error == a.failure.value
  {
    (log + [Invocation(id, phase, a)], if a.failure.Some? then Fail(a.failure.value) else Pass)
  }

  /** The net change the logged invocations made to the application's counter. */
  function NetEffect(log: seq<Invocation>): int {
    if log == [] then 0 else NetEffect(log[..|log| - 1]) + log[|log| - 1].action.delta
  }

  lemma NetEffectSnoc(log: seq<Invocation>, i: Invocation)
    ensures NetEffect(log + [i]) == NetEffect(log) + i.action.delta
  {
    assert (log + [i])[..|log|] == log;
  }

  /** The application objects the commands act on, seen through the log of what ran. */
  class World {
    var log: seq<Invocation>

    constructor ()
      ensures log == []
    {
      log := [];
    }

    method Run(id: nat, phase: Phase, a: Action) returns (r: Outcome<Exception>)
      modifies this
      ensures (log, r) == Invoke(old(log), id, phase, a)
    {
      log := log + [Invocation(id, phase, a)];
      r := if a.failure.Some? then Fail(a.failure.value) else Pass;
    }
  }

  /** The `object` parameter of `ICommand.Execute` and `CanExecute`: null or some value. */
  datatype Parameter = Null | Value(value: int)

  /** `ICommand.Execute(parameter)`: the parameter is ignored and `Execute()` runs. */
  method ExecuteCommand(c: Command, parameter: Parameter, world: World) returns (r: Outcome<Exception>)
    modifies world
    ensures (world.log, r) == Invoke(old(world.log), c.Id(), Forward, ExecuteActionOf(c))
  {
    r := world.Run(c.Id(), Forward, ExecuteActionOf(c));
  }

  /** The tests' `AddOneCommand`: `Number++` on execute, `Number--` on undo. */
  function AddOne(id: nat): (c: UndoableCommandBase)
    ensures !c.isImplicit && c.executeAction.delta == 1 && c.undoAction.delta == -1
    ensures c.executeAction.failure.None? && c.undoAction.failure.None?
  {
    NewCommandBase(id, Action("Execute", 1, None), Action("Undo", -1, None))
  }
}
