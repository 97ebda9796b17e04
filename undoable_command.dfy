/**
 * `UndoableCommand`: an `ICommand` for the user interface that, when executed
 * with a parameter, asks its factory for the undoable command to run and
 * routes that command through an execution context.
 */
module ComposingCommand {
  import opened Wrappers
  import opened Commands
  import opened UndoRedo
  import opened Handler
  import opened ExecutionContext

  /**
   * The three readonly fields: the context commands are routed through, the
   * factory, and the optional `canExecute` predicate (null when not supplied).
   * The factory either returns the command to run or throws.
   */
  datatype UndoableCommand = UndoableCommand(
    context: CommandExecutionContext,
    executeFunction: Parameter -> Result<UndoableCommandBase, Exception>,
    canExecuteFunction: Option<Parameter -> bool>)

  /** `CanExecute(parameter)`: true without a predicate, otherwise the predicate's answer. */
  function CanExecute(command: UndoableCommand, parameter: Parameter): (b: bool)
    ensures command.canExecuteFunction.None? ==> b
    ensures command.canExecuteFunction.Some? ==> (b <==> command.canExecuteFunction.value(parameter))
  {
    command.canExecuteFunction.None? || command.canExecuteFunction.value(parameter)
  }

  /** Built without a predicate, the command can execute with every parameter, null included. */
  lemma AlwaysExecutableWithoutPredicate(context: CommandExecutionContext, f: Parameter -> Result<UndoableCommandBase, Exception>)
    ensures forall p :: CanExecute(UndoableCommand(context, f, None), p)
  {
  }

  /**
   * `Execute(parameter)`: the factory runs first, outside the context, so an
   * exception it throws escapes to the caller with nothing recorded or run;
   * otherwise its command is handed to the context, which records it, has the
   * handler execute it and swallows what it throws.
   */
  method Execute(command: UndoableCommand, parameter: Parameter, world: World) returns (escaped: Option<Exception>, swallowed: Option<Exception>)
    requires command.executeFunction(parameter).Success? ==> CanAdd(command.context.handler.stack.View())
    modifies command.context, command.context.handler, command.context.handler.stack, world
    ensures command.executeFunction(parameter).Failure? ==>
      escaped == Some(command.executeFunction(parameter).error) && swallowed == None &&
      command.context.executedCommands == old(command.context.executedCommands) &&
      command.context.handler.View(world) == old(command.context.handler.View(world))
    ensures command.executeFunction(parameter).Success? ==> escaped == None
    ensures command.executeFunction(parameter).Success? ==>
      command.context.executedCommands == old(command.context.executedCommands) + [Undoable(command.executeFunction(parameter).value)]
    ensures command.executeFunction(parameter).Success? ==>
      command.context.handler.View(world) == ExecuteStep(old(command.context.handler.View(world)), Undoable(command.executeFunction(parameter).value)).0
    ensures command.executeFunction(parameter).Success? ==>
      swallowed == Swallowed(ExecuteStep(old(command.context.handler.View(world)), Undoable(command.executeFunction(parameter).value)).1)
  {
    var commandToExecute := command.executeFunction(parameter);
    if commandToExecute.Failure? {
      return Some(commandToExecute.error), None;
    }
    escaped := None;
    swallowed := command.context.Execute(Undoable(commandToExecute.value), world);
  }

  /** A command whose execute throws `ApplicationException` after running. */
  function Throwing(id: nat): (c: UndoableCommandBase)
    ensures !c.isImplicit && c.id == id
    ensures c.executeAction.failure == Some(ApplicationException(Some("Something went wrong")))
  {
    NewCommandBase(id, Action("Execute", 0, Some(ApplicationException(Some("Something went wrong")))), Action("Undo", 0, None))
  }

  /**
   * A factory whose command throws, routed through a context: the failure is
   * swallowed, the command is recorded for clean-up and stays on the undo list.
   */
  method FailureIsSwallowedAndRecorded() returns (escaped: Option<Exception>, swallowed: Option<Exception>, recorded: seq<Command>, undoItems: seq<UndoableCommandBase>)
    ensures escaped == None && swallowed == Some(ApplicationException(Some("Something went wrong")))
    ensures recorded == [Undoable(Throwing(1))] && undoItems == [Throwing(1)]
  {
    var stack := new UndoRedoStack<UndoableCommandBase>();
    var handler := new CommandHandler(stack);
    var world := new World();
    var context := new CommandExecutionContext(handler);
    var command := UndoableCommand(context, _ => Success(Throwing(1)), None);
    escaped, swallowed := Execute(command, Null, world);
    recorded := context.executedCommands;
    undoItems := stack.UndoItems();
  }

  /**
   * A factory that throws for a null parameter: its exception reaches the
   * caller, and the context records nothing and the handler runs nothing.
   */
  method FactoryFailureEscapes() returns (escaped: Option<Exception>, swallowed: Option<Exception>, recorded: seq<Command>, undoItems: seq<UndoableCommandBase>)
    ensures escaped == Some(ArgumentNullException("parameter")) && swallowed == None
    ensures recorded == [] && undoItems == []
  {
    var stack := new UndoRedoStack<UndoableCommandBase>();
    var handler := new CommandHandler(stack);
    var world := new World();
    var context := new CommandExecutionContext(handler);
    var factory := (p: Parameter) => if p.Null? then Failure(ArgumentNullException("parameter")) else Success(AddOne(1));
    var command := UndoableCommand(context, factory, None);
    escaped, swallowed := Execute(command, Null, world);
    recorded := context.executedCommands;
    undoItems := stack.UndoItems();
  }

  /** With a predicate accepting only values, a null parameter cannot execute and a value can. */
  method PredicateDecides() returns (onNull: bool, onValue: bool)
    ensures !onNull && onValue
  {
    var stack := new UndoRedoStack<UndoableCommandBase>();
    var handler := new CommandHandler(stack);
    var context := new CommandExecutionContext(handler);
    var command := UndoableCommand(context, _ => Success(AddOne(1)), Some((p: Parameter) => p.Value?));
    onNull := CanExecute(command, Null);
    onValue := CanExecute(command, Value(7));
  }
}
