/**
 * `CommandExecutionContext`: a scope over a shared handler that records every
 * command executed through it, swallows whatever the handler throws, and on
 * `Dispose` retracts the recorded commands from both lists.
 */
module ExecutionContext {
  import opened Wrappers
  import opened ListOps
  import opened Commands
  import opened UndoRedo
  import opened Handler

  /** What the context's catch-all keeps of a call's outcome: the exception, if one was thrown. */
  function Swallowed(r: Outcome<Exception>): (e: Option<Exception>)
    ensures e.Some? <==> r.Fail?
    ensures e.Some? ==> e.value == r.error
  {
    if r.Fail? then Some(r.error) else None
  }

  /** The lists after `Dispose`: the handler's clean-up with the recorded commands. */
  function AfterDispose(lists: Stacks<UndoableCommandBase>, executed: seq<Command>): (r: Stacks<UndoableCommandBase>)
    ensures r.maxStackSize == lists.maxStackSize
    ensures |r.undo| <= |lists.undo| && |r.redo| <= |lists.redo|
  {
    AfterCleanUp(lists, UndoablesOf(executed))
  }

  /**
   * With both lists free of duplicates, `Dispose` leaves exactly the entries
   * that were not recorded, in their order, on whichever list they were.
   */
  lemma DisposeRetractsRecorded(lists: Stacks<UndoableCommandBase>, executed: seq<Command>)
    requires Distinct(lists.undo) && Distinct(lists.redo)
    ensures var r := AfterDispose(lists, executed);
      r.undo == Without(lists.undo, UndoablesOf(executed)) &&
      r.redo == Without(lists.redo, UndoablesOf(executed))
    ensures var r := AfterDispose(lists, executed);
      forall u :: (u in r.undo <==> u in lists.undo && Undoable(u) !in executed) &&
        (u in r.redo <==> u in lists.redo && Undoable(u) !in executed)
  {
    var items := UndoablesOf(executed);
    CleanUpRemovesItems(lists, items);
    WithoutMembers(lists.undo, items);
    WithoutMembers(lists.redo, items);
  }

  /** The record is not cleared: a second `Dispose` over lists free of duplicates changes no list. */
  lemma DisposeTwiceIsDisposeOnce(lists: Stacks<UndoableCommandBase>, executed: seq<Command>)
    requires Distinct(lists.undo) && Distinct(lists.redo)
    ensures AfterDispose(AfterDispose(lists, executed), executed) == AfterDispose(lists, executed)
  {
    var items := UndoablesOf(executed);
    var once := AfterDispose(lists, executed);
    CleanUpRemovesItems(lists, items);
    WithoutDistinct(lists.undo, items);
    WithoutDistinct(lists.redo, items);
    assert once.undo == Without(lists.undo, items) && once.redo == Without(lists.redo, items);
    CleanUpRemovesItems(once, items);
    WithoutIdempotent(lists.undo, items);
    WithoutIdempotent(lists.redo, items);
  }

  class CommandExecutionContext {
    const handler: CommandHandler
    var executedCommands: seq<Command>

    constructor (commandHandler: CommandHandler)
      ensures handler == commandHandler && executedCommands == []
    {
      handler := commandHandler;
      executedCommands := [];
    }

    /**
     * `Execute(command)`: records the command first, so a failing one is
     * recorded too, then has the handler execute it; what the handler throws
     * is caught and only reported back as `swallowed`.
     */
    method Execute(command: Command, world: World) returns (swallowed: Option<Exception>)
      requires command.Undoable? ==> CanAdd(handler.stack.View())
      modifies this, handler, handler.stack, world
      ensures executedCommands == old(executedCommands) + [command]
      ensures handler.View(world) == ExecuteStep(old(handler.View(world)), command).0
      ensures swallowed == Swallowed(ExecuteStep(old(handler.View(world)), command).1)
    {
      executedCommands := executedCommands + [command];
      var r := handler.Execute(command, world);
      swallowed := Swallowed(r);
    }

    /** `Dispose()`: the handler cleans up every recorded command; the record is kept. */
    method Dispose()
      modifies handler, handler.stack
      ensures handler.stack.View() == AfterDispose(old(handler.stack.View()), executedCommands)
      ensures handler.events == old(handler.events) + [Notice(handler.stack.View(), None, CommandOperation.Cleanup)]
    {
      handler.CleanUp(executedCommands);
    }
  }

  /** Start at 1; a counter command executed through a context: the counter reads 2. */
  method ContextExecutesCommand() returns (number: int, swallowed: Option<Exception>)
    ensures number == 2 && swallowed.None?
  {
    var stack := new UndoRedoStack<UndoableCommandBase>();
    var handler := new CommandHandler(stack);
    var world := new World();
    var context := new CommandExecutionContext(handler);
    swallowed := context.Execute(Undoable(AddOne(1)), world);
    NetEffectSnoc([], Invocation(1, Forward, AddOne(1).executeAction));
    number := 1 + NetEffect(world.log);
  }

  /** A plain command that throws, executed through a context: recorded, run, and its exception swallowed. */
  method ContextSwallowsFailure() returns (swallowed: Option<Exception>, recorded: seq<Command>, ran: bool)
    ensures swallowed == Some(ApplicationException(Some("Something went wrong")))
    ensures recorded == [Plain(1, Action("Execute", 0, Some(ApplicationException(Some("Something went wrong")))))]
    ensures ran
  {
    var stack := new UndoRedoStack<UndoableCommandBase>();
    var handler := new CommandHandler(stack);
    var world := new World();
    var context := new CommandExecutionContext(handler);
    var command := Plain(1, Action("Execute", 0, Some(ApplicationException(Some("Something went wrong")))));
    swallowed := context.Execute(command, world);
    recorded := context.executedCommands;
    ran := world.log == [Invocation(1, Forward, command.action)];
  }

  /** Disposing the first of two contexts that each executed one command leaves the second one's command. */
  lemma DisposeFirstOfTwo(lists: Stacks<UndoableCommandBase>, a: UndoableCommandBase, b: UndoableCommandBase)
    requires lists.undo == [a, b] && lists.redo == [] && a != b
    ensures AfterDispose(lists, [Undoable(a)]).undo == [b]
  {
    assert UndoablesOf([Undoable(a)]) == [a] by {
      assert [Undoable(a)][1..] == [];
    }
    assert RemoveEach(lists.undo, [a]) == RemoveFirst(lists.undo, a) by {
      assert [a][..0] == [];
    }
    assert RemoveFirst(lists.undo, a) == [b] by {
      assert lists.undo[1..] == [b];
    }
  }

  /** One undoable command executed through a context, on a stack of the default capacity with room left. */
  method ExecuteThrough(context: CommandExecutionContext, u: UndoableCommandBase, world: World)
    requires context.handler.stack.View() == Stacks(context.handler.stack.undo, [], DefaultMaxStackSize)
    requires |context.handler.stack.undo| < DefaultMaxStackSize
    modifies context, context.handler, context.handler.stack, world
    ensures context.handler.stack.View() == Stacks(old(context.handler.stack.undo) + [u], [], DefaultMaxStackSize)
    ensures context.executedCommands == old(context.executedCommands) + [Undoable(u)]
  {
    var _ := context.Execute(Undoable(u), world);
  }

  /** Two contexts over one empty handler, each executing one counter command. */
  method ExecuteInBoth(context1: CommandExecutionContext, context2: CommandExecutionContext, world: World)
    requires context1 != context2 && context1.handler == context2.handler
    requires context1.handler.stack.View() == Stacks([], [], DefaultMaxStackSize)
    requires context1.executedCommands == []
    modifies context1, context2, context1.handler, context1.handler.stack, world
    ensures context1.handler.stack.View() == Stacks([AddOne(1), AddOne(2)], [], DefaultMaxStackSize)
    ensures context1.executedCommands == [Undoable(AddOne(1))]
  {
    ExecuteThrough(context1, AddOne(1), world);
    ExecuteThrough(context2, AddOne(2), world);
  }

  /** Disposing the context that recorded the first of two entries leaves the second. */
  method DisposeFirst(context: CommandExecutionContext)
    requires context.handler.stack.View() == Stacks([AddOne(1), AddOne(2)], [], DefaultMaxStackSize)
    requires context.executedCommands == [Undoable(AddOne(1))]
    modifies context.handler, context.handler.stack
    ensures context.handler.stack.undo == [AddOne(2)]
  {
    DisposeFirstOfTwo(context.handler.stack.View(), AddOne(1), AddOne(2));
    context.Dispose();
  }

  /** Two contexts over one handler, one command each: two undo entries; disposing the first leaves the second's command. */
  method TwoContextsOneHandler() returns (before: nat, after: seq<UndoableCommandBase>)
    ensures before == 2 && after == [AddOne(2)]
  {
    var stack := new UndoRedoStack<UndoableCommandBase>();
    var handler := new CommandHandler(stack);
    var world := new World();
    var context1 := new CommandExecutionContext(handler);
    var context2 := new CommandExecutionContext(handler);
    ExecuteInBoth(context1, context2, world);
    before := |stack.UndoItems()|;
    DisposeFirst(context1);
    after := stack.UndoItems();
  }

  /**
   * Disposing a context twice, when the lists hold no duplicates: the second
   * `Dispose` changes no list but fires a second Cleanup event.
   */
  method DisposeAgain(context: CommandExecutionContext) returns (same: bool, fired: nat)
    requires Distinct(context.handler.stack.undo) && Distinct(context.handler.stack.redo)
    modifies context.handler, context.handler.stack
    ensures same && fired == 2
  {
    var handler := context.handler;
    var events := handler.events;
    ghost var executed := context.executedCommands;
    ghost var before := handler.stack.View();
    DisposeTwiceIsDisposeOnce(before, executed);
    context.Dispose();
    var once := handler.stack.View();
    assert once == AfterDispose(before, executed);
    context.Dispose();
    assert handler.stack.View() == AfterDispose(once, executed);
    same := handler.stack.View() == once;
    fired := |handler.events| - |events|;
  }

  /** One command executed through a context, then the context disposed twice. */
  method DisposeTwice() returns (same: bool, fired: nat)
    ensures same && fired == 2
  {
    var stack := new UndoRedoStack<UndoableCommandBase>();
    var handler := new CommandHandler(stack);
    var world := new World();
    var context := new CommandExecutionContext(handler);
    ExecuteThrough(context, AddOne(1), world);
    same, fired := DisposeAgain(context);
  }
}
