# Command and undo/redo engine of Foo.Base.Desktop

This project models the command engine in `Foo.Base.Desktop/Command`. The engine has three stateful parts:

- **`UndoRedoStack<TItem>`** is a bounded pair of lists, undo and redo. In both lists index 0 is the oldest entry and the last element is the top.
- **`CommandHandler`** executes commands on one shared stack. It undoes and redoes `n` commands at a time, and implicit commands ride along without using up a count. Each successful operation fires an `OperationExecuted` notification.
- **`CommandExecutionContext`** is a scope over a handler. It records every command executed through it and swallows whatever the handler throws. On `Dispose` it retracts the recorded commands from both lists.

There are three command types:

- **`UndoableCommandBase`** holds the fixed `isImplicit` flag.
- **`DelegateUndoableCommand`** runs two delegates and rejects a null one.
- **`UndoableCommand`** takes its command from a factory and routes it through a context.

## Files

| file | module | models |
|---|---|---|
| `wrappers.dfy` | `Wrappers` | `Option`, `Outcome` (pass or an exception) and `Result` |
| `list_ops.dfy` | `ListOps` | `IList.Remove` (the first equal element goes) and the order-keeping filter it amounts to on lists without duplicates |
| `commands.dfy` | `Commands` | `ICommand`, `UndoableCommandBase`, exceptions, and the `World` log that command behaviour writes to |
| `undo_redo_stack.dfy` | `UndoRedo` | `UndoRedoStack<TItem>` and `ListStackExtension.Pop` |
| `command_handler.dfy` | `Handler` | `CommandHandler`, `OperationExecutionEventArgs`, `CommandOperation` |
| `handler_scenarios.dfy` | `HandlerScenarios` | the handler's acceptance and unit scenarios, and implicit-command scenarios |
| `delegate_undoable_command.dfy` | `DelegateCommands` | `DelegateUndoableCommand` |
| `execution_context.dfy` | `ExecutionContext` | `CommandExecutionContext` |
| `undoable_command.dfy` | `ComposingCommand` | `UndoableCommand` |

## How the model works

**Commands and identity.** A command is a value that carries an `id`, which stands for its reference identity. No command type overrides `Equals`, so two commands are the same object exactly when they are equal values. A command's `Execute` or `Undo` body is an `Action`, made of:

- the name of the method behind it;
- what it adds to the application's counter (as `Number++` does in the tests);
- the exception it throws, if it throws one.

Running an action appends an `Invocation` to the `World` log first and then throws. The effect of a command that throws therefore stays in the log, as it does in the program.

**The stack.** `UndoRedoStack` is a class with the fields `undo`, `redo` and `maxStackSize`. Each method ensures that the new value of those fields, `View()`, is a transition function of the old one: `AfterAdd`, `AfterUndo`, `AfterRedo`, `AfterCleanUp` or `AfterReset`. `CleanUp` keeps the source's loop in the list-only method `RemoveFromBoth`, and `CleanUpRemovesItems` states what `AfterCleanUp` leaves. The stack's properties are proved about these functions.

**The handler.** `CommandHandler` is a class: a reference to the shared stack plus the log of fired events. Its state together with the application log is a `Config`.

- `Execute` is specified by `ExecuteStep`.
- `Undo(n)` and `Redo(n)` keep the source's `for` loop, including its counter decrement. They are specified by `UndoLoop` and `RedoLoop`, which terminate on the length of the list being popped.
- An exception is the `Fail` outcome of the call. Everything done before it (moved items, logged invocations, fired events) stays in the returned configuration.

**The context and `UndoableCommand`.** `CommandExecutionContext` is a class. It holds the handler and the `executedCommands` record. `UndoableCommand`'s fields are read-only, so it is a datatype holding the context, the factory and the optional predicate.

**Two behaviours of the code are modelled as written.**

- `ListStackExtension.Pop` returns the last element but removes the first element equal to it (`UndoRedoStack.cs:108-113`). When the top item also occurs lower down, `Undo` keeps the top copy and drops the older one. The Undo-then-Redo round trip is proved only for lists without such repeats, and `UndoRedoWithDuplicateTop` shows the reordering.
- `Redo(n)` decides whether an iteration counts by looking at `RedoItems().First()` (`CommandHandler.cs:53-54`). That is the element at index 0, the oldest entry, and not the next item popped, although the comment on that line speaks of the "next command" (`CommandHandler.cs:54`). The model follows the code. `RedoWithImplicitFirstRedoesAll` proves the consequence: an implicit command at index 0 makes `Redo(1)` redo the whole list. `RedoLeavesImplicitBehind` shows that an implicit command in the middle does not ride along.

**Eviction threshold.** `AddItem` evicts when the undo list already holds at least the capacity (`UndoRedoStack.cs:37`), which keeps the list within the capacity.

**The capacity test.** `ShouldLimitTheStackSizeAccordingly` expects to find item 10 at index 0. The test adds `MaxStackSize + 10` items and expects index 0 to hold item `MaxStackSize - 10` (`UndoRedoStackTest.cs:190-197`). For a general capacity `m`, `StackSizeLimit` proves that index 0 holds item 10 after `m + 10` adds. The test's expected value agrees with that only for the default capacity of 20.

## Model

| member | source | states |
|---|---|---|
| `Commands.AsUndoable` | Foo.Base.Desktop/Command/CommandHandler.cs:27-29 | a command is treated as undoable exactly when it is an `UndoableCommandBase`, and the cast gives back that same command |
| `Commands.NewCommandBase` | Foo.Base.Desktop/Command/UndoableCommandBase.cs:16-18 | the parameterless base constructor makes an explicit command (`isImplicit` false) |
| `Commands.NewImplicitCommandBase` | Foo.Base.Desktop/Command/UndoableCommandBase.cs:13-22 | the flag equals the constructor argument; the datatype has no way to change it afterwards |
| `Commands.ExecuteActionOf` | Foo.Base.Desktop/Command/UndoableCommandBase.cs:36-39 | what `ICommand.Execute` runs on an undoable command is that command's own `Execute` body |
| `Commands.Invoke` | Foo.Base.Desktop/Command/DelegateUndoableCommand.cs:44-52 | running a behaviour logs exactly one invocation, and the call fails exactly when the behaviour throws, with that exception |
| `Commands.World.Run` | Foo.Base.Desktop/Command/DelegateUndoableCommand.cs:44-52 | running a behaviour appends its invocation to the application log and reports its exception, as `Invoke` says |
| `Commands.ExecuteCommand` | Foo.Base.Desktop/Command/UndoableCommandBase.cs:36-39 | `ICommand.Execute(parameter)` ignores the parameter and runs the command's execute body once |
| `Commands.AddOne` | Foo.Base.Desktop.UnitTests/Command/CommandHandlerTest.Acceptance.cs:133-151 | the tests' counter command is explicit; its execute adds 1 and its undo subtracts 1, and neither throws |
| `ListOps.RemoveFirst` | Foo.Base.Desktop/Command/UndoRedoStack.cs:94-95 | `IList.Remove` deletes exactly one copy of an element that is present and leaves a list without it unchanged |
| `ListOps.RemoveFirstAt` | Foo.Base.Desktop/Command/UndoRedoStack.cs:94-95 | the copy removed is the first one: everything before and after it stays, in order |
| `ListOps.WithoutMembers` | Foo.Base.Desktop/Command/UndoRedoStack.cs:90-97 | the order-keeping filter: an element survives exactly when it was present and is not among the removed items |
| `ListOps.RemoveEach` | Foo.Base.Desktop/Command/UndoRedoStack.cs:92-96 | the `foreach` of `Remove` calls, defined as `RemoveFirst` of each item in order on what the earlier items left; its ensures says only that the list does not grow, and `RemoveEachStep`, `RemoveEachIsWithout` and `RemoveEachMultiset` state what it removes |
| `ListOps.RemoveEachStep` | Foo.Base.Desktop/Command/UndoRedoStack.cs:92-96 | each pass of the loop removes the next item's first copy from what the earlier passes left |
| `ListOps.RemoveEachIsWithout` | Foo.Base.Desktop/Command/UndoRedoStack.cs:90-97 | on a list without duplicates, removing the items one by one leaves exactly the filtered list, in its order |
| `ListOps.RemoveEachMultiset` | Foo.Base.Desktop/Command/UndoRedoStack.cs:90-97 | removing items one by one takes exactly one copy of each present item out of the list's multiset |
| `ListOps.WithoutIdempotent` | Foo.Base.Desktop/Command/CommandExecutionContext.cs:39-42 | filtering the same items out twice is the same as filtering once |
| `UndoRedo.Pop` | Foo.Base.Desktop/Command/UndoRedoStack.cs:108-113 | returns the last element and removes one copy of it; the removed copy is the top one only when the top occurs nowhere else |
| `UndoRedo.PopRemovesOldestCopy` | Foo.Base.Desktop/Command/UndoRedoStack.cs:108-113 | on `[1, 2, 1]`, `Pop` returns 1 and leaves `[2, 1]`: the older copy is the one removed |
| `UndoRedo.AfterAdd` | Foo.Base.Desktop/Command/UndoRedoStack.cs:35-44 | the item becomes the top and the redo list is emptied; index 0 is evicted only when the undo list already holds `MaxStackSize` items; the bound is kept |
| `UndoRedo.AfterUndo` | Foo.Base.Desktop/Command/UndoRedoStack.cs:46-56 | on an empty undo list: none, and nothing changes; otherwise the top is returned and appended to the redo list, one copy leaves the undo list, and the total count and the bound are kept |
| `UndoRedo.AfterRedo` | Foo.Base.Desktop/Command/UndoRedoStack.cs:58-68 | the mirror image of `AfterUndo`, from the redo list to the undo list |
| `UndoRedo.AfterCleanUp` | Foo.Base.Desktop/Command/UndoRedoStack.cs:90-97 | `CleanUp` applies `RemoveEach` with the given items to the undo list and to the redo list; its ensures states that the capacity is kept, and `CleanUpRemovesItems` states what remains |
| `UndoRedo.CleanUpRemovesItems` | Foo.Base.Desktop/Command/UndoRedoStack.cs:90-97 | one copy of each given item leaves each list it is on; on lists without duplicates, exactly the other items remain, in their order; the bound is kept |
| `UndoRedo.AfterReset` | Foo.Base.Desktop/Command/UndoRedoStack.cs:99-103 | both lists are empty and the capacity is kept |
| `UndoRedo.UndoRedoRoundTrip` | Foo.Base.Desktop/Command/UndoRedoStack.cs:46-68 | when the top item occurs nowhere else, Undo then Redo returns the same item and restores both lists exactly |
| `UndoRedo.UndoRedoRoundTripDistinct` | Foo.Base.Desktop/Command/UndoRedoStack.cs:46-68 | the round trip for lists whose items are all distinct |
| `UndoRedo.UndoRedoWithDuplicateTop` | Foo.Base.Desktop/Command/UndoRedoStack.cs:51-64 | with the top repeated lower down, Undo then Redo turns `[1, 2, 1]` into `[2, 1, 1]` |
| `UndoRedo.AddAll` | Foo.Base.Desktop.UnitTests/Command/UndoRedoStackTest.cs:186-201 | repeated `AddItem` keeps the capacity |
| `UndoRedo.AddAllKeepsNewest` | Foo.Base.Desktop/Command/UndoRedoStack.cs:35-44 | after any number of adds, the undo list is exactly the newest `MaxStackSize` entries of the old list followed by the new items |
| `UndoRedo.StackSizeLimit` | Foo.Base.Desktop.UnitTests/Command/UndoRedoStackTest.cs:186-201 | after adding items 0 to m+9 at capacity m, the undo list holds m items starting with item 10, and `Undo` returns item m+9 |
| `UndoRedo.UndoRedoStack.constructor` | Foo.Base.Desktop/Command/UndoRedoStack.cs:14-33 | both lists start empty with capacity 20 |
| `UndoRedo.UndoRedoStack.SetMaxStackSize` | Foo.Base.Desktop/Command/UndoRedoStack.cs:15-19 | the setter changes only the capacity |
| `UndoRedo.UndoRedoStack.AddItem` | Foo.Base.Desktop/Command/UndoRedoStack.cs:35-44 | the new fields are `AfterAdd` of the old ones |
| `UndoRedo.UndoRedoStack.Undo` | Foo.Base.Desktop/Command/UndoRedoStack.cs:46-56 | the returned item and the new fields are `AfterUndo` of the old ones |
| `UndoRedo.UndoRedoStack.Redo` | Foo.Base.Desktop/Command/UndoRedoStack.cs:58-68 | the returned item and the new fields are `AfterRedo` of the old ones |
| `UndoRedo.UndoRedoStack.UndoItems` | Foo.Base.Desktop/Command/UndoRedoStack.cs:70-73 | the view is the current undo list; it is non-empty exactly when `CanUndo` holds |
| `UndoRedo.UndoRedoStack.RedoItems` | Foo.Base.Desktop/Command/UndoRedoStack.cs:75-78 | the view is the current redo list; it is non-empty exactly when `CanRedo` holds |
| `UndoRedo.UndoRedoStack.CanUndo` | Foo.Base.Desktop/Command/UndoRedoStack.cs:80-83 | true exactly when `Undo` would return an item |
| `UndoRedo.UndoRedoStack.CanRedo` | Foo.Base.Desktop/Command/UndoRedoStack.cs:85-88 | true exactly when `Redo` would return an item |
| `UndoRedo.RemoveFromBoth` | Foo.Base.Desktop/Command/UndoRedoStack.cs:92-96 | the `foreach` loop, run over the two lists, leaves on each what removing the items one by one in order leaves |
| `UndoRedo.UndoRedoStack.CleanUp` | Foo.Base.Desktop/Command/UndoRedoStack.cs:90-97 | the new lists are exactly `AfterCleanUp` of the old ones; the capacity is kept |
| `UndoRedo.UndoRedoStack.Reset` | Foo.Base.Desktop/Command/UndoRedoStack.cs:99-103 | the new fields are `AfterReset` of the old ones |
| `Handler.Notice` | Foo.Base.Desktop/Command/CommandHandler.cs:109-113 | the event carries the item and the operation, with the stack's raw `CanUndo`/`CanRedo` and not the implicit-aware answers |
| `Handler.Raise` | Foo.Base.Desktop/Command/CommandHandler.cs:109-113 | raising an event appends exactly one `Notice` built from the current lists and changes neither the lists nor the application log |
| `Handler.ExecuteStep` | Foo.Base.Desktop/Command/CommandHandler.cs:23-38 | an undoable command is added before it runs, and a plain one is not added; its execute body runs once; if it throws, the exception is passed on unchanged, no event fires, and the command stays added; otherwise one Execute event fires |
| `Handler.UndoOnce` | Foo.Base.Desktop/Command/CommandHandler.cs:71-83 | one loop pass: on an empty list it throws `ApplicationException` and changes nothing; otherwise the lists become `AfterUndo`'s, the top's undo body is logged, and the pass continues exactly when that body does not throw, firing one Undo event for the top; when it throws, the pass fails with that body's exception and fires nothing |
| `Handler.UndoLoopPreserves` | Foo.Base.Desktop/Command/CommandHandler.cs:69-85 | `Undo(n)` keeps the total number of items and the capacity, and only ever adds to the events and the log |
| `Handler.RedoOnce` | Foo.Base.Desktop/Command/CommandHandler.cs:42-51 | one loop pass of `Redo(n)`: on an empty list it throws `ApplicationException` and changes nothing; otherwise the lists become `AfterRedo`'s, the top's execute body is logged, and the pass continues exactly when that body does not throw, with the top appended to the undo list and one Redo event; when it throws, the pass fails with that body's exception and fires nothing |
| `Handler.RedoLoopPreserves` | Foo.Base.Desktop/Command/CommandHandler.cs:40-56 | `Redo(n)`, whatever it counts, keeps the total number of items and the capacity, and only ever adds to the events and the log |
| `Handler.UndoLoop` | Foo.Base.Desktop/Command/CommandHandler.cs:69-85 | definition, no ensures: `Undo(n)` stops with no effect at a non-positive count, ends with the first pass that throws, and otherwise repeats `UndoOnce`, using up one count only when the command undone is not implicit; its properties are the `Undo` lemmas below |
| `Handler.RedoLoop` | Foo.Base.Desktop/Command/CommandHandler.cs:40-56 | definition, no ensures: `Redo(n)` stops with no effect at a non-positive count, ends with the first pass that throws, and otherwise repeats `RedoOnce`, using up one count unless `RedoIsFree` holds of the lists the pass left, i.e. it counts by index 0 of the redo list; its properties are the `Redo` lemmas below |
| `Handler.RedoIsFree` | Foo.Base.Desktop/Command/CommandHandler.cs:53-54 | predicate, no ensures: the redo list is non-empty and its element at index 0, `First()`, is implicit |
| `Handler.HasExplicit` | Foo.Base.Desktop/Command/CommandHandler.cs:58-67 | predicate, no ensures: some item of the list is not implicit, the answer of the backward scans in `CanRedo` and `CanUndo` (lines 87-96), which those methods' ensures match against it |
| `Handler.UndoablesOf` | Foo.Base.Desktop/Command/CommandHandler.cs:117-119 | exactly the undoable commands of the record are passed on to the stack |
| `Handler.UndoablesOfOne` | Foo.Base.Desktop/Command/CommandHandler.cs:117-119 | a single command passes the filter, as that same undoable command, exactly when it is undoable |
| `Handler.UndoablesOfAppend` | Foo.Base.Desktop/Command/CommandHandler.cs:117-119 | the filter of a concatenation is the concatenation of the filters, so the record's order is kept |
| `Handler.UndoablesOfCounts` | Foo.Base.Desktop/Command/CommandHandler.cs:117-119 | each undoable command is passed on as many times as the record holds it |
| `Handler.UndoEventsMatchLog` | Foo.Base.Desktop/Command/CommandHandler.cs:69-85 | each event `Undo(n)` fires is an Undo event for an undoable command, matched in order by that command's undo body in the log; a completed call logs nothing else, and a failed one at most the failing body |
| `Handler.UndoCountsExplicitCommands` | Foo.Base.Desktop/Command/CommandHandler.cs:69-85 | a completed `Undo(n)` undid exactly `n` explicit commands, none for `n <= 0`, and stopped right after the n-th, so implicit commands ride along; a failed one had counted fewer than `n` |
| `Handler.UndoOnEmptyThrows` | Foo.Base.Desktop/Command/CommandHandler.cs:73-77 | `Undo(n)` with an empty undo list throws `ApplicationException` and changes nothing |
| `Handler.RedoOnEmptyThrows` | Foo.Base.Desktop/Command/CommandHandler.cs:44-48 | `Redo(n)` with an empty redo list throws `ApplicationException` and changes nothing |
| `Handler.UndoPastTheEndKeepsEffects` | Foo.Base.Desktop/Command/CommandHandler.cs:71-83 | asking for more undos than there are commands: the one command is undone, moved and announced, then the call throws, and nothing is rolled back |
| `Handler.UndoOneExplicit` | Foo.Base.Desktop/Command/CommandHandler.cs:69-85 | `Undo()` with an explicit top that undoes cleanly undoes exactly that command |
| `Handler.RedoOneCounted` | Foo.Base.Desktop/Command/CommandHandler.cs:40-56 | `Redo()` redoes exactly one command when the redo list left behind is empty or starts with an explicit command |
| `Handler.UndoAddOnes` | Foo.Base.Desktop.UnitTests/Command/CommandHandlerTest.Acceptance.cs:69-90 | undoing `n` counter commands completes, moves `n` items to the redo list and takes `n` off the counter |
| `Handler.RedoAddOnes` | Foo.Base.Desktop.UnitTests/Command/CommandHandlerTest.Acceptance.cs:69-90 | redoing `n` counter commands completes, moves `n` items back and adds `n` to the counter |
| `Handler.RedoEventsMatchLog` | Foo.Base.Desktop/Command/CommandHandler.cs:40-56 | each event `Redo(n)` fires is a Redo event for an undoable command, matched in order by that command's execute body in the log; a completed call logs nothing else, and a failed one at most the failing body |
| `Handler.RedoCountsPasses` | Foo.Base.Desktop/Command/CommandHandler.cs:40-56 | the passes of `Redo(n)` form a trace with one event each; a completed call made exactly `n` counted passes, the last one counted, so the redo list's index 0 is then not implicit; a failed one had counted fewer than `n` |
| `Handler.UndoThrowsFromTop` | Foo.Base.Desktop/Command/CommandHandler.cs:69-85 | when the top's undo body throws, `Undo(n)` leaves the lists as `AfterUndo` does, logs that body, fires nothing and rethrows its exception |
| `Handler.RedoThrowsFromTop` | Foo.Base.Desktop/Command/CommandHandler.cs:40-56 | when the top's execute body throws, `Redo(n)` leaves the lists as `AfterRedo` does, logs that body, fires nothing and rethrows its exception |
| `Handler.UndoFailureOrigin` | Foo.Base.Desktop/Command/CommandHandler.cs:69-85 | an exception out of `Undo(n)` is either the bare `ApplicationException` of an exhausted undo list or the exception of the undo body logged last |
| `Handler.RedoFailureOrigin` | Foo.Base.Desktop/Command/CommandHandler.cs:40-56 | an exception out of `Redo(n)` is either the bare `ApplicationException` of an exhausted redo list or the exception of the execute body logged last |
| `Handler.RedoOnceUniqueTop` | Foo.Base.Desktop/Command/CommandHandler.cs:40-56 | when the top of the redo list occurs nowhere else and runs cleanly, one redo iteration continues and takes exactly that entry off the redo list |
| `Handler.RedoFreeStep` | Foo.Base.Desktop/Command/CommandHandler.cs:40-56 | with an implicit command at index 0 and more than one entry, an iteration continues with one entry fewer and one more event, and keeps the implicit command at index 0 |
| `Handler.RedoLastStep` | Foo.Base.Desktop/Command/CommandHandler.cs:40-56 | redoing a single entry that runs cleanly succeeds, empties the redo list and fires one event |
| `Handler.RedoWithImplicitFirstRedoesAll` | Foo.Base.Desktop/Command/CommandHandler.cs:53-54 | with an implicit command at index 0 of a redo list of distinct commands that all run cleanly, `Redo(1)` empties the redo list and fires one event per command |
| `Handler.CommandHandler.constructor` | Foo.Base.Desktop/Command/CommandHandler.cs:16-21 | the handler drives the given stack and has fired nothing yet |
| `Handler.CommandHandler.RaiseOperationExecuted` | Foo.Base.Desktop/Command/CommandHandler.cs:109-113 | exactly one event is appended, carrying the stack's raw `CanUndo`/`CanRedo` |
| `Handler.CommandHandler.Execute` | Foo.Base.Desktop/Command/CommandHandler.cs:23-38 | the new configuration and the outcome are `ExecuteStep` of the old configuration |
| `Handler.CommandHandler.RedoOne` | Foo.Base.Desktop/Command/CommandHandler.cs:44-51 | the loop body up to the counter adjustment is `RedoOnce` of the old configuration |
| `Handler.CommandHandler.Redo` | Foo.Base.Desktop/Command/CommandHandler.cs:40-56 | the `for` loop with its `i--` reaches exactly `RedoLoop` of the old configuration |
| `Handler.CommandHandler.CanRedo` | Foo.Base.Desktop/Command/CommandHandler.cs:58-67 | the backward scan answers true exactly when some redo item is not implicit |
| `Handler.CommandHandler.UndoOne` | Foo.Base.Desktop/Command/CommandHandler.cs:73-80 | the loop body up to the counter adjustment is `UndoOnce` of the old configuration |
| `Handler.CommandHandler.Undo` | Foo.Base.Desktop/Command/CommandHandler.cs:69-85 | the `for` loop with its `i--` reaches exactly `UndoLoop` of the old configuration |
| `Handler.CommandHandler.CanUndo` | Foo.Base.Desktop/Command/CommandHandler.cs:87-96 | the backward scan answers true exactly when some undo item is not implicit |
| `Handler.CommandHandler.UndoItems` | Foo.Base.Desktop/Command/CommandHandler.cs:98-101 | the handler's view is the stack's undo list; if the handler can undo, so can the stack |
| `Handler.CommandHandler.RedoItems` | Foo.Base.Desktop/Command/CommandHandler.cs:103-106 | the handler's view is the stack's redo list; if the handler can redo, so can the stack |
| `Handler.CommandHandler.CleanUp` | Foo.Base.Desktop/Command/CommandHandler.cs:115-123 | the stack cleans up only the undoable commands; then one Cleanup event with no item fires |
| `Handler.CommandHandler.Reset` | Foo.Base.Desktop/Command/CommandHandler.cs:125-129 | both lists are emptied; then one Cleanup event with no item fires |
| `HandlerScenarios.MyTestCommand` | Foo.Base.Desktop.UnitTests/Command/CommandHandlerTest.cs:33-56 | the tests' command is explicit and throws on execute exactly when asked to |
| `HandlerScenarios.AddOnes` | Foo.Base.Desktop.UnitTests/Command/CommandHandlerTest.Acceptance.cs:69-90 | `k` counter commands |
| `HandlerScenarios.ExecuteAddOnes` | Foo.Base.Desktop.UnitTests/Command/CommandHandlerTest.Acceptance.cs:69-90 | executing `n` counter commands on an empty stack leaves them on the undo list and raises the counter by `n` |
| `HandlerScenarios.ExecuteBeyondCapacity` | Foo.Base.Desktop.UnitTests/Command/CommandHandlerTest.Acceptance.cs:42-52 | 30 counter commands on a handler leave exactly 20 undo items |
| `HandlerScenarios.UndoThreeRedoTwo` | Foo.Base.Desktop.UnitTests/Command/CommandHandlerTest.Acceptance.cs:69-90 | after five counter commands, `Undo(3)` leaves the counter at 2 and `Redo(2)` then leaves it at 4 |
| `HandlerScenarios.UndoOnceRedoOnce` | Foo.Base.Desktop.UnitTests/Command/CommandHandlerTest.Acceptance.cs:27-40 | one counter command undone and redone: the counter goes back and forth by one |
| `HandlerScenarios.UndoAndRedoMultipleLevels` | Foo.Base.Desktop.UnitTests/Command/CommandHandlerTest.Acceptance.cs:69-90 | on the handler object: the counter reads 5, 2 and 4 |
| `HandlerScenarios.UndoAndRedoActions` | Foo.Base.Desktop.UnitTests/Command/CommandHandlerTest.Acceptance.cs:27-40 | starting at 1, the counter reads 2, 1 and 2 |
| `HandlerScenarios.UndoingTwiceThrows` | Foo.Base.Desktop.UnitTests/Command/CommandHandlerTest.Acceptance.cs:54-67 | a second `Undo()` throws `ApplicationException` and the counter stays at 0 |
| `HandlerScenarios.ExecuteRethrows` | Foo.Base.Desktop.UnitTests/Command/CommandHandlerTest.cs:108-119 | the command's exception comes back unchanged, the command ran and stays on the undo list, and no event fires |
| `HandlerScenarios.NonUndoableIsNotAdded` | Foo.Base.Desktop.UnitTests/Command/CommandHandlerTest.cs:139-150 | a plain command runs and fires one Execute event but is not added to the stack |
| `HandlerScenarios.UndoTopOfThree` | Foo.Base.Desktop.UnitTests/Command/CommandHandlerTest.cs:175-183 | `Undo()` over three commands takes exactly the top one off, and the top command's undo body is what runs |
| `HandlerScenarios.UndoTwiceOverThree` | Foo.Base.Desktop.UnitTests/Command/CommandHandlerTest.Acceptance.cs:113-123 | two single undos over three commands leave two redo items |
| `HandlerScenarios.ExecuteOne` | Foo.Base.Desktop/Command/CommandHandler.cs:23-38 | one command executed with room left and nothing to redo goes on top of the undo list |
| `HandlerScenarios.ExecuteAll` | Foo.Base.Desktop.UnitTests/Command/CommandHandlerTest.Acceptance.cs:98-123 | executing commands one by one on an empty stack puts them on the undo list in order |
| `HandlerScenarios.AvailableUndoItems` | Foo.Base.Desktop.UnitTests/Command/CommandHandlerTest.Acceptance.cs:98-105 | two executed commands give two undo items |
| `HandlerScenarios.AvailableRedoItems` | Foo.Base.Desktop.UnitTests/Command/CommandHandlerTest.Acceptance.cs:113-123 | three executed and two undone give two redo items |
| `HandlerScenarios.ImplicitCommand` | Foo.Base.Desktop/Command/UndoableCommandBase.cs:20-22 | a command built with the flag set is implicit |
| `HandlerScenarios.UndoLoopTopOf` | Foo.Base.Desktop/Command/CommandHandler.cs:69-85 | the counted or uncounted pass over a distinct top that undoes cleanly |
| `HandlerScenarios.RedoLoopTopOf` | Foo.Base.Desktop/Command/CommandHandler.cs:40-56 | the counted or uncounted pass over a distinct top that runs cleanly |
| `HandlerScenarios.ImplicitRidesAlong` | Foo.Base.Desktop/Command/CommandHandler.cs:79-83 | `Undo()` over an explicit command with an implicit one on top undoes both and moves both to the redo list |
| `HandlerScenarios.RedoLeavesImplicitBehind` | Foo.Base.Desktop/Command/CommandHandler.cs:53-54 | an implicit command in the middle of the redo list does not ride along: `Redo()` redoes one command only |
| `HandlerScenarios.OnlyImplicitCannotUndo` | Foo.Base.Desktop/Command/CommandHandler.cs:87-96 | with only an implicit command on the stack, the handler cannot undo, although the stack can |
| `HandlerScenarios.UndoCounterAndImplicit` | Foo.Base.Desktop/Command/CommandHandler.cs:69-85 | after a counter command and an implicit command, `Undo()` empties the undo list and the counter is back at 0 |
| `HandlerScenarios.UndoTakesImplicitAlong` | Foo.Base.Desktop/Command/CommandHandler.cs:69-85 | the same on the handler object |
| `DelegateCommands.NewDelegateCommand` | Foo.Base.Desktop/Command/DelegateUndoableCommand.cs:30-42 | a null execute delegate is rejected first and a null undo delegate second, each with `ArgumentNullException`; construction succeeds exactly when both are given, and keeps flag, delegates and header |
| `DelegateCommands.NewDelegateCommandWithFlag` | Foo.Base.Desktop/Command/DelegateUndoableCommand.cs:25-28 | the same checks, with no header |
| `DelegateCommands.NewExplicitDelegateCommand` | Foo.Base.Desktop/Command/DelegateUndoableCommand.cs:20-23 | the same checks, with an explicit flag and no header |
| `DelegateCommands.ToString` | Foo.Base.Desktop/Command/DelegateUndoableCommand.cs:54-60 | definition, no ensures: the header when it is neither null nor empty, otherwise the execute delegate's method name; `ToStringOfNew` states it for constructed commands |
| `DelegateCommands.ToStringOfNew` | Foo.Base.Desktop/Command/DelegateUndoableCommand.cs:54-60 | a non-empty header is displayed; with no header or an empty one, the execute method's name is displayed |
| `DelegateCommands.ToStringWithoutHeader` | Foo.Base.Desktop/Command/DelegateUndoableCommand.cs:20-60 | the two- and three-argument constructors display the execute method's name |
| `DelegateCommands.Execute` | Foo.Base.Desktop/Command/DelegateUndoableCommand.cs:44-47 | runs the execute delegate once |
| `DelegateCommands.Undo` | Foo.Base.Desktop/Command/DelegateUndoableCommand.cs:49-52 | runs the undo delegate once |
| `DelegateCommands.CounterDelegates` | Foo.Base.Desktop.UnitTests/Command/DelegateUndoableCommandTest.cs:24-38 | the test's `++`/`--` delegates make a valid explicit command |
| `DelegateCommands.ExecuteTwiceUndoOnce` | Foo.Base.Desktop.UnitTests/Command/DelegateUndoableCommandTest.cs:24-38 | executing twice and undoing once leaves the counter at 2, then 1 |
| `ExecutionContext.Swallowed` | Foo.Base.Desktop/Command/CommandExecutionContext.cs:27-36 | the catch-all keeps only whether an exception was thrown, and which one |
| `ExecutionContext.AfterDispose` | Foo.Base.Desktop/Command/CommandExecutionContext.cs:39-42 | `Dispose` hands the undoable commands of the record to the handler's clean-up; the capacity is kept and neither list grows, and `DisposeRetractsRecorded` states what remains |
| `ExecutionContext.DisposeRetractsRecorded` | Foo.Base.Desktop/Command/CommandExecutionContext.cs:39-42 | on lists without duplicates, `Dispose` leaves exactly the entries that were not recorded, in their order, on the list each was on |
| `ExecutionContext.DisposeTwiceIsDisposeOnce` | Foo.Base.Desktop/Command/CommandExecutionContext.cs:39-42 | the record is not cleared, and a second `Dispose` changes no list |
| `ExecutionContext.CommandExecutionContext.constructor` | Foo.Base.Desktop/Command/CommandExecutionContext.cs:18-23 | the context uses the given handler and has recorded nothing |
| `ExecutionContext.CommandExecutionContext.Execute` | Foo.Base.Desktop/Command/CommandExecutionContext.cs:25-37 | the command is recorded even if it fails; the handler's effect is exactly `ExecuteStep`; its exception is swallowed, not passed on |
| `ExecutionContext.CommandExecutionContext.Dispose` | Foo.Base.Desktop/Command/CommandExecutionContext.cs:39-42 | the handler cleans up the whole record, and one Cleanup event fires |
| `ExecutionContext.ContextExecutesCommand` | Foo.Base.Desktop.UnitTests/Command/CommandExecutionContextTest.Acceptance.cs:29-41 | a counter command executed through a context takes the counter from 1 to 2 |
| `ExecutionContext.ContextSwallowsFailure` | Foo.Base.Desktop/Command/CommandExecutionContext.cs:25-37 | a failing command is recorded and run, and its exception is swallowed |
| `ExecutionContext.DisposeFirstOfTwo` | Foo.Base.Desktop.UnitTests/Command/CommandExecutionContextTest.Acceptance.cs:44-62 | disposing the context of the first of two commands leaves the second one only |
| `ExecutionContext.ExecuteThrough` | Foo.Base.Desktop/Command/CommandExecutionContext.cs:25-37 | a command executed through a context with room left goes on top of the undo list and into the record |
| `ExecutionContext.ExecuteInBoth` | Foo.Base.Desktop.UnitTests/Command/CommandExecutionContextTest.Acceptance.cs:44-62 | two contexts over one handler each execute one command: both are on the undo list, in order, and the first context recorded only its own |
| `ExecutionContext.DisposeFirst` | Foo.Base.Desktop.UnitTests/Command/CommandExecutionContextTest.Acceptance.cs:44-62 | disposing the context that recorded the older of two entries leaves only the newer one |
| `ExecutionContext.TwoContextsOneHandler` | Foo.Base.Desktop.UnitTests/Command/CommandExecutionContextTest.Acceptance.cs:44-62 | two undo entries; after disposing the first context, only the second context's command is left |
| `ExecutionContext.DisposeAgain` | Foo.Base.Desktop/Command/CommandExecutionContext.cs:39-42 | on lists without duplicates, disposing a context twice leaves the lists as the first `Dispose` did and fires two Cleanup events |
| `ExecutionContext.DisposeTwice` | Foo.Base.Desktop/Command/CommandExecutionContext.cs:39-42 | a second `Dispose` changes no list but fires another Cleanup event |
| `ComposingCommand.CanExecute` | Foo.Base.Desktop/Command/UndoableCommand.cs:27-30 | with no predicate the command can execute; with one, it can exactly when the predicate holds |
| `ComposingCommand.AlwaysExecutableWithoutPredicate` | Foo.Base.Desktop/Command/UndoableCommand.cs:27-30 | without a predicate, every parameter can execute, null included |
| `ComposingCommand.Execute` | Foo.Base.Desktop/Command/UndoableCommand.cs:34-38 | the factory runs first: its exception escapes to the caller and nothing is recorded or changed; otherwise its command is what the context records and the handler executes, and that command's failure is swallowed |
| `ComposingCommand.Throwing` | Foo.Base.Desktop.UnitTests/Command/CommandHandlerTest.cs:108-119 | an explicit command whose execute throws `ApplicationException` |
| `ComposingCommand.FailureIsSwallowedAndRecorded` | Foo.Base.Desktop/Command/UndoableCommand.cs:34-38 | a factory command that throws is recorded, stays on the undo list, and its exception is swallowed |
| `ComposingCommand.FactoryFailureEscapes` | Foo.Base.Desktop/Command/UndoableCommand.cs:34-38 | a factory that throws on a null parameter: the exception escapes, the context records nothing and the undo list stays empty |
| `ComposingCommand.PredicateDecides` | Foo.Base.Desktop/Command/UndoableCommand.cs:27-30 | a predicate that accepts only values rejects null and accepts a value |

## Left out

- Dependency injection: the `[Export]`, `[ImportingConstructor]` and `[PartCreationPolicy]` wiring, and the registration tests. This is container plumbing. The scenarios build the stack, handler and context by hand.
- The Prism `DelegateCommand` wrapper inside `UndoableCommandBase`, along with `RaiseCanExecuteChanged`, the `CanExecuteChanged` events and `UndoableCommandBase.CanExecute`. These requery the user interface through a library that is not part of this model.
- `ObservableCollection` change notifications and the `ReadOnlyObservableCollection` wrappers. `UndoItems`/`RedoItems` are modelled as reads of the current lists.
- The `Console.Error` message written by `CommandExecutionContext.Execute`. The model keeps only the swallowed exception, which it returns.
- Reflection. `GetType`/`IsAssignableFrom` and `is` become the `Undoable` tag of a command. `executeAction.Method.Name` becomes the `name` field of an `Action`.
- The stopwatch test in `UndoRedoStackTest.Performance.cs`. Timing cannot be expressed in the model.
- Subscription mechanics of the `OperationExecuted` event. Events are logged even when nobody has subscribed: the code builds no event without a subscriber, but that changes nothing else.
- Arbitrary command bodies. A body is an `Action`: a counter delta and an optional exception, logged when the body runs.
- Null commands passed to `Execute` or `CleanUp`, and null items on the stack. Commands are values and are never null. `UndoRedoStack.Undo`/`Redo` return `None` where the code returns `default(TItem)`.
- 32-bit integers. `numberOfUndos`, `numberOfRedos`, the loop counter and `MaxStackSize` are unbounded, so overflow near `int.MaxValue` is not modelled.
- UndoRedo.UndoRedoStack.AddItem: requires the undo list to be non-empty or `MaxStackSize` to be positive. Otherwise `RemoveAt(0)` runs on an empty list and throws `ArgumentOutOfRangeException`, which the model does not represent.
- Handler.CommandHandler.Execute: inherits that precondition for undoable commands, so the case where `AddItem` throws before the command runs is not modelled.
- ExecutionContext.CommandExecutionContext.Execute: inherits that precondition. In the code the context would swallow the `ArgumentOutOfRangeException`; the model does not cover that case.
- ComposingCommand.Execute: inherits the same precondition through the context when the factory returns a command.
- ComposingCommand.CanExecute: the predicate is a total function, so a `canExecute` delegate that throws is not modelled; in the code that exception would escape `CanExecute`.
- ComposingCommand.Execute: a factory returning null is not modelled; commands are values and are never null.
- ComposingCommand.Execute: `UndoableCommand` is modelled over a `CommandExecutionContext`, the implementation the system uses, and not over an arbitrary `ICommandExecutionContext`.
- `Undo(2)` over two explicit commands with an implicit one between them is not shown on concrete commands. `UndoCountsExplicitCommands` covers it in general.
- The `ShouldReturn0WhenNoMore...Items` tests assert nothing beyond a fresh handler having empty lists, which the constructors' contracts already state.
