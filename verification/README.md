# Verification of the PHP runtime headers and PEAR scripts

This project models the algorithms that the vendored PHP headers and PEAR files of the
repository carry in their bodies, and proves properties of them. All files are checked
together with `dafny verify dfyconfig.toml`.

- `PagedView`, `VmStack`: the argument stack of the executor, made of linked pages. It is a
  single flat sequence, and any well-nested use of it, exceptions included, gives back the
  exact pages and heights.
- `Environment`, `SharedZvals`, `Zvals`, `VariableRuns`, `VariableLaws`: variables whose values
  are reference-counted and copied on write. `Environment` says what a program can tell: values,
  and which variables are references of each other. The handlers refine it over whole runs, and
  `VariableLaws` states slot by slot what each does to it.
- `CompiledVars`, `CompiledVarRuns`: the cache of symbol-table slots that each frame keeps.
  It is right in every chain of frames that runs reach, with two exceptions named below, and
  steps do what they would without it.
- `Regions`, `PtrStack`, `PendingCalls`, `CallRuns`, `Silence`: what the exception handler
  does. Over runs of nested calls that may throw anywhere every reference of arguments, calls
  and results is accounted for, and no object that something holds is marked as failed.
- `Wrappers`, `Words`, `Numerals`, `Hash`, `NumericKey`, `Symtable`: hashing, and the string keys that are
  really integers.
- `NumericText`, `NumericString`: numeric strings as a grammar, and the scanner for them.
- `Search`, `Multiply`: substring search and the multiplication that detects overflow.
- `FileTree`: the directory walk and recursive deletion of `System.php`.
- `ErrorHandling`: the stack of error handlers of `PEAR.php`.

Word size, page size and alignment are parameters where the code has them.

Where a natural claim is false of the code, a lemma or method shows the input:

- `CompiledVarRuns.StaleCache`: the loop of `UNSET_VAR` by name stops at the first frame on
  another table, also when the table is not that of the current frame. A frame further out
  can then keep a stale slot. `UnsetByName` has the exact condition, on the frames before the
  call. Compiled code always meets it, because only superglobals are unset by name in
  another table and those are never compiled variables; the input shown is none that
  compiled code produces.
- `CompiledVarRuns.StaleEmptyName`: `unset($GLOBALS[null])` deletes the variable of the empty
  name, and no frame forgets its slot. `UnsetNull` has the exact condition: no frame on the
  table of globals has that name cached.
- `Multiply.RoundedConversionFails`: on a machine whose long double has 53 bits the test takes
  some products that fit for overflows. `OverflowNeverMissed` shows that the other error does
  not happen, `RightIff` has the exact condition for any rounding, and `RightForFloats` and
  `AgreesWithWidened` give operands and machines for which it always holds.
- `FileTree.RemoveAlike`: `in_array` compares loosely, so a file argument that is the same number
  as one before it is neither listed nor deleted. `ListingExactIff` and the last clause of
  `RemoveRecursively` have the exact conditions, for any relation that `in_array` may use.
- `FileTree.RemoveTwice` and `RemovePastLink`: `rm -r` fails although all that is named exists
  when two names lead to one file, or a name passes a link that is listed before it, as every
  link in a directory argument is; the file past the link then stays. `UnlinkAll` and
  `RemoveRecursively` have the exact condition.
- `ErrorHandling.Unrestored`: a pop does not restore a setting whose mode is a callback with
  options that cannot be called, and calls can lead to one. `RestoredIff` has the exact
  condition.
- `PagedView.EmptyBottomIsLost`: a push onto an empty bottom page and its pop leave no page at
  all. `GrowthUndoneIff` has the exact condition for pops to undo growth: there was none, or
  the page in use held something, or the bottom page was empty and stayed so.

Assumptions about code that is not in the repository:

- A destructor takes one off the count; whether it also resets `is_ref` on a value left with
  one holder is the parameter `clears`, and the results hold either way.
- `zend_rebuild_symbol_table` and the lookup of a compiled variable are modelled by their
  effect.
- `ENCODE_CTOR` and its companions keep two bits beside the class.
- `zend_strtod` and `zend_hex_strtod` are the positions where they stop, as parameters; that
  they read all of an integer is assumed where it matters.
- `readdir`, `natsort`, `unlink` and `rmdir` work on a finite tree in which links are leaves,
  in any order of entries. Where a name leads, and past which links, is a parameter; a file
  has one real path.

## Model

| member | source | states |
|---|---|---|
| `PagedView.FlatDrop1` | httpd-conf/php/include/php/Zend/zend_execute.h:210-220 | A pop takes exactly the last word of the flat stack, and unlinking an emptied page leaves every page above the bottom one non-empty |
| `PagedView.DropUndoesGrowth` | httpd-conf/php/include/php/Zend/zend_execute.h:199-220 | However pushes and allocations spread over pages, as many pops as there are new words restore the very pages and heights, provided the page on top was in use |
| `PagedView.GrowthUndoneIff` | httpd-conf/php/include/php/Zend/zend_execute.h:210-220 | They do so exactly when nothing was added, or that page was in use, or it is the bottom page and was never used |
| `PagedView.EmptyBottomIsLost` | httpd-conf/php/include/php/Zend/zend_execute.h:210-220 | A push onto the empty bottom page and its pop leave no page at all |
| `PagedView.GrowthShrinks` | httpd-conf/php/include/php/Zend/zend_execute.h:210-220 | A pop of a grown stack cannot go below what it grew from while they differ |
| `PagedView.CutIsDrop` | httpd-conf/php/include/php/Zend/zend_execute.h:251-261 | Setting the top back by n words is the same as n pops |
| `PagedView.GatheredInPlace` | httpd-conf/php/include/php/Zend/zend_execute.h:281-308 | Arguments that lie in one page with room above them are gathered by writing the count alone |
| `PagedView.GatheredOnNewPage` | httpd-conf/php/include/php/Zend/zend_execute.h:281-308 | Moving the last n words to a page of their own keeps the flat sequence, and freeing that page pops exactly them |
| `VmStack.Stack.constructor` | httpd-conf/php/include/php/Zend/zend_execute.h:171-174 | The stack starts as one empty page |
| `VmStack.Stack.Extend` | httpd-conf/php/include/php/Zend/zend_execute.h:187-192 | A new empty page, at least as large as asked for, on top of the others |
| `VmStack.Stack.PushNoCheck` | httpd-conf/php/include/php/Zend/zend_execute.h:205-208 | The word goes on the page in use, no other page or word changes |
| `VmStack.Stack.Push` | httpd-conf/php/include/php/Zend/zend_execute.h:199-203 | A push appends one word to the flat sequence, on the page in use exactly if it has room |
| `VmStack.Stack.Pop` | httpd-conf/php/include/php/Zend/zend_execute.h:210-220 | A pop removes and returns the last word of the flat sequence; a page is unlinked as it empties |
| `VmStack.Stack.Alloc` | httpd-conf/php/include/php/Zend/zend_execute.h:222-249 | The block starts at an aligned slot above everything in use, in the page in use exactly if it fits there, with the old height saved below it; otherwise at the start of a new page |
| `VmStack.Stack.Free` | httpd-conf/php/include/php/Zend/zend_execute.h:263-279 | Freeing restores the saved height, or unlinks the page the block started |
| `VmStack.Stack.AllocFrame` | httpd-conf/php/include/php/Zend/zend_execute.h:222-279 | What Free needs is where Alloc put it: freeing the block next gives back the exact stack before it, in both alignment configurations |
| `VmStack.Stack.MoveArgs` | httpd-conf/php/include/php/Zend/zend_execute.h:292-303 | The loop that gathers arguments empties the pages below word by word and rebuilds the n words in order on the new page |
| `VmStack.Stack.PushArgs` | httpd-conf/php/include/php/Zend/zend_execute.h:281-308 | However many pages the last n words straddled, they end up in order just below their count in one page, and the flat sequence only gains the count |
| `VmStack.Stack.ArgsOnTop` | httpd-conf/php/include/php/Zend/zend_execute.h:281-308 | The count on top of the flat sequence is found with its arguments below it in the same page |
| `VmStack.Stack.FreeInt` | httpd-conf/php/include/php/Zend/zend_execute.h:251-261 | The stack is cut at the pointer; at the start of a page the page goes |
| `VmStack.Stack.ClearMultiple` | httpd-conf/php/include/php/Zend/zend_execute.h:310-321 | Each argument is destroyed once, last first, and the stack is what it was below the first of them |
| `VmStack.Stack.ReleaseSlots` | httpd-conf/php/include/php/Zend/zend_execute.h:312-319 | Releases exactly the slots of the arguments, last first, and no slot below them |
| `VmStack.ReversedAt` | httpd-conf/php/include/php/Zend/zend_execute.h:315-319 | The order of destruction is the argument order reversed |
| `VmStack.GetArg` | httpd-conf/php/include/php/Zend/zend_execute.h:323-332 | The i-th argument pushed for 1 <= i <= n, nothing beyond |
| `VmStack.Stack.TopAtMark` | httpd-conf/php/include/php/Zend/zend_vm_def.h:4276-4279 | The top pointer equals the end of the frame exactly when nothing is left above the frame |
| `VmStack.Stack.Unwind` | httpd-conf/php/include/php/Zend/zend_vm_def.h:4276-4282 | From any height, over any pages, exactly the words above the end of the frame are destroyed, each once, and the stack is what the frame sits on |
| `VmStack.Stack.RunPart` | httpd-conf/php/include/php/Zend/zend_vm_def.h:1919-2412 | Code as far as it got, pushes of pending calls with whole calls between them, leaves the flat sequence longer by exactly what it pushed and did not clear |
| `VmStack.Stack.RunAndUnwind` | httpd-conf/php/include/php/Zend/zend_vm_def.h:4276-4282 | Wherever an exception cuts it short, and however many calls are pending across pages, exactly what it pushed is destroyed, last first |
| `VmStack.Stack.RunBody` | httpd-conf/php/include/php/Zend/zend_vm_def.h:4268-4356 | The same through any number of catch blocks in one frame |
| `VmStack.Stack.RunCall` | httpd-conf/php/include/php/Zend/zend_vm_def.h:2250-2412 | A call whose arguments may make calls of their own finds them in place around any body, has each destroyed once, and leaves the pages and heights from before |
| `VmStack.Stack.RunFrame` | httpd-conf/php/include/php/Zend/zend_execute.h:222-279 | A frame around any body, cut short or not, leaves the stack as it was |
| `VmStack.Stack.Run` | httpd-conf/php/include/php/Zend/zend_execute.h:154-332 | Over every well-nested program of pushes, blocks, calls and exceptions, also ones thrown in a call made while arguments of outer calls are pending, the same pages come back with the same heights and contents, if one slot is in use at the start; what it put on the stack comes off in the order of the program: arguments after the body of their call, last first, and what an exception cuts short as it is caught |
| `VmStack.ReleasedOnce` | httpd-conf/php/include/php/Zend/zend_execute.h:154-332 | Every word that a program puts on the stack comes off it exactly once |
| `Environment.CoherentShare` | httpd-conf/php/include/php/Zend/zend_vm_def.h:2684-2713 | References stay symmetric, transitive and equal in value when a variable joins them |
| `Environment.CoherentRemove` | httpd-conf/php/include/php/Zend/zend_vm_def.h:3364-3366 | ... when one of them goes |
| `Environment.CoherentMakeRef` | httpd-conf/php/include/php/Zend/zend.h:698-702 | ... when a variable becomes a reference |
| `Environment.CoherentWrite` | httpd-conf/php/include/php/Zend/zend_vm_def.h:408-487 | ... and when a value is written through one |
| `SharedZvals.DropIsRemove` | httpd-conf/php/include/php/Zend/zend_vm_def.h:3364-3366 | Taking a holder off the count of a shared value removes just that variable from what the program can tell, and counts stay exact |
| `SharedZvals.PointIsShare` | httpd-conf/php/include/php/Zend/zend_vm_def.h:2607-2632 | Sharing a value by adding to its count is a copy if it is no reference and a new reference if it is one |
| `SharedZvals.AllocIsBind` | httpd-conf/php/include/php/Zend/zend_vm_def.h:2582-2605 | A fresh value is a plain new variable |
| `SharedZvals.UpdateIsMakeRef` | httpd-conf/php/include/php/Zend/zend.h:698-702 | Setting is_ref on a value held once makes that variable, and no other, a reference |
| `SharedZvals.UpdateIsWrite` | httpd-conf/php/include/php/Zend/zend_vm_def.h:408-487 | Writing in place to a value that is a reference or held once is seen by exactly the references of the variable written |
| `SharedZvals.SeparationIsHidden` | httpd-conf/php/include/php/Zend/zend.h:679-696 | Separation changes nothing a program can tell |
| `Zvals.Variables.SeparateIfNotRef` | httpd-conf/php/include/php/Zend/zend.h:693-696 | Afterwards writing in place is safe, and no program can tell the difference |
| `Zvals.Variables.RefsAre` | httpd-conf/php/include/php/Zend/zend.h:693-732 | Variables are references of each other exactly if they hold the same value and it says so |
| `Zvals.Variables.SeparateToMakeRef` | httpd-conf/php/include/php/Zend/zend.h:698-702 | The variable becomes a reference, with itself only if it was none, without touching those it shared a value with |
| `Zvals.Variables.Release` | httpd-conf/php/include/php/Zend/zend_vm_def.h:3364-3366 | Only the variable named goes |
| `Zvals.Variables.FetchForWrite` | httpd-conf/php/include/php/Zend/zend_vm_def.h:2684-2713 | A variable that does not exist starts as null, sharing the uninitialized value |
| `Zvals.Variables.SendVal` | httpd-conf/php/include/php/Zend/zend_vm_def.h:2582-2605 | The argument is a plain variable of that value |
| `Zvals.Variables.SendVar` | httpd-conf/php/include/php/Zend/zend_vm_def.h:2607-2632 | The argument has the value of the variable and is no reference to it, shared or not |
| `Zvals.Variables.SendRef` | httpd-conf/php/include/php/Zend/zend_vm_def.h:2684-2713 | The argument and the variable become references of each other, and of all the variable was a reference of |
| `Zvals.Variables.SendVarNoRef` | httpd-conf/php/include/php/Zend/zend_vm_def.h:2634-2682 | By reference if the value is a reference or held once, else by value |
| `Zvals.Variables.Recv` | httpd-conf/php/include/php/Zend/zend_vm_def.h:2726-2759 | The parameter gives up what it held and joins the argument, by value or as a reference |
| `Zvals.Variables.RecvDefault` | httpd-conf/php/include/php/Zend/zend_vm_def.h:2761-2791 | The parameter gives up what it held and is a plain variable of the default |
| `Zvals.Variables.WriteInPlace` | httpd-conf/php/include/php/Zend/zend.h:719-732 | The references of the variable, and it, hold the new value; every other slot holds what it did, whatever else shared its value, and the references are the same |
| `Zvals.Variables.Modify` | httpd-conf/php/include/php/Zend/zend_vm_def.h:737-776 | The same for increments, with a result that takes the value afterwards |
| `Zvals.Variables.AssignOp` | httpd-conf/php/include/php/Zend/zend_vm_def.h:408-487 | The same for assignment operators, the operand being what it was before, also when it is the variable itself |
| `Zvals.Variables.PostIncDec` | httpd-conf/php/include/php/Zend/zend_vm_def.h:819-855 | The same for postfix operators, whose result is the value before |
| `VariableRuns.AfterCoherent` | httpd-conf/php/include/php/Zend/zend_vm_def.h:2582-2791 | Every handler keeps references coherent |
| `VariableRuns.Execute` | httpd-conf/php/include/php/Zend/zend_vm_def.h:2582-2791 | Each handler on reference-counted values does what its step does to plain values and references, and counts stay exact; SEND_VAR_NO_REF does what one of the other sends does, that by reference for a reference |
| `VariableRuns.Run` | httpd-conf/php/include/php/Zend/zend_vm_def.h:2582-2791 | The same over every run: counting references and copying on write are not visible |
| `VariableRuns.StaysAlone` | httpd-conf/php/include/php/Zend/zend_vm_def.h:2582-2791 | A variable that is no reference keeps its value through any step that does not name it |
| `VariableRuns.ValueIsIsolated` | httpd-conf/php/include/php/Zend/zend_vm_def.h:2607-2632 | A value passed by value keeps it whatever happens to other variables, the one it came from included |
| `VariableRuns.StaysTogether` | httpd-conf/php/include/php/Zend/zend_vm_def.h:2582-2791 | Two references stay so through any step that does not unset or rebind one of them |
| `VariableRuns.SentRefIsReference` | httpd-conf/php/include/php/Zend/zend_vm_def.h:2684-2713 | What is sent by reference is a reference of the variable, with its value |
| `VariableRuns.ReferencesAgree` | httpd-conf/php/include/php/Zend/zend_vm_def.h:2684-2713 | Two references have the same value after every run, until one is unset or rebound |
| `VariableLaws.Unsets` | httpd-conf/php/include/php/Zend/zend_vm_def.h:3364-3366 | Unsetting a variable takes it, and it alone, out of the variables and of its references |
| `VariableLaws.SendsVal` | httpd-conf/php/include/php/Zend/zend_vm_def.h:2582-2605 | The argument is a plain variable of the value, and nothing else changes |
| `VariableLaws.SendsVar` | httpd-conf/php/include/php/Zend/zend_vm_def.h:2607-2632 | The argument is a plain variable of what the variable holds, null if there is none, and nothing else changes |
| `VariableLaws.SendsRef` | httpd-conf/php/include/php/Zend/zend_vm_def.h:2684-2713 | The variable, null if there was none, its references and the argument are references of each other, with its value; nothing else changes |
| `VariableLaws.Receives` | httpd-conf/php/include/php/Zend/zend_vm_def.h:2726-2759 | The parameter leaves its references, takes the value of the argument, and joins its references exactly if it is one |
| `VariableLaws.ReceivesDefault` | httpd-conf/php/include/php/Zend/zend_vm_def.h:2761-2791 | The parameter leaves its references and is a plain variable of the default |
| `VariableLaws.AssignsOp` | httpd-conf/php/include/php/Zend/zend_vm_def.h:408-487 | The variable and its references hold op of its value and that of the operand before, every other slot what it did, and references are the same; a used result takes the new value, as a reference if the variable is one |
| `VariableLaws.IncDecs` | httpd-conf/php/include/php/Zend/zend_vm_def.h:737-776 | The same for increments and decrements, with a function of the value |
| `VariableLaws.PostIncDecs` | httpd-conf/php/include/php/Zend/zend_vm_def.h:819-855 | The same for postfix operators, whose result is a plain variable of the value before |
| `CompiledVars.Frame.Forget` | httpd-conf/php/include/php/Zend/zend_vm_def.h:3350-3359 | The inner loop clears the cached slot of that name and nothing else |
| `CompiledVars.WithoutIs` | httpd-conf/php/include/php/Zend/zend_vm_def.h:3350-3359 | As names are listed once, that is one slot |
| `CompiledVars.AgreesWithout` | httpd-conf/php/include/php/Zend/zend_vm_def.h:3346-3366 | A cache agrees with a table from which a name was deleted exactly if it has forgotten it |
| `CompiledVars.ForgetSharing` | httpd-conf/php/include/php/Zend/zend_vm_def.h:3347-3361 | The loop over frames clears the name in the frames on that table from the given one outwards, up to the first on another table |
| `CompiledVars.Executor.BlockEnds` | httpd-conf/php/include/php/Zend/zend_vm_def.h:3347-3361 | As frames on one table are next to each other, the early stop has passed all of them |
| `CompiledVars.Executor.ForgottenOrMissed` | httpd-conf/php/include/php/Zend/zend_vm_def.h:3385-3406 | After the loop every cache is right exactly if no frame beyond it works on the table and has the name cached |
| `CompiledVars.Executor.UnsetByName` | httpd-conf/php/include/php/Zend/zend_vm_def.h:3385-3406 | The name is deleted; every cache is right exactly if before the call no frame on the table had the name cached with a frame on another table between it and the current one |
| `CompiledVars.Executor.NotStranded` | httpd-conf/php/include/php/Zend/zend_vm_def.h:3385-3406 | No frame is in that position for the table of the current frame, or for a name the table has not |
| `CompiledVars.Executor.MissedIff` | httpd-conf/php/include/php/Zend/zend_vm_def.h:3389-3405 | What the loop over frames misses is what was in that position before |
| `CompiledVars.Executor.UnsetQuick` | httpd-conf/php/include/php/Zend/zend_vm_def.h:3341-3369 | The name is deleted, forgotten by all frames on the table and by no other, and every cache stays right; without a table only the variable of this frame goes |
| `CompiledVars.Executor.UnsetGlobal` | httpd-conf/php/include/php/Zend/zend_vm_def.h:3446-3465 | The element of $GLOBALS goes, which for the text of a long is the one with that index and no variable; every frame on the table forgets the name, and all caches stay right |
| `CompiledVars.Executor.UnsetNumber` | httpd-conf/php/include/php/Zend/zend_vm_def.h:3434-3441 | An integer offset deletes an index alone, and no cache is wrong for it |
| `CompiledVars.Executor.UnsetNull` | httpd-conf/php/include/php/Zend/zend_vm_def.h:3470-3472 | A null offset deletes the variable of the empty name, which no frame forgets: every cache stays right exactly if no frame on the table of globals had that name cached |
| `CompiledVars.Executor.ForgetEverywhere` | httpd-conf/php/include/php/Zend/zend_vm_def.h:3452-3464 | The loop without an early stop clears the name in every frame on the table |
| `CompiledVars.Executor.StayCoherent` | httpd-conf/php/include/php/Zend/zend_vm_def.h:3446-3465 | Deleting a name from a table and forgetting it in the frames on it keeps all caches right |
| `CompiledVars.Executor.CoherentUnlessCached` | httpd-conf/php/include/php/Zend/zend_vm_def.h:3470-3472 | Deleting a name from a table that no frame forgets keeps all caches right exactly if none on that table had it |
| `CompiledVars.Executor.IsSet` | httpd-conf/php/include/php/Zend/zend_vm_def.h:3846-3862 | The cached slot, trusted, is the one the symbol table would have given |
| `CompiledVars.Executor.Fetch` | httpd-conf/php/include/php/Zend/zend_vm_def.h:3846-3862 | A lookup caches the slot of that variable alone, the one its symbol table has for it, which it makes only if it is for writing and there is none; all caches stay right |
| `CompiledVars.Executor.Catch` | httpd-conf/php/include/php/Zend/zend_vm_def.h:2544-2580 | The exception variable is in the cache, in the slot of the symbol table if there is one; no other variable changes, and all caches stay right |
| `CompiledVars.Executor.Call` | httpd-conf/php/include/php/Zend/zend_vm_def.h:2320-2335 | A function starts without a symbol table; frames on one table stay next to each other |
| `CompiledVars.Executor.Builtin` | httpd-conf/php/include/php/Zend/zend_vm_def.h:3350-3351 | A frame without compiled code is passed over and keeps the chain right |
| `CompiledVars.Executor.Include` | httpd-conf/php/include/php/Zend/zend_vm_def.h:3292-3298 | An included file works on the table of its caller, made first if there is none |
| `CompiledVars.Executor.Rebuild` | httpd-conf/php/include/php/Zend/zend_vm_def.h:3292-3294 | For a frame of compiled code: the new table has exactly the variables cached, in the slots cached |
| `CompiledVars.Executor.Leave` | httpd-conf/php/include/php/Zend/zend_vm_def.h:2144-2211 | The table of a function that ends is empty afterwards, and no remaining frame works on it; an included file leaves the table alone |
| `CompiledVars.Popped` | httpd-conf/php/include/php/Zend/zend_vm_def.h:2144-2211 | A frame that was not included shares its table with no frame further out |
| `CompiledVars.Pushed` | httpd-conf/php/include/php/Zend/zend_vm_def.h:2320-2335 | A frame that starts on no table or that of its caller keeps frames on one table next to each other |
| `CompiledVarRuns.DoFetch` | httpd-conf/php/include/php/Zend/zend_vm_def.h:3846-3862 | A lookup does to the variables of the frame, on a symbol table or not, what it would without caches |
| `CompiledVarRuns.DoCatch` | httpd-conf/php/include/php/Zend/zend_vm_def.h:2544-2580 | So does a catch |
| `CompiledVarRuns.DoUnset` | httpd-conf/php/include/php/Zend/zend_vm_def.h:3341-3369 | And an unset |
| `CompiledVarRuns.DoInclude` | httpd-conf/php/include/php/Zend/zend_vm_def.h:3292-3298 | An included file starts with the variables of its caller |
| `CompiledVarRuns.Do` | httpd-conf/php/include/php/Zend/zend_vm_def.h:2144-3900 | Each of the steps keeps every cached slot equal to the slot its frame's table has for the name, and leads where it would without caches |
| `CompiledVarRuns.Run` | httpd-conf/php/include/php/Zend/zend_vm_def.h:2144-3900 | So does every run of calls, includes, returns, lookups, catches and unsets, step by step, given that superglobals are never compiled variables and that a null offset of $GLOBALS is unset only while no frame has the empty name cached |
| `CompiledVarRuns.StaleCache` | httpd-conf/php/include/php/Zend/zend_vm_def.h:3385-3406 | Such a frame is left with a stale slot: the input is one that no compiled code produces |
| `CompiledVarRuns.StaleEmptyName` | httpd-conf/php/include/php/Zend/zend_vm_def.h:3470-3472 | Unsetting a null offset of $GLOBALS leaves a frame that has the empty name cached with a stale slot |
| `Regions.FindCatch` | httpd-conf/php/include/php/Zend/zend_vm_def.h:4284-4294 | Picks the innermost try block around the throw, none exactly if none is around it; stopping early is sound |
| `Regions.FreeLive` | httpd-conf/php/include/php/Zend/zend_vm_def.h:4313-4338 | Frees, in the order of the table, the temporaries of just the regions that the throw is in and the catch block is not, and that do not end by a free for returns alone; stopping early is sound |
| `Regions.TempsBeyond` | httpd-conf/php/include/php/Zend/zend_vm_def.h:4316-4318 | No region that starts after the throw is left behind |
| `Regions.TempsExact` | httpd-conf/php/include/php/Zend/zend_vm_def.h:4313-4338 | A temporary is freed exactly if a region holding the throw but not the catch block ends by freeing it, and no more often than regions own it |
| `PtrStack.Stack.ResizeIfNeeded` | httpd-conf/php/include/php/Zend/zend_ptr_stack.h:46-54 | Room for the elements to come, with the contents kept |
| `PtrStack.Stack.Push` | httpd-conf/php/include/php/Zend/zend_ptr_stack.h:99-105 | Appends one |
| `PtrStack.Stack.Push2` | httpd-conf/php/include/php/Zend/zend_ptr_stack.h:71-82 | Appends two in order |
| `PtrStack.Stack.Push3` | httpd-conf/php/include/php/Zend/zend_ptr_stack.h:57-69 | Appends three in order |
| `PtrStack.Stack.Pop` | httpd-conf/php/include/php/Zend/zend_ptr_stack.h:107-111 | Takes back the last |
| `PtrStack.Stack.Pop2` | httpd-conf/php/include/php/Zend/zend_ptr_stack.h:92-97 | Takes back two, last first |
| `PtrStack.Stack.Pop3` | httpd-conf/php/include/php/Zend/zend_ptr_stack.h:84-90 | Takes back three, last first |
| `PendingCalls.Executor.InitByName` | httpd-conf/php/include/php/Zend/zend_vm_def.h:2073-2122 | For the name of a function: saves the registers of the call around it and takes no reference |
| `PendingCalls.Executor.InitClosure` | httpd-conf/php/include/php/Zend/zend_vm_def.h:2087-2098 | For a closure: saves the registers, takes its class and its $this, and a reference to the latter if there is one |
| `PendingCalls.Executor.TakeThis` | httpd-conf/php/include/php/Zend/zend_vm_def.h:1956-1968 | One reference to the receiver, or to a fresh copy if it is a reference |
| `PendingCalls.Executor.InitMethod` | httpd-conf/php/include/php/Zend/zend_vm_def.h:1919-1974 | Saves the registers and takes exactly one reference, none for a static method |
| `PendingCalls.Executor.InitStatic` | httpd-conf/php/include/php/Zend/zend_vm_def.h:1976-2071 | Saves the registers and takes a reference to $this exactly if the method is not static |
| `PendingCalls.Executor.New` | httpd-conf/php/include/php/Zend/zend_vm_def.h:2896-2940 | The new object is held by the call, and by the result if it is used; the saved scope says so in its bits |
| `PendingCalls.Executor.Abandon` | httpd-conf/php/include/php/Zend/zend_vm_def.h:4298-4307 | Gives up the reference of a call and, of a constructor call whose object is used, that of the result; marks the object exactly if nothing else held it |
| `PendingCalls.Executor.PopCall` | httpd-conf/php/include/php/Zend/zend_execute.h:334-342 | The pair saved below the scope comes back into the registers |
| `PendingCalls.Executor.GiveUp` | httpd-conf/php/include/php/Zend/zend_vm_def.h:4296-4311 | One round of the loop restores the registers saved by the call on top and gives up just its references |
| `PendingCalls.Executor.HandleException` | httpd-conf/php/include/php/Zend/zend_vm_def.h:4296-4311 | With any number of pending calls the registers are those the frame entered with, exactly their saved words are gone and each reference is given up once; a constructor fails exactly if its call gave up the last reference to the object |
| `PendingCalls.Executor.PopArgs` | httpd-conf/php/include/php/Zend/zend_vm_def.h:4279-4282 | Releases each object above the frame on the argument stack once, and no other |
| `PendingCalls.Executor.Unwind` | httpd-conf/php/include/php/Zend/zend_vm_def.h:4279-4311 | Of the arguments and the pending calls of a frame together each reference is given up once; a constructor fails exactly if its call gave up the last reference to the object, those of the arguments being gone before |
| `PendingCalls.CtorFailsHeld` | httpd-conf/php/include/php/Zend/zend_vm_def.h:4298-4307 | Only objects of pending calls can be marked |
| `CallRuns.Enter` | httpd-conf/php/include/php/Zend/zend_vm_def.h:2250-2300 | The callee starts with no pending call and its object as $this; the registers of the call around it are back |
| `CallRuns.Leave` | httpd-conf/php/include/php/Zend/zend_vm_def.h:2216-2232 | The call gives up its reference, and after an exception that of its result; otherwise a new object that is used is kept; the object is marked exactly if its constructor threw and nothing else holds it; the caller's $this is back |
| `CallRuns.ClearArgs` | httpd-conf/php/include/php/Zend/zend_execute.h:310-321 | The arguments of a call are released once each, and nothing else is |
| `CallRuns.Finish` | httpd-conf/php/include/php/Zend/zend_vm_def.h:2216-2234 | After a call its $this and its arguments are given up, what it results in is kept, and no object that something holds is marked |
| `CallRuns.RunCall` | httpd-conf/php/include/php/Zend/zend_vm_def.h:2144-2412 | A whole call with any body conserves references but its own and those that variables keep, and takes its arguments off the stack; of the objects there were it can mark only the one under construction, if nothing holds it, and comes to what its body comes to by the rules of code, exceptions included |
| `CallRuns.Exec` | httpd-conf/php/include/php/Zend/zend_vm_def.h:1919-2412 | Code that may throw anywhere, keep and drop references and call methods of objects made on the way accounts for every reference by variables, arguments and calls pending; no object that something holds is marked; and what is kept, sent and thrown is what the steps say: nothing runs after a throw |
| `CallRuns.RunAndUnwind` | httpd-conf/php/include/php/Zend/zend_vm_def.h:4268-4356 | Wherever an exception cuts a frame short, its arguments and pending calls are given up, the registers and the words of the calls around it are as before, and so are all references but those that variables keep, by the same rules |
| `CallRuns.RunBody` | httpd-conf/php/include/php/Zend/zend_vm_def.h:4268-4356 | So they are through any number of catch blocks; no object from before is marked, and none that something holds; an exception is passed on exactly if no handler ends without one |
| `Silence.Executor.BeginSilence` | httpd-conf/php/include/php/Zend/zend_vm_def.h:4079-4093 | The level is saved in the temporary, and the outermost silence is remembered |
| `Silence.Executor.EndSilence` | httpd-conf/php/include/php/Zend/zend_vm_def.h:4101-4117 | The level saved comes back unless something set it meanwhile |
| `Silence.Executor.Restore` | httpd-conf/php/include/php/Zend/zend_vm_def.h:4340-4348 | The level before the outermost silence comes back |
| `Silence.Executor.Exec` | httpd-conf/php/include/php/Zend/zend_vm_def.h:4079-4117 | With any nesting of silences, calls and exceptions, the level before the outermost open silence is kept where the handler looks; errors find level 0 inside a silence and the level around it elsewhere; it throws exactly if the code does |
| `Silence.Executor.Run` | httpd-conf/php/include/php/Zend/zend_vm_def.h:4079-4348 | Whether a function ends normally, catches or passes on an exception, which it does exactly if nothing catches it, error reporting is what it was |
| `Silence.Executor.RunIn` | httpd-conf/php/include/php/Zend/zend_vm_def.h:4268-4356 | The same through any number of catch blocks in one frame |
| `Hash.Absorb` | httpd-conf/php/include/php/Zend/zend_hash.h:268-275 | The shift-and-add step, wrapping at every operation, is 33 times the hash plus a signed character |
| `Hash.HashFunc` | httpd-conf/php/include/php/Zend/zend_hash.h:261-288 | The unrolled loop with its tail is the plain fold over all characters, for every length |
| `Hash.ClosedForm` | httpd-conf/php/include/php/Zend/zend_hash.h:228-288 | The hash is 5381 * 33^n + sum of c_i * 33^(n-1-i) modulo the word size |
| `Numerals.PrintValue` | httpd-conf/php/include/php/Zend/zend_hash.h:307-341 | The decimal text of a number reads as the number and has no leading zero |
| `Numerals.ValuePrint` | httpd-conf/php/include/php/Zend/zend_hash.h:307-341 | Digits without a leading zero are the text of the number they read as |
| `Numerals.DigitsAre` | httpd-conf/php/include/php/Zend/zend_hash.h:307-341 | Each digit is worth its place in 0 to 9, or 0 to f in either case, and nothing else is a digit |
| `Numerals.HexValue` | httpd-conf/php/include/php/Zend/zend_operators.h:88-143 | The hexadecimal text of a number, in either case, reads as the number and has no leading zero |
| `NumericKey.CanonicalPrints` | httpd-conf/php/include/php/Zend/zend_hash.h:307-341 | A key that looks canonical is the text of its number |
| `NumericKey.PrintsCanonical` | httpd-conf/php/include/php/Zend/zend_hash.h:307-341 | The text of every integer looks canonical and reads as that integer |
| `NumericKey.TooLongOverflows` | httpd-conf/php/include/php/Zend/zend_hash.h:319-323 | What is refused for its length is out of range |
| `NumericKey.NotTooLongFits` | httpd-conf/php/include/php/Zend/zend_hash.h:319-323 | What is not refused for its length fits an unsigned long |
| `NumericKey.Accumulates` | httpd-conf/php/include/php/Zend/zend_hash.h:325-328 | The accumulator holds the digits read so far and never wraps |
| `NumericKey.Negated` | httpd-conf/php/include/php/Zend/zend_hash.h:329-337 | The range test and negation on unsigned longs give the bits of the negative number |
| `NumericKey.Scan` | httpd-conf/php/include/php/Zend/zend_hash.h:307-341 | The path is taken exactly for canonical keys in range, with the right index |
| `NumericKey.HandleNumeric` | httpd-conf/php/include/php/Zend/zend_hash.h:307-341 | The integer path is taken if and only if the key is the decimal text of some long, with the bits of that long |
| `Words.Width.UnsignedInjective` | httpd-conf/php/include/php/Zend/zend_hash.h:330-338 | Two longs with the same bits are equal |
| `Symtable.NormalInjective` | httpd-conf/php/include/php/Zend/zend_hash.h:343-368 | No two strings are filed under one key |
| `Symtable.OriginalNormal` | httpd-conf/php/include/php/Zend/zend_hash.h:343-368 | The string can be told from the key it is filed under |
| `Symtable.NormalOfPrinted` | httpd-conf/php/include/php/Zend/zend_hash.h:343-368 | The printed form of an index is filed under that index |
| `Symtable.Table.Contents` | httpd-conf/php/include/php/Zend/zend_hash.h:343-368 | The table of integer and string keys stands for a map keyed by strings |
| `Symtable.Table.Normalize` | httpd-conf/php/include/php/Zend/zend_hash.h:343-347 | The key an operation works with |
| `Symtable.Table.Update` | httpd-conf/php/include/php/Zend/zend_hash.h:343-347 | A plain update of the map keyed by strings |
| `Symtable.Table.Del` | httpd-conf/php/include/php/Zend/zend_hash.h:350-354 | A plain deletion from it, which tells whether the key was there |
| `Symtable.Table.Find` | httpd-conf/php/include/php/Zend/zend_hash.h:357-361 | A plain lookup in it |
| `Symtable.Table.Exists` | httpd-conf/php/include/php/Zend/zend_hash.h:364-368 | A plain membership test in it |
| `Symtable.Table.IndexUpdate` | httpd-conf/php/include/php/Zend/zend_hash.h:343-347 | The operation by index is that by the printed integer |
| `Symtable.Table.IndexDel` | httpd-conf/php/include/php/Zend/zend_hash.h:350-354 | The same for deletion |
| `Symtable.Table.IndexFind` | httpd-conf/php/include/php/Zend/zend_hash.h:357-361 | The same for lookup |
| `Symtable.Table.IndexExists` | httpd-conf/php/include/php/Zend/zend_hash.h:364-368 | The same for the test |
| `NumericText.GrammarAccepted` | httpd-conf/php/include/php/Zend/zend_operators.h:113-197 | All numbers of the grammar are recognized, and as integers exactly if they are, with their value |
| `NumericText.Characters` | httpd-conf/php/include/php/Zend/zend_operators.h:113-151 | The characters that are white space, signs, and marks of exponents and hexadecimal numbers |
| `NumericText.AcceptedGrammar` | httpd-conf/php/include/php/Zend/zend_operators.h:113-197 | All that is recognized is a number of the grammar |
| `NumericText.Recognized` | httpd-conf/php/include/php/Zend/zend_operators.h:113-197 | Being numeric, an integer, or an integer in range is decided by the recognizer |
| `NumericString.LongMin` | httpd-conf/php/include/php/Zend/zend.h:253-261 | The digit strings are those of the number after LONG_MAX |
| `NumericString.CompareDigits` | httpd-conf/php/include/php/Zend/zend_operators.h:200-201 | strcmp on digit strings of one length compares the numbers |
| `NumericString.DigitsFitLong` | httpd-conf/php/include/php/Zend/zend_operators.h:199-210 | The digit count and the comparison decide exactly whether the number fits a long |
| `NumericString.HexFitsLong` | httpd-conf/php/include/php/Zend/zend_operators.h:168-173 | The same for hexadecimal digits |
| `NumericString.LeadingZeros` | httpd-conf/php/include/php/Zend/zend_operators.h:133-136 | Skipping zeros does not change the number |
| `NumericString.StrToLExact` | httpd-conf/php/include/php/Zend/zend_operators.h:212-214 | strtol never saturates where it is used |
| `NumericString.Check` | httpd-conf/php/include/php/Zend/zend_operators.h:142-160 | What is left to read at the label is accepted exactly if the whole text is |
| `NumericString.Scan` | httpd-conf/php/include/php/Zend/zend_operators.h:138-188 | The goto loop terminates; it stops at the end exactly on accepted texts, and its digit count tells what it needs of integers |
| `NumericString.Classify` | httpd-conf/php/include/php/Zend/zend_operators.h:113-224 | The verdict on the text behind the white space, with the value of a double asked for or not |
| `NumericString.IsNumericString` | httpd-conf/php/include/php/Zend/zend_operators.h:102-224 | IS_LONG exactly for integers in range, with their exact value; without dval, non-zero exactly for the grammar; with dval the same whenever the conversions stop at the end exactly on what they read, and a float of the grammar is IS_DOUBLE exactly if its conversion stops at the end |
| `Search.MemNStr` | httpd-conf/php/include/php/Zend/zend_operators.h:226-257 | The least position where the needle occurs, none exactly if it occurs nowhere, without reading outside |
| `Search.MemRChr` | httpd-conf/php/include/php/Zend/zend_operators.h:259-277 | The last position of the character, none exactly if it does not occur |
| `Multiply.SumTellsDifference` | httpd-conf/php/include/php/Zend/zend_multiply.h:53 | Two rounded operations still tell whether two floats differ, for every round-to-nearest |
| `Multiply.UsedIff` | httpd-conf/php/include/php/Zend/zend_multiply.h:49-58 | The double is used exactly if the two rounded products differ: the two rounded operations of the test lose nothing |
| `Multiply.OverflowApart` | httpd-conf/php/include/php/Zend/zend_multiply.h:50-53 | A float more than half as large as a product out of range, with its sign, is never the wrapped product rounded |
| `Multiply.RoundKeeps` | httpd-conf/php/include/php/Zend/zend_multiply.h:51-53 | Rounding keeps the sign and more than half of any number, seven eighths if there are four bits |
| `Multiply.OverflowNeverMissed` | httpd-conf/php/include/php/Zend/zend_multiply.h:49-58 | A product out of range always gets the double, however the conversions of operands and of the wrapped product round |
| `Multiply.RightIff` | httpd-conf/php/include/php/Zend/zend_multiply.h:49-58 | The test is right exactly when a product in range rounds to the same float whether or not its operands were rounded first |
| `Multiply.RightForFloats` | httpd-conf/php/include/php/Zend/zend_multiply.h:49-58 | It is right for all operands that are floats themselves |
| `Multiply.ExactMultiply` | httpd-conf/php/include/php/Zend/zend_multiply.h:49-58 | If both operands convert exactly, the long is used exactly for products in range and is then exact, and the double is the product rounded |
| `Multiply.ConversionExact` | httpd-conf/php/include/php/Zend/zend_multiply.h:51-52 | Conversions are exact if the significand has a bit for each value bit of a long |
| `Multiply.AgreesWithWidened` | httpd-conf/php/include/php/Zend/zend_multiply.h:36-58 | Then, for all longs, the form in long double decides and computes as that in a wider integer |
| `Multiply.RoundedConversionFails` | httpd-conf/php/include/php/Zend/zend_multiply.h:49-58 | With 53 bits and rounding conversions a product that fits is taken for an overflow |
| `FileTree.EntryOf` | httpd-conf/php/lib/php/System.php:144 | A path tells which entry of a directory it is under, also in the root directory, where files are listed with two separators |
| `FileTree.PathInjective` | httpd-conf/php/lib/php/System.php:144 | No two places in a tree have the same path |
| `FileTree.ContainsEntries` | httpd-conf/php/lib/php/System.php:142-153 | What a directory contains within the limit, in terms of its entries |
| `FileTree.PathText` | httpd-conf/php/lib/php/System.php:136-149 | A path listed is that of the directory and each name behind a separator; for the root directory one separator comes before a directory, two before a file |
| `FileTree.ReachedByNames` | httpd-conf/php/lib/php/System.php:142-153 | Names lead from entry to entry, through directories that can be opened |
| `FileTree.DirToStruct` | httpd-conf/php/lib/php/System.php:122-155 | Lists exactly once each directory that can be opened, and each file, by the path of the names that lead there, as far as they are no more than the limit; 0 is no limit |
| `FileTree.MultipleToStruct` | httpd-conf/php/lib/php/System.php:165-180 | Lists all trees of directory arguments, and behind them, in their order, the names given of files to which nothing listed before is alike, as in_array compares |
| `FileTree.ListedUnlessTaken` | httpd-conf/php/lib/php/System.php:173-177 | A file named is left out exactly if, where it is first named, something alike is listed and no directory argument holds it |
| `FileTree.ListingExactIff` | httpd-conf/php/lib/php/System.php:165-180 | The listing is exact just when no file argument, where it is first named, is alike to a file already listed, unless a directory argument holds it anyway |
| `FileTree.ListingExactIfApart` | httpd-conf/php/lib/php/System.php:165-180 | In particular when no file argument is alike to a different file named before it |
| `FileTree.PrefixLess` | httpd-conf/php/lib/php/System.php:211-216 | A path sorts before its extensions |
| `FileTree.RSortDescending` | httpd-conf/php/lib/php/System.php:211-216 | rsort puts them in descending order |
| `FileTree.LessIs` | httpd-conf/php/lib/php/System.php:211 | The order of paths is that of their first different character, a prefix first |
| `FileTree.Deepest` | httpd-conf/php/lib/php/System.php:211-216 | In descending order all that is in a directory comes before it |
| `FileTree.LeftIs` | httpd-conf/php/lib/php/System.php:205-209 | As names are unlinked one after the other, exactly those files go that some name leads to past links all still there at its turn |
| `FileTree.FileSystem.UnlinkAll` | httpd-conf/php/lib/php/System.php:205-209 | Succeeds exactly if every name leads to a file, no two lead to the same, and none passes a link that one before it leads to; then, or if no name passes a link that is named, just the files that the names lead to are gone |
| `FileTree.FileSystem.RmDirAll` | httpd-conf/php/lib/php/System.php:211-216 | Every directory listed is empty when its turn comes; succeeds exactly if none is listed twice |
| `FileTree.FileSystem.RemoveRecursively` | httpd-conf/php/lib/php/System.php:191-226 | Succeeds exactly if no directory is listed twice, every name listed leads to a file of its own, and none passes a link listed before it; then, or if no name passes a link listed, it deletes just what is listed, and that is all that was named exactly if each name left out for being alike leads to a file that a listed one leads to |
| `FileTree.RemoveAlike` | httpd-conf/php/lib/php/System.php:174 | rm -r of the files 1 and 01 leaves 01 and says that it succeeded |
| `FileTree.RemoveTwice` | httpd-conf/php/lib/php/System.php:205-209 | rm -r of two names of one file deletes it and says that it failed |
| `FileTree.PastLink` | httpd-conf/php/lib/php/System.php:170-177 | In whatever order the arguments are given, a name past a link that a directory argument holds makes rm -r fail |
| `FileTree.RemovePastLink` | httpd-conf/php/lib/php/System.php:191-226 | rm -r of a file past such a link, and of the directory, leaves the file |
| `FileTree.FileSystem.RemoveTree` | httpd-conf/php/lib/php/System.php:191-226 | For one directory leaves the file system without all that is under it, and succeeds |
| `ErrorHandling.Pear.SetErrorHandling` | httpd-conf/php/lib/php/PEAR.php:303-338 | The setting of the object, or of the defaults, as asked for; a bad callback changes the mode alone, a bad mode nothing |
| `ErrorHandling.Pear.PushErrorHandling` | httpd-conf/php/lib/php/PEAR.php:649-668 | Saves the setting and what was asked for, then changes it |
| `ErrorHandling.Pear.PopErrorHandling` | httpd-conf/php/lib/php/PEAR.php:677-689 | Asks for the setting saved by the last push and drops both entries; null if the stack has none |
| `ErrorHandling.Pear.StaticPushErrorHandling` | httpd-conf/php/lib/php/PEAR.php:566-599 | What a push called statically does |
| `ErrorHandling.Pear.StaticPopErrorHandling` | httpd-conf/php/lib/php/PEAR.php:601-636 | What a pop called statically does |
| `ErrorHandling.RestoredIff` | httpd-conf/php/lib/php/PEAR.php:303-338 | A pop restores a setting whatever was pushed exactly if the setting is restorable |
| `ErrorHandling.ChangedIs` | httpd-conf/php/lib/php/PEAR.php:303-338 | Null and the modes 0, 1, 2, 4, 8 and 32 are set with their options, 16 with options that can be called or else those from before, and others not at all |
| `ErrorHandling.Unrestored` | httpd-conf/php/lib/php/PEAR.php:566-689 | On the defaults an invalid callback leads to a setting that a push and its pop do not restore |
| `ErrorHandling.Pear.Run` | httpd-conf/php/lib/php/PEAR.php:566-689 | Over every well-nested trace, on objects and defaults mixed and by either pair, the stack and every object with a restorable setting are as before, and all settings are those that asking for them in turn gives |

## Left out

- Hash table internals, the cycle collector, the allocator and the compiler: only declarations are in the repository, or they would add only easy members.
- `zend_assign_to_variable`, dimension and property access, object handlers, iterators, class binding and extension hooks: they call code that is not part of this model.
- `is_numeric_string` with `allow_errors` 1 or -1: how far a prefix reaches has no clean statement.
- The assembly form of the multiplication and conversions from double to long are platform code; the value of a double result is not modelled beyond its rounding in long double.
- Printing, raising and deleting expected errors in `PEAR.php`, and the other commands of `System.php`: input and output.
- `rm` without `-r`, which deletes its arguments one by one.
- VmStack.Stack.AllocFrame: asks for a block of at least one slot, as all callers do; `Alloc` covers blocks of none.
- VmStack.Page: addresses are offsets into pages whose first slot is aligned.
- Zvals.Variables: compiled variables and argument slots of all frames are keys of one map of slots, so the paged stack and the slot arrays are not combined with reference counts in one heap.
- CompiledVars.Frame: the slots cached are a sequence in a field, and a slot is an abstract number; moving a value into a new table entry keeps its number.
- CompiledVarRuns.Leads: says what steps do to the variables of the current frame and to the globals; for frames further out it says only that their tables and caches agree.
- CompiledVars.Executor.Rebuild: only for a current frame with compiled code; a builtin that asks for a table is not part of this model.
- PendingCalls.Executor: models user functions; a builtin without a scope leaves `$this` alone.
- CallRuns.RunBody: the argument stack is the flat sequence that `VmStack` shows its pages to be, and holds objects alone; temporaries and error reporting are those of `Regions` and `Silence`, on heaps of their own.
- CallRuns.First: a method call on what is no object is a fatal error, and is passed over.
- Silence.Executor: error reporting is a number; that setting it through the ini entry can be refused is not modelled.
- Regions.FindCatch: tables are in the order the compiler writes them, nested or disjoint.
- FileTree.DirToStruct: the order of the lists is not stated, and a directory that cannot be opened is not listed, as in the code.
- FileTree.Holds: the directory arguments of `rm -r` do not include the root directory, which cannot be deleted.
- FileTree.FileSystem.Unlink: permissions, and files that others create or delete meanwhile, are not modelled.
- FileTree.SameNumber: compares integers exactly; how `in_array` compares numbers with a fraction or out of the range of a long is not stated, and the results hold for any relation in its place.
- FileTree.RSort: compares paths as strings, which rsort does for real paths because they are not numbers.
- ErrorHandling.Mode: modes that are neither null nor integers are not modelled.
