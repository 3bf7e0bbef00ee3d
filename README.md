# Task list owner, in Dafny

A model of the `TaskManager` component of the simple-task exercise: the owner of an
ordered list of task names (`tasks`) and of the pending name typed into the form
(`newTaskName`). `addTask` submits the pending name after trimming it; `removeTask`
deletes a task by position when its presenter reports it completed.

- `js_string.dfy` (module `JsString`): the behaviour of `String.prototype.trim`
  that `addTask` uses. White space is the WhiteSpace and LineTerminator code points
  of ECMA-262 (sections 12.2 and 12.3), including every code point of category Zs.
- `js_array.dfy` (module `JsArray`): the behaviour of `Array.prototype.splice(start,
  deleteCount)` with no inserted items (ECMA-262, section 23.1.3), including the
  clamping of the start position and of the delete count.
- `task_manager.dfy` (module `TaskManagerComponent`): class `TaskManager` with the
  two fields, which its methods reassign in place. `Valid()` says that every task is
  a non-empty name with no white space at either end. The constructor establishes it,
  and both operations preserve it. No operation requires it. Three client methods
  replay examples from the callers' side: `BlankSubmission` (a name of spaces only
  changes nothing), `PaddedSubmission` (`" Estudiar "` is appended as `"Estudiar"`)
  and `CompleteMiddleTask` (completing position 1 of `["A","B","C"]` leaves
  `["A","C"]`).

## Model

| member | source | states |
|---|---|---|
| `TaskManagerComponent.TaskManager.constructor` | 01-components/practice/simple-task/src/app/components/task-manager/task-manager.ts:40-51 | the list starts as `['Crear lista inicial', 'Revisar tareas pendientes']`, the pending name starts empty, and the task-name invariant holds |
| `TaskManagerComponent.TaskManager.AddTask` | 01-components/practice/simple-task/src/app/components/task-manager/task-manager.ts:91-103 | a pending name that trims to something non-empty is appended, trimmed, at the end and the pending name is cleared; a blank name changes nothing and the input is not cleared; the list grows by one exactly when the pending name is not all white space, never shrinks, and keeps earlier tasks at their positions; the appended task is non-empty with no white space at either end; the invariant is preserved |
| `TaskManagerComponent.TaskManager.RemoveTask` | 01-components/practice/simple-task/src/app/components/task-manager/task-manager.ts:117-121 | the list becomes what `splice(index, 1)` leaves. An in-range index removes exactly that element, shortens the list by one, and later elements move down one place. An index at or past the end changes nothing. A negative index counts back from the end. The pending name is unchanged and the invariant is preserved |
| `JsString.LeadingWhitespace` | 01-components/practice/simple-task/src/app/components/task-manager/task-manager.ts:93 | the count of leading characters trim strips: all of them are white space and the next character, if any, is not |
| `JsString.TrailingWhitespace` | 01-components/practice/simple-task/src/app/components/task-manager/task-manager.ts:93 | the count of trailing characters trim strips: all of them are white space and the character before them, if any, is not |
| `JsString.Trim` | 01-components/practice/simple-task/src/app/components/task-manager/task-manager.ts:93 | the trim is a contiguous middle part of the input with only white space cut from either side, and it has no white space at either end |
| `JsString.TrimOfPadded` | 01-components/practice/simple-task/src/app/components/task-manager/task-manager.ts:93 | the converse: white space, then a string without white space at its ends, then white space, trims to exactly that middle string |
| `JsString.TrimIdempotent` | 01-components/practice/simple-task/src/app/components/task-manager/task-manager.ts:93 | trimming a trimmed name changes nothing |
| `JsString.TrimOfTrimmed` | 01-components/practice/simple-task/src/app/components/task-manager/task-manager.ts:93 | a string with no white space at either end is its own trim |
| `JsString.TrimEmptyIff` | 01-components/practice/simple-task/src/app/components/task-manager/task-manager.ts:93-96 | the trimmed name is empty (falsy in the `if`) exactly when the pending name is empty or all white space |
| `JsArray.ActualStart` | 01-components/practice/simple-task/src/app/components/task-manager/task-manager.ts:120 | the start position of splice always lies within the array |
| `JsArray.ActualDeleteCount` | 01-components/practice/simple-task/src/app/components/task-manager/task-manager.ts:120 | splice deletes no more than requested, never past the end, and fewer only when it reaches the end |
| `JsArray.Splice` | 01-components/practice/simple-task/src/app/components/task-manager/task-manager.ts:120 | splice removes a block of the clamped length at the clamped start: the remaining list is shorter by that length, and putting the block back at the start gives the original list |
| `JsArray.SplicePermutes` | 01-components/practice/simple-task/src/app/components/task-manager/task-manager.ts:120 | splice only removes elements: the remaining elements plus the removed ones are the original multiset |
| `JsArray.RemoveOneInRange` | 01-components/practice/simple-task/src/app/components/task-manager/task-manager.ts:120 | `splice(i, 1)` with `0 <= i < length` removes exactly the element at `i`. Earlier elements keep their positions and later ones move down by one |
| `JsArray.RemoveOnePastEnd` | 01-components/practice/simple-task/src/app/components/task-manager/task-manager.ts:120 | `splice(i, 1)` with `i` at or past the end removes nothing |
| `JsArray.RemoveOneFromEnd` | 01-components/practice/simple-task/src/app/components/task-manager/task-manager.ts:120 | `splice(i, 1)` with `-length <= i < 0` removes the element at `length + i` |
| `JsArray.RemoveOneBeforeFront` | 01-components/practice/simple-task/src/app/components/task-manager/task-manager.ts:120 | `splice(i, 1)` with `i < -length` removes the first element, if there is one |

## Left out

- The `TaskManager` constructor body and `ngOnInit` (task-manager.ts:60, :74): both are empty framework lifecycle hooks. The Dafny constructor only sets the field initialisers.
- `task-item.ts` (the presenter): its `@Input`/`@Output` bindings, and `markCompleted`, which only emits its own index. `RemoveTask` takes that index as a parameter. The cosmetic `isUrgent` flag is not modelled.
- `app-module.ts`: module declarations, dependency injection and bootstrapping, with no behaviour of their own.
- Templates, CSS, change detection and the `ngModel` binding. The binding is a plain assignment to `newTaskName`, as the client methods do.
- A stale position reported after an earlier removal: this comes from render timing, not from the list operations.
- `RemoveTask`: the index is an integer. Conversion of a non-integer, NaN or infinite `number` by ToIntegerOrInfinity is not modelled.
- `Splice`: the TypeError for lengths above 2^53 - 1 is not modelled, and neither is the array it returns being a fresh object. `removeTask` discards that array.
- Strings are modelled as sequences of Unicode code points, not UTF-16 code units. Every white-space character lies in the Basic Multilingual Plane, so trimming is unaffected.
- The return value of `push` (the new length): `addTask` discards it.
