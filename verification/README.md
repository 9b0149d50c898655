# To-do list task manager and task input, modelled in Dafny

This project models the two pieces of logic in the TodoListTS React app that
have state-machine shape:

- **The task manager** (`TaskManager.tsx`) holds an ordered list of tasks
  `(id, text, isEditing)` and an edit text. Five handlers change this state:
  the initial load, add, remove, begin-edit and save. Every handler except
  begin-edit makes one HTTP request and applies its local update only when
  the response is ok. On a failed request the error is logged and swallowed.
  Each handler is modelled as one atomic step `(state, outcome) -> state'`.
  The request is abstracted to an input `Outcome<T> = Ok(payload) | Fail`.
- **The task input** (`TaskInput.tsx`) keeps a text buffer (the
  `newTaskRef` ref). A prop-sync effect and a change handler overwrite the
  buffer. A submit trims the buffer and dispatches at most one callback: a
  save with the literal id `1` in edit mode when a save callback was given,
  otherwise an add. When it dispatches, it then clears the buffer; a blank
  buffer is kept as it was.

Modules, one per concept:

| file | module | contents |
|---|---|---|
| `outcomes.dfy` | `Outcomes` | `Option`, and `Outcome` for a request's result |
| `tasks.dfy` | `Tasks` | the `Task` record; the list updates `WithoutId` (filter), `MarkEditing` and `ApplySave` (maps); their laws |
| `task_manager.dfy` | `TaskManager` | the state, the five handlers, an event type and `Run` over event sequences; frame, no-op, round-trip and invariant lemmas |
| `whitespace.dfy` | `Whitespace` | JavaScript's `String.prototype.trim`, with the ECMAScript white-space and line-terminator set |
| `task_input.dfy` | `TaskInput` | props, actions, prop sync, submit, and the event step of the input |
| `wiring.dfy` | `Wiring` | what happens when the input's save action reaches the manager's save handler |

Facts about the code that shape the model:
- A task in the manager carries `text` and `isEditing` only; it has no
  `completed` flag.
- Remove and save act on every task with the id, because they are a `filter`
  and a `map`, not on a single entry.
- Add does not check that the created id is fresh. Unique ids are therefore
  not an invariant of the code. They are proved to be kept only under an
  explicit assumption about the server (`TaskManager.ServerAssumption`).
- The save request body is `{text, isEditing: false}`. The local update uses
  the text that was sent. The response body is never read.

## Model

| member | source | states |
|---|---|---|
| Tasks.WithoutId | src/components/TaskManager.tsx:63 | removing an id leaves no task with that id, never lengthens the list, and keeps every task with another id exactly as many times as before |
| Tasks.WithoutIdIsTheFilter | src/components/TaskManager.tsx:63 | any order-preserving selection from the list that drops all tasks with the id and keeps all others is exactly the result of removal (an independent characterisation of the filter) |
| Tasks.WithoutIdIsSubsequence | src/components/TaskManager.tsx:63 | the tasks that remain are in their original relative order |
| Tasks.WithoutIdAbsent | src/components/TaskManager.tsx:63 | removing an id no task carries leaves the list unchanged |
| Tasks.WithoutIdNoMatch | src/components/TaskManager.tsx:63 | when no task has the id, removal keeps every task in place |
| Tasks.WithoutIdAppend | src/components/TaskManager.tsx:63 | removal distributes over concatenation of lists |
| Tasks.WithoutIdIds | src/components/TaskManager.tsx:63 | removal deletes every occurrence of the id from the multiset of ids and keeps all other ids with their multiplicities |
| Tasks.WithoutIdIdempotent | src/components/TaskManager.tsx:63 | removing the same id twice equals removing it once |
| Tasks.WithoutIdKeepsUnique | src/components/TaskManager.tsx:63 | removal keeps a list with unique ids unique |
| Tasks.SubsequencePreservesUnique | src/components/TaskManager.tsx:63 | an order-preserving selection from a list with unique ids has unique ids |
| Tasks.SubsequenceMultiset | src/components/TaskManager.tsx:63 | an order-preserving selection holds no task more often than its source |
| Tasks.MarkEditing | src/components/TaskManager.tsx:70-74 | begin-edit keeps the length, every id and every text; a task is in edit mode afterwards exactly when it was before or its id matches |
| Tasks.MarkEditingFrame | src/components/TaskManager.tsx:72 | begin-edit keeps the id sequence, leaves tasks with other ids untouched, and is a no-op for an absent id |
| Tasks.MarkEditingIdempotent | src/components/TaskManager.tsx:72 | beginning an edit twice equals beginning it once |
| Tasks.ApplySave | src/components/TaskManager.tsx:92-96 | save keeps the length and every id; each task with the id gets the new text and leaves edit mode; every other task is unchanged |
| Tasks.ApplySaveFrame | src/components/TaskManager.tsx:94 | save keeps the id sequence and is a no-op for an absent id |
| Tasks.EditThenSave | src/components/TaskManager.tsx:72-94 | begin-edit followed by save equals save alone; each matching task ends as `Task(id, text, false)` |
| Tasks.EditThenSaveSameTextRestores | src/components/TaskManager.tsx:72-94 | begin-edit, then saving back the text the tasks already had, restores the list when none of them was in edit mode |
| TaskManager.Load | src/components/TaskManager.tsx:21-27 | an ok load replaces the task list by the received array exactly; a failed load changes nothing; the edit text is never touched |
| TaskManager.LoadFromInitial | src/components/TaskManager.tsx:14-25 | from the initial empty state an ok load yields exactly the payload, and a failed load keeps the empty list |
| TaskManager.AddTask | src/components/TaskManager.tsx:44-50 | an ok add grows the list by one, keeps the old list as an unchanged prefix and puts the server's record last; a failed add changes nothing |
| TaskManager.AddThenRemove | src/components/TaskManager.tsx:48-63 | adding a task with a fresh id and then removing that id gives back the original state |
| TaskManager.RemoveTask | src/components/TaskManager.tsx:60-66 | an ok remove leaves no task with the id and keeps every other task as often as before; a failed remove changes nothing |
| TaskManager.RemoveIsFilter | src/components/TaskManager.tsx:63 | an ok remove keeps the order of the remaining tasks, is a no-op for an absent id, and a second remove of the same id changes nothing |
| TaskManager.EditTask | src/components/TaskManager.tsx:69-75 | begin-edit needs no request; it keeps length, ids, texts and edit text, and sets edit mode exactly on the matching tasks |
| TaskManager.EditTaskLaws | src/components/TaskManager.tsx:69-75 | begin-edit is idempotent and a no-op for an absent id |
| TaskManager.SaveTask | src/components/TaskManager.tsx:88-100 | an ok save turns every matching task into `Task(id, text, false)`, leaves the others and the length unchanged, and clears the edit text; a failed save changes nothing, edit text included |
| TaskManager.SaveAbsentId | src/components/TaskManager.tsx:92-97 | an ok save for an absent id changes no task and only clears the edit text |
| TaskManager.EditThenSave | src/components/TaskManager.tsx:69-97 | begin-edit then an ok save leaves each matching task out of edit mode with the new text and the list otherwise equal to the original |
| TaskManager.StepIds | src/components/TaskManager.tsx:25-94 | only an ok add (one more occurrence of the created id), an ok remove (all occurrences gone) and an ok load change the ids; begin-edit, ok saves and failed requests keep the id sequence |
| TaskManager.StepKeepsUniqueIds | src/components/TaskManager.tsx:25-94 | one handler step keeps ids unique when the server returns unique ids and fresh created ids |
| TaskManager.RunKeepsUniqueIds | src/components/TaskManager.tsx:25-94 | ids stay unique along any sequence of handler steps under that server assumption |
| TaskManager.FailedRunIsNoop | src/components/TaskManager.tsx:21-99 | any sequence of failed requests leaves the whole state exactly as it was |
| Whitespace.TrimStart | src/components/TaskInput.tsx:29 | the result is a suffix of the input, everything cut off is white space, and it does not start with white space |
| Whitespace.TrimEnd | src/components/TaskInput.tsx:29 | the result is a prefix of the input, everything cut off is white space, and it does not end with white space |
| Whitespace.Trim | src/components/TaskInput.tsx:29 | the trimmed text neither starts nor ends with white space, and it is empty exactly when the input is all white space |
| Whitespace.TrimSplit | src/components/TaskInput.tsx:29 | the trimmed text is a contiguous slice of the input whose prefix and suffix outside the slice are white space |
| Whitespace.TrimStartPrefix | src/components/TaskInput.tsx:29 | stripping leading white space from white space followed by text that does not start with white space yields that text |
| Whitespace.TrimEndSuffix | src/components/TaskInput.tsx:29 | stripping trailing white space from text followed by white space yields that text, when the text does not end with white space |
| Whitespace.TrimCharacterization | src/components/TaskInput.tsx:29 | white space, then a trimmed middle, then white space trims to exactly that middle |
| Whitespace.TrimOfTrimmed | src/components/TaskInput.tsx:29 | a string that neither starts nor ends with white space trims to itself |
| Whitespace.TrimIdempotent | src/components/TaskInput.tsx:29 | trimming twice equals trimming once |
| TaskInput.Sync | src/components/TaskInput.tsx:20-26 | the prop-sync effect makes the buffer the current text when in edit mode with a non-empty current text, and empty otherwise |
| TaskInput.Mount | src/components/TaskInput.tsx:18-26 | after mounting, the props are the given ones and the buffer is what prop sync prescribes |
| TaskInput.Submit | src/components/TaskInput.tsx:28-38 | a blank buffer dispatches nothing and is kept; otherwise exactly one action carries the non-empty trimmed text and the buffer is cleared; the action is a save with id 1 exactly in edit mode with a save callback, otherwise an add |
| TaskInput.Step | src/components/TaskInput.tsx:20-42 | only a submit dispatches, and its buffer and action are exactly the submit's; the change handler stores the raw, untrimmed value and keeps the props; a render adopts the new props and re-syncs the buffer exactly when `editMode` or `currentText` changed, keeping it otherwise |
| TaskInput.ResubmitDispatchedText | src/components/TaskInput.tsx:29-41 | typing back the dispatched text and submitting again dispatches the same action |
| TaskInput.SubmitTwice | src/components/TaskInput.tsx:28-38 | a submit right after a dispatching submit dispatches nothing |
| TaskInput.BlankSubmitIsNoop | src/components/TaskInput.tsx:29-30 | submitting an empty or white-space-only buffer changes nothing and dispatches nothing |
| TaskInput.SaveIgnoresEditedTask | src/components/TaskInput.tsx:31-32 | in edit mode with a save callback the action is `Save(1, trimmed)` whatever current text the input was given |
| TaskInput.EditModeWithoutSaveAdds | src/components/TaskInput.tsx:31-35 | in edit mode without a save callback the input dispatches an add |
| TaskInput.RerenderKeepsBuffer | src/components/TaskInput.tsx:20-26 | a render that does not change edit mode or current text does not re-run prop sync, so the buffer survives |
| TaskInput.RenderSyncsBuffer | src/components/TaskInput.tsx:20-26 | a render that changes `editMode` or `currentText` replaces the buffer, typed text included: by a non-empty current text in edit mode, and by "" otherwise (so a new current text outside edit mode clears typed text) |
| TaskInput.ManagerStep | src/components/TaskManager.tsx:106 | one event under the manager's props keeps those props and dispatches at most an add of non-blank, trimmed text |
| TaskInput.ManagerInputOnlyAdds | src/components/TaskManager.tsx:106 | with the props the task manager passes, every action the input ever dispatches is an add of non-blank, trimmed text |
| Wiring.SaveMissesEditedTask | src/components/TaskInput.tsx:31-32 | a save from the input handed to the manager's save handler leaves the edited task untouched whenever its id is not 1 |
| Wiring.SaveWithoutTaskOneIsNoop | src/components/TaskInput.tsx:31-32 | when no task has id 1, such a save changes no task at all |

## Left out

- HTTP requests, URLs, headers, `JSON.stringify` and `response.json()` are out. Each request is an abstract `Ok(payload) | Fail` input. Transport errors and non-ok statuses are the same `Fail`. The server's payload is taken as given, and its validity is an explicit assumption (`TaskManager.ServerAssumption`).
- `console.error` and `console.log` are diagnostics only.
- React machinery is out: `useState`, `useCallback`, `useRef`, effect scheduling and rendering. A functional `setTasks` update is modelled as applying the update to the current state.
- Overlapping in-flight requests are not modelled. Each handler is one atomic request, outcome and update step.
- The `memo` comparator of the input is left out, because it compares callback references, which the model does not have.
- The presentation components are left out: list, item, input field, button, count badge and the outer list. So is the `setEditText` setter the manager passes down to them, because it is only wiring.
- Completion toggling and completed/remaining counters are left out, because no component implements them: `TaskItem` only forwards `onToggleCompletion` (TaskItem.tsx:48) and `TaskCount` only renders a number.
- Task ids are unbounded integers. JavaScript numbers are doubles, and effects of non-integer or NaN ids on `===` are not modelled.
- `ManagerProps` models the props written in the JSX at TaskManager.tsx:106, not a composition that links as written: TaskManager.tsx:3 imports a default export from `./TaskInput`, while TaskInput.tsx exports only the named `MemoizedTaskInput` (TaskInput.tsx:60). Module resolution and bundling are not modelled.
- The text field's `defaultValue` is left out. Only the buffer the input submits from is modelled, not the DOM field's contents.
- JavaScript strings are UTF-16 code units, while the model trims Unicode code points. Every character `trim` strips lies in the Basic Multilingual Plane, so the two agree on which characters are cut.
