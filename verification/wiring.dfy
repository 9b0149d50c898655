/** The input's save action handed to the manager's save handler. The task
    manager itself renders the input without a save callback, so this
    composition is what any parent that did pass `onSaveTask` would get. */
module Wiring {
  import opened Outcomes
  import opened Tasks
  import TaskManager
  import TaskInput
  import Whitespace

  /** A save submitted from the input always targets id 1: a task with any
      other id, even the one being edited, keeps its text and stays in edit
      mode after the save succeeds. */
  lemma SaveMissesEditedTask(s: TaskManager.State, k: int, buffer: string, p: TaskInput.Props)
    requires 0 <= k < |s.tasks| && s.tasks[k].id != 1 && s.tasks[k].isEditing
    requires p.editMode && p.hasSaveCallback && !Whitespace.AllWhitespace(buffer)
    ensures TaskInput.Submit(buffer, p).action.Some?
    ensures var a := TaskInput.Submit(buffer, p).action.value;
      a.Save? && TaskManager.SaveTask(s, a.id, a.text, Ok(())).tasks[k] == s.tasks[k]
  {
  }

  /** When no task has id 1, a successful save submitted from the input
      changes no task at all; only the edit text is cleared. */
  lemma SaveWithoutTaskOneIsNoop(s: TaskManager.State, buffer: string, p: TaskInput.Props)
    requires 1 !in Ids(s.tasks)
    requires p.editMode && p.hasSaveCallback && !Whitespace.AllWhitespace(buffer)
    ensures var a := TaskInput.Submit(buffer, p).action.value;
      TaskManager.SaveTask(s, a.id, a.text, Ok(())).tasks == s.tasks
  {
    TaskManager.SaveAbsentId(s, 1, Whitespace.Trim(buffer));
  }
}
