/** The task manager's state and its handlers. Every network-backed handler
    is one atomic step: the request is abstracted to an `Outcome`, and the
    local update runs only when the outcome is `Ok`; on `Fail` the error is
    logged and swallowed, so the state is unchanged. */
module TaskManager {
  import opened Outcomes
  import opened Tasks

  /** The manager's state: the ordered task list and the edit text. */
  datatype State = State(tasks: seq<Task>, editText: string)

  /** Both pieces of state start empty. */
  const Initial: State := State([], "")

  /** The initial load: an ok response replaces the whole list by the
      received array; a failed one leaves the state alone. */
  function Load(s: State, o: Outcome<seq<Task>>): (s': State)
    ensures o.Ok? ==> s'.tasks == o.payload
    ensures o.Fail? ==> s' == s
    ensures s'.editText == s.editText
  {
    match o
    case Ok(data) => s.(tasks := data)
    case Fail => s
  }

  /** Adding a task: the server answers with the created record (carrying
      the id it assigned), which is appended at the end of the list. */
  function AddTask(s: State, o: Outcome<Task>): (s': State)
    ensures o.Ok? ==> |s'.tasks| == |s.tasks| + 1
    ensures o.Ok? ==> s'.tasks[..|s.tasks|] == s.tasks && s'.tasks[|s.tasks|] == o.payload
    ensures o.Fail? ==> s' == s
    ensures s'.editText == s.editText
  {
    match o
    case Ok(created) => s.(tasks := s.tasks + [created])
    case Fail => s
  }

  /** Removing a task: on an ok response every task with the id is dropped,
      the others keep their order. */
  function RemoveTask(s: State, id: int, o: Outcome<()>): (s': State)
    ensures o.Ok? ==> forall k :: 0 <= k < |s'.tasks| ==> s'.tasks[k].id != id
    ensures o.Ok? ==> forall t: Task :: t.id != id ==> multiset(s'.tasks)[t] == multiset(s.tasks)[t]
    ensures o.Fail? ==> s' == s
    ensures s'.editText == s.editText
  {
    match o
    case Ok(_) => s.(tasks := WithoutId(s.tasks, id))
    case Fail => s
  }

  /** Entering edit mode for an id: purely local, no request is made. */
  function EditTask(s: State, id: int): (s': State)
    ensures |s'.tasks| == |s.tasks| && s'.editText == s.editText
    ensures forall i :: 0 <= i < |s.tasks| ==>
      s'.tasks[i].id == s.tasks[i].id && s'.tasks[i].text == s.tasks[i].text
    ensures forall i :: 0 <= i < |s.tasks| ==>
      s'.tasks[i].isEditing == (s.tasks[i].isEditing || s.tasks[i].id == id)
  {
    s.(tasks := MarkEditing(s.tasks, id))
  }

  /** Saving new text for an id: on an ok response every task with the id
      gets the text and leaves edit mode, and the edit text is cleared. The
      text applied is the one sent, not anything read from the response. */
  function SaveTask(s: State, id: int, text: string, o: Outcome<()>): (s': State)
    ensures o.Ok? ==> s'.editText == "" && |s'.tasks| == |s.tasks|
    ensures o.Ok? ==> forall i :: 0 <= i < |s.tasks| && s.tasks[i].id == id ==>
      s'.tasks[i] == Task(id, text, false)
    ensures o.Ok? ==> forall i :: 0 <= i < |s.tasks| && s.tasks[i].id != id ==>
      s'.tasks[i] == s.tasks[i]
    ensures o.Fail? ==> s' == s
  {
    match o
    case Ok(_) => State(ApplySave(s.tasks, id, text), "")
    case Fail => s
  }

  /** One handler invocation together with the outcome of its request. */
  datatype Event =
    | Loaded(data: Outcome<seq<Task>>)
    | Added(created: Outcome<Task>)
    | Removed(id: int, ack: Outcome<()>)
    | EditBegun(id: int)
    | Saved(id: int, text: string, ack: Outcome<()>)

  /** Dispatches an event to its handler. */
  function Step(s: State, e: Event): State {
    match e
    case Loaded(o) => Load(s, o)
    case Added(o) => AddTask(s, o)
    case Removed(id, o) => RemoveTask(s, id, o)
    case EditBegun(id) => EditTask(s, id)
    case Saved(id, text, o) => SaveTask(s, id, text, o)
  }

  /** Applies a sequence of events, one at a time, in order. */
  function Run(s: State, es: seq<Event>): State
    decreases |es|
  {
    if |es| == 0 then s else Run(Step(s, es[0]), es[1..])
  }

  /** The server upholds the store's invariant: a loaded list has unique ids
      and a created task gets an id not yet in use. */
  predicate ServerAssumption(s: State, e: Event) {
    match e
    case Loaded(Ok(data)) => UniqueIds(data)
    case Added(Ok(created)) => created.id !in Ids(s.tasks)
    case _ => true
  }

  /** Every event of the run satisfies the server assumption in the state it
      is applied to. */
  predicate ServerAssumptionHolds(s: State, es: seq<Event>)
    decreases |es|
  {
    |es| == 0 || (ServerAssumption(s, es[0]) && ServerAssumptionHolds(Step(s, es[0]), es[1..]))
  }

  // ---------------------------------------------------------------------
  // Properties of the handlers
  // ---------------------------------------------------------------------

  /** Starting from the initial state, an ok load yields exactly the
      received list, and a failed load keeps the empty list. */
  lemma LoadFromInitial(data: seq<Task>)
    ensures Load(Initial, Ok(data)) == State(data, "")
    ensures Load(Initial, Fail).tasks == []
  {
  }

  /** Adding a task with a fresh id and then removing that id restores the
      list: removal undoes a successful add. */
  lemma AddThenRemove(s: State, created: Task)
    requires created.id !in Ids(s.tasks)
    ensures RemoveTask(AddTask(s, Ok(created)), created.id, Ok(())) == s
  {
    WithoutIdAppend(s.tasks, [created], created.id);
    WithoutIdAbsent(s.tasks, created.id);
    assert WithoutId([created], created.id) == [];
  }

  /** A successful remove yields exactly the order-preserving selection of
      tasks whose id differs, is a no-op when the id is absent, and removing
      again changes nothing. */
  lemma RemoveIsFilter(s: State, id: int)
    ensures IsSubsequence(RemoveTask(s, id, Ok(())).tasks, s.tasks)
    ensures id !in Ids(s.tasks) ==> RemoveTask(s, id, Ok(())) == s
    ensures forall o :: RemoveTask(RemoveTask(s, id, Ok(())), id, o) == RemoveTask(s, id, Ok(()))
  {
    WithoutIdIsSubsequence(s.tasks, id);
    if id !in Ids(s.tasks) {
      WithoutIdAbsent(s.tasks, id);
    }
    WithoutIdIdempotent(s.tasks, id);
  }

  /** Entering edit mode twice is the same as once, and an absent id is a
      no-op. */
  lemma EditTaskLaws(s: State, id: int)
    ensures EditTask(EditTask(s, id), id) == EditTask(s, id)
    ensures id !in Ids(s.tasks) ==> EditTask(s, id) == s
  {
    MarkEditingIdempotent(s.tasks, id);
    MarkEditingFrame(s.tasks, id);
  }

  /** A successful save of an absent id only clears the edit text. */
  lemma SaveAbsentId(s: State, id: int, text: string)
    requires id !in Ids(s.tasks)
    ensures SaveTask(s, id, text, Ok(())) == s.(editText := "")
  {
    ApplySaveFrame(s.tasks, id, text);
  }

  /** Entering edit mode and then saving successfully leaves the tasks with
      the id out of edit mode with the new text and every other task as it
      was; the earlier edit mode leaves no trace. */
  lemma EditThenSave(s: State, id: int, text: string)
    ensures SaveTask(EditTask(s, id), id, text, Ok(())) == SaveTask(s, id, text, Ok(()))
    ensures forall i :: 0 <= i < |s.tasks| ==>
      SaveTask(EditTask(s, id), id, text, Ok(())).tasks[i] ==
        (if s.tasks[i].id == id then Task(id, text, false) else s.tasks[i])
  {
    Tasks.EditThenSave(s.tasks, id, text);
  }

  /** How each event changes the multiset of ids: only a successful add
      (one more occurrence of the created id), a successful remove (every
      occurrence of the id gone) and a successful load change it. */
  lemma StepIds(s: State, e: Event)
    ensures e.Added? && e.created.Ok? ==>
      multiset(Ids(Step(s, e).tasks)) == multiset(Ids(s.tasks)) + multiset{e.created.payload.id}
    ensures e.Removed? && e.ack.Ok? ==>
      multiset(Ids(Step(s, e).tasks)) == multiset(Ids(s.tasks))[e.id := 0]
    ensures e.Loaded? && e.data.Ok? ==> Ids(Step(s, e).tasks) == Ids(e.data.payload)
    ensures !(e.Added? && e.created.Ok?) && !(e.Removed? && e.ack.Ok?) && !(e.Loaded? && e.data.Ok?) ==>
      Ids(Step(s, e).tasks) == Ids(s.tasks)
  {
    match e
    case Added(Ok(created)) =>
      assert Ids(s.tasks + [created]) == Ids(s.tasks) + [created.id];
    case Removed(id, Ok(_)) =>
      WithoutIdIds(s.tasks, id);
    case EditBegun(id) =>
      MarkEditingFrame(s.tasks, id);
    case Saved(id, text, Ok(_)) =>
      ApplySaveFrame(s.tasks, id, text);
    case _ =>
  }

  /** One step keeps the ids unique when the server assumption holds. */
  lemma StepKeepsUniqueIds(s: State, e: Event)
    requires UniqueIds(s.tasks) && ServerAssumption(s, e)
    ensures UniqueIds(Step(s, e).tasks)
  {
    match e
    case Added(Ok(created)) =>
      var ts := s.tasks + [created];
      forall i, j | 0 <= i < j < |ts|
        ensures ts[i].id != ts[j].id
      {
        if j == |s.tasks| {
          assert Ids(s.tasks)[i] == ts[i].id;
        }
      }
    case Removed(id, Ok(_)) =>
      WithoutIdKeepsUnique(s.tasks, id);
    case EditBegun(id) =>
    case Saved(id, text, Ok(_)) =>
    case _ =>
  }

  /** Ids stay unique along any run in which the server assumption holds. */
  lemma {:induction false} RunKeepsUniqueIds(s: State, es: seq<Event>)
    requires UniqueIds(s.tasks) && ServerAssumptionHolds(s, es)
    ensures UniqueIds(Run(s, es).tasks)
    decreases |es|
  {
    if |es| > 0 {
      StepKeepsUniqueIds(s, es[0]);
      RunKeepsUniqueIds(Step(s, es[0]), es[1..]);
    }
  }

  /** A network-backed handler whose request failed. */
  predicate Failed(e: Event) {
    match e
    case Loaded(o) => o.Fail?
    case Added(o) => o.Fail?
    case Removed(_, o) => o.Fail?
    case Saved(_, _, o) => o.Fail?
    case EditBegun(_) => false
  }

  /** A run made only of failed requests leaves the state exactly as it was. */
  lemma {:induction false} FailedRunIsNoop(s: State, es: seq<Event>)
    requires forall k :: 0 <= k < |es| ==> Failed(es[k])
    ensures Run(s, es) == s
    decreases |es|
  {
    if |es| > 0 {
      assert Step(s, es[0]) == s;
      FailedRunIsNoop(s, es[1..]);
    }
  }
}
