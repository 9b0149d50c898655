/** The task input's submit logic: a text buffer (the `newTaskRef` ref) that
    the prop-sync effect and the change handler overwrite, and a submit that
    trims the buffer and dispatches at most one callback. */
module TaskInput {
  import opened Outcomes
  import opened Whitespace

  /** The props the input reads. `editMode` defaults to false and
      `currentText` to ""; `hasSaveCallback` says whether the optional
      `onSaveTask` prop was passed. `onAddTask` is always present. */
  datatype Props = Props(editMode: bool, currentText: string, hasSaveCallback: bool)

  /** The callback a submit dispatches, with its arguments. */
  datatype Action = Add(text: string) | Save(id: int, text: string)

  /** The id every save is dispatched with, whichever task is being edited. */
  const SavedId: int := 1

  /** The props the task manager renders the input with: only `onAddTask`
      is passed, everything else takes its default. */
  const ManagerProps: Props := Props(false, "", false)

  /** The buffer the prop-sync effect leaves: the current text in edit mode
      when there is one, otherwise the empty string. */
  function Sync(p: Props): (buffer: string)
    ensures buffer == "" <==> !p.editMode || p.currentText == ""
    ensures buffer != "" ==> buffer == p.currentText
  {
    if p.editMode && p.currentText != "" then p.currentText else ""
  }

  /** What a submit leaves in the buffer and what it dispatches. */
  datatype Submission = Submission(buffer: string, action: Option<Action>)

  /** A submit: trims the buffer; when something is left, dispatches a save
      (in edit mode with a save callback) or an add with the trimmed text and
      clears the buffer; otherwise does nothing at all. */
  function Submit(buffer: string, p: Props): (r: Submission)
    ensures r.action.None? <==> AllWhitespace(buffer)
    ensures r.action.None? ==> r.buffer == buffer
    ensures r.action.Some? ==> r.buffer == "" && r.action.value.text == Trim(buffer)
    ensures r.action.Some? ==> |r.action.value.text| > 0 && IsTrimmed(r.action.value.text)
    ensures r.action.Some? ==> (r.action.value.Save? <==> p.editMode && p.hasSaveCallback)
    ensures r.action.Some? && r.action.value.Save? ==> r.action.value.id == SavedId
  {
    var value := Trim(buffer);
    if value != "" then
      var action := if p.editMode && p.hasSaveCallback then Save(SavedId, value) else Add(value);
      Submission("", Some(action))
    else
      Submission(buffer, None)
  }

  /** The input's state: the props of its last render and the buffer. */
  datatype InputState = InputState(props: Props, buffer: string)

  /** The ref starts out holding `currentText`; the prop-sync effect then
      runs once after the first render and overwrites it. */
  function Mount(p: Props): (st: InputState)
    ensures st.props == p
    ensures st.buffer == "" <==> !p.editMode || p.currentText == ""
    ensures st.buffer != "" ==> st.buffer == p.currentText
  {
    var initial := InputState(p, p.currentText);
    initial.(buffer := Sync(p))
  }

  /** What happens to the input: a re-render with (possibly new) props, a
      change of the text field, or a click on the button. */
  datatype Event = Rendered(props: Props) | Changed(value: string) | Submitted

  /** The state after an event and the callback it dispatched, if any. */
  datatype StepResult = StepResult(state: InputState, action: Option<Action>)

  /** The prop-sync effect's dependencies, `editMode` and `currentText`,
      differ between two renders. */
  predicate SyncDepsChanged(before: Props, after: Props) {
    before.editMode != after.editMode || before.currentText != after.currentText
  }

  /** One event. The prop-sync effect re-runs only when `editMode` or
      `currentText` changed; the change handler stores the raw field value. */
  function Step(st: InputState, e: Event): (r: StepResult)
    ensures !e.Submitted? ==> r.action == None
    ensures e.Changed? ==> r.state.buffer == e.value && r.state.props == st.props
    ensures e.Rendered? ==> r.state.props == e.props
    ensures e.Rendered? && SyncDepsChanged(st.props, e.props) ==> r.state.buffer == Sync(e.props)
    ensures e.Rendered? && !SyncDepsChanged(st.props, e.props) ==> r.state.buffer == st.buffer
    ensures e.Submitted? ==> r.state.props == st.props
    ensures e.Submitted? ==>
      r.action == Submit(st.buffer, st.props).action && r.state.buffer == Submit(st.buffer, st.props).buffer
  {
    match e
    case Rendered(p) =>
      if SyncDepsChanged(st.props, p)
      then StepResult(InputState(p, Sync(p)), None)
      else StepResult(InputState(p, st.buffer), None)
    case Changed(value) =>
      StepResult(st.(buffer := value), None)
    case Submitted =>
      var sub := Submit(st.buffer, st.props);
      StepResult(st.(buffer := sub.buffer), sub.action)
  }

  // ---------------------------------------------------------------------
  // Properties of the submit logic
  // ---------------------------------------------------------------------

  /** Typing back the text a submit dispatched and submitting again
      dispatches the very same action: the dispatched text is already
      trimmed. */
  lemma ResubmitDispatchedText(st: InputState)
    requires Step(st, Submitted).action.Some?
    ensures var a := Step(st, Submitted).action.value;
      var typed := Step(Step(st, Submitted).state, Changed(a.text)).state;
      Step(typed, Submitted).action == Some(a)
  {
    var r := Step(st, Submitted);
    var a := r.action.value;
    var typed := Step(r.state, Changed(a.text)).state;
    assert typed == InputState(st.props, Trim(st.buffer));
    TrimIdempotent(st.buffer);
    assert Trim(typed.buffer) == a.text;
  }

  /** A second submit right after a dispatching one dispatches nothing:
      the buffer was cleared. */
  lemma SubmitTwice(st: InputState)
    requires Step(st, Submitted).action.Some?
    ensures Step(Step(st, Submitted).state, Submitted).action.None?
  {
  }

  /** A submit that finds only white space changes nothing at all. */
  lemma BlankSubmitIsNoop(st: InputState)
    requires AllWhitespace(st.buffer)
    ensures Step(st, Submitted) == StepResult(st, None)
  {
  }

  /** The save's target does not depend on what is being edited: the same
      buffer dispatches the same save whatever `currentText` the input was
      given, always against id 1. */
  lemma SaveIgnoresEditedTask(buffer: string, p: Props, otherText: string)
    requires p.editMode && p.hasSaveCallback && !AllWhitespace(buffer)
    ensures Submit(buffer, p).action == Some(Save(1, Trim(buffer)))
    ensures Submit(buffer, p.(currentText := otherText)) == Submit(buffer, p)
  {
  }

  /** In edit mode without a save callback the input falls back to adding. */
  lemma EditModeWithoutSaveAdds(buffer: string, p: Props)
    requires p.editMode && !p.hasSaveCallback && !AllWhitespace(buffer)
    ensures Submit(buffer, p).action == Some(Add(Trim(buffer)))
  {
  }

  /** Re-rendering with unchanged `editMode` and `currentText` does not
      re-run the prop-sync effect, so typed text survives the render. A
      special case of `Step`'s contract for renders. */
  lemma RerenderKeepsBuffer(st: InputState, hasSave: bool)
    ensures Step(st, Rendered(st.props.(hasSaveCallback := hasSave))).state.buffer == st.buffer
  {
  }

  /** A render that changes `editMode` or `currentText` re-runs the
      prop-sync effect, which replaces whatever was typed: a non-empty current
      text in edit mode is loaded, and otherwise the buffer is cleared, even
      when only `currentText` changed. A special case of `Step`'s contract
      for renders, spelled out through `Sync`'s. */
  lemma RenderSyncsBuffer(st: InputState, p: Props)
    requires SyncDepsChanged(st.props, p)
    ensures p.editMode && p.currentText != "" ==> Step(st, Rendered(p)).state.buffer == p.currentText
    ensures !p.editMode || p.currentText == "" ==> Step(st, Rendered(p)).state.buffer == ""
  {
  }

  /** Everything the input can dispatch along a run of events. */
  function Dispatched(st: InputState, es: seq<Event>): seq<Action>
    decreases |es|
  {
    if |es| == 0 then []
    else
      var r := Step(st, es[0]);
      (if r.action.Some? then [r.action.value] else []) + Dispatched(r.state, es[1..])
  }

  /** With the props the task manager passes, and as long as it keeps
      passing them, the input only ever dispatches adds of non-blank,
      trimmed text. */
  lemma {:induction false} ManagerInputOnlyAdds(st: InputState, es: seq<Event>)
    requires st.props == ManagerProps
    requires forall k :: 0 <= k < |es| && es[k].Rendered? ==> es[k].props == ManagerProps
    ensures forall k :: 0 <= k < |Dispatched(st, es)| ==> AddOfTrimmedText(Dispatched(st, es)[k])
    decreases |es|
  {
    if |es| > 0 {
      var r := Step(st, es[0]);
      ManagerStep(st, es[0]);
      assert forall k :: 0 <= k < |es[1..]| && es[1..][k].Rendered? ==> es[1..][k].props == ManagerProps by {
        forall k | 0 <= k < |es[1..]| && es[1..][k].Rendered?
          ensures es[1..][k].props == ManagerProps
        {
          assert es[1..][k] == es[k + 1];
        }
      }
      ManagerInputOnlyAdds(r.state, es[1..]);
      var head := if r.action.Some? then [r.action.value] else [];
      var tail := Dispatched(r.state, es[1..]);
      assert Dispatched(st, es) == head + tail;
      forall k | 0 <= k < |head + tail|
        ensures AddOfTrimmedText((head + tail)[k])
      {
        if k >= |head| {
          assert (head + tail)[k] == tail[k - |head|];
        }
      }
    }
  }

  /** One event under the manager's props keeps those props and dispatches
      at most an add of trimmed text. */
  lemma ManagerStep(st: InputState, e: Event)
    requires st.props == ManagerProps
    requires e.Rendered? ==> e.props == ManagerProps
    ensures Step(st, e).state.props == ManagerProps
    ensures Step(st, e).action.Some? ==> AddOfTrimmedText(Step(st, e).action.value)
  {
  }

  /** An add whose text is non-blank and already trimmed. */
  predicate AddOfTrimmedText(a: Action) {
    a.Add? && a.text != "" && IsTrimmed(a.text)
  }
}
