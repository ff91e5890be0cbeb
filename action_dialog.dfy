/**
 * The action dialog: a title, a description and a row of action buttons, with a one-shot
 * result slot that the first click on an action button fills.
 */
module Dialogs {
  import opened Wrappers
  import opened Runtime

  /** `UiAction`: a label with an optional command and command argument (record equality). */
  datatype UiAction = UiAction(title: string, command: object?, commandParameter: object?)

  /** The `Tag` of a clicked button. */
  datatype ButtonTag = ActionTag(action: UiAction) | OtherTag | NoTag

  /** The `sender` of a click event. */
  datatype ClickSender = Button(tag: ButtonTag) | OtherSender | NoSender

  /** `sender is Button { Tag: UiAction action }`: the action a click selects, if any. */
  function SelectedAction(sender: ClickSender): (a: Option<UiAction>)
    ensures a.Some? <==> sender.Button? && sender.tag.ActionTag?
    ensures a.Some? ==> a.value == sender.tag.action
  {
    match sender
    case Button(ActionTag(action)) => Some(action)
    case _ => None
  }

  /** Click `i` is the first one of `clicks` that selects an action. */
  ghost predicate FirstQualifying(clicks: seq<ClickSender>, i: int) {
    0 <= i < |clicks| && SelectedAction(clicks[i]).Some? &&
    forall j :: 0 <= j < i ==> SelectedAction(clicks[j]).None?
  }

  /** The action selected by the first qualifying click of `clicks`, if there is one. */
  function FirstSelection(clicks: seq<ClickSender>): (r: Option<UiAction>)
    ensures r.None? <==> forall i :: 0 <= i < |clicks| ==> SelectedAction(clicks[i]).None?
    ensures r.Some? ==> exists i :: FirstQualifying(clicks, i) && SelectedAction(clicks[i]) == r
  {
    if clicks == [] then None
    else if SelectedAction(clicks[0]).Some? then
      assert FirstQualifying(clicks, 0);
      SelectedAction(clicks[0])
    else
      var r := FirstSelection(clicks[1..]);
      assert r.Some? ==> (exists i :: FirstQualifying(clicks[1..], i) && FirstQualifying(clicks, i + 1) &&
                                      SelectedAction(clicks[1..][i]) == r);
      r
  }

  /** The dialog's result task after `ActionButton_Click` has run on `sender`. */
  function AfterClick(task: TaskState<Option<UiAction>>, sender: ClickSender): TaskState<Option<UiAction>> {
    match SelectedAction(sender)
    case Some(a) => if task.Pending? then RanToCompletion(Some(a)) else task
    case None => task
  }

  /** The dialog's result task after `ActionButton_Click` has run on each of `clicks` in turn. */
  function AfterClicks(task: TaskState<Option<UiAction>>, clicks: seq<ClickSender>): TaskState<Option<UiAction>>
    decreases |clicks|
  {
    if clicks == [] then task else AfterClicks(AfterClick(task, clicks[0]), clicks[1..])
  }

  /** A result, once set, survives every later click. */
  lemma {:induction false} LaterClicksIgnored(result: Option<UiAction>, clicks: seq<ClickSender>)
    ensures AfterClicks(RanToCompletion(result), clicks) == RanToCompletion(result)
    decreases |clicks|
  {
    if clicks != [] {
      LaterClicksIgnored(result, clicks[1..]);
    }
  }

  /**
   * The first click wins: a pending result becomes the action of the first qualifying click,
   * and stays pending when no click qualifies.
   */
  lemma {:induction false} FirstClickWins(clicks: seq<ClickSender>)
    ensures AfterClicks(Pending, clicks) ==
      if FirstSelection(clicks).Some? then RanToCompletion(FirstSelection(clicks)) else Pending
    decreases |clicks|
  {
    if clicks != [] {
      match SelectedAction(clicks[0])
      case Some(a) =>
        LaterClicksIgnored(Some(a), clicks[1..]);
      case None =>
        FirstClickWins(clicks[1..]);
    }
  }

  /** Appending one click to the clicks delivered so far. */
  lemma {:induction false} AfterClicksSnoc(task: TaskState<Option<UiAction>>, clicks: seq<ClickSender>, c: ClickSender)
    ensures AfterClicks(task, clicks + [c]) == AfterClick(AfterClicks(task, clicks), c)
    decreases |clicks|
  {
    if clicks == [] {
      assert clicks + [c] == [c];
    } else {
      assert (clicks + [c])[1..] == clicks[1..] + [c];
      AfterClicksSnoc(AfterClick(task, clicks[0]), clicks[1..], c);
    }
  }

  class ActionDialog {
    var title: string
    var description: string
    /** `ActionsItemsControl.ItemsSource`: the actions shown as buttons. */
    var itemsSource: seq<UiAction>
    /** `_taskCompletionSource`: the dialog's one result. */
    const taskCompletionSource: TaskCompletionSource<Option<UiAction>>

    /** A new dialog shows nothing yet and its result is pending. */
    constructor ()
      ensures fresh(taskCompletionSource) && taskCompletionSource.task == Pending
      ensures title == "" && description == "" && itemsSource == []
    {
      title := "";
      description := "";
      itemsSource := [];
      taskCompletionSource := new TaskCompletionSource();
    }

    /** Shows `title`, `description` and one button per action. */
    method Initialize(title: string, description: string, actions: seq<UiAction>)
      modifies this
      ensures this.title == title && this.description == description && itemsSource == actions
    {
      this.title := title;
      this.description := description;
      itemsSource := actions;
    }

    /** The dialog's result task: the same one on every call. */
    function GetResultAsync(): (task: TaskCompletionSource<Option<UiAction>>)
      ensures task == taskCompletionSource
    {
      taskCompletionSource
    }

    /**
     * `ActionButton_Click`: a click on a button tagged with an action completes a pending
     * result with exactly that action; a completed result stays as it is, and any other
     * sender changes nothing.
     */
    method ActionButtonClick(sender: ClickSender)
      modifies taskCompletionSource
      ensures taskCompletionSource.task == AfterClick(old(taskCompletionSource.task), sender)
      ensures SelectedAction(sender).Some? && old(taskCompletionSource.task).Pending? ==>
        taskCompletionSource.task == RanToCompletion(SelectedAction(sender))
      ensures SelectedAction(sender).None? || !old(taskCompletionSource.task).Pending? ==>
        taskCompletionSource.task == old(taskCompletionSource.task)
    {
      if sender.Button? && sender.tag.ActionTag? {
        var _ := taskCompletionSource.TrySetResult(Some(sender.tag.action));
      }
    }
  }
}
