/**
 * `BaseNavigationService`: the view-model cache, the view-model-to-view registry, the back
 * stack, forward and backward navigation over the root content, and the overlay protocol of
 * `ShowViewModelForResultAsync` and `AskForActionAsync`. Each body the source runs through
 * `Dispatcher.UIThread.InvokeAsync` is one atomic method here; a returned `Outcome` or
 * `TaskState` is the state of the Task the source returns.
 */
module Navigation {
  import opened Wrappers
  import opened Runtime
  import opened Ui
  import opened ViewModels
  import opened Dialogs
  import opened Lists
  import BackStack
  import ViewModelCache
  import DesktopNavigation
  import SingleViewNavigation

  /**
   * The subclass that supplies the root content: the desktop service (`NavigationService`)
   * or the single-view service (`SingleViewNavigationService`).
   */
  datatype RootAdapter =
    | Desktop(desktop: DesktopNavigation.NavigationService)
    | SingleView(single: SingleViewNavigation.SingleViewNavigationService)

  /** The overlay layer a top level leads to, as a frame. */
  function OverlayOf(topLevel: TopLevel?): set<object> {
    if topLevel == null || topLevel.overlayLayer == null then {} else {topLevel.overlayLayer}
  }

  class BaseNavigationService {
    /** `_viewModels`, in list order. */
    var viewModels: seq<ViewModel>
    /** `_viewModelViewDictionary`: view-model type to view type. */
    var viewModelViewDictionary: map<TypeName, TypeName>
    /** `_backViewStack`, top first. */
    var backViewStack: seq<View>
    const root: RootAdapter
    /** `Activator.CreateInstance` on each view type. */
    const activator: TypeName -> Activation

    /** A new service: nothing cached, nothing registered, an empty back stack. */
    constructor (root: RootAdapter, activator: TypeName -> Activation)
      ensures this.root == root && this.activator == activator
      ensures viewModels == [] && viewModelViewDictionary == map[] && backViewStack == []
    {
      this.root := root;
      this.activator := activator;
      viewModels := [];
      viewModelViewDictionary := map[];
      backViewStack := [];
    }

    // ---- Root content, through the adapter ----

    ghost function RootReads(): set<object>
      reads if root.Desktop? then {root.desktop.desktop} else {}
    {
      match root
      case Desktop(d) => d.Reads()
      case SingleView(s) => {s.mainView}
    }

    ghost function RootSlot(): set<object>
      reads if root.Desktop? then {root.desktop.desktop} else {}
    {
      match root
      case Desktop(d) => d.Slot()
      case SingleView(s) => {s.mainView}
    }

    /** The raw root content, or None when there is no slot to hold it (no main window). */
    function RootContent(): Option<object?>
      reads RootReads()
    {
      match root
      case Desktop(d) => d.Content()
      case SingleView(s) => s.Content()
    }

    /** `GetCurrentView()`: the root content read through the `as IBaseView` filter. */
    function GetCurrentView(): (v: View?)
      reads RootReads()
      ensures v == (if RootContent().Some? then AsView(RootContent().value) else null)
    {
      match root
      case Desktop(d) => d.GetCurrentView()
      case SingleView(s) => s.GetCurrentView()
    }

    /** `SetMainWindowContent(view)`; fails with NullReferenceException only when there is no slot. */
    method SetMainWindowContent(view: View) returns (r: Outcome<Exception>)
      modifies RootSlot()
      ensures old(RootContent()).None? ==> r == Fail(NullReference) && RootContent() == old(RootContent())
      ensures old(RootContent()).Some? ==> r == Pass && RootContent() == Some(view) && GetCurrentView() == view
    {
      match root
      case Desktop(d) =>
        r := d.SetMainWindowContent(view);
      case SingleView(s) =>
        s.SetMainWindowContent(view);
        r := Pass;
    }

    // ---- View-model to view registry ----

    /**
     * `RegisterViews(view, viewModel)`: `Dictionary.Add`, so a view-model type that is already
     * registered raises ArgumentException and keeps its first view type.
     */
    method RegisterViews(view: TypeName, viewModel: TypeName) returns (r: Outcome<Exception>)
      modifies this
      ensures viewModel in old(viewModelViewDictionary) ==>
        r == Fail(DuplicateKey) && viewModelViewDictionary == old(viewModelViewDictionary)
      ensures viewModel !in old(viewModelViewDictionary) ==>
        r == Pass && viewModelViewDictionary == old(viewModelViewDictionary)[viewModel := view]
      ensures viewModels == old(viewModels) && backViewStack == old(backViewStack)
    {
      if viewModel in viewModelViewDictionary {
        return Fail(DuplicateKey);
      }
      viewModelViewDictionary := viewModelViewDictionary[viewModel := view];
      r := Pass;
    }

    /**
     * What `CreateView` does for an instance: KeyNotFoundException for an unregistered
     * runtime type, otherwise whatever the activator does for the registered view type.
     */
    function ViewPlan(runtimeType: TypeName): (p: Result<Activation, Exception>)
      reads this
      ensures runtimeType !in viewModelViewDictionary ==> p == Failure(KeyNotFound)
      ensures p.Success? ==> !p.value.Throws?
    {
      if runtimeType !in viewModelViewDictionary then Failure(KeyNotFound)
      else match activator(viewModelViewDictionary[runtimeType])
        case Throws(e) => Failure(e)
        case a => Success(a)
    }

    /**
     * `CreateView(viewModel)`: an unregistered type fails before any view is constructed; a
     * null activation gives null; otherwise a new view of the registered type whose view-model
     * is exactly `vm`.
     */
    method CreateView(vm: ViewModel) returns (r: Result<View?, Exception>)
      ensures vm.runtimeType !in viewModelViewDictionary ==> r == Failure(KeyNotFound)
      ensures ViewPlan(vm.runtimeType).Failure? ==> r == Failure(ViewPlan(vm.runtimeType).error)
      ensures ViewPlan(vm.runtimeType) == Success(NullInstance) ==> r == Success(null)
      ensures ViewPlan(vm.runtimeType).Success? && ViewPlan(vm.runtimeType).value.Instance? ==>
        r.Success? && r.value != null && fresh(r.value) &&
        r.value.viewModel == vm && r.value.viewType == viewModelViewDictionary[vm.runtimeType] &&
        r.value.isControl == ViewPlan(vm.runtimeType).value.isControl
    {
      if vm.runtimeType !in viewModelViewDictionary {
        return Failure(KeyNotFound);
      }
      var viewType := viewModelViewDictionary[vm.runtimeType];
      match activator(viewType)
      case Throws(e) =>
        r := Failure(e);
      case NullInstance =>
        r := Success(null);
      case Instance(isControl) =>
        var view := new View(viewType, isControl);
        view.viewModel := vm;
        r := Success(view);
    }

    // ---- View-model cache ----

    /**
     * `CreateViewModel<T>`: when the container's answer is a `t`, its navigation service
     * becomes this service and it is appended to the cache; otherwise nothing changes.
     */
    method CreateViewModel(t: TypeName, resolved: ViewModel?) returns (vm: ViewModel?)
      modifies this, resolved
      ensures ViewModelCache.CacheStep(viewModels, vm) == ViewModelCache.Create(old(viewModels), t, resolved)
      ensures ViewModelCache.Resolves(resolved, t) ==>
        resolved.navigationService == this && resolved.disposeCount == old(resolved.disposeCount) && resolved.KeepsState()
      ensures resolved != null && !ViewModelCache.Resolves(resolved, t) ==> unchanged(resolved)
      ensures viewModelViewDictionary == old(viewModelViewDictionary) && backViewStack == old(backViewStack)
    {
      if resolved == null || !resolved.Is(t) {
        return null;
      }
      resolved.SetNavigationService(this);
      viewModels := viewModels + [resolved];
      vm := resolved;
    }

    /**
     * `GetViewModel<T>`: a cached `t` is returned, the first one, and the cache is left alone;
     * otherwise the container's instance, bound to this service, is appended twice (once by
     * `CreateViewModel`, once here); with no instance the result is null and nothing changes.
     */
    method GetViewModel(t: TypeName, resolved: ViewModel?) returns (vm: ViewModel?)
      modifies this, resolved
      ensures ViewModelCache.CacheStep(viewModels, vm) == ViewModelCache.Get(old(viewModels), t, resolved)
      ensures ViewModelCache.Has(old(viewModels), t) ==>
        vm == ViewModelCache.FirstOrDefault(old(viewModels), t) && viewModels == old(viewModels)
      ensures !ViewModelCache.Has(old(viewModels), t) && ViewModelCache.Resolves(resolved, t) ==>
        vm == resolved && viewModels == old(viewModels) + [resolved, resolved] &&
        resolved.navigationService == this && resolved.disposeCount == old(resolved.disposeCount) && resolved.KeepsState()
      ensures !ViewModelCache.Has(old(viewModels), t) && !ViewModelCache.Resolves(resolved, t) ==>
        vm == null && viewModels == old(viewModels)
      ensures resolved != null && (ViewModelCache.Has(old(viewModels), t) || !ViewModelCache.Resolves(resolved, t)) ==>
        unchanged(resolved)
      ensures viewModelViewDictionary == old(viewModelViewDictionary) && backViewStack == old(backViewStack)
    {
      vm := ViewModelCache.FirstOrDefault(viewModels, t);
      if vm != null {
        return;
      }
      vm := CreateViewModel(t, resolved);
      if vm == null {
        return null;
      }
      viewModels := viewModels + [vm];
    }

    /**
     * `GetNewViewModel<T>`: the first cached `t` is removed (`List.Remove`, so one copy only)
     * and disposed when it is disposable; then the container's instance is bound and
     * appended twice as in `GetViewModel`. With no instance the result is null, and the old
     * entry stays removed.
     */
    method GetNewViewModel(t: TypeName, resolved: ViewModel?) returns (vm: ViewModel?)
      modifies this, resolved, ViewModelCache.FirstOrDefault(viewModels, t)
      ensures ViewModelCache.CacheStep(viewModels, vm) == ViewModelCache.GetNew(old(viewModels), t, resolved)
      ensures var replaced := old(ViewModelCache.FirstOrDefault(viewModels, t));
        replaced != null ==>
          replaced.disposeCount == old(replaced.disposeCount) + (if replaced.disposable then 1 else 0) &&
          replaced.KeepsState() &&
          (replaced != resolved ==> replaced.navigationService == old(replaced.navigationService))
      ensures ViewModelCache.Resolves(resolved, t) ==> resolved.navigationService == this && resolved.KeepsState()
      ensures ViewModelCache.Resolves(resolved, t) && resolved != old(ViewModelCache.FirstOrDefault(viewModels, t)) ==>
        resolved.disposeCount == old(resolved.disposeCount)
      ensures resolved != null && !ViewModelCache.Resolves(resolved, t) ==> unchanged(resolved)
      ensures viewModelViewDictionary == old(viewModelViewDictionary) && backViewStack == old(backViewStack)
    {
      var first := ViewModelCache.FirstOrDefault(viewModels, t);
      if first != null {
        var replaced: ViewModel := first;
        viewModels := RemoveFirst(viewModels, replaced);
        if replaced.disposable {
          replaced.Dispose();
        }
      }
      vm := CreateViewModel(t, resolved);
      if vm == null {
        return null;
      }
      viewModels := viewModels + [vm];
    }

    /** `HasViewModel<T>`: whether some cached instance is a `t`; it changes nothing. */
    function HasViewModel(t: TypeName): (b: bool)
      reads this
      ensures b <==> exists i :: 0 <= i < |viewModels| && viewModels[i].Is(t)
      ensures b <==> ViewModelCache.Get(viewModels, t, null).result != null
    {
      ViewModelCache.Has(viewModels, t)
    }

    // ---- Forward and backward navigation ----

    /**
     * The effect of `OpenViewModelAsync(vm)` returning `r`. A failing `CreateView` faults the
     * task and changes nothing. When the view is null or there is no current view, nothing
     * changes. Otherwise the old root is pushed and a new view bound to `vm` becomes root.
     */
    twostate predicate ForwardNavigation(vm: ViewModel, new r: Outcome<Exception>)
      reads this, RootReads(), GetCurrentView()
    {
      var plan := old(ViewPlan(vm.runtimeType));
      var current := old(GetCurrentView());
      && (plan.Failure? ==>
            r == Fail(plan.error) && backViewStack == old(backViewStack) && RootContent() == old(RootContent()))
      && (plan.Success? && (plan.value.NullInstance? || current == null) ==>
            r == Pass && backViewStack == old(backViewStack) && RootContent() == old(RootContent()))
      && (plan.Success? && plan.value.Instance? && current != null ==>
            r == Pass && backViewStack == BackStack.Push(old(backViewStack), current) &&
            GetCurrentView() != null && fresh(GetCurrentView()) && GetCurrentView().viewModel == vm &&
            GetCurrentView().viewType == old(viewModelViewDictionary)[vm.runtimeType])
    }

    /** `OpenViewModelAsync(viewModel)`: see `ForwardNavigation`. */
    method OpenViewModelAsync(vm: ViewModel) returns (r: Outcome<Exception>)
      modifies this, RootSlot()
      ensures ForwardNavigation(vm, r)
      ensures viewModels == old(viewModels) && viewModelViewDictionary == old(viewModelViewDictionary)
    {
      var created := CreateView(vm);
      if created.Failure? {
        return Fail(created.error);
      }
      var view := created.value;
      var rootView := GetCurrentView();
      if view == null || rootView == null {
        return Pass;
      }
      backViewStack := BackStack.Push(backViewStack, rootView);
      r := SetMainWindowContent(view);
    }

    /** `NavigateToViewModelAsync(viewModel)`. */
    method NavigateToViewModelAsync(vm: ViewModel) returns (r: Outcome<Exception>)
      modifies this, RootSlot()
      ensures ForwardNavigation(vm, r)
      ensures viewModels == old(viewModels) && viewModelViewDictionary == old(viewModelViewDictionary)
    {
      r := OpenViewModelAsync(vm);
    }

    /** `ShowViewModelAsync(viewModel)`: the same as `NavigateToViewModelAsync(viewModel)`. */
    method ShowViewModelAsync(vm: ViewModel) returns (r: Outcome<Exception>)
      modifies this, RootSlot()
      ensures ForwardNavigation(vm, r)
      ensures viewModels == old(viewModels) && viewModelViewDictionary == old(viewModelViewDictionary)
    {
      r := NavigateToViewModelAsync(vm);
    }

    /**
     * `GetViewModel<T>() ?? CreateViewModel<T>()` followed by the not-registered check of the
     * parameterless overloads: `first` and `second` are the container's answers to the two
     * lookups. When neither yields a `t` the result is an InvalidOperationException.
     */
    method ObtainViewModel(t: TypeName, first: ViewModel?, second: ViewModel?) returns (r: Result<ViewModel, Exception>)
      modifies this, first, second
      ensures var step := ViewModelCache.GetOrCreate(old(viewModels), t, first, second);
        viewModels == step.cache &&
        (step.result == null ==> r == Failure(InvalidOperation("ViewModel of type " + t + " is not registered"))) &&
        (step.result != null ==> r == Success(step.result) && r.value.Is(t))
      ensures ViewModelCache.AnswersEffect(old(ViewModelCache.Has(viewModels, t)), t, first, second, this)
      ensures viewModelViewDictionary == old(viewModelViewDictionary) && backViewStack == old(backViewStack)
    {
      var vm := GetViewModel(t, first);
      if vm == null {
        vm := CreateViewModel(t, second);
      }
      if vm == null {
        return Failure(InvalidOperation("ViewModel of type " + t + " is not registered"));
      }
      r := Success(vm);
    }

    /**
     * `NavigateToViewModelAsync<T>()`: obtains the cached or a new `t` and navigates to it;
     * fails without navigating when none can be produced.
     */
    method NavigateToViewModelOfTypeAsync(t: TypeName, first: ViewModel?, second: ViewModel?) returns (r: Outcome<Exception>)
      modifies this, RootSlot(), first, second
      ensures var step := ViewModelCache.GetOrCreate(old(viewModels), t, first, second);
        viewModels == step.cache &&
        (step.result == null ==>
          r == Fail(InvalidOperation("ViewModel of type " + t + " is not registered")) &&
          backViewStack == old(backViewStack) && RootContent() == old(RootContent())) &&
        (step.result != null ==> ForwardNavigation(step.result, r))
      ensures ViewModelCache.AnswersEffect(old(ViewModelCache.Has(viewModels, t)), t, first, second, this)
      ensures viewModelViewDictionary == old(viewModelViewDictionary)
    {
      assert this !in RootReads() && first !in RootReads() && second !in RootReads();
      var vm := ObtainViewModel(t, first, second);
      if vm.Failure? {
        return Fail(vm.error);
      }
      assert viewModelViewDictionary == old(viewModelViewDictionary) && backViewStack == old(backViewStack);
      assert RootContent() == old(RootContent()) && GetCurrentView() == old(GetCurrentView());
      assert ViewPlan(vm.value.runtimeType) == old(ViewPlan(vm.value.runtimeType));
      assert first !in RootSlot() && second !in RootSlot();
      r := OpenViewModelAsync(vm.value);
    }

    /** `ShowViewModelAsync<T>()`: the same as `NavigateToViewModelAsync<T>()`. */
    method ShowViewModelOfTypeAsync(t: TypeName, first: ViewModel?, second: ViewModel?) returns (r: Outcome<Exception>)
      modifies this, RootSlot(), first, second
      ensures var step := ViewModelCache.GetOrCreate(old(viewModels), t, first, second);
        viewModels == step.cache &&
        (step.result == null ==>
          r == Fail(InvalidOperation("ViewModel of type " + t + " is not registered")) &&
          backViewStack == old(backViewStack) && RootContent() == old(RootContent())) &&
        (step.result != null ==> ForwardNavigation(step.result, r))
      ensures ViewModelCache.AnswersEffect(old(ViewModelCache.Has(viewModels, t)), t, first, second, this)
      ensures viewModelViewDictionary == old(viewModelViewDictionary)
    {
      r := NavigateToViewModelOfTypeAsync(t, first, second);
    }

    /**
     * `NavigateBackAsync()`: on an empty stack nothing happens; otherwise the top entry is
     * popped and that same view becomes root.
     */
    method NavigateBackAsync() returns (r: Outcome<Exception>)
      modifies this, RootSlot()
      ensures old(backViewStack) == [] ==> r == Pass && backViewStack == [] && RootContent() == old(RootContent())
      ensures old(backViewStack) != [] ==> backViewStack == BackStack.Pop(old(backViewStack))
      ensures old(backViewStack) != [] && old(RootContent()).Some? ==>
        r == Pass && GetCurrentView() == BackStack.Top(old(backViewStack))
      ensures old(backViewStack) != [] && old(RootContent()).None? ==>
        r == Fail(NullReference) && RootContent() == old(RootContent())
      ensures viewModels == old(viewModels) && viewModelViewDictionary == old(viewModelViewDictionary)
    {
      if backViewStack == [] {
        return Pass;
      }
      var view := BackStack.Top(backViewStack);
      backViewStack := BackStack.Pop(backViewStack);
      r := SetMainWindowContent(view);
    }

    /**
     * `NavigateToRootAsync()`: on an empty stack nothing happens; otherwise the bottom entry
     * (`ToList()[Count - 1]`) becomes root and the stack is not popped.
     */
    method NavigateToRootAsync() returns (r: Outcome<Exception>)
      modifies RootSlot()
      ensures backViewStack == old(backViewStack)
      ensures backViewStack == [] ==> r == Pass && RootContent() == old(RootContent())
      ensures backViewStack != [] && old(RootContent()).Some? ==>
        r == Pass && GetCurrentView() == BackStack.Bottom(backViewStack)
      ensures backViewStack != [] && old(RootContent()).None? ==>
        r == Fail(NullReference) && RootContent() == old(RootContent())
    {
      if backViewStack == [] {
        return Pass;
      }
      var view := BackStack.Bottom(backViewStack);
      r := SetMainWindowContent(view);
    }

    /** `CloseAsync()`: not implemented; it always raises NotImplementedException. */
    method CloseAsync() returns (r: Outcome<Exception>)
      ensures r == Fail(NotImplemented)
    {
      r := Fail(NotImplemented);
    }

    // ---- Overlays ----

    /**
     * The exception the checks of `ShowViewModelForResultAsync` raise, in their order, or None
     * when they all pass: a current view that is a control, a top level, a view for `vm` that
     * is a control, an overlay layer.
     */
    function ResultGuard(runtimeType: TypeName, t: TypeName, topLevel: TopLevel?): Option<Exception>
      reads this, RootReads()
    {
      var current := GetCurrentView();
      var plan := ViewPlan(runtimeType);
      if current == null || !current.isControl then Some(InvalidOperation("Unable to find current view"))
      else if topLevel == null then Some(InvalidOperation("Unable to find TopLevel"))
      else if plan.Failure? then Some(plan.error)
      else if !(plan.value.Instance? && plan.value.isControl) then Some(InvalidOperation("View for " + t + " is not a Control"))
      else if topLevel.overlayLayer == null then Some(InvalidOperation("Unable to find OverlayLayer for hosting the view"))
      else None
    }

    /**
     * The effect of showing `vm` (of type `t`) for a result whose task comes to `outcome`.
     * A failed check faults with its exception and leaves the overlay alone. Otherwise a new
     * host holding exactly one new view, a control of the registered view type bound to `vm`,
     * is added on top of the overlay: while the result is pending it stays, and once the result
     * is in or has faulted it is gone again, the overlay back to what it was, and the result or
     * the fault is passed on unchanged.
     */
    twostate predicate ResultOverlay<R>(vm: ViewModel, t: TypeName, topLevel: TopLevel?, outcome: TaskState<R>,
                                        new r: TaskState<R>, new host: Panel?, new view: View?)
      reads this, RootReads(), OverlayOf(topLevel), host, view
    {
      var guard := old(ResultGuard(vm.runtimeType, t, topLevel));
      && (guard.Some? ==> r == Faulted(guard.value) && unchanged(OverlayOf(topLevel)))
      && (guard.None? ==>
            topLevel != null && topLevel.overlayLayer != null && host != null && view != null &&
            fresh(host) && fresh(view) && host.children == [view] &&
            view.viewModel == vm && view.isControl &&
            vm.runtimeType in old(viewModelViewDictionary) &&
            view.viewType == old(viewModelViewDictionary)[vm.runtimeType] &&
            var children := topLevel.overlayLayer.children;
            var before := old(topLevel.overlayLayer.children);
            (outcome.Pending? ==> r == Pending && children == before + [host]) &&
            (!outcome.Pending? ==> r == outcome && children == before))
    }

    /**
     * `ShowViewModelForResultAsync<T, TResult>(viewModel)`: see `ResultOverlay`. `t` is the
     * type argument `T`; `outcome` is what `viewModel.GetResultAsync()` comes to; `host` and
     * `view` are the host panel and the view it holds, when they are created.
     */
    method ShowViewModelForResultAsync<R>(vm: ViewModel, t: TypeName, topLevel: TopLevel?, outcome: TaskState<R>)
      returns (r: TaskState<R>, ghost host: Panel?, ghost view: View?)
      modifies OverlayOf(topLevel)
      ensures ResultOverlay(vm, t, topLevel, outcome, r, host, view)
    {
      host, view := null, null;
      var currentView := GetCurrentView();
      if currentView == null || !currentView.isControl {
        return Faulted(InvalidOperation("Unable to find current view")), null, null;
      }
      if topLevel == null {
        return Faulted(InvalidOperation("Unable to find TopLevel")), null, null;
      }
      var created := CreateView(vm);
      if created.Failure? {
        return Faulted(created.error), null, null;
      }
      var viewControl := created.value;
      if viewControl == null || !viewControl.isControl {
        return Faulted(InvalidOperation("View for " + t + " is not a Control")), null, null;
      }
      var overlayLayer := topLevel.overlayLayer;
      if overlayLayer == null {
        return Faulted(InvalidOperation("Unable to find OverlayLayer for hosting the view")), null, null;
      }
      var panel := new Panel();
      panel.children := panel.children + [viewControl];
      host, view := panel, viewControl;
      var before := overlayLayer.children;
      overlayLayer.children := overlayLayer.children + [panel];
      match outcome
      case Pending =>
        r := Pending;
      case _ =>
        RemoveFirstAppended(before, panel, []);
        assert before + [panel] + [] == overlayLayer.children && before + [] == before;
        overlayLayer.children := RemoveFirst(overlayLayer.children, panel);
        r := outcome;
    }

    /**
     * `ShowViewModelForResultAsync<T, TResult>()`: obtains the cached or a new `t` and shows
     * it for a result; fails without touching the overlay when none can be produced.
     */
    method ShowViewModelForResultOfTypeAsync<R>(t: TypeName, first: ViewModel?, second: ViewModel?,
                                                 topLevel: TopLevel?, outcome: TaskState<R>)
      returns (r: TaskState<R>, ghost host: Panel?, ghost view: View?)
      modifies this, first, second, OverlayOf(topLevel)
      ensures var step := ViewModelCache.GetOrCreate(old(viewModels), t, first, second);
        viewModels == step.cache &&
        (step.result == null ==>
          r == Faulted(InvalidOperation("ViewModel of type " + t + " is not registered")) &&
          unchanged(OverlayOf(topLevel))) &&
        (step.result != null ==> ResultOverlay(step.result, t, topLevel, outcome, r, host, view))
      ensures ViewModelCache.AnswersEffect(old(ViewModelCache.Has(viewModels, t)), t, first, second, this)
      ensures viewModelViewDictionary == old(viewModelViewDictionary) && backViewStack == old(backViewStack)
    {
      host, view := null, null;
      assert this !in RootReads() && first !in RootReads() && second !in RootReads();
      var vm := ObtainViewModel(t, first, second);
      if vm.Failure? {
        return Faulted(vm.error), null, null;
      }
      assert viewModelViewDictionary == old(viewModelViewDictionary);
      assert GetCurrentView() == old(GetCurrentView());
      assert ViewPlan(vm.value.runtimeType) == old(ViewPlan(vm.value.runtimeType));
      assert ResultGuard(vm.value.runtimeType, t, topLevel) == old(ResultGuard(vm.value.runtimeType, t, topLevel));
      assert unchanged(OverlayOf(topLevel));
      assert first !in OverlayOf(topLevel) && second !in OverlayOf(topLevel);
      r, host, view := ShowViewModelForResultAsync(vm.value, t, topLevel, outcome);
    }

    /**
     * `AskForActionAsync(title, description, actions)`. Without a current view that is a control
     * or without a top level the result is null and the overlay is left alone; a missing
     * overlay layer raises InvalidOperationException. Otherwise a new dialog showing `title`,
     * `description` and `actions` is hosted on top of the overlay and `clicks` are delivered to
     * it while the result is awaited: the first click on an action button is the result, and
     * the host is gone again, the overlay back to what it was; if no click selects an action,
     * the result stays pending and the host stays. `dialog` and `host` are the dialog and the
     * host panel holding it, when they are created; the result is always the dialog's own.
     */
    method AskForActionAsync(title: string, description: string, actions: seq<UiAction>,
                             topLevel: TopLevel?, clicks: seq<ClickSender>)
      returns (r: TaskState<Option<UiAction>>, ghost dialog: ActionDialog?, ghost host: Panel?)
      modifies OverlayOf(topLevel)
      ensures var current := old(GetCurrentView());
        (current == null || !current.isControl || topLevel == null) ==>
          r == RanToCompletion(None) && unchanged(OverlayOf(topLevel))
      ensures var current := old(GetCurrentView());
        current != null && current.isControl && topLevel != null ==>
          dialog != null && fresh(dialog) && fresh(dialog.taskCompletionSource) &&
          dialog.title == title && dialog.description == description && dialog.itemsSource == actions
      ensures var current := old(GetCurrentView());
        current != null && current.isControl && topLevel != null && topLevel.overlayLayer == null ==>
          r == Faulted(InvalidOperation("Unable to find OverlayLayer for hosting the dialog"))
      ensures var current := old(GetCurrentView());
        current != null && current.isControl && topLevel != null && topLevel.overlayLayer != null ==>
          dialog != null && host != null && fresh(host) && host.children == [dialog] &&
          r == dialog.taskCompletionSource.task &&
          var children := topLevel.overlayLayer.children;
          var before := old(topLevel.overlayLayer.children);
          (FirstSelection(clicks).Some? ==> r == RanToCompletion(FirstSelection(clicks)) && children == before) &&
          (FirstSelection(clicks).None? ==> r == Pending && children == before + [host])
    {
      dialog, host := null, null;
      var currentView := GetCurrentView();
      if currentView == null || !currentView.isControl {
        return RanToCompletion(None), null, null;
      }
      if topLevel == null {
        return RanToCompletion(None), null, null;
      }
      var actionDialog := new ActionDialog();
      actionDialog.Initialize(title, description, actions);
      dialog := actionDialog;
      var overlayLayer := topLevel.overlayLayer;
      if overlayLayer == null {
        return Faulted(InvalidOperation("Unable to find OverlayLayer for hosting the dialog")), dialog, null;
      }
      var panel := new Panel();
      panel.children := panel.children + [actionDialog];
      host := panel;
      var before := overlayLayer.children;
      overlayLayer.children := overlayLayer.children + [panel];
      var result := actionDialog.GetResultAsync();
      for i := 0 to |clicks|
        invariant result.task == AfterClicks(Pending, clicks[..i])
        invariant overlayLayer.children == before + [panel]
        invariant panel.children == [actionDialog]
        invariant actionDialog.title == title && actionDialog.description == description
        invariant actionDialog.itemsSource == actions
      {
        AfterClicksSnoc(Pending, clicks[..i], clicks[i]);
        assert clicks[..i + 1] == clicks[..i] + [clicks[i]];
        actionDialog.ActionButtonClick(clicks[i]);
      }
      assert clicks[..|clicks|] == clicks;
      FirstClickWins(clicks);
      if result.task.Pending? {
        return Pending, dialog, host;
      }
      RemoveFirstAppended(before, panel, []);
      assert before + [panel] + [] == overlayLayer.children && before + [] == before;
      overlayLayer.children := RemoveFirst(overlayLayer.children, panel);
      r := result.task;
    }

    // ---- The view-model side of navigation ----

    /**
     * `BackCommand` / `GoBackAsync()` of `vm`: with no navigation service set it raises
     * ArgumentNullException; bound to this service it is `NavigateBackAsync()`. A view-model
     * bound to some other navigation service sends the call there: its task is what that
     * service's `NavigateBackAsync()` comes to, `otherBack`, and this service is left alone.
     */
    method GoBackAsync(vm: ViewModel, otherBack: Outcome<Exception>) returns (r: Outcome<Exception>)
      modifies this, RootSlot()
      ensures vm.navigationService == null ==>
        r == Fail(ArgumentNull("NavigationService")) &&
        backViewStack == old(backViewStack) && RootContent() == old(RootContent())
      ensures vm.navigationService == this && old(backViewStack) == [] ==>
        r == Pass && backViewStack == [] && RootContent() == old(RootContent())
      ensures vm.navigationService == this && old(backViewStack) != [] ==>
        backViewStack == BackStack.Pop(old(backViewStack)) &&
        (old(RootContent()).Some? ==> r == Pass && GetCurrentView() == BackStack.Top(old(backViewStack))) &&
        (old(RootContent()).None? ==> r == Fail(NullReference) && RootContent() == old(RootContent()))
      ensures vm.navigationService != null && vm.navigationService != this ==>
        r == otherBack && backViewStack == old(backViewStack) && RootContent() == old(RootContent())
      ensures viewModels == old(viewModels) && viewModelViewDictionary == old(viewModelViewDictionary)
    {
      var service := vm.NavigationService();
      if service.Failure? {
        return Fail(service.error);
      }
      if service.value == this {
        r := NavigateBackAsync();
      } else {
        r := otherBack;
      }
    }

    /**
     * `CloseAsync(result)` of a view-model bound to this service: this service's `CloseAsync()`
     * always fails, so the close faults with NotImplementedException, `ExpectsResult` keeps its
     * value and `OnResult` is never raised.
     */
    method CloseViewModelAsync(vm: ViewModel, result: object?) returns (r: TaskState<()>)
      requires vm.navigationService == this
      modifies vm
      ensures r == Faulted(NotImplemented)
      ensures vm.expectsResult == old(vm.expectsResult) && vm.onResult == old(vm.onResult)
      ensures unchanged(vm)
    {
      var close := CloseAsync();
      r := vm.CloseAsync(result, Faulted(close.error));
    }
  }
}
