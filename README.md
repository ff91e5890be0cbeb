# Sanet.MVVM navigation, modelled in Dafny

Sanet.MVVM is a small MVVM library for Avalonia. Its navigation service (`BaseNavigationService`)
keeps a cache of view-models, a registry from view-model type to view type and a back stack of
views. It replaces the root content of the application when navigating forward and back, and it
can host a view or an action dialog in the overlay layer while a result is awaited. This project
models that state machine and the pieces it relies on, and proves what each operation does to the
cache, the registry, the back stack, the root content and the overlay:

- the two root-content adapters: the desktop main window and the single-view content control;
- the action dialog with its one-shot result;
- the view-model base classes (`BindableBase`, `BaseViewModel`): change notification, the
  navigation-service guard and the close protocol.

Layout, one module per source concern:

- `wrappers.dfy` — Option, Result, Outcome.
- `runtime.dfy` — exceptions, task states, `TaskCompletionSource`, `ref` cells.
- `lists.dfy` — `List.Remove` on sequences.
- `back_stack.dfy` — `Stack<T>` on sequences.
- `ui.dfy` — views, windows, content controls, overlay layers, panels.
- `view_model.dfy` — `BindableBase` and `BaseViewModel` as one class.
- `view_model_cache.dfy` — the cache operations as functions, with their lemmas.
- `action_dialog.dfy` — the action dialog.
- `desktop_navigation.dfy`, `single_view_navigation.dfy` — the two adapters.
- `navigation.dfy` — the controller.

Each body that the source runs on the UI dispatcher is one method. The state of the Task it
returns is the method's result. `Outcome` is used for a plain Task that has finished, either
completed or faulted, by the time the method returns. `TaskState` is used where the Task may still
be pending: every `Task<T>`, and the plain Task of a view-model's `CloseAsync`, which awaits
another task.

`RegisterViews` uses `Dictionary.Add`, so registering a view-model type a second time fails with
an ArgumentException and keeps the first view type; it does not overwrite the mapping.

The model also reproduces the way the cache appends a new instance twice: once in
`CreateViewModel` and once more in `GetViewModel`/`GetNewViewModel`. `List.Remove` takes out only
one copy. `ViewModelCache.StaleInstanceAfterReplace` proves the consequence. After `GetViewModel<T>`
and then `GetNewViewModel<T>`, the next `GetViewModel<T>` returns the replaced instance, which may
already be disposed, and not the new one.

## Model

| member | source | states |
|---|---|---|
| Runtime.TaskCompletionSource.constructor | Navigation/Sanet.MVVM.Navigation.Avalonia/Views/ActionDialog.axaml.cs:9 | a new result slot is pending |
| Runtime.TaskCompletionSource.TrySetResult | Navigation/Sanet.MVVM.Navigation.Avalonia/Views/ActionDialog.axaml.cs:32 | completes the task only when it is still pending and reports whether it did; a completed task is never overwritten |
| Lists.IndexOf | Navigation/Sanet.MVVM.Navigation.Avalonia/Services/BaseNavigationService.cs:86 | the index `List.Remove` finds: an occurrence of `x` with no earlier occurrence |
| Lists.RemoveFirst | Navigation/Sanet.MVVM.Navigation.Avalonia/Services/BaseNavigationService.cs:86 | `List.Remove`: a list without `x` is unchanged, otherwise exactly one element goes |
| Lists.RemoveFirstAt | Navigation/Sanet.MVVM.Navigation.Avalonia/Services/BaseNavigationService.cs:86 | the element removed is the one at the first occurrence; the rest keep their order |
| Lists.RemoveFirstMultiset | Navigation/Sanet.MVVM.Navigation.Avalonia/Services/BaseNavigationService.cs:86 | removal takes away one copy of `x` and keeps every other element |
| Lists.RemoveFirstAppended | Navigation/Sanet.MVVM.Navigation.Avalonia/Services/BaseNavigationService.cs:196-207 | removing a host that was appended after entries not containing it restores those entries followed by what came after |
| BackStack.PopUndoesPush | Navigation/Sanet.MVVM.Navigation.Avalonia/Services/BaseNavigationService.cs:116-126 | a pop after a push yields the pushed view and the stack as it was before the push |
| BackStack.PushAllKeepsBottom | Navigation/Sanet.MVVM.Navigation.Avalonia/Services/BaseNavigationService.cs:128-138 | pushes grow the stack by one each and never move its bottom entry, the one `ToList()[Count - 1]` reads |
| BackStack.BottomIsFirstPushed | Navigation/Sanet.MVVM.Navigation.Avalonia/Services/BaseNavigationService.cs:128-138 | after pushes onto an empty stack, the root entry is the first view pushed, and the depth is the number of pushes |
| Ui.View.constructor | Navigation/Sanet.MVVM.Navigation.Avalonia/Services/BaseNavigationService.cs:65 | the activator builds a view of the given view type with no view-model yet |
| Ui.AsView | Navigation/Sanet.MVVM.Navigation.Avalonia/Services/NavigationService.cs:17 | `as IBaseView`: non-null exactly when the content is a view, and then that same object |
| ViewModels.ViewModel.constructor | Sanet.MVVM.Core/ViewModels/BaseViewModel.cs:15-20 | a new view-model holds the given navigation service (or none), is not busy, expects no result and has raised nothing |
| ViewModels.ViewModel.NavigationService | Sanet.MVVM.Core/ViewModels/BaseViewModel.cs:25-27 | fails with ArgumentNullException for "NavigationService" exactly when no service is set, otherwise returns the set service |
| ViewModels.ViewModel.SetNavigationService | Sanet.MVVM.Core/ViewModels/BaseViewModel.cs:43-46 | afterwards `NavigationService` returns the given service; nothing else changes |
| ViewModels.ViewModel.NotifyPropertyChanged | Sanet.MVVM.Core/ViewModels/BindableBase.cs:10-13 | raises exactly one event with the given name; handlers see the current state |
| ViewModels.ViewModel.SetProperty | Sanet.MVVM.Core/ViewModels/BindableBase.cs:15-21 | an equal value leaves store and events untouched, so a repeated call is a no-op; a different value is stored and announced once with the property name; for the `IsBusy` store, handlers see the new value |
| ViewModels.ViewModel.NotifyAllPropertiesChanged | Sanet.MVVM.Core/ViewModels/BindableBase.cs:23-26 | raises one event with the empty property name |
| ViewModels.ViewModel.SetIsBusy | Sanet.MVVM.Core/ViewModels/BaseViewModel.cs:29-33 | `IsBusy` becomes the value; a change raises exactly one "IsBusy" event carrying the new value, and no change raises nothing |
| ViewModels.ViewModel.Dispose | Navigation/Sanet.MVVM.Navigation.Avalonia/Services/BaseNavigationService.cs:88 | one more disposal is recorded and nothing else changes |
| ViewModels.ViewModel.CloseAsync | Sanet.MVVM.Core/ViewModels/BaseViewModel.cs:53-61 | no service: ArgumentNullException. Service close not completed: its state passes through and the view-model is unchanged. Completed: `ExpectsResult` is cleared, and `OnResult` fires once with the result exactly when a result was expected |
| ViewModelCache.FirstOfType | Navigation/Sanet.MVVM.Navigation.Avalonia/Services/BaseNavigationService.cs:82 | the least index whose entry is a `t`, or none exactly when no entry is |
| ViewModelCache.FirstOrDefault | Navigation/Sanet.MVVM.Navigation.Avalonia/Services/BaseNavigationService.cs:101 | null exactly when no entry is a `t`, otherwise the entry at the first `t` |
| ViewModelCache.GetOrCreate | Navigation/Sanet.MVVM.Navigation.Avalonia/Services/BaseNavigationService.cs:147 | `GetViewModel<T>() ?? CreateViewModel<T>()` yields nothing exactly when no cached entry and neither container answer is a `t`; otherwise a `t` that is cached or one of the container's answers |
| ViewModelCache.FirstOfTypeAppend | Navigation/Sanet.MVVM.Navigation.Avalonia/Services/BaseNavigationService.cs:99-108 | appending entries never changes an existing first match, and otherwise the first match is in the appended part |
| ViewModelCache.FirstOfTypeIsLeast | Navigation/Sanet.MVVM.Navigation.Avalonia/Services/BaseNavigationService.cs:101 | `FirstOrDefault(f => f is T)` stops at the least index holding a `t` |
| ViewModelCache.GetIsStable | Navigation/Sanet.MVVM.Navigation.Avalonia/Services/BaseNavigationService.cs:99-108 | once `GetViewModel<T>` has returned an instance, later calls return the same one and leave the cache alone, whatever the container answers |
| ViewModelCache.HasIffCachedHit | Navigation/Sanet.MVVM.Navigation.Avalonia/Services/BaseNavigationService.cs:110-114 | `HasViewModel<T>` holds exactly when `GetViewModel<T>` is answered from the cache |
| ViewModelCache.GetNewRemovesFirstOnly | Navigation/Sanet.MVVM.Navigation.Avalonia/Services/BaseNavigationService.cs:80-97 | `GetNewViewModel<T>` takes out only the entry at the first `t`, keeps the order of the rest, then appends the new instance twice when there is one |
| ViewModelCache.FirstIndexIsIndexOf | Navigation/Sanet.MVVM.Navigation.Avalonia/Services/BaseNavigationService.cs:82-86 | `List.Remove` of the first `t` finds it at the index `FirstOrDefault` stopped at |
| ViewModelCache.FirstOfTypeAfterMiss | Navigation/Sanet.MVVM.Navigation.Avalonia/Services/BaseNavigationService.cs:99-108 | after a miss, the first `t` is the first appended entry when that one is a `t` |
| ViewModelCache.GetAfterMiss | Navigation/Sanet.MVVM.Navigation.Avalonia/Services/BaseNavigationService.cs:99-108 | on a cache miss, a container instance of `t` is returned and cached twice |
| ViewModelCache.GetNewAfterCreate | Navigation/Sanet.MVVM.Navigation.Avalonia/Services/BaseNavigationService.cs:80-97 | right after such a creation, `GetNewViewModel<T>` removes only the first of the two copies and appends the new instance twice |
| ViewModelCache.StaleInstanceAfterReplace | Navigation/Sanet.MVVM.Navigation.Avalonia/Services/BaseNavigationService.cs:80-108 | create through `GetViewModel`, then replace through `GetNewViewModel`: the cache holds the old instance once and the new one twice, and the next `GetViewModel` returns the old one |
| Dialogs.SelectedAction | Navigation/Sanet.MVVM.Navigation.Avalonia/Views/ActionDialog.axaml.cs:30 | a click selects an action exactly when its sender is a button tagged with one, and then it selects that action |
| Dialogs.FirstSelection | Navigation/Sanet.MVVM.Navigation.Avalonia/Views/ActionDialog.axaml.cs:28-34 | none exactly when no click selects an action, otherwise the action of the first click that does |
| Dialogs.LaterClicksIgnored | Navigation/Sanet.MVVM.Navigation.Avalonia/Views/ActionDialog.axaml.cs:32 | a completed result survives any later clicks unchanged |
| Dialogs.FirstClickWins | Navigation/Sanet.MVVM.Navigation.Avalonia/Views/ActionDialog.axaml.cs:28-34 | from pending, a run of clicks completes the result with the first selected action, or leaves it pending when none selects one |
| Dialogs.AfterClicksSnoc | Navigation/Sanet.MVVM.Navigation.Avalonia/Views/ActionDialog.axaml.cs:28-34 | delivering one more click acts on the result the earlier clicks left |
| Dialogs.ActionDialog.constructor | Navigation/Sanet.MVVM.Navigation.Avalonia/Views/ActionDialog.axaml.cs:9-14 | a new dialog has its own pending result slot |
| Dialogs.ActionDialog.Initialize | Navigation/Sanet.MVVM.Navigation.Avalonia/Views/ActionDialog.axaml.cs:16-21 | shows exactly the given title, description and actions |
| Dialogs.ActionDialog.GetResultAsync | Navigation/Sanet.MVVM.Navigation.Avalonia/Views/ActionDialog.axaml.cs:23-26 | always the dialog's one result slot |
| Dialogs.ActionDialog.ActionButtonClick | Navigation/Sanet.MVVM.Navigation.Avalonia/Views/ActionDialog.axaml.cs:28-34 | a click on an action button completes a pending result with exactly that action; a completed result or another sender leaves it as it is |
| DesktopNavigation.NavigationService.constructor | Navigation/Sanet.MVVM.Navigation.Avalonia/Services/NavigationService.cs:10-13 | keeps the given desktop lifetime |
| DesktopNavigation.NavigationService.GetCurrentView | Navigation/Sanet.MVVM.Navigation.Avalonia/Services/NavigationService.cs:15-18 | null without a desktop or main window; otherwise non-null exactly when the window's content is a view, and then that view |
| DesktopNavigation.NavigationService.SetMainWindowContent | Navigation/Sanet.MVVM.Navigation.Avalonia/Services/NavigationService.cs:20-23 | with a main window, its content becomes the view and `GetCurrentView` returns it; without one, NullReferenceException and no change |
| SingleViewNavigation.SingleViewNavigationService.constructor | Navigation/Sanet.MVVM.Navigation.Avalonia/Services/SingleViewNavigationService.cs:12-17 | installs the content control as the platform's main view and keeps it as the slot |
| SingleViewNavigation.SingleViewNavigationService.GetCurrentView | Navigation/Sanet.MVVM.Navigation.Avalonia/Services/SingleViewNavigationService.cs:19-22 | non-null exactly when the slot holds a view, and then that view |
| SingleViewNavigation.SingleViewNavigationService.SetMainWindowContent | Navigation/Sanet.MVVM.Navigation.Avalonia/Services/SingleViewNavigationService.cs:24-27 | the slot holds the view, `GetCurrentView` returns it, and only the slot is written |
| Navigation.BaseNavigationService.constructor | Navigation/Sanet.MVVM.Navigation.Avalonia/Services/BaseNavigationService.cs:16-26 | empty cache, empty registry, empty back stack |
| Navigation.BaseNavigationService.GetCurrentView | Navigation/Sanet.MVVM.Navigation.Avalonia/Services/BaseNavigationService.cs:56 | the adapter's root content read through the `as IBaseView` filter |
| Navigation.BaseNavigationService.SetMainWindowContent | Navigation/Sanet.MVVM.Navigation.Avalonia/Services/BaseNavigationService.cs:57 | with a root slot, the view becomes root and `GetCurrentView` returns it; without one, NullReferenceException and no change |
| Navigation.BaseNavigationService.RegisterViews | Navigation/Sanet.MVVM.Navigation.Avalonia/Services/BaseNavigationService.cs:28-32 | a new view-model type is mapped to the view type; a registered one fails with ArgumentException and keeps its mapping |
| Navigation.BaseNavigationService.ViewPlan | Navigation/Sanet.MVVM.Navigation.Avalonia/Services/BaseNavigationService.cs:59-68 | an unregistered runtime type fails with KeyNotFoundException; an activator exception is passed on |
| Navigation.BaseNavigationService.CreateView | Navigation/Sanet.MVVM.Navigation.Avalonia/Services/BaseNavigationService.cs:59-73 | unregistered type: KeyNotFoundException, no view built. Activator throws: that exception. Null activation: null. Otherwise: a new view of the registered type bound to exactly this view-model |
| Navigation.BaseNavigationService.CreateViewModel | Navigation/Sanet.MVVM.Navigation.Avalonia/Services/BaseNavigationService.cs:34-41 | a container instance of `t` is bound to this service and appended once, and its other state is kept. Anything else gives null, and neither the cache nor the container's answer changes |
| Navigation.BaseNavigationService.GetViewModel | Navigation/Sanet.MVVM.Navigation.Avalonia/Services/BaseNavigationService.cs:99-108 | cached `t`: the first one, and the cache and the container's answer are unchanged. Container hit: bound to this service and appended twice, other state kept. Miss: null, nothing changes |
| Navigation.BaseNavigationService.GetNewViewModel | Navigation/Sanet.MVVM.Navigation.Avalonia/Services/BaseNavigationService.cs:80-97 | removes one copy of the first cached `t` and disposes it exactly when it is disposable, with nothing else about it changed. Then it behaves as a container lookup (bind, append twice); a null result leaves the old entry removed |
| Navigation.BaseNavigationService.HasViewModel | Navigation/Sanet.MVVM.Navigation.Avalonia/Services/BaseNavigationService.cs:110-114 | true exactly when some cached entry is a `t`, without consulting the container |
| Navigation.BaseNavigationService.OpenViewModelAsync | Navigation/Sanet.MVVM.Navigation.Avalonia/Services/BaseNavigationService.cs:43-54 | `CreateView` failure: fault, no change. Null view or no current view: no change. Otherwise: old root pushed, and a new view bound to the view-model becomes root |
| Navigation.BaseNavigationService.NavigateToViewModelAsync | Navigation/Sanet.MVVM.Navigation.Avalonia/Services/BaseNavigationService.cs:140-143 | the same forward navigation |
| Navigation.BaseNavigationService.ShowViewModelAsync | Navigation/Sanet.MVVM.Navigation.Avalonia/Services/BaseNavigationService.cs:154-157 | the same forward navigation |
| Navigation.BaseNavigationService.ObtainViewModel | Navigation/Sanet.MVVM.Navigation.Avalonia/Services/BaseNavigationService.cs:147-149 | `GetViewModel<T>() ?? CreateViewModel<T>()`: an instance of `t` with the cache updated accordingly, or "ViewModel of type … is not registered". An instance from either container lookup is bound to this service with its other state kept. On a cache hit neither container answer changes; an answer that is not a `t` does not change; the second answer does not change when the first is a `t` |
| Navigation.BaseNavigationService.NavigateToViewModelOfTypeAsync | Navigation/Sanet.MVVM.Navigation.Avalonia/Services/BaseNavigationService.cs:145-151 | fails without navigating when no instance can be produced. Otherwise it navigates forward to the obtained instance, which is bound to this service when the container produced it. The container's answers change only as in `ObtainViewModel` (a cached instance is left alone) |
| Navigation.BaseNavigationService.ShowViewModelOfTypeAsync | Navigation/Sanet.MVVM.Navigation.Avalonia/Services/BaseNavigationService.cs:159-162 | the same as `NavigateToViewModelOfTypeAsync`, including the binding of a new instance and what stays unchanged on the container's answers |
| Navigation.BaseNavigationService.NavigateBackAsync | Navigation/Sanet.MVVM.Navigation.Avalonia/Services/BaseNavigationService.cs:116-126 | empty stack: no change. Otherwise the top is popped and that same view becomes root |
| Navigation.BaseNavigationService.NavigateToRootAsync | Navigation/Sanet.MVVM.Navigation.Avalonia/Services/BaseNavigationService.cs:128-138 | the stack is unchanged; on a non-empty stack the bottom entry becomes root |
| Navigation.BaseNavigationService.CloseAsync | Navigation/Sanet.MVVM.Navigation.Avalonia/Services/BaseNavigationService.cs:75-78 | always fails with NotImplementedException |
| Navigation.BaseNavigationService.ShowViewModelForResultAsync | Navigation/Sanet.MVVM.Navigation.Avalonia/Services/BaseNavigationService.cs:164-210 | the checks fail in source order with their messages, and the overlay is untouched. Otherwise a new host holds exactly one new view, a control of the registered type bound to the view-model. The host sits on top of the overlay while the result is pending. Once it completes or faults, the overlay is restored and the result or fault is returned unchanged |
| Navigation.BaseNavigationService.ShowViewModelForResultOfTypeAsync | Navigation/Sanet.MVVM.Navigation.Avalonia/Services/BaseNavigationService.cs:212-219 | fails without touching the overlay when no instance can be produced. Otherwise it shows the obtained instance for a result as `ShowViewModelForResultAsync` does, and a new instance is bound to this service. The container's answers change only as in `ObtainViewModel` |
| Navigation.BaseNavigationService.AskForActionAsync | Navigation/Sanet.MVVM.Navigation.Avalonia/Services/BaseNavigationService.cs:221-263 | no current control or top level: null, overlay untouched. Otherwise a new dialog shows exactly the title, description and actions. No overlay layer: InvalidOperationException. Otherwise a new host holding just that dialog is added, and the result is the dialog's own: the first action clicked, with the overlay restored, or pending with the host on top |
| Navigation.BaseNavigationService.GoBackAsync | Sanet.MVVM.Core/ViewModels/BaseViewModel.cs:48-51 | no service set: ArgumentNullException. Bound to this service: exactly `NavigateBackAsync`. Bound to another service: that service's back-navigation result, and this service is unchanged |
| Navigation.BaseNavigationService.CloseViewModelAsync | Sanet.MVVM.Core/ViewModels/BaseViewModel.cs:53-61 | closing a view-model bound to this service faults with NotImplementedException, and the view-model is left entirely unchanged (`ExpectsResult` kept, no `OnResult`) |

## Left out

- Threading: `Dispatcher.UIThread.InvokeAsync` is not modelled. Each dispatched body is one atomic method, and overlapping overlays or navigations are not considered.
- Faults: a Task that faults and a call that throws before returning a Task are both a failed `Outcome` or `Faulted` state.
- Awaited tasks: `GetResultAsync` of a view-model and the navigation service's `CloseAsync` are inputs to the methods that await them, given as the state the task has come to. User clicks on the action dialog are a sequence of click events delivered while its result is awaited.
- Dependency injection and reflection: `IServiceProvider.GetService` is an argument of each method that asks the container, one argument per call. `Activator.CreateInstance` is a fixed function from view type to activation outcome. `TopLevel.GetTopLevel` is an argument. `OverlayLayer.GetOverlayLayer` is a property of the top level.
- Runtime types: a type name with a set of types each view-model "is" stands in for `is T`, and a flag says whether a view is a `Control`.
- Layout: `MaxHeight`/`MaxWidth` of the hosted view and the host panel's size, alignment, brush and hit-testing are floating-point layout and styling, and are not modelled.
- Exception messages: ArgumentNullException's message text is not modelled; only its parameter name is. `typeof(T)` in messages is the model's type name, not the CLR's full name.
- Navigation.BaseNavigationService.GoBackAsync: for a view-model bound to some other navigation service, that service's `NavigateBackAsync` is not run. What its task comes to is an argument, and the model states only that the result is that task and that this service is left alone.
- `BackCommand` wraps `GoBackAsync` in an `AsyncCommand`, whose exception handling and re-entrancy are not modelled.
- Dialogs.ActionDialog.Initialize: the items source keeps a reference to the caller's array, so later writes to that array would show in the dialog; the model copies the actions.
- Dialogs.ActionDialog.constructor: the title, description and items start empty. The XAML that creates and initialises the dialog's controls is not part of this model, and those controls' own initial (null) text is not represented.
- ViewModels.ViewModel.SetProperty: an event records only the `IsBusy` value a handler would read, so for a store other than `IsBusy` the contract does not fix that the value is written before the notification is raised.
- Event handlers: handlers of `PropertyChanged` and `OnResult` are not run; the events are recorded in order as a log.
- `AttachHandlers`/`DetachHandlers` are empty virtual hooks and are not modelled.
- The view base class, the dependency-injection bootstrap and the interfaces are not part of this model beyond the state they carry.
