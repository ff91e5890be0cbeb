/**
 * `BindableBase` and `BaseViewModel` as one class (Dafny classes do not inherit from
 * classes): the busy flag with its change notification, the navigation-service reference
 * and its guard, the result expectation and the close protocol.
 */
module ViewModels {
  import opened Wrappers
  import opened Runtime

  /**
   * One `PropertyChanged` event: the property name it carries, and the `IsBusy` value that a
   * handler reading the sender sees while the event is being raised.
   */
  datatype PropertyChange = PropertyChange(propertyName: Option<string>, isBusy: bool)

  class ViewModel {
    /** The concrete type `GetType()` returns. */
    const runtimeType: TypeName
    /** Every type the instance "is": its own type and all its base types and interfaces. */
    const types: set<TypeName>
    /** Whether the instance implements `IDisposable`. */
    const disposable: bool
    /** How many times `Dispose` was called on it. */
    var disposeCount: nat
    /** The backing store `_isBusy`. */
    const isBusyStore: Ref<bool>
    /** `_navigationService`: any `INavigationService`, or none. */
    var navigationService: object?
    var expectsResult: bool
    /** The `PropertyChanged` events raised so far, oldest first. */
    var propertyChanged: seq<PropertyChange>
    /** The arguments of the `OnResult` events raised so far, oldest first. */
    var onResult: seq<object?>

    /** `this is T`. */
    predicate Is(t: TypeName) {
      t in types
    }

    /** Both constructors: the parameterless one passes a null `navigationService`. */
    constructor (runtimeType: TypeName, supertypes: set<TypeName>, disposable: bool, navigationService: object?)
      ensures this.runtimeType == runtimeType && types == {runtimeType} + supertypes
      ensures this.disposable == disposable && disposeCount == 0
      ensures this.navigationService == navigationService
      ensures fresh(isBusyStore) && !IsBusy() && !expectsResult
      ensures propertyChanged == [] && onResult == []
    {
      this.runtimeType := runtimeType;
      types := {runtimeType} + supertypes;
      this.disposable := disposable;
      disposeCount := 0;
      isBusyStore := new Ref(false);
      this.navigationService := navigationService;
      expectsResult := false;
      propertyChanged := [];
      onResult := [];
    }

    /**
     * The result expectation and the events raised are as in the earlier state (what an
     * operation that only binds or disposes the instance leaves alone).
     */
    twostate predicate KeepsState()
      reads this
    {
      expectsResult == old(expectsResult) && propertyChanged == old(propertyChanged) && onResult == old(onResult)
    }

    /**
     * The instance is now bound to `service` and nothing else about it changed (what
     * `CreateViewModel` does to the container's instance).
     */
    twostate predicate BoundTo(service: object)
      reads this
    {
      navigationService == service && disposeCount == old(disposeCount) && KeepsState()
    }

    /** Every field the instance can change is as in the earlier state. */
    twostate predicate Untouched()
      reads this
    {
      navigationService == old(navigationService) && disposeCount == old(disposeCount) && KeepsState()
    }

    function IsBusy(): bool
      reads isBusyStore
    {
      isBusyStore.value
    }

    /** The `NavigationService` property: the service set last, or ArgumentNullException when none is set. */
    function NavigationService(): (r: Result<object, Exception>)
      reads this
      ensures r.Failure? <==> navigationService == null
      ensures r.Failure? ==> r.error == ArgumentNull("NavigationService")
      ensures r.Success? ==> r.value == navigationService
    {
      if navigationService == null then Failure(ArgumentNull("NavigationService")) else Success(navigationService)
    }

    method SetNavigationService(navigationService: object)
      modifies this
      ensures NavigationService() == Success(navigationService)
      ensures expectsResult == old(expectsResult) && disposeCount == old(disposeCount)
      ensures propertyChanged == old(propertyChanged) && onResult == old(onResult)
    {
      this.navigationService := navigationService;
    }

    /** Raises `PropertyChanged` once, with `propertyName`; handlers see the current state. */
    method NotifyPropertyChanged(propertyName: Option<string>)
      modifies this
      ensures propertyChanged == old(propertyChanged) + [PropertyChange(propertyName, IsBusy())]
      ensures navigationService == old(navigationService) && expectsResult == old(expectsResult)
      ensures disposeCount == old(disposeCount) && onResult == old(onResult)
    {
      propertyChanged := propertyChanged + [PropertyChange(propertyName, isBusyStore.value)];
    }

    /**
     * `SetProperty(ref store, value, propertyName)`: a value equal to the stored one changes
     * nothing and raises nothing, so repeating a call is a no-op; a different value is stored
     * first and then announced by exactly one notification.
     */
    method SetProperty<T(==)>(store: Ref<T>, value: T, propertyName: Option<string>)
      modifies this, store
      ensures old(store.value) == value ==> store.value == old(store.value) && propertyChanged == old(propertyChanged)
      ensures old(store.value) != value ==>
        store.value == value && propertyChanged == old(propertyChanged) + [PropertyChange(propertyName, IsBusy())]
      ensures navigationService == old(navigationService) && expectsResult == old(expectsResult)
      ensures disposeCount == old(disposeCount) && onResult == old(onResult)
    {
      if store.value == value {
        return;
      }
      store.value := value;
      NotifyPropertyChanged(propertyName);
    }

    /** Raises one notification with an empty property name ("everything changed"). */
    method NotifyAllPropertiesChanged()
      modifies this
      ensures propertyChanged == old(propertyChanged) + [PropertyChange(Some(""), IsBusy())]
      ensures navigationService == old(navigationService) && expectsResult == old(expectsResult)
      ensures disposeCount == old(disposeCount) && onResult == old(onResult)
    {
      NotifyPropertyChanged(Some(""));
    }

    /**
     * The `IsBusy` setter: a new value is stored and announced once as "IsBusy", and handlers
     * already see the new value; the current value changes nothing.
     */
    method SetIsBusy(value: bool)
      modifies this, isBusyStore
      ensures IsBusy() == value
      ensures propertyChanged == old(propertyChanged) +
        (if old(IsBusy()) == value then [] else [PropertyChange(Some("IsBusy"), value)])
      ensures navigationService == old(navigationService) && expectsResult == old(expectsResult)
      ensures disposeCount == old(disposeCount) && onResult == old(onResult)
    {
      SetProperty(isBusyStore, value, Some("IsBusy"));
    }

    /** `IDisposable.Dispose`, recorded as a count. */
    method Dispose()
      modifies this
      ensures disposeCount == old(disposeCount) + 1
      ensures navigationService == old(navigationService) && expectsResult == old(expectsResult)
      ensures propertyChanged == old(propertyChanged) && onResult == old(onResult)
    {
      disposeCount := disposeCount + 1;
    }

    /**
     * `CloseAsync(result)`. It first awaits the navigation service's `CloseAsync()`, whose task
     * `serviceClose` comes from that service: with no service set it fails with
     * ArgumentNullException, and while that task is unfinished or faulted nothing changes.
     * Once it has completed, an expected result is delivered: `ExpectsResult` is cleared and
     * `OnResult` is raised once with `result`; otherwise nothing is raised.
     */
    method CloseAsync(result: object?, serviceClose: TaskState<()>) returns (r: TaskState<()>)
      modifies this
      ensures navigationService == null ==>
        r == Faulted(ArgumentNull("NavigationService")) && expectsResult == old(expectsResult) && onResult == old(onResult)
      ensures navigationService != null && !serviceClose.RanToCompletion? ==>
        r == serviceClose && expectsResult == old(expectsResult) && onResult == old(onResult)
      ensures navigationService != null && serviceClose.RanToCompletion? ==>
        r == RanToCompletion(()) && !expectsResult &&
        onResult == old(onResult) + (if old(expectsResult) then [result] else [])
      ensures navigationService == null || !serviceClose.RanToCompletion? ==> unchanged(this)
      ensures navigationService == old(navigationService) && disposeCount == old(disposeCount)
      ensures propertyChanged == old(propertyChanged)
    {
      var service := NavigationService();
      if service.Failure? {
        return Faulted(service.error);
      }
      if !serviceClose.RanToCompletion? {
        return serviceClose;
      }
      if expectsResult {
        expectsResult := false;
        onResult := onResult + [result];
      }
      r := RanToCompletion(());
    }
  }
}
