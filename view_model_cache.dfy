/**
 * The view-model cache (`_viewModels`) as a sequence, and what `CreateViewModel`,
 * `GetViewModel` and `GetNewViewModel` make of it. The container's answer to
 * `GetService(typeof(T))` is the argument `resolved`.
 */
module ViewModelCache {
  import opened Wrappers
  import opened Runtime
  import opened ViewModels
  import opened Lists

  /** The index `FirstOrDefault(f => f is T)` stops at: the first cached entry that is a `t`. */
  function FirstOfType(cache: seq<ViewModel>, t: TypeName): (r: Option<nat>)
    ensures r.Some? ==> r.value < |cache| && cache[r.value].Is(t)
    ensures r.Some? ==> forall j :: 0 <= j < r.value ==> !cache[j].Is(t)
    ensures r.None? <==> forall j :: 0 <= j < |cache| ==> !cache[j].Is(t)
  {
    if cache == [] then None
    else if cache[0].Is(t) then Some(0)
    else match FirstOfType(cache[1..], t)
      case Some(k) => Some(k + 1)
      case None => None
  }

  /** `FirstOrDefault(f => f is T)`: that entry, or null. */
  function FirstOrDefault(cache: seq<ViewModel>, t: TypeName): (vm: ViewModel?)
    ensures vm == null <==> FirstOfType(cache, t).None?
    ensures vm != null ==> vm.Is(t) && vm == cache[FirstOfType(cache, t).value]
  {
    match FirstOfType(cache, t)
    case Some(i) => cache[i]
    case None => null
  }

  /** `HasViewModel<T>`. */
  predicate Has(cache: seq<ViewModel>, t: TypeName) {
    FirstOfType(cache, t).Some?
  }

  /** `GetService(typeof(T)) is T vm`: the container produced an instance of `t`. */
  predicate Resolves(resolved: ViewModel?, t: TypeName) {
    resolved != null && resolved.Is(t)
  }

  /** The cache after an operation, and the instance it returns (null for none). */
  datatype CacheStep = CacheStep(cache: seq<ViewModel>, result: ViewModel?)

  /** `CreateViewModel<T>`: a resolved instance is appended once and returned. */
  function Create(cache: seq<ViewModel>, t: TypeName, resolved: ViewModel?): CacheStep {
    if Resolves(resolved, t) then CacheStep(cache + [resolved], resolved) else CacheStep(cache, null)
  }

  /** What the callers of `CreateViewModel` do with its result: append it a second time. */
  function AppendAgain(step: CacheStep): CacheStep {
    if step.result == null then step else CacheStep(step.cache + [step.result], step.result)
  }

  /** `GetViewModel<T>`: the first cached `t`, or a created one. */
  function Get(cache: seq<ViewModel>, t: TypeName, resolved: ViewModel?): CacheStep {
    match FirstOfType(cache, t)
    case Some(i) => CacheStep(cache, cache[i])
    case None => AppendAgain(Create(cache, t, resolved))
  }

  /** `GetNewViewModel<T>`: `List.Remove` of the first cached `t`, then as on a miss. */
  function GetNew(cache: seq<ViewModel>, t: TypeName, resolved: ViewModel?): CacheStep {
    var kept := match FirstOfType(cache, t) case Some(i) => RemoveFirst(cache, cache[i]) case None => cache;
    AppendAgain(Create(kept, t, resolved))
  }

  /**
   * `GetViewModel<T>() ?? CreateViewModel<T>()`: when the first lookup yields nothing, the
   * container is asked again and its instance is appended once only.
   */
  function GetOrCreate(cache: seq<ViewModel>, t: TypeName, first: ViewModel?, second: ViewModel?): (step: CacheStep)
    ensures step.result != null ==> step.result.Is(t) && (step.result in cache || step.result == first || step.result == second)
    ensures step.result == null <==> !Has(cache, t) && !Resolves(first, t) && !Resolves(second, t)
  {
    var step := Get(cache, t, first);
    if step.result != null then step else Create(step.cache, t, second)
  }

  /**
   * What `GetViewModel<T>() ?? CreateViewModel<T>()`, run by `service`, does to the container's
   * two answers. On a cache hit (`hit`) the container is not consulted and neither answer
   * changes. Otherwise the first answer that is a `t` is bound to `service`; an answer that is
   * not a `t` is dropped unchanged, and the second lookup does not happen when the first one
   * yields a `t`.
   */
  twostate predicate AnswersEffect(hit: bool, t: TypeName, first: ViewModel?, second: ViewModel?, service: object)
    reads first, second
  {
    && (hit ==> (first != null ==> first.Untouched()) && (second != null ==> second.Untouched()))
    && (!hit && Resolves(first, t) ==> first.BoundTo(service))
    && (!hit && !Resolves(first, t) && Resolves(second, t) ==> second.BoundTo(service))
    && (first != null && !Resolves(first, t) ==> first.Untouched())
    && (second != null && !Resolves(second, t) ==> second.Untouched())
    && (Resolves(first, t) && second != null && second != first ==> second.Untouched())
  }

  /** A first match in a prefix stays the first match when entries are appended. */
  lemma {:induction false} FirstOfTypeAppend(cache: seq<ViewModel>, tail: seq<ViewModel>, t: TypeName)
    ensures FirstOfType(cache, t).Some? ==> FirstOfType(cache + tail, t) == FirstOfType(cache, t)
    ensures FirstOfType(cache, t).None? ==>
      FirstOfType(cache + tail, t) == (match FirstOfType(tail, t) case Some(k) => Some(|cache| + k) case None => None)
  {
    var whole := cache + tail;
    match FirstOfType(cache, t)
    case Some(i) =>
      assert whole[i] == cache[i];
      assert forall j :: 0 <= j < i ==> whole[j] == cache[j];
      FirstOfTypeIsLeast(whole, t, i);
    case None =>
      match FirstOfType(tail, t)
      case Some(k) =>
        assert whole[|cache| + k] == tail[k];
        assert forall j :: 0 <= j < |cache| ==> whole[j] == cache[j];
        assert forall j :: |cache| <= j < |cache| + k ==> whole[j] == tail[j - |cache|];
        FirstOfTypeIsLeast(whole, t, |cache| + k);
      case None =>
        assert forall j :: 0 <= j < |cache| ==> whole[j] == cache[j];
        assert forall j :: |cache| <= j < |whole| ==> whole[j] == tail[j - |cache|];
  }

  /** The least index holding a `t` is the one `FirstOfType` finds. */
  lemma FirstOfTypeIsLeast(cache: seq<ViewModel>, t: TypeName, i: nat)
    requires i < |cache| && cache[i].Is(t)
    requires forall j :: 0 <= j < i ==> !cache[j].Is(t)
    ensures FirstOfType(cache, t) == Some(i)
  {
    assert FirstOfType(cache, t).Some?;
  }

  /**
   * Once `GetViewModel<T>` has returned an instance, every later `GetViewModel<T>` returns that
   * same instance and leaves the cache alone, whatever the container would answer.
   */
  lemma GetIsStable(cache: seq<ViewModel>, t: TypeName, first: ViewModel?, later: ViewModel?)
    requires Get(cache, t, first).result != null
    ensures Get(Get(cache, t, first).cache, t, later) == Get(cache, t, first)
  {
    if FirstOfType(cache, t).None? {
      var grown := cache + [first, first];
      assert Get(cache, t, first).cache == grown;
      assert FirstOfType([first, first], t) == Some(0);
      FirstOfTypeAppend(cache, [first, first], t);
      assert grown[|cache|] == first;
    }
  }

  /** `HasViewModel<T>` holds exactly when `GetViewModel<T>` finds a cached instance without the container. */
  lemma HasIffCachedHit(cache: seq<ViewModel>, t: TypeName)
    ensures Has(cache, t) <==> Get(cache, t, null).result != null
    ensures Get(cache, t, null).cache == cache
  {
  }

  /**
   * `GetNewViewModel<T>` takes out exactly the entry at the first `t` (the rest keep their
   * order), and then appends the new instance twice when the container produced one.
   */
  lemma GetNewRemovesFirstOnly(cache: seq<ViewModel>, t: TypeName, resolved: ViewModel?)
    requires FirstOfType(cache, t).Some?
    ensures var i := FirstOfType(cache, t).value;
      GetNew(cache, t, resolved).cache ==
        cache[..i] + cache[i + 1..] + (if Resolves(resolved, t) then [resolved, resolved] else [])
  {
    var i := FirstOfType(cache, t).value;
    var vm := cache[i];
    FirstIndexIsIndexOf(cache, t);
    RemoveFirstAt(cache, vm);
    var kept := cache[..i] + cache[i + 1..];
    assert RemoveFirst(cache, vm) == kept;
    assert GetNew(cache, t, resolved) == AppendAgain(Create(kept, t, resolved));
    if Resolves(resolved, t) {
      assert Create(kept, t, resolved) == CacheStep(kept + [resolved], resolved);
      assert kept + [resolved] + [resolved] == kept + [resolved, resolved];
    } else {
      assert Create(kept, t, resolved) == CacheStep(kept, null);
    }
  }

  /** No earlier entry is the same instance as the first `t`, so `List.Remove` finds it at that index. */
  lemma FirstIndexIsIndexOf(cache: seq<ViewModel>, t: TypeName)
    requires FirstOfType(cache, t).Some?
    ensures cache[FirstOfType(cache, t).value] in cache
    ensures IndexOf(cache, cache[FirstOfType(cache, t).value]) == FirstOfType(cache, t).value
  {
  }

  /** After the cache holds no `t`, the first `t` of the cache followed by `tail` is `tail`'s first entry, if that is a `t`. */
  lemma FirstOfTypeAfterMiss(cache: seq<ViewModel>, tail: seq<ViewModel>, t: TypeName)
    requires !Has(cache, t) && tail != [] && tail[0].Is(t)
    ensures FirstOfType(cache + tail, t) == Some(|cache|)
    ensures FirstOrDefault(cache + tail, t) == tail[0]
  {
    FirstOfTypeAppend(cache, tail, t);
  }

  /** On a miss, `GetViewModel<T>` with a container instance of `t` caches it twice and returns it. */
  lemma GetAfterMiss(cache: seq<ViewModel>, t: TypeName, x: ViewModel)
    requires !Has(cache, t) && x.Is(t)
    ensures Get(cache, t, x) == CacheStep(cache + [x, x], x)
  {
    assert FirstOfType(cache, t).None?;
  }

  /**
   * `GetNewViewModel<T>` right after such a creation: `List.Remove` takes out the first of
   * the two copies only, and the new instance is appended twice.
   */
  lemma GetNewAfterCreate(cache: seq<ViewModel>, t: TypeName, replaced: ViewModel, replacement: ViewModel)
    requires !Has(cache, t) && replaced.Is(t) && replacement.Is(t)
    ensures GetNew(cache + [replaced, replaced], t, replacement) == CacheStep(cache + [replaced, replacement, replacement], replacement)
  {
    var created := cache + [replaced, replaced];
    FirstOfTypeAfterMiss(cache, [replaced, replaced], t);
    assert RemoveFirst(created, replaced) == cache + [replaced] by {
      RemoveFirstAppended(cache, replaced, [replaced]);
      assert cache + [replaced] + [replaced] == created;
    }
    assert cache + [replaced] + [replacement] + [replacement] == cache + [replaced, replacement, replacement];
  }

  /**
   * The double append leaves a stale entry: when `T` was first created by `GetViewModel<T>`
   * (cached twice) and then replaced by `GetNewViewModel<T>`, `List.Remove` takes out only one
   * of the two copies, so the next `GetViewModel<T>` returns the replaced instance, not the
   * new one.
   */
  lemma {:induction false} StaleInstanceAfterReplace(cache: seq<ViewModel>, t: TypeName, replaced: ViewModel, replacement: ViewModel, later: ViewModel?)
    requires !Has(cache, t)
    requires replaced.Is(t) && replacement.Is(t) && replaced != replacement
    ensures var created := Get(cache, t, replaced);
      var renewed := GetNew(created.cache, t, replacement);
      created.result == replaced && renewed.result == replacement &&
      renewed.cache == cache + [replaced, replacement, replacement] &&
      Get(renewed.cache, t, later) == CacheStep(renewed.cache, replaced)
  {
    GetAfterMiss(cache, t, replaced);
    GetNewAfterCreate(cache, t, replaced, replacement);
    var after := cache + [replaced, replacement, replacement];
    FirstOfTypeAfterMiss(cache, [replaced, replacement, replacement], t);
    assert Get(after, t, later) == CacheStep(after, after[|cache|]);
  }
}
