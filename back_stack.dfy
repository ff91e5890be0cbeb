/**
 * `Stack<T>` as a sequence whose element 0 is the top. `Stack.ToList()` enumerates from the
 * top down, so it is the sequence itself, and `ToList()[Count - 1]` is the bottom entry.
 */
module BackStack {

  function Push<T>(s: seq<T>, x: T): seq<T> {
    [x] + s
  }

  function Top<T>(s: seq<T>): T
    requires s != []
  {
    s[0]
  }

  function Pop<T>(s: seq<T>): seq<T>
    requires s != []
  {
    s[1..]
  }

  /** `Stack.ToList()`: the entries from the top down. */
  function ToList<T>(s: seq<T>): seq<T> {
    s
  }

  /** The entry `ToList()[Count - 1]` reads: the oldest one. */
  function Bottom<T>(s: seq<T>): T
    requires s != []
  {
    ToList(s)[|s| - 1]
  }

  /** Pushing the elements of `xs` one after another, `xs[0]` first. */
  function PushAll<T>(s: seq<T>, xs: seq<T>): seq<T>
    decreases |xs|
  {
    if xs == [] then s else PushAll(Push(s, xs[0]), xs[1..])
  }

  /** A pop undoes a push: it yields the pushed entry and leaves the stack as it was. */
  lemma PopUndoesPush<T>(s: seq<T>, x: T)
    ensures Push(s, x) != [] && Top(Push(s, x)) == x && Pop(Push(s, x)) == s
  {
  }

  /** Pushes never move the bottom of a non-empty stack, and grow it by one entry each. */
  lemma {:induction false} PushAllKeepsBottom<T>(s: seq<T>, xs: seq<T>)
    requires s != []
    ensures |PushAll(s, xs)| == |s| + |xs|
    ensures PushAll(s, xs) != [] && Bottom(PushAll(s, xs)) == Bottom(s)
    decreases |xs|
  {
    if xs != [] {
      PushAllKeepsBottom(Push(s, xs[0]), xs[1..]);
    }
  }

  /**
   * After any number of pushes onto an empty stack, the bottom entry is the first one pushed
   * and the depth is the number of pushes.
   */
  lemma {:induction false} BottomIsFirstPushed<T>(xs: seq<T>)
    requires xs != []
    ensures |PushAll([], xs)| == |xs|
    ensures PushAll([], xs) != [] && Bottom(PushAll([], xs)) == xs[0]
  {
    assert Push([], xs[0]) == [xs[0]];
    PushAllKeepsBottom([xs[0]], xs[1..]);
  }
}
