/**
  The day-13 custom-events lesson: a root instance holding a list of tweet
  objects, and the `addTweetMessage` handler that runs when a child
  component emits `add` with one of those tweets. The handler reads the id
  of the last tweet in the list, makes a shallow copy of the emitted tweet,
  gives the copy that id plus one, and appends the copy.

  JavaScript objects live in a heap and the list holds references to them,
  so the model does the same: the point of the copy is that the emitted
  object, which is itself in the list, is not the object whose id is
  rewritten.
 */
module CustomEvents {

  /** A reference to a heap object. */
  type Ref = nat

  /** A tweet object, with the properties every tweet in the list has. */
  datatype Tweet = Tweet(id: int, name: string, handle: string, img: string, tweet: string, likes: int)

  /** The heap of tweet objects, the next unused reference, and the
      instance's `tweets` array as a list of references. */
  datatype App = App(heap: map<Ref, Tweet>, next: Ref, tweets: seq<Ref>)

  /** The error a JavaScript engine throws when reading a property of
      `undefined`. */
  datatype JsError = TypeError

  /** The outcome of a handler: the new state, or the error it throws. */
  datatype Result<T> = Ok(value: T) | Err(error: JsError)

  /** Every reference in use is below `next`, and every list entry refers to
      an object in the heap. */
  predicate Valid(a: App) {
    && (forall r | r in a.heap :: r < a.next)
    && (forall i | 0 <= i < |a.tweets| :: a.tweets[i] in a.heap)
  }

  /** The ids of the listed tweets, in list order. */
  function Ids(a: App): (ids: seq<int>)
    requires Valid(a)
    ensures |ids| == |a.tweets|
  {
    seq(|a.tweets|, i requires 0 <= i < |a.tweets| => a.heap[a.tweets[i]].id)
  }

  /** Ids strictly increase along the list. */
  predicate StrictlyIncreasing(ids: seq<int>) {
    forall i, j | 0 <= i < j < |ids| :: ids[i] < ids[j]
  }

  /** Two tweets agree on every property except possibly `id`. */
  predicate SameExceptId(x: Tweet, y: Tweet) {
    && x.name == y.name
    && x.handle == y.handle
    && x.img == y.img
    && x.tweet == y.tweet
    && x.likes == y.likes
  }

  /** The three tweets the instance is created with, ids 1, 2 and 3. */
  function Initial(): App {
    App(
      map[
        0 := Tweet(1, "James", "@jokerjames", "./images/james.png",
                   "If you don't succeed, dust yourself off and try again.", 10),
        1 := Tweet(2, "Fatima", "@fantasticfatima", "./images/fatima.png",
                   "Better late than never but never late is better.", 12),
        2 := Tweet(3, "Xin", "@xeroxin", "./images/xin.png",
                   "Beauty in the struggle, ugliness in the success.", 18)],
      3,
      [0, 1, 2])
  }

  /** The `addTweetMessage` handler, called with a reference to the emitted
      tweet. On an empty list, reading the last tweet's id throws and nothing
      is written. Otherwise a fresh object is allocated holding the emitted
      tweet's properties with the id replaced by the last id plus one, and
      its reference is appended; no object already in the heap changes, the
      emitted one included. */
  function AddTweetMessage(a: App, tweet: Ref): (r: Result<App>)
    requires Valid(a)
    requires tweet in a.heap
    ensures r.Err? <==> |a.tweets| == 0
    ensures r.Ok? ==> Valid(r.value)
    ensures r.Ok? ==> |r.value.tweets| == |a.tweets| + 1
    ensures r.Ok? ==> r.value.tweets[..|a.tweets|] == a.tweets
    ensures r.Ok? ==> r.value.tweets[|a.tweets|] !in a.heap
    ensures r.Ok? ==> r.value.tweets[|a.tweets|] == a.next && r.value.next == a.next + 1
    ensures r.Ok? ==> r.value.heap[r.value.tweets[|a.tweets|]].id == a.heap[a.tweets[|a.tweets| - 1]].id + 1
    ensures r.Ok? ==> SameExceptId(r.value.heap[r.value.tweets[|a.tweets|]], a.heap[tweet])
    ensures r.Ok? ==> forall o | o in a.heap :: o in r.value.heap && r.value.heap[o] == a.heap[o]
  {
    if |a.tweets| == 0 then
      Err(TypeError)
    else
      var lastTweetObjectId := a.heap[a.tweets[|a.tweets| - 1]].id;
      var newTweet := a.heap[tweet].(id := lastTweetObjectId + 1);
      Ok(App(a.heap[a.next := newTweet], a.next + 1, a.tweets + [a.next]))
  }

  /** The id list after a successful add is the old one with the new id at
      the end. */
  lemma AddTweetMessageIds(a: App, tweet: Ref)
    requires Valid(a)
    requires tweet in a.heap
    requires |a.tweets| > 0
    ensures Ids(AddTweetMessage(a, tweet).value) == Ids(a) + [Ids(a)[|a.tweets| - 1] + 1]
  {
    var b := AddTweetMessage(a, tweet).value;
    assert forall i | 0 <= i < |a.tweets| :: b.tweets[i] == a.tweets[i];
  }

  /** Strictly increasing ids stay strictly increasing, so a list whose ids
      are distinct keeps them distinct. */
  lemma AddTweetMessageKeepsIdsIncreasing(a: App, tweet: Ref)
    requires Valid(a)
    requires tweet in a.heap
    requires |a.tweets| > 0
    requires StrictlyIncreasing(Ids(a))
    ensures StrictlyIncreasing(Ids(AddTweetMessage(a, tweet).value))
  {
    AddTweetMessageIds(a, tweet);
  }

  /** On a list with strictly increasing ids the new id is larger than, and
      so different from, every id already listed. */
  lemma AddTweetMessageIdIsNew(a: App, tweet: Ref)
    requires Valid(a)
    requires tweet in a.heap
    requires |a.tweets| > 0
    requires StrictlyIncreasing(Ids(a))
    ensures forall i | 0 <= i < |a.tweets| :: Ids(a)[i] < Ids(AddTweetMessage(a, tweet).value)[|a.tweets|]
  {
    AddTweetMessageIds(a, tweet);
  }

  /** Strictly increasing ids are pairwise distinct. */
  lemma IncreasingIdsAreUnique(ids: seq<int>)
    requires StrictlyIncreasing(ids)
    ensures forall i, j | 0 <= i < |ids| && 0 <= j < |ids| && i != j :: ids[i] != ids[j]
  {
  }

  /** The initial data is well formed with ids 1, 2, 3, and re-adding the
      first tweet appends a copy of James's tweet with id 4 while the
      original keeps id 1. */
  lemma InitialExample()
    ensures Valid(Initial())
    ensures Ids(Initial()) == [1, 2, 3]
    ensures StrictlyIncreasing(Ids(Initial()))
    ensures Ids(AddTweetMessage(Initial(), 0).value) == [1, 2, 3, 4]
    ensures AddTweetMessage(Initial(), 0).value.heap[0] == Initial().heap[0]
  {
    AddTweetMessageIds(Initial(), 0);
  }

  /** The tweets a run of `add` events can emit: event `k` emits a tweet
      that was in the heap when the run started, or one of the copies that
      the `k` events before it appended, each of which is listed and so has
      its own add button. */
  predicate Emittable(a: App, args: seq<Ref>) {
    forall k | 0 <= k < |args| :: args[k] in a.heap || a.next <= args[k] < a.next + k
  }

  /** After one successful add, the rest of the run is still emittable. */
  lemma EmittableAfterAdd(a: App, args: seq<Ref>)
    requires Valid(a)
    requires |args| > 0 && Emittable(a, args)
    requires AddTweetMessage(a, args[0]).Ok?
    ensures Emittable(AddTweetMessage(a, args[0]).value, args[1..])
  {
    var b := AddTweetMessage(a, args[0]).value;
    forall k | 0 <= k < |args| - 1
      ensures args[1..][k] in b.heap || b.next <= args[1..][k] < b.next + k
    {
      assert args[1..][k] == args[k + 1];
      assert a.next in b.heap;
    }
  }

  /** Several `add` events handled one after another; the first error stops
      the run. */
  function AddTweetMessages(a: App, args: seq<Ref>): Result<App>
    requires Valid(a)
    requires Emittable(a, args)
    decreases |args|
  {
    if |args| == 0 then Ok(a)
    else
      match AddTweetMessage(a, args[0])
      case Err(e) => Err(e)
      case Ok(b) =>
        EmittableAfterAdd(a, args);
        AddTweetMessages(b, args[1..])
  }

  /** The ids `from + 1`, ..., `from + n`. */
  function Consecutive(from: int, n: nat): (ids: seq<int>)
    ensures |ids| == n
    ensures forall i | 0 <= i < n :: ids[i] == from + 1 + i
  {
    if n == 0 then [] else Consecutive(from, n - 1) + [from + n]
  }

  /** On a non-empty list, `n` adds append the ids following the last one,
      in event order, and keep strictly increasing ids strictly
      increasing. */
  lemma {:induction false} AddTweetMessagesIds(a: App, args: seq<Ref>)
    requires Valid(a)
    requires Emittable(a, args)
    requires |a.tweets| > 0
    ensures AddTweetMessages(a, args).Ok?
    ensures Valid(AddTweetMessages(a, args).value)
    ensures Ids(AddTweetMessages(a, args).value) == Ids(a) + Consecutive(Ids(a)[|a.tweets| - 1], |args|)
    ensures StrictlyIncreasing(Ids(a)) ==> StrictlyIncreasing(Ids(AddTweetMessages(a, args).value))
    decreases |args|
  {
    if |args| > 0 {
      assert args[0] in a.heap;
      var b := AddTweetMessage(a, args[0]).value;
      var last := Ids(a)[|a.tweets| - 1];
      AddTweetMessageIds(a, args[0]);
      if StrictlyIncreasing(Ids(a)) {
        AddTweetMessageKeepsIdsIncreasing(a, args[0]);
      }
      EmittableAfterAdd(a, args);
      AddTweetMessagesIds(b, args[1..]);
      assert Ids(b)[|b.tweets| - 1] == last + 1;
      var tail := Consecutive(last + 1, |args| - 1);
      assert [last + 1] + tail == Consecutive(last, |args|);
    }
  }

  /** Re-adding James's tweet and then the copy that the first add made
      appends ids 4 and 5. */
  lemma AddCopyOfCopyExample()
    ensures Emittable(Initial(), [0, 3])
    ensures Ids(AddTweetMessages(Initial(), [0, 3]).value) == [1, 2, 3, 4, 5]
  {
    AddTweetMessagesIds(Initial(), [0, 3]);
    assert Ids(Initial()) == [1, 2, 3];
    assert Consecutive(3, 2) == [4, 5];
  }
}
