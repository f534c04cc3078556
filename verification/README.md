# 30 Days of Vue — lesson handlers as state transitions

The course is a set of small lesson snippets. Most of them are templates and
framework wiring; a handful of event handlers, a computed property and a Vuex
store hold plain logic. This project models each of those as a pure function
from the lesson's `data` (or store state) to the new data or to a derived
value, and proves what the lessons promise about them.

- `greeting_toggle.dfy` (`GreetingToggle`): the `changeGreeting` toggle that
  the day-02 and day-04 lessons write identically, defined once.
- `day02_simple_data_change.dfy` (`SimpleDataChange`): greeting, user and city,
  with `changeGreeting`.
- `day04_v_on.dfy` (`VOnExample`): greeting and alert message, with
  `changeGreeting`, `alertMessageGreeting` and `alertEnterGreeting`.
- `day04_v_show.dfy` (`VShowExample`): `changeCity`, which switches between
  Toronto and Lagos and keeps the city picture paired with the city.
- `day08_computed.dfy` (`ComputedExample`): the computed `reverseMessage`,
  written as the lesson writes it — `split('')`, `reverse()`, `join('')` — over
  a message held as UTF-16 code units, because JavaScript strings are code
  unit sequences and `split('')` splits between code units.
- `day13_custom_events.dfy` (`CustomEvents`): `addTweetMessage`. JavaScript
  objects are shared by reference, and the emitted tweet is itself an element
  of the list, so the model keeps a heap of tweet objects and a list of
  references. That is what makes the shallow copy visible: the emitted object
  keeps its id and a fresh object gets the new one. Reading the last id of an
  empty list throws a `TypeError`; the model returns that error and writes
  nothing. The handler is only ever called with a tweet from the list, so the
  model asks for a reference to an object in the heap.
- `day14_components_data.dfy` (`ComponentsData`): counter components whose
  `data()` returns a fresh zero counter per instance, and `counter++` clicks.
  The page markup that mounts them is not part of this model, so the root
  holds any list of mounted instances.
- `day22_vuex_store.dfy` (`VuexStore`): the `numbers` state, the `ADD_NUMBER`
  mutation, the `addNumber` action and the `getNumbers` getter.

Every handler is a pure function of the state it reads. A computed value or
getter is a function of the state that returns a value and no new state, so it
changes nothing.

## Model

| member | source | states |
|---|---|---|
| GreetingToggle.Toggle | day-04/src/v-on-example/main.js:9-11 | the new greeting is always 'Hello World!' or 'What is up!', and it is 'What is up!' exactly when the old greeting was 'Hello World!' |
| GreetingToggle.ToggleTwiceIdentityIff | day-02/src/simple-data-change-example/main.js:10-12 | toggling twice gives back the greeting if and only if that greeting is one of the two toggle greetings |
| GreetingToggle.ToggleTwiceFromInitial | day-02/src/simple-data-change-example/main.js:4-13 | from 'Hello World!', one toggle gives 'What is up!' and two give 'Hello World!' again |
| GreetingToggle.ToggleTimesFromInitial | day-04/src/v-on-example/main.js:4-11 | from the initial greeting, n toggles give 'Hello World!' for even n and 'What is up!' for odd n |
| SimpleDataChange.ChangeGreeting | day-02/src/simple-data-change-example/main.js:9-13 | the greeting becomes 'What is up!' exactly when it was 'Hello World!', is always one of the two strings afterwards, and user and city are unchanged |
| SimpleDataChange.ChangeGreetingTwiceFromInitial | day-02/src/simple-data-change-example/main.js:3-13 | one click from the initial data shows 'What is up!'; two clicks restore the initial data |
| SimpleDataChange.ChangeGreetingTwiceIdentityIff | day-02/src/simple-data-change-example/main.js:9-13 | two clicks restore a state if and only if its greeting is one of the two toggle greetings |
| VOnExample.ChangeGreeting | day-04/src/v-on-example/main.js:8-12 | the greeting becomes 'What is up!' exactly when it was 'Hello World!', is always one of the two strings afterwards, and the alert message is unchanged |
| VOnExample.AlertMessageGreeting | day-04/src/v-on-example/main.js:13-15 | the alert becomes 'You typed something!' and the greeting is unchanged |
| VOnExample.AlertEnterGreeting | day-04/src/v-on-example/main.js:16-18 | the alert becomes 'You typed something and pressed Enter!' and the greeting is unchanged |
| VOnExample.ChangeGreetingTwiceFromInitial | day-04/src/v-on-example/main.js:3-12 | the alert starts empty; one click from the initial data shows 'What is up!' and two clicks restore the initial data |
| VOnExample.ChangeGreetingTwiceIdentityIff | day-04/src/v-on-example/main.js:8-12 | two clicks restore a state if and only if its greeting is one of the two toggle greetings |
| VOnExample.AlertHandlersIdempotent | day-04/src/v-on-example/main.js:13-18 | running either alert handler twice is the same as running it once |
| VOnExample.AlertLastWriteWins | day-04/src/v-on-example/main.js:13-18 | after two alert handlers the state is what the second alone produces |
| VOnExample.AlertCommutesWithChangeGreeting | day-04/src/v-on-example/main.js:8-18 | a greeting click and a key-press handler give the same state in either order |
| VShowExample.ChangeCity | day-04/src/v-show-example/main.js:10-18 | from any state the result shows Toronto with its picture or Lagos with its picture, the city is Lagos exactly when it was Toronto, and greeting and user are unchanged |
| VShowExample.CityMatchesImageInvariant | day-04/src/v-show-example/main.js:3-18 | the city/picture pairing holds initially and every click preserves it |
| VShowExample.ChangeCityTwiceIdentityIff | day-04/src/v-show-example/main.js:10-18 | two clicks restore a state if and only if its city and picture are paired |
| VShowExample.ChangeCityFromInitial | day-04/src/v-show-example/main.js:3-18 | one click from the initial data shows Lagos with https://bit.ly/2Rd4gQ3; two clicks restore the initial data |
| ComputedExample.Join | day-08/src/computed-example/main.js:8 | `join('')` yields as many code units as the parts hold together, and on single-unit parts puts the unit of part i at position i |
| ComputedExample.Split | day-08/src/computed-example/main.js:8 | `split('')` gives one single-unit string per code unit, in order |
| ComputedExample.Reverse | day-08/src/computed-example/main.js:8 | `reverse()` keeps the length and puts element length-1-i at position i |
| ComputedExample.JoinSplit | day-08/src/computed-example/main.js:8 | joining the pieces of a split gives back the string |
| ComputedExample.ReverseSplit | day-08/src/computed-example/main.js:8 | reversing the split pieces is the same as splitting the reversed string |
| ComputedExample.ReverseMessage | day-08/src/computed-example/main.js:7-9 | the computed value has the message's length and code unit i equals code unit length-1-i of the message |
| ComputedExample.ReverseMessageIsReverse | day-08/src/computed-example/main.js:7-9 | the split/reverse/join pipeline equals reversing the message as a whole |
| ComputedExample.ReverseMessageInvolution | day-08/src/computed-example/main.js:8 | reversing the computed value again gives back the message |
| ComputedExample.ReverseMessageOfBmp | day-08/src/computed-example/main.js:8 | on text without characters beyond U+FFFF, the value is the encoding of the text read backwards |
| ComputedExample.ReverseMessageExamples | day-08/src/computed-example/main.js:4-8 | the initial 'Greetings!' gives '!sgniteerG', and an empty message gives an empty string |
| ComputedExample.ReverseMessageSwapsSurrogates | day-08/src/computed-example/main.js:8 | a character beyond U+FFFF comes out as its two surrogates in swapped order |
| CustomEvents.AddTweetMessage | day-13/src/custom-events-example/main.js:90-102 | on an empty list it throws a TypeError and on a non-empty list it succeeds; on success the list grows by one, the old entries keep their positions, the new entry is a fresh object whose id is the last id plus one and whose other properties equal the emitted tweet's, and no existing object changes, the emitted one included; the new object takes the next unused reference |
| CustomEvents.AddTweetMessageIds | day-13/src/custom-events-example/main.js:92-101 | after a successful add, the id list is the old one with last id plus one appended |
| CustomEvents.AddTweetMessageKeepsIdsIncreasing | day-13/src/custom-events-example/main.js:92-101 | strictly increasing ids stay strictly increasing after an add |
| CustomEvents.AddTweetMessageIdIsNew | day-13/src/custom-events-example/main.js:92-99 | on a list with strictly increasing ids, the new id is larger than every listed id |
| CustomEvents.IncreasingIdsAreUnique | day-13/src/custom-events-example/main.js:3-19 | strictly increasing ids are pairwise distinct |
| CustomEvents.InitialExample | day-13/src/custom-events-example/main.js:1-26 | the initial list is well formed with ids 1, 2, 3; re-adding James's tweet appends id 4 and leaves the original with id 1 |
| CustomEvents.EmittableAfterAdd | day-13/src/custom-events-example/main.js:47-101 | after one add, every later event of the run still emits a tweet that exists: an original one or a copy appended earlier in the run |
| CustomEvents.AddTweetMessagesIds | day-13/src/custom-events-example/main.js:90-102 | on a non-empty list, n adds all succeed, append the n ids following the last one in event order, and keep strictly increasing ids strictly increasing; each event may emit an original tweet or a copy appended earlier in the same run |
| CustomEvents.AddCopyOfCopyExample | day-13/src/custom-events-example/main.js:1-102 | re-adding James's tweet and then that copy appends ids 4 and 5 |
| ComponentsData.Mount | day-14/src/components-data-example/main.js:1-53 | every mounted instance starts with its own counter at 0, and the root message is 'Greetings!' |
| ComponentsData.OnClick | day-14/src/components-data-example/main.js:1-41 | a click raises the clicked instance's counter by exactly one and changes no other instance, no definition and not the root message |
| ComponentsData.OnClicks | day-14/src/components-data-example/main.js:1-41 | clicks mount and remove no instance |
| ComponentsData.OnClicksCounts | day-14/src/components-data-example/main.js:1-53 | after a list of clicks, each counter has grown by exactly the number of clicks on its instance, and the root message is unchanged |
| ComponentsData.CountersFromMount | day-14/src/components-data-example/main.js:1-53 | from mounting, each counter equals the number of clicks on its instance |
| ComponentsData.CounterTwoButtonsAgree | day-14/src/components-data-example/main.js:14-22 | both `counter++` buttons written in counterTwo's template have the same effect |
| VuexStore.Commit | day-22/src/vuex-store-example/src/store.js:10-14 | `ADD_NUMBER` grows the list by one, keeps every existing number in place, and puts the payload last |
| VuexStore.GetNumbers | day-22/src/vuex-store-example/src/store.js:22-26 | the getter hands back the state's numbers element for element, in order, and produces no new state |
| VuexStore.AddNumber | day-22/src/vuex-store-example/src/store.js:16-20 | the action appends its number to the list |
| VuexStore.AddNumberCommitsAddNumberMutation | day-22/src/vuex-store-example/src/store.js:10-25 | the action has exactly the effect of committing `ADD_NUMBER` with its number, and the getter sees the number appended |
| VuexStore.AddNumbersAppendsInOrder | day-22/src/vuex-store-example/src/store.js:10-25 | a run of actions appends the numbers in dispatch order, as the getter reads it |
| VuexStore.FromInitial | day-22/src/vuex-store-example/src/store.js:6-25 | the getter first reads 1, 2, 3, and after a run of actions reads 1, 2, 3 followed by the dispatched numbers |

## Left out

- JavaScript numbers are IEEE doubles; tweet ids, likes, counters and store numbers are unbounded integers here, which compute exactly where JavaScript does not, so the model is not faithful at and above 2^53 (there `id + 1 == id` in JavaScript).
- CustomEvents.AddTweetMessageKeepsIdsIncreasing and CustomEvents.AddTweetMessageIdIsNew: proved for unbounded ids; with JavaScript doubles both would fail once the last id reaches 2^53, because the new id would equal it.
- ComponentsData.ButtonCount: counts both buttons written in counterTwo's template; Vue 2 renders only the first root element of a template, and CounterTwoButtonsAgree shows the second button would have the same effect anyway.
- CustomEvents.AddTweetMessage: the emitted tweet is modelled with the six properties every listed tweet has; `Object.assign` on an object with other properties, or on a non-object, is not modelled, because the handler only ever receives a listed tweet.
- VuexStore.Commit: only the store's one mutation is modelled; committing an unregistered mutation name is handled inside Vuex, which is not part of this model.
- Templates, rendering, the `$emit` re-emission between the tweet components (day-13 lines 47 and 69) and Vue's reactivity machinery (dependency tracking, change detection, watcher scheduling): framework code, not lesson logic.
- The day-09 computed and watcher lessons: their km/m conversions are floating-point arithmetic and their round trip depends on Vue's asynchronous watcher scheduler.
- The day-10 mounted lesson (network fetch, `Math.random`, console output) and the day-05 `shuffle` (a lodash call with random output): I/O and randomness.
- The day-11, day-12, day-15 and day-16 lessons: rendering only.
- The day-24 router: its matching rules live in vue-router, which is not part of this model.
- The day-27 and day-28 unit tests: they test an `App.vue` that is not part of this model.
- config.js: static course metadata with no logic.
