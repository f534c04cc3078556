/**
  The day-22 Vuex store: a `numbers` list in the state, an `ADD_NUMBER`
  mutation that pushes its payload, an `addNumber` action that commits that
  mutation, and a `getNumbers` getter that reads the list.
 */
module VuexStore {

  /** The store's state object. */
  datatype State = State(numbers: seq<int>)

  /** The mutations the store registers, with their payloads. */
  datatype Mutation = AddNumberMutation(payload: int)

  /** The state the store is created with. */
  function Initial(): State {
    State([1, 2, 3])
  }

  /** `commit`: runs the named mutation on the state. `ADD_NUMBER` puts its
      payload after the existing numbers, which keep their positions and
      values. */
  function Commit(s: State, m: Mutation): (r: State)
    ensures |r.numbers| == |s.numbers| + 1
    ensures r.numbers[..|s.numbers|] == s.numbers
    ensures r.numbers[|s.numbers|] == m.payload
  {
    match m
    case AddNumberMutation(payload) => State(s.numbers + [payload])
  }

  /** The `addNumber` action, dispatched with `number`. */
  function AddNumber(s: State, number: int): (r: State)
    ensures r.numbers == s.numbers + [number]
  {
    Commit(s, AddNumberMutation(number))
  }

  /** The `getNumbers` getter: a read that hands back the state's numbers,
      element for element and in order, and produces no new state. */
  function GetNumbers(s: State): (r: seq<int>)
    ensures |r| == |s.numbers|
    ensures forall i | 0 <= i < |r| :: r[i] == s.numbers[i]
  {
    s.numbers
  }

  /** Dispatching `addNumber` has exactly the effect of committing
      `ADD_NUMBER` with the same number. */
  lemma AddNumberCommitsAddNumberMutation(s: State, number: int)
    ensures AddNumber(s, number) == Commit(s, AddNumberMutation(number))
    ensures GetNumbers(AddNumber(s, number)) == GetNumbers(s) + [number]
  {
  }

  /** `addNumber` dispatched once per number, in order. */
  function AddNumbers(s: State, numbers: seq<int>): State
    decreases |numbers|
  {
    if |numbers| == 0 then s else AddNumbers(AddNumber(s, numbers[0]), numbers[1..])
  }

  /** A run of `addNumber` dispatches appends the numbers in dispatch order,
      and the getter sees exactly that. */
  lemma {:induction false} AddNumbersAppendsInOrder(s: State, numbers: seq<int>)
    ensures GetNumbers(AddNumbers(s, numbers)) == GetNumbers(s) + numbers
    decreases |numbers|
  {
    if |numbers| > 0 {
      AddNumbersAppendsInOrder(AddNumber(s, numbers[0]), numbers[1..]);
      assert [numbers[0]] + numbers[1..] == numbers;
    }
  }

  /** From the initial state, the getter reads 1, 2, 3 followed by every
      dispatched number. */
  lemma FromInitial(numbers: seq<int>)
    ensures GetNumbers(Initial()) == [1, 2, 3]
    ensures GetNumbers(AddNumbers(Initial(), numbers)) == [1, 2, 3] + numbers
  {
    AddNumbersAppendsInOrder(Initial(), numbers);
  }
}
