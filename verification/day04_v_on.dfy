/**
  The day-04 `v-on` lesson: a root instance holding a greeting and an alert
  message, with a click handler that toggles the greeting and two keyboard
  handlers that each write a fixed alert message.
 */
module VOnExample {
  import GreetingToggle

  /** The alert written by the handler bound to any key press. */
  const TypedSomething: string := "You typed something!"

  /** The alert written by the handler bound to the Enter key. */
  const PressedEnter: string := "You typed something and pressed Enter!"

  /** The instance's `data` object. */
  datatype State = State(greeting: string, alertMessage: string)

  /** The data the instance is created with: no alert yet. */
  function Initial(): State {
    State(GreetingToggle.HelloWorld, "")
  }

  /** The `changeGreeting` handler: toggles the greeting and leaves the alert
      alone. */
  function ChangeGreeting(s: State): (r: State)
    ensures r.greeting == GreetingToggle.WhatIsUp <==> s.greeting == GreetingToggle.HelloWorld
    ensures GreetingToggle.IsToggleGreeting(r.greeting)
    ensures r.alertMessage == s.alertMessage
  {
    s.(greeting := GreetingToggle.Toggle(s.greeting))
  }

  /** The `alertMessageGreeting` handler. */
  function AlertMessageGreeting(s: State): (r: State)
    ensures r.alertMessage == TypedSomething
    ensures r.greeting == s.greeting
  {
    s.(alertMessage := TypedSomething)
  }

  /** The `alertEnterGreeting` handler. */
  function AlertEnterGreeting(s: State): (r: State)
    ensures r.alertMessage == PressedEnter
    ensures r.greeting == s.greeting
  {
    s.(alertMessage := PressedEnter)
  }

  /** Two greeting clicks from the initial data restore it, and the alert is
      still empty. */
  lemma ChangeGreetingTwiceFromInitial()
    ensures Initial().alertMessage == ""
    ensures ChangeGreeting(Initial()).greeting == GreetingToggle.WhatIsUp
    ensures ChangeGreeting(ChangeGreeting(Initial())) == Initial()
  {
    GreetingToggle.ToggleTwiceFromInitial();
  }

  /** Two greeting clicks are the identity exactly on states whose greeting
      is one of the two toggle greetings. */
  lemma ChangeGreetingTwiceIdentityIff(s: State)
    ensures ChangeGreeting(ChangeGreeting(s)) == s <==> GreetingToggle.IsToggleGreeting(s.greeting)
  {
    GreetingToggle.ToggleTwiceIdentityIff(s.greeting);
  }

  /** Each alert handler is idempotent. */
  lemma AlertHandlersIdempotent(s: State)
    ensures AlertMessageGreeting(AlertMessageGreeting(s)) == AlertMessageGreeting(s)
    ensures AlertEnterGreeting(AlertEnterGreeting(s)) == AlertEnterGreeting(s)
  {
  }

  /** The alert handlers overwrite each other: after any two of them, the
      state is what the second alone would have produced. */
  lemma AlertLastWriteWins(s: State)
    ensures AlertEnterGreeting(AlertMessageGreeting(s)) == AlertEnterGreeting(s)
    ensures AlertMessageGreeting(AlertEnterGreeting(s)) == AlertMessageGreeting(s)
  {
  }

  /** Greeting clicks and key presses touch disjoint fields, so their order
      does not matter. */
  lemma AlertCommutesWithChangeGreeting(s: State)
    ensures ChangeGreeting(AlertMessageGreeting(s)) == AlertMessageGreeting(ChangeGreeting(s))
    ensures ChangeGreeting(AlertEnterGreeting(s)) == AlertEnterGreeting(ChangeGreeting(s))
  {
  }
}
