/**
  The day-02 data-change lesson: a root instance holding a greeting, a user
  and a city, with one handler, `changeGreeting`, that toggles the greeting.
 */
module SimpleDataChange {
  import GreetingToggle

  /** The instance's `data` object. */
  datatype State = State(greeting: string, user: string, city: string)

  /** The data the instance is created with. */
  function Initial(): State {
    State(GreetingToggle.HelloWorld, "Hassan Djirdeh", "Toronto")
  }

  /** The `changeGreeting` handler: toggles the greeting and writes no other
      field. */
  function ChangeGreeting(s: State): (r: State)
    ensures r.greeting == GreetingToggle.WhatIsUp <==> s.greeting == GreetingToggle.HelloWorld
    ensures GreetingToggle.IsToggleGreeting(r.greeting)
    ensures r.user == s.user && r.city == s.city
  {
    s.(greeting := GreetingToggle.Toggle(s.greeting))
  }

  /** Two clicks from the initial data restore the initial data. */
  lemma ChangeGreetingTwiceFromInitial()
    ensures ChangeGreeting(Initial()).greeting == GreetingToggle.WhatIsUp
    ensures ChangeGreeting(ChangeGreeting(Initial())) == Initial()
  {
    GreetingToggle.ToggleTwiceFromInitial();
  }

  /** Two clicks are the identity exactly on states whose greeting is one of
      the two toggle greetings. */
  lemma ChangeGreetingTwiceIdentityIff(s: State)
    ensures ChangeGreeting(ChangeGreeting(s)) == s <==> GreetingToggle.IsToggleGreeting(s.greeting)
  {
    GreetingToggle.ToggleTwiceIdentityIff(s.greeting);
  }
}
