/**
  The greeting toggle shared by the `changeGreeting` handlers of the day-02
  data-change lesson and the day-04 `v-on` lesson. Both handlers replace the
  greeting with 'What is up!' when it is exactly 'Hello World!' (compared
  with `===`) and with 'Hello World!' otherwise; the two copies are written
  identically in the lessons, so the rule is defined once here.
 */
module GreetingToggle {

  /** The greeting both lessons start with. */
  const HelloWorld: string := "Hello World!"

  /** The greeting the toggle switches to from `HelloWorld`. */
  const WhatIsUp: string := "What is up!"

  /** The two greetings a toggled field can hold. */
  predicate IsToggleGreeting(g: string) {
    g == HelloWorld || g == WhatIsUp
  }

  /** The conditional expression of `changeGreeting`. */
  function Toggle(g: string): (r: string)
    ensures IsToggleGreeting(r)
    ensures r == WhatIsUp <==> g == HelloWorld
  {
    if g == HelloWorld then WhatIsUp else HelloWorld
  }

  /** Toggling twice restores exactly the greetings the toggle itself can
      produce, and nothing else: any other text is lost on the first toggle. */
  lemma ToggleTwiceIdentityIff(g: string)
    ensures Toggle(Toggle(g)) == g <==> IsToggleGreeting(g)
  {
    if IsToggleGreeting(g) {
      assert HelloWorld != WhatIsUp;
    }
  }

  /** From the initial greeting, two toggles come back to it, passing
      through 'What is up!'. */
  lemma ToggleTwiceFromInitial()
    ensures Toggle(HelloWorld) == WhatIsUp
    ensures Toggle(Toggle(HelloWorld)) == HelloWorld
  {
  }

  /** The greeting after `n` consecutive toggles starting from `g`. */
  function ToggleTimes(g: string, n: nat): string
  {
    if n == 0 then g else Toggle(ToggleTimes(g, n - 1))
  }

  /** Starting from the initial greeting, the greeting is 'What is up!'
      exactly after an odd number of toggles. */
  lemma {:induction false} ToggleTimesFromInitial(n: nat)
    ensures ToggleTimes(HelloWorld, n) == (if n % 2 == 0 then HelloWorld else WhatIsUp)
  {
    if n > 0 {
      ToggleTimesFromInitial(n - 1);
      assert HelloWorld != WhatIsUp;
    }
  }
}
