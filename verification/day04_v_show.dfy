/**
  The day-04 `v-show` lesson: a root instance holding a greeting, a user, a
  city and the URL of a picture of that city, with a handler, `changeCity`,
  that switches between Toronto and Lagos and updates the picture with it.
 */
module VShowExample {

  const Toronto: string := "Toronto"
  const Lagos: string := "Lagos"

  /** The picture shown for Toronto. */
  const TorontoImage: string := "https://bit.ly/2SKJPqJ"

  /** The picture shown for Lagos. */
  const LagosImage: string := "https://bit.ly/2Rd4gQ3"

  /** The instance's `data` object. */
  datatype State = State(greeting: string, user: string, city: string, cityImage: string)

  /** The data the instance is created with. */
  function Initial(): State {
    State("Hello World!", "Hassan Djirdeh", Toronto, TorontoImage)
  }

  /** The city and its picture agree: the state shows one of the two cities
      together with that city's picture. */
  predicate CityMatchesImage(s: State) {
    || (s.city == Toronto && s.cityImage == TorontoImage)
    || (s.city == Lagos && s.cityImage == LagosImage)
  }

  /** The `changeCity` handler. Whatever the state before, the state after
      shows a city with its own picture; the city becomes Lagos exactly when
      it was Toronto; greeting and user are not written. */
  function ChangeCity(s: State): (r: State)
    ensures CityMatchesImage(r)
    ensures r.city == Lagos <==> s.city == Toronto
    ensures r.greeting == s.greeting && r.user == s.user
  {
    if s.city == Toronto then
      s.(city := Lagos, cityImage := LagosImage)
    else
      s.(city := Toronto, cityImage := TorontoImage)
  }

  /** The city/picture pairing holds from the start and every click keeps
      it. */
  lemma CityMatchesImageInvariant(s: State)
    ensures CityMatchesImage(Initial())
    ensures CityMatchesImage(s) ==> CityMatchesImage(ChangeCity(s))
  {
  }

  /** Two clicks restore the state exactly when the city and picture were
      paired: an unpaired state is repaired by the first click and never
      comes back. */
  lemma ChangeCityTwiceIdentityIff(s: State)
    ensures ChangeCity(ChangeCity(s)) == s <==> CityMatchesImage(s)
  {
    assert Toronto != Lagos;
  }

  /** From the initial data, one click shows Lagos and two clicks restore the
      initial data. */
  lemma ChangeCityFromInitial()
    ensures ChangeCity(Initial()).city == Lagos
    ensures ChangeCity(Initial()).cityImage == LagosImage
    ensures ChangeCity(ChangeCity(Initial())) == Initial()
  {
  }
}
