/**
  The day-14 component-data lesson: three counter components whose `data`
  is a function returning a fresh `{ counter: 0 }` object for every instance,
  mounted under a root instance holding a `message`. Each button's click
  handler is `counter++` on the instance it belongs to; `counterTwo` has two
  buttons bound to the same expression.

  The page markup that places the components is not part of this model, so
  the root holds any list of mounted instances.
 */
module ComponentsData {

  /** The three component definitions. */
  datatype Component = CounterOne | CounterTwo | CounterThree

  /** How many `counter++` buttons a component's template writes. */
  function ButtonCount(c: Component): nat {
    match c
    case CounterTwo => 2
    case _ => 1
  }

  /** A mounted instance: its definition and its own `counter`. */
  datatype Instance = Instance(component: Component, counter: nat)

  /** The root instance's `message` and the mounted counter instances. */
  datatype Root = Root(message: string, instances: seq<Instance>)

  /** A click on button `button` of the instance at position `instance`. */
  datatype Click = Click(instance: nat, button: nat)

  /** The root's initial `message`. */
  const Greetings: string := "Greetings!"

  /** Mounting the given components under the root: `data()` runs once per
      instance and each instance starts from its own zero counter. */
  function Mount(components: seq<Component>): (r: Root)
    ensures r.message == Greetings
    ensures |r.instances| == |components|
    ensures forall i | 0 <= i < |components| :: r.instances[i].component == components[i]
    ensures forall i | 0 <= i < |components| :: r.instances[i].counter == 0
  {
    Root(Greetings, seq(|components|, i requires 0 <= i < |components| => Instance(components[i], 0)))
  }

  /** The click hits one of the buttons the instance's template writes. */
  predicate ValidClick(r: Root, c: Click) {
    c.instance < |r.instances| && c.button < ButtonCount(r.instances[c.instance].component)
  }

  /** The `counter++` handler of the clicked button: the clicked instance's
      counter goes up by one; the other instances, the definitions and the
      root `message` do not change. */
  function OnClick(r: Root, c: Click): (r': Root)
    requires ValidClick(r, c)
    ensures r'.message == r.message
    ensures |r'.instances| == |r.instances|
    ensures r'.instances[c.instance].counter == r.instances[c.instance].counter + 1
    ensures forall i | 0 <= i < |r.instances| :: r'.instances[i].component == r.instances[i].component
    ensures forall i | 0 <= i < |r.instances| && i != c.instance :: r'.instances[i] == r.instances[i]
  {
    var inst := r.instances[c.instance];
    r.(instances := r.instances[c.instance := inst.(counter := inst.counter + 1)])
  }

  /** Every click of the list hits a rendered button. */
  predicate ValidClicks(r: Root, cs: seq<Click>) {
    forall k | 0 <= k < |cs| :: ValidClick(r, cs[k])
  }

  /** Clicks handled one after another; no instance is mounted or removed
      on the way. */
  function OnClicks(r: Root, cs: seq<Click>): (r': Root)
    requires ValidClicks(r, cs)
    ensures |r'.instances| == |r.instances|
    decreases |cs|
  {
    if |cs| == 0 then r else OnClicks(OnClick(r, cs[0]), cs[1..])
  }

  /** How many of the clicks hit the instance at position `i`, on any of its
      buttons. */
  function ClicksOn(cs: seq<Click>, i: nat): nat {
    if |cs| == 0 then 0
    else (if cs[0].instance == i then 1 else 0) + ClicksOn(cs[1..], i)
  }

  /** Each instance's counter grows by exactly the number of clicks on it;
      clicks elsewhere and the root `message` are untouched. */
  lemma {:induction false} OnClicksCounts(r: Root, cs: seq<Click>)
    requires ValidClicks(r, cs)
    ensures OnClicks(r, cs).message == r.message
    ensures |OnClicks(r, cs).instances| == |r.instances|
    ensures forall i | 0 <= i < |r.instances| ::
      && OnClicks(r, cs).instances[i].component == r.instances[i].component
      && OnClicks(r, cs).instances[i].counter == r.instances[i].counter + ClicksOn(cs, i)
    decreases |cs|
  {
    if |cs| > 0 {
      var r1 := OnClick(r, cs[0]);
      assert ValidClicks(r1, cs[1..]) by {
        forall k | 0 <= k < |cs| - 1
          ensures ValidClick(r1, cs[1..][k])
        {
          assert ValidClick(r, cs[k + 1]);
        }
      }
      OnClicksCounts(r1, cs[1..]);
    }
  }

  /** From mounting, after a list of clicks each counter shows exactly how
      many of them hit its instance. */
  lemma CountersFromMount(components: seq<Component>, cs: seq<Click>)
    requires ValidClicks(Mount(components), cs)
    ensures OnClicks(Mount(components), cs).message == Greetings
    ensures forall i | 0 <= i < |components| :: OnClicks(Mount(components), cs).instances[i].counter == ClicksOn(cs, i)
  {
    OnClicksCounts(Mount(components), cs);
  }

  /** Both buttons of a `counterTwo` instance have the same effect. */
  lemma CounterTwoButtonsAgree(r: Root, i: nat)
    requires i < |r.instances| && r.instances[i].component == CounterTwo
    ensures OnClick(r, Click(i, 0)) == OnClick(r, Click(i, 1))
  {
  }
}
