/** The fixed device table: four on/off appliances, their display ids and the
    phrases that name them, in the table's insertion order. Colours are
    presentation only and are not modelled. */
module Devices {

  datatype Device = Light | Fan | AC | Heater

  /** Iteration order of the device table, which is also the order in which the
      application registers its device cards. */
  const Registry: seq<Device> := [Light, Fan, AC, Heater]

  /** The table key, used as the card's display name. */
  function Id(d: Device): string
  {
    match d
    case Light => "Light"
    case Fan => "Fan"
    case AC => "AC"
    case Heater => "Heater"
  }

  /** Synonyms in the order the interpreter tries them. */
  function Synonyms(d: Device): seq<string>
  {
    match d
    case Light => ["light", "lamp"]
    case Fan => ["fan"]
    case AC => ["ac", "air conditioner", "air conditioning"]
    case Heater => ["heater", "heat"]
  }

  /** Position of a device in the registry. */
  function Index(d: Device): (n: nat)
    ensures n < |Registry| && Registry[n] == d
  {
    match d
    case Light => 0
    case Fan => 1
    case AC => 2
    case Heater => 3
  }

  /** Strictly increasing registry positions: registry order, no device twice. */
  predicate InRegistryOrder(ds: seq<Device>)
  {
    forall i, j :: 0 <= i < j < |ds| ==> Index(ds[i]) < Index(ds[j])
  }

  /** The registry lists every device once, in its own order, under distinct ids. */
  lemma RegistryIsComplete()
    ensures forall d: Device :: d in Registry
    ensures InRegistryOrder(Registry)
    ensures forall d, e :: Id(d) == Id(e) ==> d == e
  {
    forall d: Device ensures d in Registry {
      assert Registry[Index(d)] == d;
    }
    forall d, e | Id(d) == Id(e) ensures d == e {
      assert Id(d)[0] == Id(e)[0];
    }
  }

  /** A sequence in registry order is determined by which devices it holds. */
  lemma {:induction false} OrderedByMembers(xs: seq<Device>, ys: seq<Device>)
    requires InRegistryOrder(xs) && InRegistryOrder(ys)
    requires forall d :: d in xs <==> d in ys
    ensures xs == ys
    decreases |xs|
  {
    if xs != [] {
      assert xs[0] in ys;
      var j :| 0 <= j < |ys| && ys[j] == xs[0];
      assert ys[0] in xs;
      var i :| 0 <= i < |xs| && xs[i] == ys[0];
      assert Index(xs[0]) <= Index(xs[i]) == Index(ys[0]) <= Index(ys[j]) == Index(xs[0]);
      assert xs[0] == Registry[Index(xs[0])] == Registry[Index(ys[0])] == ys[0];
      forall d ensures d in xs[1..] <==> d in ys[1..] {
        if d in xs[1..] {
          var k :| 1 <= k < |xs| && xs[k] == d;
          assert d in xs && Index(xs[0]) < Index(d);
          var m :| 0 <= m < |ys| && ys[m] == d;
          assert m != 0 && ys[1..][m - 1] == d;
        }
        if d in ys[1..] {
          var k :| 1 <= k < |ys| && ys[k] == d;
          assert d in ys && Index(ys[0]) < Index(d);
          var m :| 0 <= m < |xs| && xs[m] == d;
          assert m != 0 && xs[1..][m - 1] == d;
        }
      }
      OrderedByMembers(xs[1..], ys[1..]);
      assert xs == [xs[0]] + xs[1..];
      assert ys == [ys[0]] + ys[1..];
    }
  }
}
