/** A grid point of the circuit. A terminal knows its row and column, its
    potential, and the ordered list of components attached to it. The class is
    generic in the type of what it connects to, because a terminal only ever
    compares its connections by identity and never looks inside them. */
module Terminals {
  import Seqs

  /** JavaScript's `Number.MAX_VALUE`, (2 - 2^-52) * 2^1023, which a terminal
      carries as its potential until a solve assigns one. */
  const Unassigned: real := 179769313486231570814527423731704356798070567525844996598917476803157260780028538760589558632766878171540458953514382464234321326889464182768467546703537516986049910576551282076245490090389328944075868508455133942304583236903222948165808559332123348274797826204144723168738177180919299881250404026184124858368.0

  class Terminal<C(==)> {
    // The position is fixed at construction.
    const row: int
    const col: int
    // Components attached here, in the order they were connected.
    var connections: seq<C>
    var potential: real

    constructor (r: int, c: int)
      ensures row == r && col == c
      ensures connections == [] && potential == Unassigned
    {
      row, col := r, c;
      connections := [];
      potential := Unassigned;
    }

    /** Whether `c` itself (not merely an equal component) is attached here. */
    method ConnectedTo(c: C) returns (b: bool)
      ensures b <==> c in connections
    {
      var i := 0;
      while i < |connections|
        invariant 0 <= i <= |connections|
        invariant c !in connections[..i]
      {
        if connections[i] == c {
          return true;
        }
        i := i + 1;
      }
      return false;
    }

    function NumConnections(): nat
      reads this
    {
      |connections|
    }

    function GetConnection(i: nat): C
      reads this
      requires i < |connections|
    {
      connections[i]
    }

    /** Appends `c`: the list grows by one and every earlier entry stays where it was. */
    method Connect(c: C)
      modifies this`connections
      ensures connections == old(connections) + [c]
    {
      connections := connections + [c];
    }

    /** Splices out the first occurrence of `c`; nothing happens when `c` is absent. */
    method Disconnect(c: C)
      modifies this`connections
      ensures connections == Seqs.RemoveFirst(old(connections), c)
      ensures multiset(connections) == multiset(old(connections)) - multiset{c}
    {
      Seqs.RemoveFirstCount(connections, c);
      var index := Seqs.IndexOf(connections, c);
      if index > -1 {
        connections := connections[..index] + connections[index + 1..];
      }
    }

    method SetPotential(p: real)
      modifies this`potential
      ensures potential == p
    {
      potential := p;
    }

    /** Terminals are equal when they sit at the same grid position, whatever
        circuit they belong to; nothing equals null. */
    function Equals(other: Terminal?<C>): (r: bool)
      ensures r ==> other != null
    {
      other != null && row == other.row && col == other.col
    }
  }

  /** Connecting a component that is not attached yet and then disconnecting
      it gives back the connection list. */
  method ConnectThenDisconnect<C>(t: Terminal<C>, c: C)
    requires c !in t.connections
    modifies t`connections
    ensures t.connections == old(t.connections)
  {
    t.Connect(c);
    t.Disconnect(c);
    Seqs.RemoveFirstAppend(old(t.connections), c);
  }

  /** `Equals` is an equivalence relation on terminals. */
  lemma EqualsIsEquivalence<C>(a: Terminal<C>, b: Terminal<C>, c: Terminal<C>)
    ensures a.Equals(a)
    ensures a.Equals(b) <==> b.Equals(a)
    ensures a.Equals(b) && b.Equals(c) ==> a.Equals(c)
  {
  }
}
