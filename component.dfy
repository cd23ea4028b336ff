/** Two-terminal circuit elements. The source's class hierarchy (a base
    Component with the subclasses Wire, Resistor and Battery) is one class
    here, tagged with its variant; the battery's own state (voltage and
    positive end) lives in fields that only batteries use. */
module Components {
  import opened Terminals

  datatype Kind = Wire | Resistor | Battery

  class Component {
    const kind: Kind
    // The terminals at either end; both null until the component is placed.
    var endPt1: Terminal?<Component>
    var endPt2: Terminal?<Component>
    // The end the current leaves through, once a solve has chosen one.
    var currentDirection: Terminal?<Component>
    var resistance: real
    var current: real
    // The branch a solve assigned, -1 before that.
    var branch: int
    // Battery only: the positive terminal and the (positive) voltage.
    var positiveEnd: Terminal?<Component>
    var voltage: real

    /** The state every new component starts in, whatever its variant. */
    ghost predicate HasDefaults()
      reads this
    {
      endPt1 == null && endPt2 == null && currentDirection == null &&
      current == 0.0 && branch == -1 && positiveEnd == null
    }

    constructor Wire()
      ensures kind == Kind.Wire && HasDefaults()
      ensures resistance == 0.0 && voltage == 0.0
    {
      kind := Kind.Wire;
      endPt1, endPt2, currentDirection := null, null, null;
      resistance, current, branch := 0.0, 0.0, -1;
      positiveEnd, voltage := null, 0.0;
    }

    /** A resistor of `resist` ohms. */
    constructor Resistor(resist: real)
      ensures kind == Kind.Resistor && HasDefaults()
      ensures resistance == resist && voltage == 0.0
    {
      kind := Kind.Resistor;
      endPt1, endPt2, currentDirection := null, null, null;
      resistance, current, branch := resist, 0.0, -1;
      positiveEnd, voltage := null, 0.0;
    }

    /** A battery of `volts` volts with no internal resistance and no positive end yet. */
    constructor Battery(volts: real)
      ensures kind == Kind.Battery && HasDefaults()
      ensures resistance == 0.0 && voltage == volts
    {
      kind := Kind.Battery;
      endPt1, endPt2, currentDirection := null, null, null;
      resistance, current, branch := 0.0, 0.0, -1;
      positiveEnd, voltage := null, volts;
    }

    method SetEndPt1(terminal: Terminal?<Component>)
      modifies this`endPt1
      ensures endPt1 == terminal
    {
      endPt1 := terminal;
    }

    method SetEndPt2(terminal: Terminal?<Component>)
      modifies this`endPt2
      ensures endPt2 == terminal
    {
      endPt2 := terminal;
    }

    method SetResistance(r: real)
      modifies this`resistance
      ensures resistance == r
    {
      resistance := r;
    }

    method SetCurrent(i: real)
      modifies this`current
      ensures current == i
    {
      current := i;
    }

    method SetBranch(b: int)
      modifies this`branch
      ensures branch == b
    {
      branch := b;
    }

    method SetCurrentDirection(endPt: Terminal?<Component>)
      modifies this`currentDirection
      ensures currentDirection == endPt
    {
      currentDirection := endPt;
    }

    method SetPosEnd(posTerminal: Terminal?<Component>)
      requires kind.Battery?
      modifies this`positiveEnd
      ensures positiveEnd == posTerminal
    {
      positiveEnd := posTerminal;
    }

    method SetVoltage(v: real)
      requires kind.Battery?
      modifies this`voltage
      ensures voltage == v
    {
      voltage := v;
    }

    /** Both ends are set. */
    predicate Placed()
      reads this
    {
      endPt1 != null && endPt2 != null
    }

    /** The terminals of `other` are those of this component, in either order
        (positions compared with `Terminal.Equals`). */
    predicate SameEnds(other: Component)
      reads this, other
      requires Placed()
    {
      (endPt1.Equals(other.endPt1) && endPt2.Equals(other.endPt2)) ||
      (endPt1.Equals(other.endPt2) && endPt2.Equals(other.endPt1))
    }

    /** The inputs on which `equals` never dereferences a null terminal: the
        second end is looked at only once the first end matched one of
        `other`'s ends, and the positive end only once two batteries of equal
        voltage were found on the same terminals. */
    predicate CanCompare(other: Component)
      reads this, other
    {
      endPt1 != null && other.endPt1 != null ==>
        ((endPt1.Equals(other.endPt1) || endPt1.Equals(other.endPt2)) ==> endPt2 != null) &&
        ((endPt2 != null && SameEnds(other) && kind.Battery? && other.kind.Battery? &&
          voltage == other.voltage) ==> positiveEnd != null)
    }

    /** Structural equality: same terminals in either order, same variant, and
        the same resistance (resistors) or the same voltage and positive end
        (batteries). */
    function Equals(other: Component): (r: bool)
      reads this, other
      requires CanCompare(other)
      ensures r ==> endPt1 != null && other.endPt1 != null
      ensures r ==> Placed() && SameEnds(other) && kind == other.kind
      ensures r && kind.Resistor? ==> resistance == other.resistance
      ensures r && kind.Battery? ==>
        voltage == other.voltage && positiveEnd != null && positiveEnd.Equals(other.positiveEnd)
    {
      if endPt1 == null || other.endPt1 == null then false
      else if (endPt1.Equals(other.endPt1) && endPt2.Equals(other.endPt2)) ||
              (endPt1.Equals(other.endPt2) && endPt2.Equals(other.endPt1)) then
        (kind.Wire? && other.kind.Wire?) ||
        (kind.Resistor? && other.kind.Resistor? && resistance == other.resistance) ||
        (kind.Battery? && other.kind.Battery? && voltage == other.voltage &&
         positiveEnd.Equals(other.positiveEnd))
      else false
    }
  }

  /** Placed components (and batteries with a positive end) can always be compared. */
  predicate Comparable(a: Component)
    reads a
  {
    a.Placed() && (a.kind.Battery? ==> a.positiveEnd != null)
  }

  /** Two wires on the same terminals are equal. */
  lemma WiresEqual(a: Component, b: Component)
    requires a.kind.Wire? && b.kind.Wire?
    requires a.Placed() && b.endPt1 != null && a.SameEnds(b)
    ensures a.Equals(b)
  {
  }

  /** Two resistors on the same terminals are equal exactly when their resistances are. */
  lemma ResistorsEqual(a: Component, b: Component)
    requires a.kind.Resistor? && b.kind.Resistor?
    requires a.Placed() && b.endPt1 != null && a.SameEnds(b)
    ensures a.Equals(b) <==> a.resistance == b.resistance
  {
  }

  /** Two batteries on the same terminals are equal exactly when their
      voltages are and their positive ends sit at the same position, so
      changing either one changes the outcome. */
  lemma BatteriesEqual(a: Component, b: Component)
    requires a.kind.Battery? && b.kind.Battery?
    requires Comparable(a) && b.endPt1 != null && a.SameEnds(b)
    ensures a.Equals(b) <==>
      a.voltage == b.voltage && a.positiveEnd.Equals(b.positiveEnd)
  {
  }

  /** Components of different variants are never equal. */
  lemma VariantsDiffer(a: Component, b: Component)
    requires a.kind != b.kind && a.CanCompare(b)
    ensures !a.Equals(b)
  {
  }

  /** Equality is symmetric between comparable components. */
  lemma EqualsSymmetric(a: Component, b: Component)
    requires Comparable(a) && Comparable(b)
    ensures a.Equals(b) <==> b.Equals(a)
  {
  }

  /** Equality does not see the order of the ends: `b2` is `b` with its ends swapped. */
  lemma EqualsIgnoresEndOrder(a: Component, b: Component, b2: Component)
    requires Comparable(a)
    requires b2.endPt1 == b.endPt2 && b2.endPt2 == b.endPt1 && b.Placed()
    requires b2.kind == b.kind && b2.resistance == b.resistance
    requires b2.voltage == b.voltage && b2.positiveEnd == b.positiveEnd
    ensures a.Equals(b) <==> a.Equals(b2)
  {
  }
}
