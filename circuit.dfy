/** The circuit graph container: a fixed grid of terminals and the list of
    components placed between them, kept in step with the terminals'
    connection lists. */
module Circuits {
  import Seqs
  import opened Terminals
  import opened Components

  /** The endpoint test shared by `getComponent` and
      `findCorrespondingComponent`: `x` sits between `a` and `b`, in either
      order, positions compared with `Terminal.Equals`. */
  predicate Joins(x: Component, a: Terminal?<Component>, b: Terminal?<Component>)
    reads x
    requires x.Placed()
  {
    (x.endPt1.Equals(a) && x.endPt2.Equals(b)) || (x.endPt2.Equals(a) && x.endPt1.Equals(b))
  }

  predicate AllPlaced(cs: seq<Component>)
    reads cs
  {
    forall i :: 0 <= i < |cs| ==> cs[i].Placed()
  }

  /** The index of the first component of `cs` between `a` and `b`, or -1. */
  function FirstJoining(cs: seq<Component>, a: Terminal?<Component>, b: Terminal?<Component>): (i: int)
    reads cs
    requires AllPlaced(cs)
    ensures -1 <= i < |cs|
    ensures 0 <= i ==> Joins(cs[i], a, b)
    ensures forall j {:trigger Joins(cs[j], a, b)} :: 0 <= j < |cs| && (i == -1 || j < i) ==> !Joins(cs[j], a, b)
  {
    if cs == [] then -1
    else if Joins(cs[0], a, b) then 0
    else
      var k := FirstJoining(cs[1..], a, b);
      if k == -1 then -1 else k + 1
  }

  /** `k` is the first index of a component between `a` and `b` (or `|cs|`
      when there is none) exactly when the lookup answers `k` (or -1). */
  lemma {:induction false} FirstJoiningIs(cs: seq<Component>, a: Terminal?<Component>, b: Terminal?<Component>, k: int)
    requires AllPlaced(cs) && 0 <= k <= |cs|
    requires forall j :: 0 <= j < k ==> !Joins(cs[j], a, b)
    requires k < |cs| ==> Joins(cs[k], a, b)
    ensures FirstJoining(cs, a, b) == if k == |cs| then -1 else k
  {
    if cs != [] && k > 0 {
      assert !Joins(cs[0], a, b);
      forall j | 0 <= j < k - 1
        ensures !Joins(cs[1..][j], a, b)
      {
        assert cs[1..][j] == cs[j + 1];
      }
      FirstJoiningIs(cs[1..], a, b, k - 1);
    }
  }

  /** The lookup does not depend on the order in which the two terminals are given. */
  lemma {:induction false} FirstJoiningSymmetric(cs: seq<Component>, a: Terminal?<Component>, b: Terminal?<Component>)
    requires AllPlaced(cs)
    ensures FirstJoining(cs, a, b) == FirstJoining(cs, b, a)
  {
    if cs != [] {
      assert Joins(cs[0], a, b) == Joins(cs[0], b, a);
      FirstJoiningSymmetric(cs[1..], a, b);
    }
  }

  /** `x` once for each of its ends that is `t`. */
  function EndsAt(x: Component, t: Terminal<Component>): multiset<Component>
    reads x
  {
    (if x.endPt1 == t then multiset{x} else multiset{}) +
    (if x.endPt2 == t then multiset{x} else multiset{})
  }

  /** What the connection list of `t` holds when the components `cs` are
      placed: each of them once per end at `t`. */
  function Incident(cs: seq<Component>, t: Terminal<Component>): multiset<Component>
    reads cs
  {
    if cs == [] then multiset{} else Incident(cs[..|cs| - 1], t) + EndsAt(cs[|cs| - 1], t)
  }

  /** What `removeComponent` does to the connection lists of `x`'s old ends
      `t1` and `t2`: each loses its first occurrence of `x`, and a terminal
      that is both ends loses two. */
  twostate predicate Unhooked(x: Component, t1: Terminal<Component>, t2: Terminal<Component>)
    reads t1, t2
  {
    (t1 != t2 ==>
      t1.connections == Seqs.RemoveFirst(old(t1.connections), x) &&
      t2.connections == Seqs.RemoveFirst(old(t2.connections), x)) &&
    (t1 == t2 ==> t1.connections == Seqs.RemoveFirst(Seqs.RemoveFirst(old(t1.connections), x), x))
  }

  /** A component that is not listed is on no connection list. */
  lemma {:induction false} IncidentAbsent(cs: seq<Component>, t: Terminal<Component>, x: Component)
    requires x !in cs
    ensures Incident(cs, t)[x] == 0
  {
    if cs != [] {
      IncidentAbsent(cs[..|cs| - 1], t, x);
    }
  }

  /** A component listed once is on the connection list of `t` once per end at `t`. */
  lemma {:induction false} IncidentOnce(cs: seq<Component>, t: Terminal<Component>, x: Component)
    requires multiset(cs)[x] == 1
    ensures Incident(cs, t)[x] == EndsAt(x, t)[x]
  {
    var init, last := cs[..|cs| - 1], cs[|cs| - 1];
    assert cs == init + [last];
    if last == x {
      IncidentAbsent(init, t, x);
    } else {
      IncidentOnce(init, t, x);
    }
  }

  class Circuit {
    const rows: nat
    const cols: nat
    const terminals: seq<seq<Terminal<Component>>>
    // The terminals of the grid, as a set for frames.
    ghost const Grid: set<Terminal<Component>>
    var components: seq<Component>
    var numBranches: int
    var verbose: bool

    predicate InRange(r: int, c: int)
    {
      0 <= r < rows && 0 <= c < cols
    }

    /** `terminals` is a rows-by-cols grid whose cell (r, c) holds the terminal at row r, column c. */
    ghost predicate GridOk()
    {
      |terminals| == rows &&
      (forall r :: 0 <= r < rows ==> |terminals[r]| == cols) &&
      (forall r, c :: 0 <= r < rows && 0 <= c < cols ==>
        terminals[r][c].row == r && terminals[r][c].col == c) &&
      (forall r, c :: 0 <= r < rows && 0 <= c < cols ==> terminals[r][c] in Grid) &&
      (forall t :: t in Grid ==>
        0 <= t.row < rows && 0 <= t.col < cols && terminals[t.row][t.col] == t)
    }

    /** Both ends of `x` are terminals of this grid. */
    ghost predicate Anchored(x: Component)
      reads x
    {
      x.endPt1 != null && x.endPt2 != null && x.endPt1 in Grid && x.endPt2 in Grid
    }

    /** The list `cs` is well formed: every component in it is anchored on
        the grid and listed once, and no two of them join the same pair of
        terminals. */
    ghost predicate Listed(cs: seq<Component>)
      reads cs
    {
      AllPlaced(cs) &&
      (forall x :: x in cs ==> Anchored(x) && multiset(cs)[x] == 1) &&
      (forall x, y :: x in cs && y in cs && x != y ==> !Joins(y, x.endPt1, x.endPt2))
    }

    /** The connection list of each terminal holds exactly the components of
        `cs` with an end there, once per such end. */
    ghost predicate Linked(cs: seq<Component>)
      reads Grid, cs
    {
      forall t {:trigger Incident(cs, t)} :: t in Grid ==> multiset(t.connections) == Incident(cs, t)
    }

    /** The container's invariant. */
    ghost predicate Valid()
      reads this, Grid, components
    {
      GridOk() && Listed(components) && Linked(components)
    }

    /** The grid has one fresh terminal per cell, each with no connections and
        an unassigned potential, and the circuit has no components. */
    constructor (row: nat, col: nat)
      ensures rows == row && cols == col
      ensures Valid() && fresh(Grid)
      ensures forall t :: t in Grid ==> t.connections == [] && t.potential == Unassigned
      ensures components == [] && numBranches == 0 && !verbose
    {
      var grid: seq<seq<Terminal<Component>>> := [];
      var r := 0;
      while r < row
        invariant 0 <= r <= row && |grid| == r
        invariant forall i :: 0 <= i < r ==> |grid[i]| == col
        invariant forall i, j :: 0 <= i < r && 0 <= j < col ==>
          grid[i][j].row == i && grid[i][j].col == j && fresh(grid[i][j]) &&
          grid[i][j].connections == [] && grid[i][j].potential == Unassigned
      {
        var line: seq<Terminal<Component>> := [];
        var c := 0;
        while c < col
          invariant 0 <= c <= col && |line| == c
          invariant forall i, j :: 0 <= i < r && 0 <= j < col ==>
            grid[i][j].row == i && grid[i][j].col == j && fresh(grid[i][j]) &&
            grid[i][j].connections == [] && grid[i][j].potential == Unassigned
          invariant forall j :: 0 <= j < c ==>
            line[j].row == r && line[j].col == j && fresh(line[j]) &&
            line[j].connections == [] && line[j].potential == Unassigned
        {
          var t := new Terminal<Component>(r, c);
          line := line + [t];
          c := c + 1;
        }
        grid := grid + [line];
        r := r + 1;
      }
      rows, cols := row, col;
      terminals := grid;
      Grid := set i, j | 0 <= i < row && 0 <= j < col :: grid[i][j];
      components := [];
      numBranches := 0;
      verbose := false;
    }

    /** The terminal at row `r`, column `c`. */
    function GetTerminal(r: int, c: int): (t: Terminal<Component>)
      requires GridOk() && InRange(r, c)
      ensures t.row == r && t.col == c && t in Grid
    {
      terminals[r][c]
    }

    /** The component between the terminals at (r1, c1) and (r2, c2), or null. */
    function Between(r1: int, c1: int, r2: int, c2: int): Component?
      reads this, components
      requires GridOk() && AllPlaced(components) && InRange(r1, c1) && InRange(r2, c2)
    {
      var i := FirstJoining(components, terminals[r1][c1], terminals[r2][c2]);
      if i == -1 then null else components[i]
    }

    /** Searches `circ` for the first component between the (possibly null)
        ends of `givenComp`, by position. */
    method FindCorrespondingComponent(circ: Circuit, givenComp: Component) returns (found: Component?)
      requires AllPlaced(circ.components)
      ensures var i := FirstJoining(circ.components, givenComp.endPt1, givenComp.endPt2);
        found == if i == -1 then null else circ.components[i]
    {
      var k := 0;
      while k < |circ.components|
        invariant 0 <= k <= |circ.components|
        invariant forall j :: 0 <= j < k ==> !Joins(circ.components[j], givenComp.endPt1, givenComp.endPt2)
      {
        var comp := circ.components[k];
        if (comp.endPt1.Equals(givenComp.endPt1) && comp.endPt2.Equals(givenComp.endPt2)) ||
           (comp.endPt1.Equals(givenComp.endPt2) && comp.endPt2.Equals(givenComp.endPt1)) {
          FirstJoiningIs(circ.components, givenComp.endPt1, givenComp.endPt2, k);
          return comp;
        }
        k := k + 1;
      }
      FirstJoiningIs(circ.components, givenComp.endPt1, givenComp.endPt2, k);
      return null;
    }

    /** Returns the first listed component between the terminals at (r1, c1)
        and (r2, c2), or null when there is none. */
    method GetComponent(r1: int, c1: int, r2: int, c2: int) returns (comp: Component?)
      requires Valid() && InRange(r1, c1) && InRange(r2, c2)
      ensures var i := FirstJoining(components, terminals[r1][c1], terminals[r2][c2]);
        comp == if i == -1 then null else components[i]
    {
      var k := 0;
      while k < |components|
        invariant 0 <= k <= |components|
        invariant forall j :: 0 <= j < k ==> !Joins(components[j], terminals[r1][c1], terminals[r2][c2])
      {
        var c := components[k];
        if (c.endPt1.Equals(terminals[r1][c1]) && c.endPt2.Equals(terminals[r2][c2])) ||
           (c.endPt2.Equals(terminals[r1][c1]) && c.endPt1.Equals(terminals[r2][c2])) {
          FirstJoiningIs(components, terminals[r1][c1], terminals[r2][c2], k);
          return c;
        }
        k := k + 1;
      }
      FirstJoiningIs(components, terminals[r1][c1], terminals[r2][c2], k);
      return null;
    }

    /** Within one grid, terminals at the same position are the same terminal. */
    lemma SamePositionSameTerminal(a: Terminal<Component>, b: Terminal<Component>)
      requires GridOk() && a in Grid && b in Grid
      ensures a.Equals(b) <==> a == b
    {
    }

    /** Each listed component is on the connection list of both of its ends,
        and no unlisted component is on any connection list. */
    lemma LinkedBothWays(t: Terminal<Component>, x: Component)
      requires Valid() && t in Grid
      ensures x in components && (x.endPt1 == t || x.endPt2 == t) ==> x in t.connections
      ensures x in t.connections ==> x in components
    {
      if x in components {
        IncidentOnce(components, t, x);
      } else {
        IncidentAbsent(components, t, x);
      }
    }

    /** The step both add operations share once the place is known to be
        free: append `c` to the list and to the connection lists of both of
        its ends (twice to one list when its ends coincide). */
    method Attach(c: Component)
      requires Valid() && c !in components && Anchored(c)
      requires FirstJoining(components, c.endPt1, c.endPt2) == -1
      modifies this`components, c.endPt1`connections, c.endPt2`connections
      ensures Valid()
      ensures components == old(components) + [c]
      ensures c.endPt1 != c.endPt2 ==>
        c.endPt1.connections == old(c.endPt1.connections) + [c] &&
        c.endPt2.connections == old(c.endPt2.connections) + [c]
      ensures c.endPt1 == c.endPt2 ==> c.endPt1.connections == old(c.endPt1.connections) + [c] + [c]
    {
      var t1, t2 := c.endPt1, c.endPt2;
      components := components + [c];
      t1.Connect(c);
      t2.Connect(c);
      AttachKeepsValid(c);
    }

    /** The invariant survives appending `c` to the list and to the connection
        lists of its ends, when nothing else changed. */
    twostate lemma AttachKeepsValid(c: Component)
      requires old(Valid()) && old(c !in components) && Anchored(c) && unchanged(c)
      requires old(FirstJoining(components, c.endPt1, c.endPt2)) == -1
      requires components == old(components) + [c]
      requires forall x :: x in old(components) ==> unchanged(x)
      requires c.endPt1 != c.endPt2 ==>
        c.endPt1.connections == old(c.endPt1.connections) + [c] &&
        c.endPt2.connections == old(c.endPt2.connections) + [c]
      requires c.endPt1 == c.endPt2 ==> c.endPt1.connections == old(c.endPt1.connections) + [c] + [c]
      requires forall t :: t in Grid && t != c.endPt1 && t != c.endPt2 ==> t.connections == old(t.connections)
      ensures Valid()
    {
      var cs := old(components);
      ListedKept(cs);
      FirstJoiningKept(cs, c.endPt1, c.endPt2);
      ListedAppend(cs, c);
      LinkedAppend(c);
    }

    /** Connecting `c` to its ends, and nothing else, takes the connections
        of each terminal from those of the old list to those of the list
        with `c` appended. */
    twostate lemma LinkedAppend(c: Component)
      requires old(Valid())
      requires forall x :: x in old(components) ==> x.endPt1 == old(x.endPt1) && x.endPt2 == old(x.endPt2)
      requires unchanged(c) && Anchored(c)
      requires c.endPt1 != c.endPt2 ==>
        c.endPt1.connections == old(c.endPt1.connections) + [c] &&
        c.endPt2.connections == old(c.endPt2.connections) + [c]
      requires c.endPt1 == c.endPt2 ==> c.endPt1.connections == old(c.endPt1.connections) + [c] + [c]
      requires forall t :: t in Grid && t != c.endPt1 && t != c.endPt2 ==> t.connections == old(t.connections)
      ensures Linked(old(components) + [c])
    {
      var cs := old(components);
      assert (cs + [c])[..|cs|] == cs;
      forall t | t in Grid
        ensures multiset(t.connections) == Incident(cs + [c], t)
      {
        IncidentKept(cs, t);
        assert Incident(cs + [c], t) == old(multiset(t.connections)) + EndsAt(c, t);
      }
    }

    /** `Incident` depends only on the ends of the listed components. */
    twostate lemma {:induction false} IncidentKept(cs: seq<Component>, new t: Terminal<Component>)
      requires old(allocated(t))
      requires forall x :: x in cs ==> x.endPt1 == old(x.endPt1) && x.endPt2 == old(x.endPt2)
      ensures Incident(cs, t) == old(Incident(cs, t))
    {
      if cs != [] {
        var init, last := cs[..|cs| - 1], cs[|cs| - 1];
        assert cs == init + [last];
        IncidentKept(init, t);
      }
    }

    /** The invariant depends only on the list, the ends of the listed
        components and the connection lists of the grid. */
    twostate lemma ValidKept()
      requires old(Valid()) && components == old(components)
      requires forall x :: x in components ==> x.endPt1 == old(x.endPt1) && x.endPt2 == old(x.endPt2)
      requires forall t :: t in Grid ==> t.connections == old(t.connections)
      ensures Valid()
    {
      ListedKept(components);
      forall t | t in Grid
        ensures multiset(t.connections) == Incident(components, t)
      {
        IncidentKept(components, t);
      }
    }

    /** The lookup depends only on the ends of the listed components. */
    twostate lemma {:induction false} FirstJoiningKept(cs: seq<Component>, new a: Terminal?<Component>, new b: Terminal?<Component>)
      requires old(AllPlaced(cs)) && old(allocated(a)) && old(allocated(b))
      requires forall x :: x in cs ==> x.endPt1 == old(x.endPt1) && x.endPt2 == old(x.endPt2)
      ensures AllPlaced(cs) && FirstJoining(cs, a, b) == old(FirstJoining(cs, a, b))
    {
      if cs != [] {
        assert cs == [cs[0]] + cs[1..];
        FirstJoiningKept(cs[1..], a, b);
      }
    }

    /** Whether a list is well formed depends only on its components' fields. */
    twostate lemma ListedKept(cs: seq<Component>)
      requires old(Listed(cs))
      requires forall x :: x in cs ==> x.endPt1 == old(x.endPt1) && x.endPt2 == old(x.endPt2)
      ensures Listed(cs)
    {
      forall x | x in cs
        ensures x.endPt1 == old(x.endPt1) && x.endPt2 == old(x.endPt2)
      {
      }
    }

    /** Appending a component that is anchored, new, and not between the ends
        of any listed component keeps the list well formed. */
    lemma ListedAppend(cs: seq<Component>, c: Component)
      requires Listed(cs) && c !in cs && Anchored(c)
      requires FirstJoining(cs, c.endPt1, c.endPt2) == -1
      ensures Listed(cs + [c])
    {
      var cs' := cs + [c];
      forall x | x in cs'
        ensures Anchored(x) && multiset(cs')[x] == 1
      {
        if x != c {
          assert x in cs;
        }
      }
      forall x, y | x in cs' && y in cs' && x != y
        ensures !Joins(y, x.endPt1, x.endPt2)
      {
        if x != c && y != c {
          assert x in cs && y in cs;
        } else if x == c {
          var j :| 0 <= j < |cs| && cs[j] == y;
          assert !Joins(cs[j], c.endPt1, c.endPt2);
        } else {
          var j :| 0 <= j < |cs| && cs[j] == x;
          assert !Joins(cs[j], c.endPt1, c.endPt2);
        }
      }
    }

    /** Taking a component out of a well-formed list keeps it well formed. */
    lemma ListedRemove(cs: seq<Component>, x: Component)
      requires Listed(cs)
      ensures Listed(Seqs.RemoveFirst(cs, x))
      ensures forall y :: y in Seqs.RemoveFirst(cs, x) <==> y in cs && y != x
    {
      var rest := Seqs.RemoveFirst(cs, x);
      Seqs.RemoveFirstMembers(cs, x);
      Seqs.RemoveFirstOthers(cs, x);
      forall i | 0 <= i < |rest|
        ensures rest[i].Placed()
      {
        assert rest[i] in cs;
      }
    }

    /** A component anchored on the grid sits between two grid terminals
        exactly when those are its ends, in one order or the other. */
    lemma JoinsOnGrid(x: Component, a: Terminal<Component>, b: Terminal<Component>)
      requires GridOk() && Anchored(x) && a in Grid && b in Grid
      ensures Joins(x, a, b) <==> (x.endPt1 == a && x.endPt2 == b) || (x.endPt1 == b && x.endPt2 == a)
    {
      SamePositionSameTerminal(x.endPt1, a);
      SamePositionSameTerminal(x.endPt2, b);
      SamePositionSameTerminal(x.endPt1, b);
      SamePositionSameTerminal(x.endPt2, a);
    }

    /** At most one listed component sits between any two positions. */
    lemma JoiningIsUnique(x: Component, y: Component, a: Terminal<Component>, b: Terminal<Component>)
      requires Valid() && x in components && y in components && a in Grid && b in Grid
      requires Joins(x, a, b) && Joins(y, a, b)
      ensures x == y
    {
      JoinsOnGrid(x, a, b);
      JoinsOnGrid(y, a, b);
      JoinsOnGrid(y, x.endPt1, x.endPt2);
    }

    /** Takes `x` off the list and off the connection lists of both of its
        ends (twice off one list when its ends coincide), and clears its ends.
        The list and the connection lists are left alone for a component that
        is not listed, as it is on none of them. */
    method RemoveComponent(x: Component)
      requires Valid() && x.Placed()
      modifies this`components, x`endPt1, x`endPt2, x.endPt1`connections, x.endPt2`connections
      ensures Valid()
      ensures components == Seqs.RemoveFirst(old(components), x) && x !in components
      ensures forall y :: y in old(components) && y != x ==> y.endPt1 == old(y.endPt1) && y.endPt2 == old(y.endPt2)
      ensures x.endPt1 == null && x.endPt2 == null
      ensures Unhooked(x, old(x.endPt1), old(x.endPt2))
      ensures forall t :: t in Grid ==> x !in t.connections
    {
      BeforeRemoval(x);
      Unlist(x);
      Detach(x);
      RemovalKeepsValid(x);
      Unlinked(x);
    }

    /** What `RemoveComponent` needs to know about the state it starts from. */
    lemma BeforeRemoval(x: Component)
      requires Valid()
      ensures Listed(Seqs.RemoveFirst(components, x))
      ensures forall y :: y in Seqs.RemoveFirst(components, x) <==> y in components && y != x
      ensures x !in components ==> forall t :: t in Grid ==> x !in t.connections
    {
      ListedRemove(components, x);
      if x !in components {
        Unlinked(x);
      }
    }

    /** A component that is not listed is on no connection list of the grid. */
    lemma Unlinked(x: Component)
      requires Valid() && x !in components
      ensures forall t :: t in Grid ==> x !in t.connections
    {
      forall t | t in Grid
        ensures x !in t.connections
      {
        LinkedBothWays(t, x);
      }
    }

    /** Removes the component between the terminals at (r1, c1) and (r2, c2),
        which must exist; afterwards no component sits between them. */
    method RemoveComponentAt(r1: int, c1: int, r2: int, c2: int)
      requires Valid() && InRange(r1, c1) && InRange(r2, c2)
      requires Between(r1, c1, r2, c2) != null
      modifies this`components, Between(r1, c1, r2, c2)`endPt1, Between(r1, c1, r2, c2)`endPt2
      modifies GetTerminal(r1, c1)`connections, GetTerminal(r2, c2)`connections
      ensures Valid()
      ensures components == Seqs.RemoveFirst<Component>(old(components), old(Between(r1, c1, r2, c2)))
      ensures old(Between(r1, c1, r2, c2)).endPt1 == null && old(Between(r1, c1, r2, c2)).endPt2 == null
      ensures FirstJoining(components, terminals[r1][c1], terminals[r2][c2]) == -1
    {
      var t1, t2 := terminals[r1][c1], terminals[r2][c2];
      var component := GetComponent(r1, c1, r2, c2);
      JoinsOnGrid(component, t1, t2);
      RemoveComponent(component);
      RemovalFrees(component, t1, t2);
    }

    /** Once the one component between `a` and `b` is off the list, and the
        others kept their ends, no component is between them. */
    twostate lemma RemovalFrees(x: Component, new a: Terminal<Component>, new b: Terminal<Component>)
      requires old(allocated(a)) && old(allocated(b))
      requires old(Listed(components)) && old(x in components) && old(Joins(x, a, b))
      requires AllPlaced(components) && components == Seqs.RemoveFirst(old(components), x)
      requires forall y :: y in old(components) && y != x ==> y.endPt1 == old(y.endPt1) && y.endPt2 == old(y.endPt2)
      ensures FirstJoining(components, a, b) == -1
    {
      Seqs.RemoveFirstMembers(old(components), x);
      forall j | 0 <= j < |components|
        ensures !Joins(components[j], a, b)
      {
        var y := components[j];
        assert y in components;
        assert Joins(y, a, b) ==> old(Joins(y, x.endPt1, x.endPt2));
      }
      FirstJoiningIs(components, a, b, |components|);
    }

    /** The first step of `RemoveComponent`: splice the first occurrence of
        `x`, if any, out of the list. */
    method Unlist(x: Component)
      modifies this`components
      ensures components == Seqs.RemoveFirst(old(components), x)
    {
      var index := Seqs.IndexOf(components, x);
      if index > -1 {
        components := components[..index] + components[index + 1..];
      }
    }

    /** The step of `RemoveComponent` after the list: takes `x` off the
        connection lists of both of its ends and clears its ends. */
    method Detach(x: Component)
      requires x.Placed()
      modifies x`endPt1, x`endPt2, x.endPt1`connections, x.endPt2`connections
      ensures x.endPt1 == null && x.endPt2 == null
      ensures Unhooked(x, old(x.endPt1), old(x.endPt2))
    {
      var t1, t2 := x.endPt1, x.endPt2;
      t1.Disconnect(x);
      t2.Disconnect(x);
      x.SetEndPt1(null);
      x.SetEndPt2(null);
    }

    /** The invariant survives taking `x` off the list and off the connection
        lists of its ends, when nothing else changed. */
    twostate lemma RemovalKeepsValid(x: Component)
      requires old(Valid()) && old(x.Placed())
      requires old(Listed(Seqs.RemoveFirst(components, x)))
      requires old(x !in components) ==> old(forall t :: t in Grid ==> x !in t.connections)
      requires components == Seqs.RemoveFirst(old(components), x)
      requires forall y :: y in old(components) && y != x ==> y.endPt1 == old(y.endPt1) && y.endPt2 == old(y.endPt2)
      requires Unhooked(x, old(x.endPt1), old(x.endPt2))
      requires forall t :: t in Grid && t != old(x.endPt1) && t != old(x.endPt2) ==> t.connections == old(t.connections)
      ensures Valid()
    {
      if old(x in components) {
        DetachKeepsValid(x);
      } else {
        DetachUnlistedKeepsValid(x);
      }
    }

    /** The invariant survives taking a listed `x` off the list and off the
        connection lists of its ends, when nothing else changed. */
    twostate lemma DetachKeepsValid(x: Component)
      requires old(Valid()) && old(x in components)
      requires old(Listed(Seqs.RemoveFirst(components, x)))
      requires components == Seqs.RemoveFirst(old(components), x)
      requires forall y :: y in old(components) && y != x ==> y.endPt1 == old(y.endPt1) && y.endPt2 == old(y.endPt2)
      requires Unhooked(x, old(x.endPt1), old(x.endPt2))
      requires forall t :: t in Grid && t != old(x.endPt1) && t != old(x.endPt2) ==> t.connections == old(t.connections)
      ensures Valid()
    {
      var cs := old(components);
      Seqs.RemoveFirstCount(cs, x);
      forall y | y in components
        ensures y.endPt1 == old(y.endPt1) && y.endPt2 == old(y.endPt2)
      {
        assert multiset(components)[y] > 0;
      }
      ListedKept(components);
      LinkedDetach(x);
    }

    /** The invariant survives disconnecting an unlisted `x` from its ends:
        it is on none of the grid's connection lists, so none of them changes. */
    twostate lemma DetachUnlistedKeepsValid(x: Component)
      requires old(Valid()) && old(x !in components) && old(x.Placed()) && components == old(components)
      requires old(forall t :: t in Grid ==> x !in t.connections)
      requires forall y :: y in old(components) && y != x ==> y.endPt1 == old(y.endPt1) && y.endPt2 == old(y.endPt2)
      requires Unhooked(x, old(x.endPt1), old(x.endPt2))
      requires forall t :: t in Grid && t != old(x.endPt1) && t != old(x.endPt2) ==> t.connections == old(t.connections)
      ensures Valid()
    {
      forall t | t in Grid
        ensures t.connections == old(t.connections)
      {
        assert old(x !in t.connections);
      }
      ValidKept();
    }

    /** Disconnecting a listed `x` from its ends, and nothing else, takes the
        connections of each terminal from those of the old list to those of
        the list without `x`. */
    twostate lemma LinkedDetach(x: Component)
      requires old(Valid()) && old(x in components)
      requires forall y :: y in old(components) && y != x ==> y.endPt1 == old(y.endPt1) && y.endPt2 == old(y.endPt2)
      requires Unhooked(x, old(x.endPt1), old(x.endPt2))
      requires forall t :: t in Grid && t != old(x.endPt1) && t != old(x.endPt2) ==> t.connections == old(t.connections)
      ensures Linked(Seqs.RemoveFirst(old(components), x))
    {
      var cs := old(components);
      forall t | t in Grid
        ensures multiset(t.connections) == Incident(Seqs.RemoveFirst(cs, x), t)
      {
        IncidentDrop(cs, x, t);
        DetachedFrom(x, t);
      }
    }

    /** Taking the ends of a component listed once out of the picture takes
        them out of the connections the list calls for, when the other
        components keep their ends. */
    twostate lemma {:induction false} IncidentDrop(cs: seq<Component>, new x: Component, new t: Terminal<Component>)
      requires old(allocated(x)) && old(allocated(t)) && multiset(cs)[x] == 1
      requires forall y :: y in cs && y != x ==> y.endPt1 == old(y.endPt1) && y.endPt2 == old(y.endPt2)
      ensures old(Incident(cs, t)) == Incident(Seqs.RemoveFirst(cs, x), t) + old(EndsAt(x, t))
    {
      var init, last := cs[..|cs| - 1], cs[|cs| - 1];
      assert cs == init + [last];
      if last == x {
        Seqs.RemoveFirstAppend(init, x);
        IncidentKept(init, t);
      } else {
        Seqs.RemoveFirstAppendOther(init, x, last);
        IncidentDrop(init, x, t);
        var r := Seqs.RemoveFirst(init, x);
        assert (r + [last])[..|r|] == r;
      }
    }

    /** What disconnecting `x` from its two ends does to the connections of one grid terminal. */
    twostate lemma DetachedFrom(x: Component, new t: Terminal<Component>)
      requires old(allocated(t)) && old(x.Placed())
      requires Unhooked(x, old(x.endPt1), old(x.endPt2))
      requires t != old(x.endPt1) && t != old(x.endPt2) ==> t.connections == old(t.connections)
      ensures multiset(t.connections) == old(multiset(t.connections)) - old(EndsAt(x, t))
    {
      var s := old(t.connections);
      Seqs.RemoveFirstCount(s, x);
      Seqs.RemoveFirstCount(Seqs.RemoveFirst(s, x), x);
    }

    /** The step both add operations start with: set the ends of `c` to `t1`
        and `t2`, then look for a listed component between them. */
    method PlaceEnds(c: Component, t1: Terminal<Component>, t2: Terminal<Component>) returns (found: Component?)
      requires Valid() && c !in components && t1 in Grid && t2 in Grid
      modifies c`endPt1, c`endPt2
      ensures Valid() && c.endPt1 == t1 && c.endPt2 == t2
      ensures found == null <==> FirstJoining(components, t1, t2) == -1
      ensures FirstJoining(components, t1, t2) == old(FirstJoining(components, t1, t2))
    {
      c.SetEndPt1(t1);
      c.SetEndPt2(t2);
      found := FindCorrespondingComponent(this, c);
      FirstJoiningKept(components, t1, t2);
      ValidKept();
    }

    /** Places `c` between the terminals at (r1, c1) and (r2, c2). The ends of
        `c` are overwritten first, whatever happens next; the add is refused
        when some listed component already sits between those two positions,
        whatever its variant or value. A battery gets the first end as its
        positive end. */
    method AddComponent(c: Component, r1: int, c1: int, r2: int, c2: int) returns (ok: bool)
      requires Valid() && InRange(r1, c1) && InRange(r2, c2)
      requires c !in components
      modifies this`components, c`endPt1, c`endPt2, c`positiveEnd
      modifies GetTerminal(r1, c1)`connections, GetTerminal(r2, c2)`connections
      ensures Valid()
      ensures c.endPt1 == terminals[r1][c1] && c.endPt2 == terminals[r2][c2]
      ensures ok <==> old(FirstJoining(components, terminals[r1][c1], terminals[r2][c2])) == -1
      ensures components == if ok then old(components) + [c] else old(components)
      ensures !ok ==> forall t :: t in Grid ==> t.connections == old(t.connections)
      ensures ok && c.endPt1 != c.endPt2 ==>
        c.endPt1.connections == old(terminals[r1][c1].connections) + [c] &&
        c.endPt2.connections == old(terminals[r2][c2].connections) + [c]
      ensures ok && c.endPt1 == c.endPt2 ==>
        c.endPt1.connections == old(terminals[r1][c1].connections) + [c] + [c]
      ensures c.positiveEnd == if ok && c.kind.Battery? then terminals[r1][c1] else old(c.positiveEnd)
    {
      var t1, t2 := terminals[r1][c1], terminals[r2][c2];
      var found := PlaceEnds(c, t1, t2);
      if found != null {
        return false;
      }
      Attach(c);
      if c.kind.Battery? {
        label Connected:
        c.SetPosEnd(t1);
        ValidKept@Connected();
      }
      ok := true;
    }

    /** Like `AddComponent`, for a battery whose positive end is the terminal
        at (posEndRow, posEndCol), which need not be one of its ends. */
    method AddBattery(b: Component, r1: int, c1: int, r2: int, c2: int, posEndRow: int, posEndCol: int)
      returns (ok: bool)
      requires Valid() && InRange(r1, c1) && InRange(r2, c2) && InRange(posEndRow, posEndCol)
      requires b.kind.Battery? && b !in components
      modifies this`components, b`endPt1, b`endPt2, b`positiveEnd
      modifies GetTerminal(r1, c1)`connections, GetTerminal(r2, c2)`connections
      ensures Valid()
      ensures b.endPt1 == terminals[r1][c1] && b.endPt2 == terminals[r2][c2]
      ensures ok <==> old(FirstJoining(components, terminals[r1][c1], terminals[r2][c2])) == -1
      ensures components == if ok then old(components) + [b] else old(components)
      ensures !ok ==> forall t :: t in Grid ==> t.connections == old(t.connections)
      ensures ok && b.endPt1 != b.endPt2 ==>
        b.endPt1.connections == old(terminals[r1][c1].connections) + [b] &&
        b.endPt2.connections == old(terminals[r2][c2].connections) + [b]
      ensures ok && b.endPt1 == b.endPt2 ==>
        b.endPt1.connections == old(terminals[r1][c1].connections) + [b] + [b]
      ensures b.positiveEnd == if ok then terminals[posEndRow][posEndCol] else old(b.positiveEnd)
    {
      var t1, t2 := terminals[r1][c1], terminals[r2][c2];
      var found := PlaceEnds(b, t1, t2);
      if found != null {
        return false;
      }
      Attach(b);
      label Connected:
      b.SetPosEnd(terminals[posEndRow][posEndCol]);
      ValidKept@Connected();
      ok := true;
    }
  

    /** Adding a component that is on no list and then removing it again
        gives back the list of components and every connection list. */
    method AddThenRemove(c: Component, r1: int, c1: int, r2: int, c2: int) returns (ok: bool)
      requires Valid() && InRange(r1, c1) && InRange(r2, c2) && c !in components
      modifies this`components, c`endPt1, c`endPt2, c`positiveEnd
      modifies GetTerminal(r1, c1)`connections, GetTerminal(r2, c2)`connections
      ensures Valid() && components == old(components)
      ensures forall t :: t in Grid ==> t.connections == old(t.connections)
    {
      Unlinked(c);
      ok := AddComponent(c, r1, c1, r2, c2);
      if ok {
        RemoveComponent(c);
        Seqs.RemoveFirstAppend(old(components), c);
        Seqs.RemoveFirstAppend(old(terminals[r1][c1].connections), c);
        Seqs.RemoveFirstAppend(old(terminals[r2][c2].connections), c);
        Seqs.RemoveFirstTwiceAppend(old(terminals[r1][c1].connections), c);
      }
    }
  }
}
