# Circuit graph container

This project models the container at the heart of a small circuit-analysis program. The container is a fixed grid of
terminals (rows × columns) plus a list of two-terminal components (wires, resistors and batteries) placed between
them. It keeps a two-way link:

- each component records its two end terminals;
- each terminal keeps an ordered connection list of the components attached to it.

The model covers the operations that build and edit a circuit:

- adding a component, or a battery with a chosen positive end;
- looking up the component between two positions;
- removing a component, by reference or by position;
- the terminal and component objects with their setters and structural equality.

The model is imperative, like the source:

- `Circuit`, `Terminal` and `Component` are classes whose methods update their fields in place.
- Each method's `modifies` clause names exactly the fields it may change.
- The JavaScript arrays become `seq` fields that the methods reassign.
- `indexOf`/`splice` become `Seqs.IndexOf`/`Seqs.RemoveFirst`.

Modules:

- `Seqs`: first-occurrence search and removal on sequences, and their laws.
- `Terminals`: the generic class `Terminal<C>`. Its connections are compared only by identity, so it need not know the component type.
- `Components`: one class `Component`, tagged with `Kind` (`Wire`, `Resistor` or `Battery`), in place of the source's subclass hierarchy. The battery-only state (`positiveEnd`, `voltage`) is held in fields that only batteries set.
- `Circuits`: the class `Circuit` and the functions that specify it:
  - `FirstJoining`, the first listed component between two terminals, compared by position;
  - `Incident`, what a terminal's connection list must hold for a given component list;
  - `Valid()`, the container invariant.

`Valid()` states three things:

- The grid is well formed: cell (r, c) holds the terminal at row r, column c.
- Every listed component has both ends on the grid and is listed once, and no two listed components sit between the same unordered pair of positions.
- Each grid terminal's connection list holds exactly the listed components with an end there, counted once per such end (as a multiset).

`Valid()` is established by the constructor and preserved by every add and remove. The proofs of preservation are
two-state lemmas about the heap before and after each step (`AttachKeepsValid`, `RemovalKeepsValid`).

The model follows the code on these points:

- **The duplicate test compares positions only.** Any component already between the two positions refuses the add, whatever its variant or value.
- **A refused add still overwrites the new component's ends.** `addComponent` and `addBattery` set the ends before the test.
- **`getComponent` returns the first matching component, or null.** The class comments call it the component at that location. The model proves that under `Valid()` at most one component sits between two positions (`JoiningIsUnique`), so the first match is the only one.

Where the source's own comments and its code disagree, the model follows the code:

- **A refused add is not free of effects.** The comment on `addComponent` (Circuit.js:34-35) says that when a different component already exists at the location the method has no effect. Lines 47-48 have already overwritten the new component's ends by then, and the model keeps that.
- **Removing where nothing is placed.** The comment on `removeComponentAt` (Circuit.js:105-112) describes removing the component at a location. When there is none, `getComponent` returns null (Circuit.js:148), and `removeComponent` then dereferences it (Circuit.js:128). So the model requires that a component exists there.

## Model

| member | source | states |
|---|---|---|
| Seqs.IndexOf | Terminal.js:63 | The result is -1 exactly when `x` is absent; otherwise `s` holds `x` there and nowhere before (JavaScript `indexOf` with strict equality). |
| Seqs.RemoveFirst | Terminal.js:62-67 | When `x` is absent the sequence is unchanged; otherwise it is one element shorter (the guarded `splice(index, 1)`). |
| Seqs.RemoveFirstCount | Terminal.js:62-67 | Removal takes exactly one copy of `x` out of the multiset of elements, or none if there was none. |
| Seqs.RemoveFirstMembers | Circuit.js:124-127 | For an element held at most once, the survivors are exactly the other elements. |
| Seqs.RemoveFirstOthers | Circuit.js:124-127 | Removal leaves the count of every other element unchanged. |
| Seqs.RemoveFirstAppend | Terminal.js:53-67 | Appending an absent element and then removing it gives back the original sequence. |
| Seqs.RemoveFirstTwiceAppend | Terminal.js:53-67 | Appending an absent element twice and removing it twice gives back the original sequence. This is the list of a terminal that both ends of one component share. |
| Seqs.RemoveFirstAppendOther | Terminal.js:53-67 | Appending a different element commutes with removing `x`. |
| Terminals.Terminal.constructor | Terminal.js:14-19 | A new terminal has the given row and column, no connections, and the `Number.MAX_VALUE` sentinel as its potential. |
| Terminals.Terminal.ConnectedTo | Terminal.js:24-31 | True exactly when the component itself (by identity) is in the connection list. |
| Terminals.Terminal.Connect | Terminal.js:53-55 | Appends the component at the end; every earlier entry stays in place. |
| Terminals.Terminal.Disconnect | Terminal.js:62-67 | Removes only the first occurrence of the component; an absent component leaves the list unchanged. The multiset loses exactly one copy. |
| Terminals.Terminal.SetPotential | Terminal.js:94-103 | The potential read back afterwards is the one set; nothing else changes. |
| Terminals.Terminal.Equals | Terminal.js:109-114 | Terminals are equal when the other is non-null with the same row and column; null is never equal. |
| Terminals.ConnectThenDisconnect | Terminal.js:53-67 | Connecting a component not yet attached and then disconnecting it restores the connection list. |
| Terminals.EqualsIsEquivalence | Terminal.js:109-114 | Terminal equality is reflexive, symmetric and transitive. |
| Components.Component.Wire | Component.js:13-21 | A new wire has null ends and current direction, zero resistance and current, and branch -1. |
| Components.Component.Resistor | Resistor.js:9-12 | A new resistor has the given resistance and otherwise the component defaults (null ends, current 0, branch -1, no positive end). |
| Components.Component.Battery | Battery.js:11-15 | A new battery has the given voltage, a null positive end, zero resistance and the component defaults. |
| Components.Component.SetEndPt1 | Component.js:27-29 | Endpoint 1 becomes the given terminal; no other field changes. |
| Components.Component.SetEndPt2 | Component.js:35-37 | Endpoint 2 becomes the given terminal; no other field changes. |
| Components.Component.SetResistance | Component.js:63-65 | The resistance becomes the given value; no other field changes. |
| Components.Component.SetCurrent | Component.js:70-72 | The current becomes the given value; no other field changes. |
| Components.Component.SetBranch | Component.js:85-87 | The branch becomes the given value; no other field changes. |
| Components.Component.SetCurrentDirection | Component.js:103-105 | The current direction becomes the given terminal; no other field changes. |
| Components.Component.SetPosEnd | Battery.js:21-23 | A battery's positive end becomes the given terminal; no other field changes. |
| Components.Component.SetVoltage | Battery.js:35-37 | A battery's voltage becomes the given value; no other field changes. |
| Components.Component.Equals | Component.js:118-134 | Equal components have both first ends set, the same ends in some order, and the same variant. Equal resistors have the same resistance; equal batteries have the same voltage and positive ends at the same position. |
| Components.WiresEqual | Component.js:122-124 | Two wires on the same terminals, in either order, are equal. |
| Components.ResistorsEqual | Component.js:122-127 | Two resistors on the same terminals are equal exactly when their resistances are equal. |
| Components.BatteriesEqual | Component.js:122-130 | Two batteries on the same terminals are equal exactly when their voltages are equal and their positive ends sit at the same position, so changing either one changes the outcome. |
| Components.VariantsDiffer | Component.js:123-133 | Components of different variants are never equal. |
| Components.EqualsSymmetric | Component.js:118-134 | Equality is symmetric between placed components (batteries with a positive end). |
| Components.EqualsIgnoresEndOrder | Component.js:122 | Swapping a component's two ends does not change what it equals. |
| Circuits.FirstJoining | Circuit.js:142-149 | The index found holds a component between the two terminals, by position and in either order; no earlier component is; -1 means none is. |
| Circuits.FirstJoiningIs | Circuit.js:96-103 | A first index with no match before it, and a match at it (or the end of the list), is what the lookup answers. |
| Circuits.FirstJoiningSymmetric | Circuit.js:142-149 | The lookup gives the same answer with the two terminals swapped, so `getComponent(r1,c1,r2,c2)` equals `getComponent(r2,c2,r1,c1)`. |
| Circuits.IncidentAbsent | Circuit.js:53-55 | An unlisted component is on no connection list the list calls for. |
| Circuits.IncidentOnce | Circuit.js:53-55 | A component listed once is called for once per end at the terminal. |
| Circuits.Circuit.constructor | Circuit.js:13-31 | The grid has `row` × `col` fresh terminals. Cell (r, c) holds the terminal at row r, column c, with no connections and an unassigned potential. The circuit has no components, zero branches, `verbose` off, and satisfies the invariant. |
| Circuits.Circuit.GetTerminal | Circuit.js:156-158 | The terminal returned sits at the requested row and column and belongs to the grid. |
| Circuits.Circuit.FindCorrespondingComponent | Circuit.js:96-103 | Returns the first component of `circ` whose ends match the given component's ends by position, in either order, or null when there is none. |
| Circuits.Circuit.GetComponent | Circuit.js:142-149 | Returns the first listed component between the two grid positions, in either order, or null exactly when there is none. |
| Circuits.Circuit.SamePositionSameTerminal | Terminal.js:109-114 | Within one grid, positional equality of terminals is identity. |
| Circuits.Circuit.LinkedBothWays | Circuit.js:53-55 | Under the invariant, a listed component is on the connection lists of both of its ends, and only listed components are on any list. |
| Circuits.Circuit.PlaceEnds | Circuit.js:47-50 | Sets the new component's ends to the two terminals, whatever follows. It finds a blocking component exactly when the lookup does, and keeps the invariant. |
| Circuits.Circuit.Attach | Circuit.js:53-55 | Appends the component to the list and to the connection lists of both its ends (twice to one list when the ends coincide), keeping the invariant. |
| Circuits.Circuit.AttachKeepsValid | Circuit.js:53-55 | After an append to the list and to the connection lists of the new component's ends, with nothing else changed, the invariant holds again. |
| Circuits.Circuit.LinkedAppend | Circuit.js:53-55 | After the two `connect` calls, every grid terminal holds the connections the extended list calls for. |
| Circuits.Circuit.IncidentKept | Circuit.js:53-55 | The connections a list calls for depend only on its components' ends. |
| Circuits.Circuit.ValidKept | Circuit.js:56-58 | The invariant depends only on the list, the listed components' ends and the connection lists, so setting a positive end keeps it. |
| Circuits.Circuit.FirstJoiningKept | Circuit.js:47-50 | The lookup depends only on the ends of the listed components, so setting the new component's ends does not change it. |
| Circuits.Circuit.ListedKept | Circuit.js:47-48 | The list stays well formed while its components' ends are unchanged. |
| Circuits.Circuit.ListedAppend | Circuit.js:50-53 | Appending an anchored, unlisted component that no listed component blocks keeps the list well formed (positions stay unique). |
| Circuits.Circuit.ListedRemove | Circuit.js:124-127 | Splicing a component out keeps the list well formed and leaves exactly the other components. |
| Circuits.Circuit.JoinsOnGrid | Circuit.js:144 | A grid-anchored component sits between two grid terminals exactly when they are its ends, in one order or the other. |
| Circuits.Circuit.JoiningIsUnique | Circuit.js:50-51 | Under the invariant, at most one listed component sits between any two positions. |
| Circuits.Circuit.AddComponent | Circuit.js:46-60 | Both ends of `c` are overwritten whatever happens. The result is true exactly when no listed component sat between the two positions (of any variant or value). On refusal the list and every connection list are unchanged. On success `c` is appended to the list and to both terminals' connection lists, and a battery gets endpoint 1 as its positive end. The invariant holds in both cases. |
| Circuits.Circuit.AddBattery | Circuit.js:73-85 | As `AddComponent`, but a successful add sets the battery's positive end to the terminal at (posEndRow, posEndCol). |
| Circuits.Circuit.RemoveComponent | Circuit.js:123-132 | Removes the component from the list and once from each end's connection list (twice from a shared one), clears both of its ends, and keeps the invariant. The other components keep their ends, and the component is left on no connection list of the grid. |
| Circuits.Circuit.BeforeRemoval | Circuit.js:124-127 | Under the invariant, the list without `x` is well formed and holds exactly the others; an unlisted `x` is on no connection list. |
| Circuits.Circuit.Unlinked | Circuit.js:128-129 | Under the invariant, an unlisted component is on no connection list of the grid. |
| Circuits.Circuit.Unlist | Circuit.js:124-127 | The list loses the first occurrence of the component, if any. |
| Circuits.Circuit.Detach | Circuit.js:128-131 | Each end's connection list loses one occurrence of the component (a shared end loses two), and both ends become null. |
| Circuits.Circuit.RemovalKeepsValid | Circuit.js:123-132 | After the splice and the two `disconnect` calls, with nothing else changed, the invariant holds again, whether or not the component was listed. |
| Circuits.Circuit.DetachKeepsValid | Circuit.js:123-132 | The invariant is restored after a listed component is taken off the list and off its ends' connection lists. |
| Circuits.Circuit.DetachUnlistedKeepsValid | Circuit.js:128-129 | For an unlisted component the two `disconnect` calls change no connection list, so the invariant holds. |
| Circuits.Circuit.LinkedDetach | Circuit.js:128-129 | After the two `disconnect` calls, every grid terminal holds the connections the shortened list calls for. |
| Circuits.Circuit.IncidentDrop | Circuit.js:124-129 | The connections the list calls for lose exactly the removed component's ends. |
| Circuits.Circuit.DetachedFrom | Circuit.js:128-129 | Each terminal's connections lose exactly one copy of the component per end it had there. |
| Circuits.Circuit.RemoveComponentAt | Circuit.js:113-116 | Removes exactly the component `getComponent` finds between the two positions, keeping the invariant; afterwards none sits between them. |
| Circuits.Circuit.RemovalFrees | Circuit.js:113-116 | Once the only component between two terminals is off the list and the others kept their ends, none sits between them. |
| Circuits.Circuit.AddThenRemove | Circuit.js:46-60 | Adding a component that is on no list and then removing it (when the add succeeded) restores the list of components and every connection list. |

## Left out

- The Kirchhoff solver (`solve`, `findNodes`, `labelBranches`, `removeDangler`) is not part of this model: its code is not among the files modelled.
- The user interface, drawing and animation files (CircuitVisionRunner.js, Dot.js, Animation.js, Wall.js, Tower.js, Ball.js, Wheel.js, Two_Canvases.js) and the CircuitTester.js script are not part of this model.
- Numbers: JavaScript doubles (resistance, current, voltage, potential) are modelled as `real`. `Number.MAX_VALUE` is its exact value as a real constant (`Terminals.Unassigned`). Floating-point rounding is not modelled.
- Getters (`getEndPt1`, `getResistance`, `getPosEnd`, `getVoltage`, `getPotential`, `getRow`, `getRows`, `getComponents`, `getTerminals`, `getNumBranches` and the rest) are direct field reads of the Dafny classes. Each setter's `ensures`, with its `modifies` frame, gives the set-then-get round trip.
- Terminals.Terminal.NumConnections and Terminals.Terminal.GetConnection are functions that read `|connections|` and `connections[i]`; they carry no contract of their own.
- The subclasses Wire, Resistor and Battery are one class tagged with its variant. `instanceof` tests become tests of `kind`. The battery's fields exist on every component but are set only for batteries (`SetPosEnd` and `SetVoltage` require a battery).
- Circuits.Circuit.AddComponent, Circuits.Circuit.AddBattery: out-of-range grid indices, and a component that is already listed, are preconditions. The model does not capture what the source does in those cases:
  - An out-of-range row `r1` or `r2` throws at Circuit.js:47 or 48, after the first end may already be overwritten.
  - An out-of-range column `c1` or `c2` makes that end `undefined`. With a non-empty list, the duplicate search then throws inside `Terminal.equals` (Terminal.js:110) before any push. With an empty list, the push and possibly the first `connect` run before the throw (Circuit.js:53-55, 80-82), leaving a half-done add.
  - In `addBattery`, an out-of-range `posEndRow` throws at Circuit.js:83, after the push and both `connect` calls. An out-of-range `posEndCol` does not throw: the battery is stored with an undefined positive end, and the call returns true.
  - A component that is already listed corrupts the lists, because its old terminals keep a stale link.
- Circuits.Circuit.RemoveComponent: requires a component with both ends set, as the source dereferences both ends. It also requires the invariant.
- Circuits.Circuit.RemoveComponentAt: requires that a component sits between the two positions, because the source passes `null` on to `removeComponent`, which dereferences it. Its effect on the connection lists is stated through `Valid()` and `RemoveComponent`'s contract, not repeated in its own `ensures`.
- Components.Component.Equals: requires the inputs on which the source dereferences no null terminal (`CanCompare`). The source throws on the other inputs.
- Helper steps: `PlaceEnds`, `Attach`, `Unlist` and `Detach` are the consecutive statements of the add and remove operations, grouped into methods of their own. Each is called exactly where those statements stand in the source.
- `verbose` and `numBranches` are fields the constructor initialises; only the solver uses them.
