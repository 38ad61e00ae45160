/**
  The state of one `Double_Pendulum` instance as the HTTP handlers see it:
  its data attributes, their names, the constructor defaults and the
  recomputation of the two bob positions.
 */
module Pendulum {
  import opened Outcome

  /** The data attributes of a pendulum. Python's `hasattr` also admits the
      class's methods (`step`, `get_coords`, ...); the model's set of known
      names is narrowed to these data attributes. */
  datatype Field =
    | OriginX | OriginY
    | LengthRod1 | LengthRod2
    | MassRod1 | MassRod2 | MassBob1 | MassBob2
    | Gravity
    | Theta1 | Theta2 | Omega1 | Omega2
    | X1 | Y1 | X2 | Y2

  /** Every field, once. */
  const AllFields: seq<Field> := [
    OriginX, OriginY, LengthRod1, LengthRod2,
    MassRod1, MassRod2, MassBob1, MassBob2, Gravity,
    Theta1, Theta2, Omega1, Omega2,
    X1, Y1, X2, Y2
  ]

  /** The attribute name a request uses for a field. */
  function NameOf(f: Field): string {
    match f
    case OriginX => "origin_x"
    case OriginY => "origin_y"
    case LengthRod1 => "length_rod_1"
    case LengthRod2 => "length_rod_2"
    case MassRod1 => "mass_rod_1"
    case MassRod2 => "mass_rod_2"
    case MassBob1 => "mass_bob_1"
    case MassBob2 => "mass_bob_2"
    case Gravity => "g"
    case Theta1 => "theta_1"
    case Theta2 => "theta_2"
    case Omega1 => "omega_1"
    case Omega2 => "omega_2"
    case X1 => "x_1"
    case Y1 => "y_1"
    case X2 => "x_2"
    case Y2 => "y_2"
  }

  /** The first of `fields` whose name is `name`. */
  function Lookup(name: string, fields: seq<Field>): (r: Option<Field>)
    ensures r.Some? ==> r.value in fields && NameOf(r.value) == name
    ensures r.None? ==> forall f :: f in fields ==> NameOf(f) != name
  {
    if fields == [] then None
    else if NameOf(fields[0]) == name then Some(fields[0])
    else Lookup(name, fields[1..])
  }

  /** The `hasattr` test: the field a name denotes, if any. */
  function FieldOf(name: string): (r: Option<Field>)
    ensures r.Some? ==> NameOf(r.value) == name
    ensures r.None? ==> forall f :: NameOf(f) != name
  {
    var r := Lookup(name, AllFields);
    assert forall f :: f in AllFields by {
      forall f ensures f in AllFields { AllFieldsComplete(f); }
    }
    r
  }

  /** No two fields share a name. */
  lemma NamesDistinct(f: Field, g: Field)
    requires NameOf(f) == NameOf(g)
    ensures f == g
  {
  }

  /** `AllFields` lists every field. */
  lemma AllFieldsComplete(f: Field)
    ensures f in AllFields
  {
  }

  /** Every field is known under its own name, and under no other. */
  lemma FieldOfNameOf(f: Field)
    ensures FieldOf(NameOf(f)) == Some(f)
  {
    var r := FieldOf(NameOf(f));
    NamesDistinct(f, r.value);
  }

  /** The data attributes of a pendulum. */
  datatype State = State(
    originX: real, originY: real,
    lengthRod1: real, lengthRod2: real,
    massRod1: real, massRod2: real, massBob1: real, massBob2: real,
    gravity: real,
    theta1: real, theta2: real, omega1: real, omega2: real,
    x1: real, y1: real, x2: real, y2: real)

  /** `getattr`: the value of one field. */
  function Get(s: State, f: Field): real {
    match f
    case OriginX => s.originX
    case OriginY => s.originY
    case LengthRod1 => s.lengthRod1
    case LengthRod2 => s.lengthRod2
    case MassRod1 => s.massRod1
    case MassRod2 => s.massRod2
    case MassBob1 => s.massBob1
    case MassBob2 => s.massBob2
    case Gravity => s.gravity
    case Theta1 => s.theta1
    case Theta2 => s.theta2
    case Omega1 => s.omega1
    case Omega2 => s.omega2
    case X1 => s.x1
    case Y1 => s.y1
    case X2 => s.x2
    case Y2 => s.y2
  }

  /** `setattr`: assigns one field and leaves every other one alone. */
  function Set(s: State, f: Field, v: real): (r: State)
    ensures Get(r, f) == v
    ensures forall g :: g != f ==> Get(r, g) == Get(s, g)
  {
    match f
    case OriginX => s.(originX := v)
    case OriginY => s.(originY := v)
    case LengthRod1 => s.(lengthRod1 := v)
    case LengthRod2 => s.(lengthRod2 := v)
    case MassRod1 => s.(massRod1 := v)
    case MassRod2 => s.(massRod2 := v)
    case MassBob1 => s.(massBob1 := v)
    case MassBob2 => s.(massBob2 := v)
    case Gravity => s.(gravity := v)
    case Theta1 => s.(theta1 := v)
    case Theta2 => s.(theta2 := v)
    case Omega1 => s.(omega1 := v)
    case Omega2 => s.(omega2 := v)
    case X1 => s.(x1 := v)
    case Y1 => s.(y1 := v)
    case X2 => s.(x2 := v)
    case Y2 => s.(y2 := v)
  }

  /** Two states agreeing on every field are the same state. */
  lemma Extensionality(s: State, t: State)
    requires forall f :: Get(s, f) == Get(t, f)
    ensures s == t
  {
    assert Get(s, OriginX) == Get(t, OriginX) && Get(s, OriginY) == Get(t, OriginY);
    assert Get(s, LengthRod1) == Get(t, LengthRod1) && Get(s, LengthRod2) == Get(t, LengthRod2);
    assert Get(s, MassRod1) == Get(t, MassRod1) && Get(s, MassRod2) == Get(t, MassRod2);
    assert Get(s, MassBob1) == Get(t, MassBob1) && Get(s, MassBob2) == Get(t, MassBob2);
    assert Get(s, Gravity) == Get(t, Gravity);
    assert Get(s, Theta1) == Get(t, Theta1) && Get(s, Theta2) == Get(t, Theta2);
    assert Get(s, Omega1) == Get(t, Omega1) && Get(s, Omega2) == Get(t, Omega2);
    assert Get(s, X1) == Get(t, X1) && Get(s, Y1) == Get(t, Y1);
    assert Get(s, X2) == Get(t, X2) && Get(s, Y2) == Get(t, Y2);
  }

  /** The fields the handlers refuse to make negative: rod lengths, masses and gravity. */
  predicate Guarded(f: Field) {
    f.LengthRod1? || f.LengthRod2? || f.MassRod1? || f.MassRod2?
    || f.MassBob1? || f.MassBob2? || f.Gravity?
  }

  /** The fields whose single update triggers recomputation of the bob positions. */
  predicate Steers(f: Field) {
    f.LengthRod1? || f.LengthRod2? || f.Theta1? || f.Theta2?
  }

  /** The derived Cartesian positions of the two bobs. */
  predicate IsCoordinate(f: Field) {
    f.X1? || f.Y1? || f.X2? || f.Y2?
  }

  /** Every guarded field holds a non-negative value. */
  predicate Physical(s: State) {
    forall f :: Guarded(f) ==> Get(s, f) >= 0.0
  }

  /** The inputs of the position formulas: pivot, rod lengths and angles. */
  datatype Pose = Pose(originX: real, originY: real,
                       length1: real, length2: real,
                       theta1: real, theta2: real)

  /** The positions of the two bobs. */
  datatype Coords = Coords(x1: real, y1: real, x2: real, y2: real)

  /** The sine/cosine formulas that place the bobs, taken as a parameter. */
  type Placement = Pose -> Coords

  function PoseOf(s: State): Pose {
    Pose(s.originX, s.originY, s.lengthRod1, s.lengthRod2, s.theta1, s.theta2)
  }

  function CoordsOf(s: State): Coords {
    Coords(s.x1, s.y1, s.x2, s.y2)
  }

  /** The stored positions are those the placement gives for the stored pose. */
  predicate Placed(s: State, place: Placement) {
    CoordsOf(s) == place(PoseOf(s))
  }

  /** Overwrites the four position fields from the current pose. */
  function Recompute(s: State, place: Placement): (r: State)
    ensures Placed(r, place)
    ensures forall f :: !IsCoordinate(f) ==> Get(r, f) == Get(s, f)
  {
    var c := place(PoseOf(s));
    s.(x1 := c.x1, y1 := c.y1, x2 := c.x2, y2 := c.y2)
  }

  /** Recomputing a state whose positions are already placed changes nothing. */
  lemma RecomputePlaced(s: State, place: Placement)
    requires Placed(s, place)
    ensures Recompute(s, place) == s
  {
  }

  /** The double closest to pi/2 (Python's `math.pi / 2`), written as its shortest decimal. */
  const HalfPi: real := 1.5707963267948966

  /** A pendulum built with every constructor argument left at its default. */
  function Defaults(place: Placement): (r: State)
    ensures PoseOf(r) == Pose(300.0, 100.0, 120.0, 120.0, HalfPi, HalfPi)
    ensures r.massRod1 == 10.0 && r.massRod2 == 10.0
    ensures r.massBob1 == 10.0 && r.massBob2 == 10.0
    ensures r.gravity == 9.81
    ensures r.omega1 == 0.0 && r.omega2 == 0.0
    ensures Placed(r, place)
    ensures Physical(r)
  {
    var c := place(Pose(300.0, 100.0, 120.0, 120.0, HalfPi, HalfPi));
    State(300.0, 100.0, 120.0, 120.0, 10.0, 10.0, 10.0, 10.0, 9.81,
          HalfPi, HalfPi, 0.0, 0.0, c.x1, c.y1, c.x2, c.y2)
  }
}
