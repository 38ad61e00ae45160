/**
  The single-field endpoints `update_parameter` and `update_initial_condition`
  and the `reset_simulation` endpoint, each a pure map from the current
  pendulum and the parsed request to the next pendulum and the reply.
 */
module Handlers {
  import opened Outcome
  import opened Pendulum
  import opened Validation

  /** The JSON body of a single-field reply: the echoed name and value, or an error text. */
  datatype Reply = Accepted(name: string, value: real) | Rejected(error: string)

  /** `setattr` followed by the coordinate refresh both single-field
      endpoints perform when a rod length or an angle was written. */
  function Assign(s: State, f: Field, v: real, place: Placement): (r: State)
    ensures Get(r, f) == v
    ensures forall g :: g != f && !IsCoordinate(g) ==> Get(r, g) == Get(s, g)
    ensures Steers(f) ==> Placed(r, place)
    ensures !Steers(f) ==> forall g :: g != f ==> Get(r, g) == Get(s, g)
  {
    var t := Set(s, f, v);
    if Steers(f) then Recompute(t, place) else t
  }

  /** `update_parameter`: validates the name and the sign, then assigns exactly one field. */
  function UpdateParameter(s: State, name: string, value: real, place: Placement): (r: (State, Reply))
    ensures r.1.Accepted? <==> FieldOf(name).Some? && (value >= 0.0 || !Guarded(FieldOf(name).value))
    ensures r.1.Rejected? ==> r.0 == s
    ensures FieldOf(name).None? ==> r.1 == Rejected("Parameter " + name + " not found")
    ensures FieldOf(name) == Some(Gravity) && value < 0.0 ==> r.1 == Rejected("Gravity cannot be negative")
    ensures (FieldOf(name).Some? && Guarded(FieldOf(name).value) && !FieldOf(name).value.Gravity? && value < 0.0)
              ==> r.1 == Rejected("Parameter " + name + " cannot be negative")
    ensures r.1.Accepted? ==>
              var f := FieldOf(name).value;
              && r.1 == Accepted(name, value)
              && Get(r.0, f) == value
              && (forall g :: g != f && !IsCoordinate(g) ==> Get(r.0, g) == Get(s, g))
              && (Steers(f) ==> Placed(r.0, place))
              && (!Steers(f) ==> forall g :: g != f ==> Get(r.0, g) == Get(s, g))
  {
    match CheckParameter(name, value)
    case Err(p) => (s, Rejected(Message(p)))
    case Ok(f) => (Assign(s, f, value, place), Accepted(name, value))
  }

  /** `update_initial_condition`: any value for any known name; only an unknown name is refused. */
  function UpdateInitialCondition(s: State, name: string, value: real, place: Placement): (r: (State, Reply))
    ensures r.1.Accepted? <==> FieldOf(name).Some?
    ensures r.1.Rejected? ==> r.0 == s && r.1.error == "Condition " + name + " not found"
    ensures r.1.Accepted? ==>
              var f := FieldOf(name).value;
              && r.1 == Accepted(name, value)
              && Get(r.0, f) == value
              && (forall g :: g != f && !IsCoordinate(g) ==> Get(r.0, g) == Get(s, g))
              && (Steers(f) ==> Placed(r.0, place))
              && (!Steers(f) ==> forall g :: g != f ==> Get(r.0, g) == Get(s, g))
  {
    match FieldOf(name)
    case None => (s, Rejected(Message(ConditionNotFound(name))))
    case Some(f) => (Assign(s, f, value, place), Accepted(name, value))
  }

  /** `reset_simulation`: the pendulum is replaced by a freshly constructed one. */
  function ResetSimulation(s: State, place: Placement): (r: (State, string))
    ensures r.0 == Defaults(place)
    ensures Physical(r.0) && Placed(r.0, place)
    ensures r.1 == "Simulation reset to defaults"
  {
    (Defaults(place), "Simulation reset to defaults")
  }

  /** A parameter update never makes a rod length, a mass or gravity negative. */
  lemma UpdateParameterKeepsPhysical(s: State, name: string, value: real, place: Placement)
    requires Physical(s)
    ensures Physical(UpdateParameter(s, name, value, place).0)
  {
  }

  /** The initial-condition endpoint skips the sign check: it accepts a
      negative gravity, which the parameter endpoint refuses, and the
      resulting pendulum is no longer physical. */
  lemma InitialConditionSkipsSignCheck(s: State, place: Placement)
    ensures UpdateParameter(s, "g", -1.0, place).1.Rejected?
    ensures UpdateInitialCondition(s, "g", -1.0, place).1.Accepted?
    ensures !Physical(UpdateInitialCondition(s, "g", -1.0, place).0)
  {
    GravityByName();
    var p := UpdateParameter(s, "g", -1.0, place);
    assert p.1.Rejected?;
    var r := UpdateInitialCondition(s, "g", -1.0, place);
    assert r.1.Accepted?;
    assert Get(r.0, Gravity) == -1.0;
  }

  /** The request name "g" denotes the gravity field. */
  lemma GravityByName()
    ensures FieldOf("g") == Some(Gravity)
  {
    FieldOfNameOf(Gravity);
  }

  /** Wherever the parameter endpoint accepts a request, the initial-condition
      endpoint does exactly the same; it accepts more only for negative
      guarded values. */
  lemma InitialConditionExtendsParameter(s: State, name: string, value: real, place: Placement)
    ensures UpdateParameter(s, name, value, place).1.Accepted? ==>
              UpdateInitialCondition(s, name, value, place) == UpdateParameter(s, name, value, place)
    ensures (UpdateInitialCondition(s, name, value, place).1.Accepted? && !UpdateParameter(s, name, value, place).1.Accepted?)
              <==> FieldOf(name).Some? && Guarded(FieldOf(name).value) && value < 0.0
  {
  }

  /** Repeating an accepted or refused parameter update changes nothing further. */
  lemma UpdateParameterIdempotent(s: State, name: string, value: real, place: Placement)
    ensures var r := UpdateParameter(s, name, value, place);
            UpdateParameter(r.0, name, value, place) == r
  {
  }

  /** A single update leaves the stored positions consistent with the pose,
      unless it writes the pivot (not followed by a refresh) or a position
      field itself. */
  lemma UpdateParameterKeepsPlacement(s: State, f: Field, value: real, place: Placement)
    requires Placed(s, place)
    requires !f.OriginX? && !f.OriginY? && !IsCoordinate(f)
    ensures Placed(UpdateParameter(s, NameOf(f), value, place).0, place)
  {
    FieldOfNameOf(f);
    var r := UpdateParameter(s, NameOf(f), value, place);
    if r.1.Accepted? && !Steers(f) {
      assert Get(r.0, OriginX) == Get(s, OriginX) && Get(r.0, OriginY) == Get(s, OriginY);
      assert Get(r.0, LengthRod1) == Get(s, LengthRod1) && Get(r.0, LengthRod2) == Get(s, LengthRod2);
      assert Get(r.0, Theta1) == Get(s, Theta1) && Get(r.0, Theta2) == Get(s, Theta2);
      assert Get(r.0, X1) == Get(s, X1) && Get(r.0, Y1) == Get(s, Y1);
      assert Get(r.0, X2) == Get(s, X2) && Get(r.0, Y2) == Get(s, Y2);
    }
  }
}
