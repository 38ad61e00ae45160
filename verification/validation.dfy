/**
  The checks `update_parameter` and `update_preset` apply to one
  (name, value) pair before assigning it, and the error texts they report.
 */
module Validation {
  import opened Outcome
  import opened Pendulum

  /** Why a request entry was refused. */
  datatype Problem =
    | NotFound(name: string)           // no attribute of that name (parameter endpoints)
    | ConditionNotFound(name: string)  // no attribute of that name (initial-condition endpoint)
    | Negative(name: string)           // a negative rod length or mass
    | NegativeGravity                  // a negative `g`

  /** The error text the handlers put in their JSON reply. */
  function Message(p: Problem): string {
    match p
    case NotFound(n) => "Parameter " + n + " not found"
    case ConditionNotFound(n) => "Condition " + n + " not found"
    case Negative(n) => "Parameter " + n + " cannot be negative"
    case NegativeGravity => "Gravity cannot be negative"
  }

  /** Distinct problems are reported with distinct texts, so a reply's error
      list determines which problems occurred. */
  lemma MessageInjective(p: Problem, q: Problem)
    requires Message(p) == Message(q)
    ensures p == q
  {
    var m := Message(p);
    match p
    case NotFound(n) =>
      assert m[0] == 'P' && m[|m| - 1] == 'd';
      if q.NotFound? {
        assert m[10..|m| - 10] == n && m[10..|m| - 10] == q.name;
      }
    case ConditionNotFound(n) =>
      assert m[0] == 'C';
      if q.ConditionNotFound? {
        assert m[10..|m| - 10] == n && m[10..|m| - 10] == q.name;
      }
    case Negative(n) =>
      assert m[0] == 'P' && m[|m| - 1] == 'e';
      if q.Negative? {
        assert m[10..|m| - 19] == n && m[10..|m| - 19] == q.name;
      }
    case NegativeGravity =>
      assert m[0] == 'G';
  }

  /** The validation shared by `update_parameter` and every entry of
      `update_preset`: the name must be an attribute, and a rod length, a
      mass or gravity must not be negative (zero is allowed). */
  function CheckParameter(name: string, value: real): (r: Result<Field, Problem>)
    ensures r.Ok? <==> FieldOf(name).Some? && (value >= 0.0 || !Guarded(FieldOf(name).value))
    ensures r.Ok? ==> FieldOf(name) == Some(r.value) && NameOf(r.value) == name
    ensures FieldOf(name).None? ==> r == Err(NotFound(name))
    ensures r.Err? && FieldOf(name).Some? ==>
              r.error == (if FieldOf(name).value.Gravity? then NegativeGravity else Negative(name))
  {
    match FieldOf(name)
    case None => Err(NotFound(name))
    case Some(f) =>
      if f.LengthRod1? || f.LengthRod2? then
        if value < 0.0 then Err(Negative(name)) else Ok(f)
      else if f.MassBob1? || f.MassBob2? || f.MassRod1? || f.MassRod2? then
        if value < 0.0 then Err(Negative(name)) else Ok(f)
      else if f.Gravity? then
        if value < 0.0 then Err(NegativeGravity) else Ok(f)
      else Ok(f)
  }

  /** Assigning a value the check accepted keeps every guarded field non-negative. */
  lemma AcceptedKeepsPhysical(s: State, name: string, value: real)
    requires Physical(s)
    requires CheckParameter(name, value).Ok?
    ensures Physical(Set(s, CheckParameter(name, value).value, value))
  {
  }
}
