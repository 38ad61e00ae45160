/**
  The `update_preset` endpoint: a batch of (name, value) entries applied in
  request order, each valid one assigned and each invalid one skipped with
  one error, followed by one coordinate refresh.
 */
module Preset {
  import opened Outcome
  import opened Pendulum
  import opened Validation
  import opened Search
  import Handlers

  /** One key/value pair of the request's JSON object, in insertion order. */
  datatype Entry = Entry(name: string, value: real)

  /** A JSON object holds each key at most once. */
  predicate DistinctNames(entries: seq<Entry>) {
    forall i, j :: 0 <= i < j < |entries| ==> entries[i].name != entries[j].name
  }

  /** The entry passes the same checks as a single parameter update. */
  predicate Accepts(e: Entry) {
    CheckParameter(e.name, e.value).Ok?
  }

  /** The names of the accepted entries, in request order. */
  function AcceptedNames(entries: seq<Entry>): (r: seq<string>)
    ensures |r| <= |entries|
    ensures forall n :: n in r ==> exists i :: 0 <= i < |entries| && entries[i].name == n && Accepts(entries[i])
  {
    if entries == [] then []
    else
      var rest := AcceptedNames(entries[1..]);
      if Accepts(entries[0]) then [entries[0].name] + rest
      else
        assert forall n :: n in rest ==> exists i :: 1 <= i < |entries| && entries[i].name == n && Accepts(entries[i]) by {
          forall n | n in rest
            ensures exists i :: 1 <= i < |entries| && entries[i].name == n && Accepts(entries[i])
          {
            var k :| 0 <= k < |entries[1..]| && entries[1..][k].name == n && Accepts(entries[1..][k]);
            assert entries[k + 1] == entries[1..][k];
          }
        }
        rest
  }

  /** The problems of the refused entries, in request order. */
  function Rejections(entries: seq<Entry>): (r: seq<Problem>)
    ensures |r| + |AcceptedNames(entries)| == |entries|
    ensures |r| == 0 <==> forall i :: 0 <= i < |entries| ==> Accepts(entries[i])
  {
    if entries == [] then []
    else
      var rest := Rejections(entries[1..]);
      assert forall i :: 1 <= i < |entries| ==> entries[i] == entries[1..][i - 1];
      match CheckParameter(entries[0].name, entries[0].value)
      case Ok(_) => rest
      case Err(p) => [p] + rest
  }

  /** The entry names `f` and passes the checks, so the loop assigns it to `f`. */
  predicate Applies(e: Entry, f: Field) {
    e.name == NameOf(f) && Accepts(e)
  }

  /** Searching from the end of the request: the position of the last
      accepted entry that names `f`, or -1 when there is none. */
  function LastAcceptedAt(entries: seq<Entry>, f: Field): (k: int)
    ensures -1 <= k < |entries|
    ensures k >= 0 ==> Applies(entries[k], f)
    ensures forall j :: k < j < |entries| ==> !Applies(entries[j], f)
  {
    LastWhere(entries, (e: Entry) => Applies(e, f))
  }

  /** The value the last accepted entry naming `f` carries, if any. */
  function LastAccepted(entries: seq<Entry>, f: Field): Option<real> {
    var k := LastAcceptedAt(entries, f);
    if k < 0 then None else Some(entries[k].value)
  }

  /** Prepending an entry only matters for `f` when no later entry sets it. */
  lemma LastAcceptedCons(e: Entry, rest: seq<Entry>, f: Field)
    ensures LastAccepted([e] + rest, f) ==
              if LastAccepted(rest, f).Some? then LastAccepted(rest, f)
              else if Applies(e, f) then Some(e.value)
              else None
  {
    LastWhereCons(e, rest, (e: Entry) => Applies(e, f));
    var k := LastAcceptedAt(rest, f);
    if k >= 0 {
      assert ([e] + rest)[k + 1] == rest[k];
    }
  }

  /** What the loop over the request has built: the pendulum, the names of
      the applied entries and the errors of the skipped ones. */
  datatype Tally = Tally(state: State, updated: seq<string>, errors: seq<Problem>)

  /** The loop of `update_preset`: each entry is validated against the same
      rules as a single parameter update, then assigned or skipped. */
  function ApplyEntries(s: State, entries: seq<Entry>): (t: Tally)
    ensures |t.updated| + |t.errors| == |entries|
    ensures t.updated == AcceptedNames(entries)
    ensures t.errors == Rejections(entries)
    decreases |entries|
  {
    if entries == [] then Tally(s, [], [])
    else
      var e := entries[0];
      assert entries == [e] + entries[1..];
      match CheckParameter(e.name, e.value)
      case Err(p) =>
        var t := ApplyEntries(s, entries[1..]);
        Tally(t.state, t.updated, [p] + t.errors)
      case Ok(f) =>
        var s' := Set(s, f, e.value);
        var t := ApplyEntries(s', entries[1..]);
        Tally(t.state, [e.name] + t.updated, t.errors)
  }

  /** After the loop each field holds the value of the last accepted entry
      naming it, or its old value when no entry naming it was accepted. */
  lemma {:induction false} ApplyEntriesLastWins(s: State, entries: seq<Entry>, f: Field)
    ensures Get(ApplyEntries(s, entries).state, f) == LastAccepted(entries, f).GetOr(Get(s, f))
    decreases |entries|
  {
    if entries != [] {
      var e := entries[0];
      var rest := entries[1..];
      assert entries == [e] + rest;
      LastAcceptedCons(e, rest, f);
      match CheckParameter(e.name, e.value)
      case Err(p) =>
        ApplyEntriesLastWins(s, rest, f);
      case Ok(g) =>
        ApplyEntriesLastWins(Set(s, g, e.value), rest, f);
        if g != f {
          if e.name == NameOf(f) {
            NamesDistinct(f, g);
          }
        }
    }
  }

  /** The keys whose mere presence in the request triggers the coordinate refresh. */
  const SteeringNames: set<string> := {"theta_1", "theta_2", "length_rod_1", "length_rod_2"}

  /** Some key of the request is a rod length or an angle, accepted or not. */
  predicate MentionsSteering(entries: seq<Entry>) {
    exists i :: 0 <= i < |entries| && entries[i].name in SteeringNames
  }

  /** The steering names are exactly the names of the steering fields. */
  lemma SteeringNamesAreSteers(name: string)
    ensures name in SteeringNames <==> FieldOf(name).Some? && Steers(FieldOf(name).value)
  {
    if name in SteeringNames {
      SteeringNameIsSteers(name);
    }
  }

  /** Each steering key denotes a rod length or an angle. */
  lemma SteeringNameIsSteers(name: string)
    requires name in SteeringNames
    ensures FieldOf(name).Some? && Steers(FieldOf(name).value)
  {
    var f :| f in [Theta1, Theta2, LengthRod1, LengthRod2] && name == NameOf(f);
    FieldOfNameOf(f);
  }

  /** The JSON body of a preset reply. */
  datatype PresetReply =
    | Applied(parameters: seq<string>)
    | PartlyApplied(errors: seq<string>, updated: seq<string>)
  {
    /** The names of the entries that were assigned. */
    function Updated(): seq<string> {
      match this
      case Applied(ps) => ps
      case PartlyApplied(_, us) => us
    }

    /** The error texts, one per skipped entry. */
    function Errors(): seq<string> {
      match this
      case Applied(_) => []
      case PartlyApplied(es, _) => es
    }
  }

  /** The error texts of a list of problems, in order. */
  function Messages(ps: seq<Problem>): (ms: seq<string>)
    ensures |ms| == |ps|
    ensures forall i :: 0 <= i < |ps| ==> ms[i] == Message(ps[i])
  {
    if ps == [] then [] else [Message(ps[0])] + Messages(ps[1..])
  }

  /** `update_preset`: applies every valid entry, collects one error per
      invalid one, refreshes the coordinates if a rod length or an angle
      was among the keys, and succeeds only if nothing was refused. */
  function UpdatePreset(s: State, entries: seq<Entry>, place: Placement): (r: (State, PresetReply))
    ensures r.1.Applied? <==> forall i :: 0 <= i < |entries| ==> Accepts(entries[i])
    ensures r.1.Applied? <==> r.1.Errors() == []
    ensures r.1.Updated() == AcceptedNames(entries)
    ensures |r.1.Updated()| + |r.1.Errors()| == |entries|
    ensures r.1.Errors() == Messages(Rejections(entries))
    ensures forall f :: !IsCoordinate(f) ==> Get(r.0, f) == LastAccepted(entries, f).GetOr(Get(s, f))
    ensures MentionsSteering(entries) ==> Placed(r.0, place)
    ensures !MentionsSteering(entries) ==> forall f :: Get(r.0, f) == LastAccepted(entries, f).GetOr(Get(s, f))
  {
    var t := ApplyEntries(s, entries);
    assert forall f :: Get(t.state, f) == LastAccepted(entries, f).GetOr(Get(s, f)) by {
      forall f ensures Get(t.state, f) == LastAccepted(entries, f).GetOr(Get(s, f)) {
        ApplyEntriesLastWins(s, entries, f);
      }
    }
    var s' := if MentionsSteering(entries) then Recompute(t.state, place) else t.state;
    if t.errors == [] then (s', Applied(t.updated))
    else (s', PartlyApplied(Messages(t.errors), t.updated))
  }

  /** In a request with distinct keys, only the entry carrying `f`'s name can set `f`. */
  lemma OnlyEntryNaming(entries: seq<Entry>, i: nat, f: Field)
    requires DistinctNames(entries)
    requires i < |entries| && entries[i].name == NameOf(f)
    ensures LastAcceptedAt(entries, f) == (if Accepts(entries[i]) then i else -1)
  {
  }

  /** A field not written by a refresh holds the last accepted value for it, or its old value. */
  lemma UpdatePresetField(s: State, entries: seq<Entry>, place: Placement, f: Field)
    requires !IsCoordinate(f) || !MentionsSteering(entries)
    ensures Get(UpdatePreset(s, entries, place).0, f) == LastAccepted(entries, f).GetOr(Get(s, f))
  {
  }

  /** A refused entry leaves its field as it was, even when other entries
      of the same request were applied. */
  lemma PresetRefusedEntryKeepsField(s: State, entries: seq<Entry>, place: Placement, i: nat, f: Field)
    requires DistinctNames(entries)
    requires i < |entries| && !Accepts(entries[i]) && entries[i].name == NameOf(f)
    requires !IsCoordinate(f) || !MentionsSteering(entries)
    ensures Get(UpdatePreset(s, entries, place).0, f) == Get(s, f)
  {
    OnlyEntryNaming(entries, i, f);
    UpdatePresetField(s, entries, place, f);
  }

  /** An accepted entry stays applied whether or not the request as a whole
      succeeded: nothing is rolled back. */
  lemma PresetAcceptedEntryApplied(s: State, entries: seq<Entry>, place: Placement, i: nat, f: Field)
    requires DistinctNames(entries)
    requires i < |entries| && Accepts(entries[i]) && entries[i].name == NameOf(f)
    requires !IsCoordinate(f) || !MentionsSteering(entries)
    ensures Get(UpdatePreset(s, entries, place).0, f) == entries[i].value
  {
    OnlyEntryNaming(entries, i, f);
    UpdatePresetField(s, entries, place, f);
  }

  /** Accepted names keep request order: the names accepted from a request
      split in two are those of the first part followed by those of the second. */
  lemma {:induction false} AcceptedNamesAppend(a: seq<Entry>, b: seq<Entry>)
    ensures AcceptedNames(a + b) == AcceptedNames(a) + AcceptedNames(b)
    decreases |a|
  {
    if a == [] {
      assert a + b == b;
    } else {
      assert (a + b)[1..] == a[1..] + b;
      AcceptedNamesAppend(a[1..], b);
    }
  }

  /** A preset never makes a rod length, a mass or gravity negative. */
  lemma PresetKeepsPhysical(s: State, entries: seq<Entry>, place: Placement)
    requires Physical(s)
    ensures Physical(UpdatePreset(s, entries, place).0)
  {
    var r := UpdatePreset(s, entries, place);
    forall f | Guarded(f)
      ensures Get(r.0, f) >= 0.0
    {
      LastAcceptedGuarded(entries, f);
      UpdatePresetField(s, entries, place, f);
    }
  }

  /** The last accepted value of a guarded field is never negative. */
  lemma LastAcceptedGuarded(entries: seq<Entry>, f: Field)
    requires Guarded(f)
    ensures LastAccepted(entries, f).Some? ==> LastAccepted(entries, f).value >= 0.0
  {
    var k := LastAcceptedAt(entries, f);
    if k >= 0 {
      FieldOfNameOf(f);
      assert CheckParameter(NameOf(f), entries[k].value).Ok?;
    }
  }

  /** A one-entry preset whose entry passes the checks does exactly what
      the single parameter endpoint does with it. */
  lemma SingleAcceptedPresetIsUpdateParameter(s: State, e: Entry, place: Placement)
    requires Accepts(e)
    ensures UpdatePreset(s, [e], place) == (Handlers.UpdateParameter(s, e.name, e.value, place).0, Applied([e.name]))
  {
    var f := CheckParameter(e.name, e.value).value;
    assert [e][1..] == [];
    assert ApplyEntries(s, [e]) == Tally(Set(s, f, e.value), [e.name], []);
    SteeringNamesAreSteers(e.name);
    assert MentionsSteering([e]) <==> e.name in SteeringNames by {
      assert [e][0] == e;
    }
  }

  /** A one-entry preset whose entry fails the checks reports the single
      endpoint's error text as its only error; the pendulum is left as the
      single endpoint leaves it unless a refused rod length or angle forces
      a refresh of positions that were out of date. */
  lemma SingleRefusedPresetIsUpdateParameter(s: State, e: Entry, place: Placement)
    requires !Accepts(e)
    ensures var p := UpdatePreset(s, [e], place);
            var q := Handlers.UpdateParameter(s, e.name, e.value, place);
            && q.1.Rejected?
            && p.1 == PartlyApplied([q.1.error], [])
            && (Placed(s, place) || !MentionsSteering([e]) ==> p.0 == q.0)
  {
    assert [e][1..] == [];
    var p := CheckParameter(e.name, e.value).error;
    assert ApplyEntries(s, [e]) == Tally(s, [], [p]);
    assert Messages([p]) == [Message(p)];
    if Placed(s, place) {
      RecomputePlaced(s, place);
    }
  }
}
