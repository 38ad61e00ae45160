# Double pendulum: parameter-update endpoints

This project models the state-changing HTTP endpoints of the double pendulum
simulator's Flask server (`app.py`). A `Double_Pendulum` object holds 17 data
attributes:

- the pivot `origin_x`, `origin_y`;
- the rod lengths `length_rod_1`, `length_rod_2`;
- the masses `mass_rod_1`, `mass_rod_2`, `mass_bob_1`, `mass_bob_2`;
- the gravity `g`;
- the angles and angular velocities `theta_1`, `theta_2`, `omega_1`, `omega_2`;
- the derived bob positions `x_1`, `y_1`, `x_2`, `y_2`.

Four endpoints change this object:

- `update_parameter` validates one (name, value) pair and assigns one attribute;
- `update_initial_condition` assigns any known attribute without a sign check;
- `update_preset` applies a whole JSON object of pairs, skipping and reporting the invalid ones;
- `reset_simulation` replaces the object with a freshly constructed one.

Each endpoint is a pure Dafny function from the current pendulum and the
parsed request to the next pendulum and the reply body.

Layout:

- `outcome.dfy` — `Option` and `Result`.
- `pendulum.dfy` — module `Pendulum`: the `Field` enumeration and its attribute
  names, the `State` record, `Get`/`Set`, the constructor defaults, and the
  recomputation of the bob positions.
- `validation.dfy` — module `Validation`: the name and sign checks and the
  error texts.
- `handlers.dfy` — module `Handlers`: `update_parameter`,
  `update_initial_condition` and `reset_simulation`.
- `search.dfy` — module `Search`: the position of the last element of a
  sequence that satisfies a predicate.
- `preset.dfy` — module `Preset`: the loop of `update_preset` as a recursive
  fold, with independent reference definitions of its outcome.

The bob positions come from sine/cosine formulas. The model takes these
formulas as a parameter `place: Placement` (a map from the pivot, lengths and
angles to the four positions). So the model states *when* the positions are
refreshed and *that* they then agree with the pose, without computing them.
The default angle `math.pi / 2` is the real 1.5707963267948966, the shortest
decimal of that double.

The known names are the 17 data attributes. Python's `hasattr` also admits
the class's methods and the attributes every object has; the model does not.

## Model

| member | source | states |
|---|---|---|
| Pendulum.FieldOf | app.py:353-357 | a name is known iff it is the name of one of the data attributes, and then it denotes exactly that attribute |
| Pendulum.FieldOfNameOf | app.py:48-73 | every attribute set by the constructor is found under its own name (names are distinct) |
| Pendulum.Set | app.py:390 | `setattr` gives the named attribute the new value and changes no other attribute |
| Pendulum.Recompute | app.py:393-409 | the refresh writes only `x_1`, `y_1`, `x_2`, `y_2`, and afterwards they agree with the pivot, lengths and angles |
| Pendulum.Defaults | app.py:31-73 | a new pendulum has pivot (300, 100), lengths 120, all four masses 10, g 9.81, angles pi/2, angular velocities 0, positions placed from that pose, and no negative length, mass or gravity |
| Validation.CheckParameter | app.py:352-387 | a pair passes iff the name is an attribute and the value is non-negative or the attribute is not a length, mass or gravity (0 passes); an unknown name yields "not found" for that name, a negative `g` the gravity error, another negative guarded value the "cannot be negative" error for that name |
| Validation.MessageInjective | app.py:353-387 | distinct problems get distinct error texts, so the reply's errors identify what was refused |
| Validation.AcceptedKeepsPhysical | app.py:359-390 | assigning a value that passed the checks keeps every length, mass and gravity non-negative |
| Handlers.Assign | app.py:390-409 | the assignment sets the named attribute; other non-position attributes are unchanged; the positions are refreshed iff a rod length or an angle was written, and otherwise nothing else changes |
| Handlers.UpdateParameter | app.py:346-411 | an unknown name or a negative length, mass or gravity is refused with the source's error text and no state change; an accepted request echoes the name and value, sets exactly that attribute, and refreshes positions only for a rod length or an angle |
| Handlers.UpdateInitialCondition | app.py:416-453 | every known name is accepted with any value, including a negative one; an unknown name is refused with "Condition ... not found" and no state change; the accepted effect is the same single assignment and refresh rule |
| Handlers.ResetSimulation | app.py:519-524 | reset yields the constructor defaults whatever the previous state was, with no negative length, mass or gravity and positions placed |
| Handlers.UpdateParameterKeepsPhysical | app.py:359-390 | a parameter update never makes a rod length, a mass or gravity negative |
| Handlers.InitialConditionSkipsSignCheck | app.py:423-432 | a negative `g` is refused by the parameter endpoint but accepted by the initial-condition endpoint, leaving a pendulum with negative gravity |
| Handlers.InitialConditionExtendsParameter | app.py:416-453 | where the parameter endpoint accepts, the initial-condition endpoint gives the identical result; it accepts additionally exactly the negative values for lengths, masses and gravity |
| Handlers.UpdateParameterIdempotent | app.py:389-409 | sending the same parameter update twice leaves the same pendulum and reply as sending it once |
| Handlers.UpdateParameterKeepsPlacement | app.py:392-409 | if the positions agreed with the pose before, they still agree after any update of an attribute other than the pivot or a position |
| Search.LastWhere | app.py:464-484 | the search behind "the last assignment wins": the result is -1 or a position whose element matches, and no later element matches |
| Search.LastWhereCons | app.py:464-484 | an element put in front is found only when the rest has no match; a match in the rest moves one place |
| Preset.AcceptedNames | app.py:464-485 | every reported updated name is the name of a request entry that passed the checks |
| Preset.Rejections | app.py:464-481 | one error per refused entry: errors plus updated names number the entries, and there are no errors iff every entry passed |
| Preset.LastAcceptedAt | app.py:483-484 | the reference outcome per field, searched from the end: the position of an accepted entry naming the field after which no accepted entry names it, or -1 iff no accepted entry names it |
| Preset.LastAcceptedCons | app.py:464-485 | an entry earlier in the request decides a field only when no later accepted entry sets it |
| Preset.ApplyEntries | app.py:464-485 | the loop's updated list and error list are exactly the accepted names and the refusals, in request order, and together number the entries |
| Preset.ApplyEntriesLastWins | app.py:483-484 | after the loop every field holds the value of the last accepted entry naming it, or its old value if none |
| Preset.SteeringNamesAreSteers | app.py:488-491 | the four keys that trigger the preset refresh are exactly the names of the rod lengths and angles |
| Preset.UpdatePreset | app.py:457-515 | success iff every entry passed, iff the error list is empty; the updated list equals the accepted names; updated plus errors number the entries; non-position fields take the last accepted value or keep their old one; positions are refreshed whenever a rod length or angle key is present, even if refused |
| Preset.PresetRefusedEntryKeepsField | app.py:465-481 | in a request with distinct keys, a refused entry's attribute keeps its old value even if other entries were applied |
| Preset.PresetAcceptedEntryApplied | app.py:483-485 | in a request with distinct keys, an accepted entry's value stays applied whether or not the request as a whole failed (no rollback) |
| Preset.AcceptedNamesAppend | app.py:485 | the updated list of a request split in two is the first part's list followed by the second's, i.e. request order is kept |
| Preset.LastAcceptedGuarded | app.py:469-484 | the last accepted value for a length, mass or gravity is never negative |
| Preset.PresetKeepsPhysical | app.py:469-484 | a preset never makes a rod length, a mass or gravity negative |
| Preset.SingleAcceptedPresetIsUpdateParameter | app.py:464-491 | a one-entry preset with a valid entry yields the same pendulum as the parameter endpoint and reports that one name |
| Preset.SingleRefusedPresetIsUpdateParameter | app.py:464-491 | a one-entry preset with an invalid entry reports the parameter endpoint's error text as its only error and no updates, and leaves the same pendulum unless a refused length or angle refreshes out-of-date positions |

## Left out

- `Double_Pendulum.step`, the energy functions and `get_coords`: floating-point numerical integration and trigonometry (app.py:75-273). The position formulas are the `Placement` parameter.
- Floating point: values are Dafny reals. Rounding of inputs, NaN and infinities are not modelled. The source's `value < 0` is false for NaN, so NaN passes its checks.
- `float(data.get(...))` and its exceptions: the model takes already-parsed reals. A missing `parameter` key (`hasattr` on `None` raises) is not modelled either.
- `hasattr` on method names and built-in attributes (`step`, `get_coords`, `__class__`, ...): the model's known names are the 17 data attributes only. So assigning a number over a method is not modelled.
- Flask routing, JSON encoding, HTTP status codes, `render_template`, and the read-only routes `/`, `/coords`, `/energy` and `/state`: I/O plumbing. Replies keep only their success verdict and their texts or name lists. The key under which a single update echoes its name (`parameter` or `condition`) is not kept.
- The background `run_simulation` thread and the unsynchronised global object: concurrency (app.py:277-290, 522-523). Reset is modelled as producing the new object.
- Duplicate keys in a preset's JSON object: a request is a sequence of entries. The two per-entry preset lemmas require distinct keys, as a parsed JSON object has.
- The browser client (store, polling, debounce, renderer) is not part of this model.
