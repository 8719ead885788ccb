# Object-capability contract checker (MiniCore `validate.c`)

MiniCore objects do not inherit from each other. Each object declares five
boolean capability flags instead: drawable, interactable, can hold cards, has
buttons, dynamic. For every flag it sets, the object supplies an interface
bundle of function pointers. `validate_object_interfaces` checks that every
declared capability has a bundle, and that the bundle supplies every entry
point its kind requires. For a card handler this includes the entry points
that its own `can_give_cards` / `can_take_cards` flags make mandatory. The
checker walks a fixed table of five (flag, bundle, validator) entries in
order and stops at the first violation.

This project models that checker in Dafny and proves what it reports.

- `interfaces.dfy`, module `Interfaces`: the data model. It holds the five
  bundle kinds, with one boolean per entry point for "pointer is non-NULL".
  It also holds `ObjectInterfaces`, in which each bundle slot is an `Option`,
  and the structured `Diagnostic` (object name, bundle kind, `BundleAbsent`
  or `Missing(entry point)`) that replaces the printed error line. Each bundle
  kind carries its table of required entry points in checking order
  (`Required`), and the set it actually supplies (`Provided`). `FirstMissing`
  picks the earliest required entry point that is not supplied.
- `validate.dfy`, module `Validate`: the five static validators as pure
  functions that follow the C early returns branch for branch. The card
  handler's two flag-guarded blocks are the helpers `GiveSideCheck` and
  `TakeSideCheck`. The registry (`Registry`, the C `validators[]` array) is a
  fixed sequence of `Validator` values. Each value pairs a flag with a bundle
  slot, and `Run` dispatches to the matching validator. The engine
  `ValidateObjectInterfaces` builds the table and hands it to
  `WalkRegistry`, the C `for` loop written as a `while` loop. The engine is
  proved equal to the functional specification `Check`. Its ghost result
  `invoked` equals `Invoked`, the positions of the validators it actually
  calls.
- `properties.dfy`, module `ValidateProperties`: the lemmas. Each validator
  agrees with its bundle's table of required entry points. The engine accepts
  exactly the objects that satisfy the capability invariant (`WellFormed`).
  It reports the first failing entry in registry order and calls no
  validator after it. A clear flag's bundle is never looked at.

The engine returns an `Outcome` (`Pass`, or `Fail(diagnostic)`) where the C
function returns `bool` and prints one line: `Pass` is `true`. Validation
only reads its input. The object is a value, the method has no `modifies`
clause, and `ValidateTwice` shows that two calls agree.

`validate_card_handler` reads five entry points: `select_cards`,
`get_cards`, `is_same_card`, `can_place` and `place_cards`.

## Model

| member | source | states |
|---|---|---|
| `Interfaces.FirstMissing` | core/src/validate.c:40-48 | Returns `None` exactly when every required entry point is supplied. Otherwise it returns the earliest missing one in checking order. |
| `Interfaces.FirstMissingConcat` | core/src/validate.c:60-87 | Checking two requirement lists one after the other finishes the first list before it looks at the second. |
| `ValidateProperties.DrawableMatchesTable` | core/src/validate.c:19-31 | An absent Drawable bundle fails as `BundleAbsent`. A present one fails naming `print` exactly when `print` is missing, and passes otherwise. |
| `ValidateProperties.InteractableMatchesTable` | core/src/validate.c:33-51 | An absent Interactable bundle fails as `BundleAbsent`. A present one reports the first of `move`, `place_cursor` that is missing, or passes. |
| `ValidateProperties.GiveSideMatchesTable` | core/src/validate.c:60-75 | When `can_give_cards` is set, the give-side block reports the first missing of `select_cards`, `get_cards`, `is_same_card`. When it is clear, the block requires nothing. |
| `ValidateProperties.TakeSideMatchesTable` | core/src/validate.c:77-87 | When `can_take_cards` is set, the take-side block reports the first missing of `can_place`, `place_cards`. When it is clear, the block requires nothing. |
| `ValidateProperties.CardHandlerMatchesTable` | core/src/validate.c:53-89 | An absent CardHandler bundle fails as `BundleAbsent`. A present one reports the earliest missing entry of its conditional table (give side, then take side), or passes. |
| `ValidateProperties.ButtonHandlerMatchesTable` | core/src/validate.c:91-109 | An absent ButtonHandler bundle fails as `BundleAbsent`. A present one reports the first of `is_button_position`, `handle_button` that is missing, or passes. |
| `ValidateProperties.DynamicMatchesTable` | core/src/validate.c:111-124 | An absent Dynamic bundle fails as `BundleAbsent`. A present one fails naming `free` exactly when `free` is missing. |
| `ValidateProperties.RunMatchesTable` | core/src/validate.c:127-133 | A registry entry's validator passes exactly when its bundle is present and complete. A failure it reports carries the object's name and that entry's bundle kind. |
| `Validate.Registry` | core/src/validate.c:127-133 | The table has five entries, and their kinds are in the order Drawable, Interactable, CardHandler, ButtonHandler, Dynamic. |
| `ValidateProperties.FirstFailureCharacterized` | core/src/validate.c:135-142 | The walk passes exactly when every remaining entry passes. Otherwise it returns the verdict of the first entry that does not pass. |
| `Validate.WalkRegistry` | core/src/validate.c:135-142 | The loop over the table returns the walk's specified outcome (`FirstFailureFrom`). The validators it calls are exactly those that `InvokedFrom` lists. |
| `Validate.ValidateObjectInterfaces` | core/src/validate.c:126-143 | The engine's outcome equals `Check(o)`. The validators it calls are exactly `Invoked(o)`. |
| `Validate.ValidateTwice` | core/src/validate.c:126-143 | Validating the same object twice gives the same outcome, and runs the same validators, both times. |
| `ValidateProperties.InvokedCharacterized` | core/src/validate.c:135-140 | The validators called are, in increasing registry order, the flagged entries that no earlier entry has stopped. |
| `ValidateProperties.CardHandlerCompleteIff` | core/src/validate.c:53-89 | A present card handler is complete exactly when `can_give_cards` implies its three give entry points and `can_take_cards` implies its two take entry points. |
| `ValidateProperties.AcceptsExactlyWellFormed` | core/src/validate.c:126-143 | The engine passes an object if and only if every flagged capability has a present bundle that supplies all its required entry points. |
| `ValidateProperties.ReportsFirstFailing` | core/src/validate.c:135-140 | If entry `k` is the first entry that does not pass, the engine reports exactly its violation, of kind `Order[k]`. It calls validator `k`, and none after it. |
| `ValidateProperties.FailureComesFromFirstFailing` | core/src/validate.c:135-140 | Every reported failure belongs to the first entry, in registry order, that does not pass. |
| `ValidateProperties.WalkDependsOnlyOnSeen` | core/src/validate.c:135-140 | Two tables that agree on flags, and on the verdicts of flagged entries, up to the point where the walk stops give the same outcome and the same calls. |
| `ValidateProperties.SwapUnflaggedEntry` | core/src/validate.c:137 | Replacing an unflagged entry by another unflagged entry changes neither the outcome nor the calls. |
| `ValidateProperties.UnflaggedDrawableIgnored` | core/src/validate.c:137 | When the `is_drawable` flag is clear, any Drawable bundle in its slot, absent included, leaves the outcome and the calls unchanged. |
| `ValidateProperties.UnflaggedInteractableIgnored` | core/src/validate.c:137 | When the `is_interactable` flag is clear, any Interactable bundle in its slot, absent included, leaves the outcome and the calls unchanged. |
| `ValidateProperties.UnflaggedCardHandlerIgnored` | core/src/validate.c:137 | When the `can_hold_cards` flag is clear, any CardHandler bundle in its slot, absent included, leaves the outcome and the calls unchanged. |
| `ValidateProperties.UnflaggedButtonHandlerIgnored` | core/src/validate.c:137 | When the `have_buttons` flag is clear, any ButtonHandler bundle in its slot, absent included, leaves the outcome and the calls unchanged. |
| `ValidateProperties.UnflaggedDynamicIgnored` | core/src/validate.c:137 | When the `is_dynamic` flag is clear, any Dynamic bundle in its slot, absent included, leaves the outcome and the calls unchanged. |
| `ValidateProperties.UnflaggedNeverInvoked` | core/src/validate.c:137 | The validator of an entry whose flag is clear is never called. |
| `ValidateProperties.LaterEntriesNotEvaluated` | core/src/validate.c:137-139 | After the first failing entry nothing matters: objects that agree up to it get the same outcome and the same calls. |
| `ValidateProperties.FlaggedAbsentBundleFails` | core/src/validate.c:19-124 | A flagged capability with no bundle makes validation fail. For Drawable, checked first, the report is exactly Drawable `BundleAbsent`. |
| `ValidateProperties.EarliestMissingEntryReported` | core/src/validate.c:33-109 | Within one bundle the earliest missing entry point is named: `move` before `place_cursor`, `is_button_position` before `handle_button`, and `select_cards` before `get_cards` before `is_same_card`. |
| `ValidateProperties.GiveSideCheckedFirst` | core/src/validate.c:60-87 | A give-side violation is reported whatever the take side holds. With the give side complete, the card handler's verdict is the take side's. |
| `ValidateProperties.NeitherGiveNorTakeAlwaysPasses` | core/src/validate.c:53-89 | A present card handler whose two flags are both clear passes, whichever entry points are missing. |
| `ValidateProperties.DrawableReportedBeforeDynamic` | core/src/validate.c:127-139 | With both Drawable and Dynamic flagged and absent, only the Drawable violation is reported, and the Dynamic validator is never called. |
| `ValidateProperties.ClockIsAccepted` | core/src/validate.c:111-143 | Any object named "Clock" whose only set flag is `is_dynamic`, with a Dynamic bundle that supplies `free`, is accepted whatever its other slots hold, and only the Dynamic validator runs. |

## Left out

- The `wprintf` diagnostic output and its exact wide-character text, including the different quoting of the object name in the Drawable messages. This is I/O; the model returns a structured `Diagnostic` instead.
- What the entry points do when called. They call into code outside this component, so the model tracks only whether each pointer is non-NULL.
- The struct layouts, the `VALIDATOR` macro and the `InterfaceValidator` type. They are declared in `core/inc/core.h`, which is not part of this model. The `void*` casts between them are replaced by one typed `Validator` datatype with a variant per bundle kind. Bundle fields that `validate.c` never reads are not modelled.
- A NULL top-level `interfaces` pointer. The C code dereferences it without a check. In the model the object is a value, so the case cannot arise.
- Concurrent mutation of the object during a call. The model takes the object as an immutable value.
