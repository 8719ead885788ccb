/**
 * The contract checker: five per-bundle validators, the fixed registry of
 * (flag, bundle, validator) entries, and the fail-fast engine that walks it.
 *
 * Instead of printing a diagnostic line and returning a boolean, every check
 * returns an `Outcome`: `Pass`, or `Fail` carrying the object's name, the
 * bundle kind and the violation that the printed line would describe.
 */
module Validate {
  import opened Interfaces

  /*** The five per-bundle validators: straight-line checks with early returns. ***/

  function ValidateDrawable(name: string, drawable: Option<Drawable>): Outcome
  {
    if drawable.None? then Fail(Diagnostic(name, DrawableKind, BundleAbsent))
    else if !drawable.value.printFn then Fail(Diagnostic(name, DrawableKind, Missing(Print)))
    else Pass
  }

  function ValidateInteractable(name: string, interactable: Option<Interactable>): Outcome
  {
    if interactable.None? then Fail(Diagnostic(name, InteractableKind, BundleAbsent))
    else if !interactable.value.move then Fail(Diagnostic(name, InteractableKind, Missing(Move)))
    else if !interactable.value.placeCursor then Fail(Diagnostic(name, InteractableKind, Missing(PlaceCursor)))
    else Pass
  }

  /** The checks a card handler's `canGiveCards` flag switches on. */
  function GiveSideCheck(name: string, h: CardHandler): Outcome
  {
    if !h.canGiveCards then Pass
    else if !h.selectCards then Fail(Diagnostic(name, CardHandlerKind, Missing(SelectCards)))
    else if !h.getCards then Fail(Diagnostic(name, CardHandlerKind, Missing(GetCards)))
    else if !h.isSameCard then Fail(Diagnostic(name, CardHandlerKind, Missing(IsSameCard)))
    else Pass
  }

  /** The checks a card handler's `canTakeCards` flag switches on. */
  function TakeSideCheck(name: string, h: CardHandler): Outcome
  {
    if !h.canTakeCards then Pass
    else if !h.canPlace then Fail(Diagnostic(name, CardHandlerKind, Missing(CanPlace)))
    else if !h.placeCards then Fail(Diagnostic(name, CardHandlerKind, Missing(PlaceCards)))
    else Pass
  }

  function ValidateCardHandler(name: string, handler: Option<CardHandler>): Outcome
  {
    if handler.None? then Fail(Diagnostic(name, CardHandlerKind, BundleAbsent))
    else if GiveSideCheck(name, handler.value).Fail? then GiveSideCheck(name, handler.value)
    else TakeSideCheck(name, handler.value)
  }

  function ValidateButtonHandler(name: string, handler: Option<ButtonHandler>): Outcome
  {
    if handler.None? then Fail(Diagnostic(name, ButtonHandlerKind, BundleAbsent))
    else if !handler.value.isButtonPosition then Fail(Diagnostic(name, ButtonHandlerKind, Missing(IsButtonPosition)))
    else if !handler.value.handleButton then Fail(Diagnostic(name, ButtonHandlerKind, Missing(HandleButton)))
    else Pass
  }

  function ValidateDynamic(name: string, dynamic: Option<Dynamic>): Outcome
  {
    if dynamic.None? then Fail(Diagnostic(name, DynamicKind, BundleAbsent))
    else if !dynamic.value.free then Fail(Diagnostic(name, DynamicKind, Missing(Free)))
    else Pass
  }

  /*** The reference: what any one bundle check must report. ***/

  /**
   * A present bundle passes when every required entry point is provided and
   * otherwise reports the earliest one, in checking order, that is not.
   */
  function Verdict(name: string, kind: BundleKind, required: seq<EntryPoint>, provided: set<EntryPoint>): Outcome
  {
    match FirstMissing(required, provided)
    case None => Pass
    case Some(e) => Fail(Diagnostic(name, kind, Missing(e)))
  }

  /*** The registry: one entry per capability, holding its flag and its bundle slot. ***/

  datatype Validator =
    | DrawableEntry(flag: bool, drawable: Option<Drawable>)
    | InteractableEntry(flag: bool, interactable: Option<Interactable>)
    | CardHandlerEntry(flag: bool, cardHandler: Option<CardHandler>)
    | ButtonHandlerEntry(flag: bool, buttonHandler: Option<ButtonHandler>)
    | DynamicEntry(flag: bool, dynamic: Option<Dynamic>)
  {
    function Kind(): BundleKind
    {
      match this
      case DrawableEntry(_, _) => DrawableKind
      case InteractableEntry(_, _) => InteractableKind
      case CardHandlerEntry(_, _) => CardHandlerKind
      case ButtonHandlerEntry(_, _) => ButtonHandlerKind
      case DynamicEntry(_, _) => DynamicKind
    }

    /** Whether the bundle slot holds a bundle (a non-NULL pointer). */
    predicate HasBundle()
    {
      match this
      case DrawableEntry(_, b) => b.Some?
      case InteractableEntry(_, b) => b.Some?
      case CardHandlerEntry(_, b) => b.Some?
      case ButtonHandlerEntry(_, b) => b.Some?
      case DynamicEntry(_, b) => b.Some?
    }

    /** The entry points the bundle must supply, in checking order. */
    function Required(): seq<EntryPoint>
      requires HasBundle()
    {
      match this
      case DrawableEntry(_, b) => b.value.Required()
      case InteractableEntry(_, b) => b.value.Required()
      case CardHandlerEntry(_, b) => b.value.Required()
      case ButtonHandlerEntry(_, b) => b.value.Required()
      case DynamicEntry(_, b) => b.value.Required()
    }

    function Provided(): set<EntryPoint>
      requires HasBundle()
    {
      match this
      case DrawableEntry(_, b) => b.value.Provided()
      case InteractableEntry(_, b) => b.value.Provided()
      case CardHandlerEntry(_, b) => b.value.Provided()
      case ButtonHandlerEntry(_, b) => b.value.Provided()
      case DynamicEntry(_, b) => b.value.Provided()
    }

    /** Calls this entry's validator on its bundle slot. */
    function Run(name: string): Outcome
    {
      match this
      case DrawableEntry(_, b) => ValidateDrawable(name, b)
      case InteractableEntry(_, b) => ValidateInteractable(name, b)
      case CardHandlerEntry(_, b) => ValidateCardHandler(name, b)
      case ButtonHandlerEntry(_, b) => ValidateButtonHandler(name, b)
      case DynamicEntry(_, b) => ValidateDynamic(name, b)
    }
  }

  /** The fixed, ordered table of validators built from an object. */
  function Registry(o: ObjectInterfaces): (r: seq<Validator>)
    ensures |r| == |Order|
    ensures forall i :: 0 <= i < |r| ==> r[i].Kind() == Order[i]
  {
    [ DrawableEntry(o.isDrawable, o.drawable),
      InteractableEntry(o.isInteractable, o.interactable),
      CardHandlerEntry(o.canHoldCards, o.cardHandler),
      ButtonHandlerEntry(o.haveButtons, o.buttonHandler),
      DynamicEntry(o.isDynamic, o.dynamic) ]
  }

  /** An entry passes when its flag is clear or its validator succeeds. */
  predicate Passes(v: Validator, name: string)
  {
    !v.flag || v.Run(name).Pass?
  }

  /** Entry `k` is the first entry of `entries` that does not pass. */
  predicate FirstFailingAt(entries: seq<Validator>, name: string, k: int)
  {
    0 <= k < |entries| && !Passes(entries[k], name)
    && forall j :: 0 <= j < k ==> Passes(entries[j], name)
  }

  /*** The functional specification of the engine. ***/

  /** The outcome of walking `entries` from position `i` on, stopping at the first failure. */
  function FirstFailureFrom(entries: seq<Validator>, name: string, i: nat): Outcome
    requires i <= |entries|
    decreases |entries| - i
  {
    if i == |entries| then Pass
    else if entries[i].flag && entries[i].Run(name).Fail? then entries[i].Run(name)
    else FirstFailureFrom(entries, name, i + 1)
  }

  /** The positions of the validators actually called when walking `entries` from `i` on. */
  function InvokedFrom(entries: seq<Validator>, name: string, i: nat): seq<nat>
    requires i <= |entries|
    decreases |entries| - i
  {
    if i == |entries| then []
    else if !entries[i].flag then InvokedFrom(entries, name, i + 1)
    else if entries[i].Run(name).Fail? then [i]
    else [i] + InvokedFrom(entries, name, i + 1)
  }

  /** The outcome `validate_object_interfaces` reports for `o`. */
  function Check(o: ObjectInterfaces): Outcome
  {
    FirstFailureFrom(Registry(o), o.name, 0)
  }

  /** The registry positions whose validators are called for `o`. */
  function Invoked(o: ObjectInterfaces): seq<nat>
  {
    InvokedFrom(Registry(o), o.name, 0)
  }

  /*** The engine. ***/

  /**
   * The loop of `validate_object_interfaces`: walks the table in order. An
   * entry whose flag is clear is skipped without calling its validator; the
   * first validator that fails ends the walk with its diagnostic. `invoked`
   * records the positions of the validators that ran.
   */
  method WalkRegistry(validators: seq<Validator>, name: string) returns (r: Outcome, ghost invoked: seq<nat>)
    ensures r == FirstFailureFrom(validators, name, 0)
    ensures invoked == InvokedFrom(validators, name, 0)
  {
    invoked := [];
    var i := 0;
    while i < |validators|
      invariant 0 <= i <= |validators|
      invariant forall j :: 0 <= j < i ==> Passes(validators[j], name)
      invariant FirstFailureFrom(validators, name, 0) == FirstFailureFrom(validators, name, i)
      invariant InvokedFrom(validators, name, 0) == invoked + InvokedFrom(validators, name, i)
    {
      var v := validators[i];
      if v.flag {
        invoked := invoked + [i];
        var outcome := v.Run(name);
        if outcome.Fail? {
          return outcome, invoked;
        }
      }
      i := i + 1;
    }
    return Pass, invoked;
  }

  /** Builds the five-entry table for `o` and walks it. */
  method ValidateObjectInterfaces(o: ObjectInterfaces) returns (r: Outcome, ghost invoked: seq<nat>)
    ensures r == Check(o)
    ensures invoked == Invoked(o)
  {
    var validators := Registry(o);
    r, invoked := WalkRegistry(validators, o.name);
  }

  /**
   * Validation only reads its input: two calls on the same object agree,
   * in outcome and in which validators they run.
   */
  method ValidateTwice(o: ObjectInterfaces)
    returns (first: Outcome, second: Outcome, ghost ran1: seq<nat>, ghost ran2: seq<nat>)
    ensures first == second
    ensures first == Check(o)
    ensures ran1 == ran2 == Invoked(o)
  {
    first, ran1 := ValidateObjectInterfaces(o);
    second, ran2 := ValidateObjectInterfaces(o);
  }
}
