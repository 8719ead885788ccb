/**
 * The object-capability data model: an object's five capability flags, the
 * five optional interface bundles it may supply, and the structured
 * diagnostic that takes the place of the printed error line.
 *
 * Every entry point of a bundle is modelled only by whether it is present
 * (a non-NULL function pointer); what the entry points do is not modelled.
 */
module Interfaces {

  datatype Option<+T> = None | Some(value: T)

  /** The entry points the validators look at, across all five bundles. */
  datatype EntryPoint =
    | Print
    | Move | PlaceCursor
    | SelectCards | GetCards | IsSameCard | CanPlace | PlaceCards
    | IsButtonPosition | HandleButton
    | Free

  /** The five interface kinds, one per capability flag. */
  datatype BundleKind =
    | DrawableKind
    | InteractableKind
    | CardHandlerKind
    | ButtonHandlerKind
    | DynamicKind

  /** The fixed registry order in which the capabilities are checked. */
  const Order: seq<BundleKind> :=
    [DrawableKind, InteractableKind, CardHandlerKind, ButtonHandlerKind, DynamicKind]

  /** Membership of an entry point in a set, when the flag says it is present. */
  function Present(present: bool, e: EntryPoint): set<EntryPoint>
  {
    if present then {e} else {}
  }

  datatype Drawable = Drawable(printFn: bool)
  {
    /** The entry points a Drawable must supply, in checking order. */
    function Required(): seq<EntryPoint> { [Print] }
    function Provided(): set<EntryPoint> { Present(printFn, Print) }
  }

  datatype Interactable = Interactable(move: bool, placeCursor: bool)
  {
    function Required(): seq<EntryPoint> { [Move, PlaceCursor] }
    function Provided(): set<EntryPoint> { Present(move, Move) + Present(placeCursor, PlaceCursor) }
  }

  /**
   * A card handler carries two flags of its own that decide which of its
   * entry points are mandatory: giving cards needs three, taking cards two.
   */
  datatype CardHandler = CardHandler(
    canGiveCards: bool,
    canTakeCards: bool,
    selectCards: bool,
    getCards: bool,
    isSameCard: bool,
    canPlace: bool,
    placeCards: bool)
  {
    function GiveRequired(): seq<EntryPoint>
    {
      if canGiveCards then [SelectCards, GetCards, IsSameCard] else []
    }
    function TakeRequired(): seq<EntryPoint>
    {
      if canTakeCards then [CanPlace, PlaceCards] else []
    }
    /** The give-side requirements are all checked before the take-side ones. */
    function Required(): seq<EntryPoint> { GiveRequired() + TakeRequired() }
    function Provided(): set<EntryPoint>
    {
      Present(selectCards, SelectCards) + Present(getCards, GetCards) + Present(isSameCard, IsSameCard)
      + Present(canPlace, CanPlace) + Present(placeCards, PlaceCards)
    }
  }

  datatype ButtonHandler = ButtonHandler(isButtonPosition: bool, handleButton: bool)
  {
    function Required(): seq<EntryPoint> { [IsButtonPosition, HandleButton] }
    function Provided(): set<EntryPoint>
    {
      Present(isButtonPosition, IsButtonPosition) + Present(handleButton, HandleButton)
    }
  }

  datatype Dynamic = Dynamic(free: bool)
  {
    function Required(): seq<EntryPoint> { [Free] }
    function Provided(): set<EntryPoint> { Present(free, Free) }
  }

  /**
   * One object's declared contract. A bundle slot of `None` is a NULL
   * pointer. The object itself is a value, so a NULL top-level reference
   * cannot be expressed.
   */
  datatype ObjectInterfaces = ObjectInterfaces(
    name: string,
    isDrawable: bool,
    isInteractable: bool,
    canHoldCards: bool,
    haveButtons: bool,
    isDynamic: bool,
    drawable: Option<Drawable>,
    interactable: Option<Interactable>,
    cardHandler: Option<CardHandler>,
    buttonHandler: Option<ButtonHandler>,
    dynamic: Option<Dynamic>)

  /** What went wrong with one bundle. */
  datatype Violation = BundleAbsent | Missing(entry: EntryPoint)

  /** The structured form of the one diagnostic line a failure emits. */
  datatype Diagnostic = Diagnostic(objectName: string, kind: BundleKind, violation: Violation)

  /** The result of a check: success, or the first violation found. */
  datatype Outcome = Pass | Fail(diagnostic: Diagnostic)

  /** `k` is the position of the earliest required entry point not provided. */
  predicate EarliestMissing(required: seq<EntryPoint>, provided: set<EntryPoint>, k: int)
  {
    0 <= k < |required| && required[k] !in provided
    && forall j :: 0 <= j < k ==> required[j] in provided
  }

  /**
   * The first entry point of `required`, in order, that is not provided;
   * `None` when all are provided.
   */
  function FirstMissing(required: seq<EntryPoint>, provided: set<EntryPoint>): (r: Option<EntryPoint>)
    ensures r.None? <==> forall i :: 0 <= i < |required| ==> required[i] in provided
    ensures forall k :: EarliestMissing(required, provided, k) ==> r == Some(required[k])
  {
    if required == [] then None
    else if required[0] !in provided then Some(required[0])
    else
      var r := FirstMissing(required[1..], provided);
      assert forall k :: EarliestMissing(required, provided, k) ==>
        k > 0 && EarliestMissing(required[1..], provided, k - 1);
      r
  }

  /** Checking a concatenation checks the first part completely before the second. */
  lemma {:induction false} FirstMissingConcat(a: seq<EntryPoint>, b: seq<EntryPoint>, provided: set<EntryPoint>)
    ensures FirstMissing(a + b, provided) ==
      if FirstMissing(a, provided).Some? then FirstMissing(a, provided) else FirstMissing(b, provided)
  {
    if a != [] {
      assert (a + b)[1..] == a[1..] + b;
      FirstMissingConcat(a[1..], b, provided);
    } else {
      assert a + b == b;
    }
  }
}
