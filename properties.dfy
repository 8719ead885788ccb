/**
 * Properties of the contract checker: each validator agrees with the
 * bundle's table of required entry points, the engine accepts exactly the
 * objects that satisfy the capability invariant, and it reports the first
 * violation in registry order without looking any further.
 */
module ValidateProperties {
  import opened Interfaces
  import opened Validate

  /*** Each validator against the table of required entry points. ***/

  lemma DrawableMatchesTable(name: string, drawable: Option<Drawable>)
    ensures drawable.None? ==>
      ValidateDrawable(name, drawable) == Fail(Diagnostic(name, DrawableKind, BundleAbsent))
    ensures drawable.Some? ==>
      ValidateDrawable(name, drawable)
        == Verdict(name, DrawableKind, drawable.value.Required(), drawable.value.Provided())
  {
  }

  lemma InteractableMatchesTable(name: string, interactable: Option<Interactable>)
    ensures interactable.None? ==>
      ValidateInteractable(name, interactable)
        == Fail(Diagnostic(name, InteractableKind, BundleAbsent))
    ensures interactable.Some? ==>
      ValidateInteractable(name, interactable)
        == Verdict(name, InteractableKind, interactable.value.Required(), interactable.value.Provided())
  {
    if interactable.Some? {
      var b := interactable.value;
      assert !b.move ==> EarliestMissing(b.Required(), b.Provided(), 0);
      assert b.move && !b.placeCursor ==> EarliestMissing(b.Required(), b.Provided(), 1);
    }
  }

  lemma GiveSideMatchesTable(name: string, h: CardHandler)
    ensures GiveSideCheck(name, h) == Verdict(name, CardHandlerKind, h.GiveRequired(), h.Provided())
  {
    var give, p := h.GiveRequired(), h.Provided();
    assert h.canGiveCards && !h.selectCards ==> EarliestMissing(give, p, 0);
    assert h.canGiveCards && h.selectCards && !h.getCards ==> EarliestMissing(give, p, 1);
    assert h.canGiveCards && h.selectCards && h.getCards && !h.isSameCard ==> EarliestMissing(give, p, 2);
  }

  lemma TakeSideMatchesTable(name: string, h: CardHandler)
    ensures TakeSideCheck(name, h) == Verdict(name, CardHandlerKind, h.TakeRequired(), h.Provided())
  {
    var take, p := h.TakeRequired(), h.Provided();
    assert h.canTakeCards && !h.canPlace ==> EarliestMissing(take, p, 0);
    assert h.canTakeCards && h.canPlace && !h.placeCards ==> EarliestMissing(take, p, 1);
  }

  lemma CardHandlerMatchesTable(name: string, handler: Option<CardHandler>)
    ensures handler.None? ==>
      ValidateCardHandler(name, handler)
        == Fail(Diagnostic(name, CardHandlerKind, BundleAbsent))
    ensures handler.Some? ==>
      ValidateCardHandler(name, handler)
        == Verdict(name, CardHandlerKind, handler.value.Required(), handler.value.Provided())
  {
    if handler.Some? {
      var h := handler.value;
      FirstMissingConcat(h.GiveRequired(), h.TakeRequired(), h.Provided());
      GiveSideMatchesTable(name, h);
      TakeSideMatchesTable(name, h);
    }
  }

  lemma ButtonHandlerMatchesTable(name: string, handler: Option<ButtonHandler>)
    ensures handler.None? ==>
      ValidateButtonHandler(name, handler)
        == Fail(Diagnostic(name, ButtonHandlerKind, BundleAbsent))
    ensures handler.Some? ==>
      ValidateButtonHandler(name, handler)
        == Verdict(name, ButtonHandlerKind, handler.value.Required(), handler.value.Provided())
  {
    if handler.Some? {
      var b := handler.value;
      assert !b.isButtonPosition ==> EarliestMissing(b.Required(), b.Provided(), 0);
      assert b.isButtonPosition && !b.handleButton ==> EarliestMissing(b.Required(), b.Provided(), 1);
    }
  }

  lemma DynamicMatchesTable(name: string, dynamic: Option<Dynamic>)
    ensures dynamic.None? ==>
      ValidateDynamic(name, dynamic) == Fail(Diagnostic(name, DynamicKind, BundleAbsent))
    ensures dynamic.Some? ==>
      ValidateDynamic(name, dynamic)
        == Verdict(name, DynamicKind, dynamic.value.Required(), dynamic.value.Provided())
  {
  }

  /*** One registry entry against the table. ***/

  /** The entry's bundle is present and supplies every entry point it requires. */
  predicate Complete(v: Validator)
  {
    v.HasBundle() && forall i :: 0 <= i < |v.Required()| ==> v.Required()[i] in v.Provided()
  }

  lemma RunMatchesTable(v: Validator, name: string)
    ensures !v.HasBundle() ==> v.Run(name) == Fail(Diagnostic(name, v.Kind(), BundleAbsent))
    ensures v.HasBundle() ==> v.Run(name) == Verdict(name, v.Kind(), v.Required(), v.Provided())
    ensures v.Run(name).Pass? <==> Complete(v)
    ensures v.Run(name).Fail? ==>
      v.Run(name).diagnostic.objectName == name && v.Run(name).diagnostic.kind == v.Kind()
  {
    match v
    case DrawableEntry(_, b) => DrawableMatchesTable(name, b);
    case InteractableEntry(_, b) => InteractableMatchesTable(name, b);
    case CardHandlerEntry(_, b) => CardHandlerMatchesTable(name, b);
    case ButtonHandlerEntry(_, b) => ButtonHandlerMatchesTable(name, b);
    case DynamicEntry(_, b) => DynamicMatchesTable(name, b);
  }

  /*** The engine against the capability invariant. ***/

  /**
   * The invariant a valid object satisfies: every capability it declares is
   * backed by a bundle, and that bundle supplies each entry point its kind
   * requires, the card handler's conditional ones included.
   */
  predicate WellFormed(o: ObjectInterfaces)
  {
    (o.isDrawable ==> o.drawable.Some? && o.drawable.value.printFn)
    && (o.isInteractable ==>
          o.interactable.Some? && o.interactable.value.move && o.interactable.value.placeCursor)
    && (o.canHoldCards ==>
          o.cardHandler.Some?
          && (o.cardHandler.value.canGiveCards ==>
                o.cardHandler.value.selectCards && o.cardHandler.value.getCards
                && o.cardHandler.value.isSameCard)
          && (o.cardHandler.value.canTakeCards ==>
                o.cardHandler.value.canPlace && o.cardHandler.value.placeCards))
    && (o.haveButtons ==>
          o.buttonHandler.Some? && o.buttonHandler.value.isButtonPosition
          && o.buttonHandler.value.handleButton)
    && (o.isDynamic ==> o.dynamic.Some? && o.dynamic.value.free)
  }

  lemma CardHandlerCompleteIff(flag: bool, h: CardHandler)
    ensures Complete(CardHandlerEntry(flag, Some(h))) <==>
      (h.canGiveCards ==> h.selectCards && h.getCards && h.isSameCard)
      && (h.canTakeCards ==> h.canPlace && h.placeCards)
  {
    var v := CardHandlerEntry(flag, Some(h));
    var req, p := v.Required(), v.Provided();
    var g := |h.GiveRequired()|;
    if h.canGiveCards {
      assert req[0] == SelectCards && req[1] == GetCards && req[2] == IsSameCard;
    }
    if h.canTakeCards {
      assert req[g] == CanPlace && req[g + 1] == PlaceCards;
    }
  }

  /** The engine accepts an object exactly when it satisfies the capability invariant. */
  lemma AcceptsExactlyWellFormed(o: ObjectInterfaces)
    ensures Check(o).Pass? <==> WellFormed(o)
  {
    var r := Registry(o);
    FirstFailureCharacterized(r, o.name, 0);
    assert Passes(r[0], o.name) <==> (o.isDrawable ==> o.drawable.Some? && o.drawable.value.printFn);
    assert Passes(r[1], o.name) <==>
      (o.isInteractable ==>
         o.interactable.Some? && o.interactable.value.move && o.interactable.value.placeCursor);
    assert Passes(r[2], o.name) <==>
      (o.canHoldCards ==>
         o.cardHandler.Some?
         && (o.cardHandler.value.canGiveCards ==>
               o.cardHandler.value.selectCards && o.cardHandler.value.getCards
               && o.cardHandler.value.isSameCard)
         && (o.cardHandler.value.canTakeCards ==>
               o.cardHandler.value.canPlace && o.cardHandler.value.placeCards));
    assert Passes(r[3], o.name) <==>
      (o.haveButtons ==>
         o.buttonHandler.Some? && o.buttonHandler.value.isButtonPosition
         && o.buttonHandler.value.handleButton);
    assert Passes(r[4], o.name) <==> (o.isDynamic ==> o.dynamic.Some? && o.dynamic.value.free);
  }

  /*** Fail-fast order across the registry. ***/

  /**
   * A walk from `i` passes exactly when every remaining entry passes, and
   * otherwise returns the verdict of the first remaining entry that does not.
   */
  lemma {:induction false} FirstFailureCharacterized(entries: seq<Validator>, name: string, i: nat)
    requires i <= |entries|
    ensures FirstFailureFrom(entries, name, i).Pass? <==>
      forall j :: i <= j < |entries| ==> Passes(entries[j], name)
    ensures forall k ::
      (i <= k < |entries| && !Passes(entries[k], name)
       && forall j :: i <= j < k ==> Passes(entries[j], name))
      ==> FirstFailureFrom(entries, name, i) == entries[k].Run(name)
    decreases |entries| - i
  {
    if i < |entries| {
      FirstFailureCharacterized(entries, name, i + 1);
    }
  }

  /**
   * The validators called on a walk from `i` are, in increasing order, the
   * flagged entries that every earlier entry of the walk lets through.
   */
  lemma {:induction false} InvokedCharacterized(entries: seq<Validator>, name: string, i: nat)
    requires i <= |entries|
    ensures forall k :: k in InvokedFrom(entries, name, i) <==>
      (i <= k < |entries| && entries[k].flag
       && forall j :: i <= j < k ==> Passes(entries[j], name))
    ensures forall a, b :: 0 <= a < b < |InvokedFrom(entries, name, i)| ==>
      InvokedFrom(entries, name, i)[a] < InvokedFrom(entries, name, i)[b]
    decreases |entries| - i
  {
    if i < |entries| {
      InvokedCharacterized(entries, name, i + 1);
      var rest := InvokedFrom(entries, name, i + 1);
      assert forall b :: 0 <= b < |rest| ==> rest[b] in rest;
    }
  }

  /**
   * When entry `k` is the first entry that does not pass, the engine reports
   * exactly its violation, names its kind, and calls no validator after it.
   */
  lemma ReportsFirstFailing(o: ObjectInterfaces, k: nat)
    requires FirstFailingAt(Registry(o), o.name, k)
    ensures Check(o).Fail?
    ensures Check(o) == Registry(o)[k].Run(o.name)
    ensures Check(o).diagnostic.kind == Order[k]
    ensures k in Invoked(o)
    ensures forall j :: j in Invoked(o) ==> j <= k
  {
    RunMatchesTable(Registry(o)[k], o.name);
    FirstFailureCharacterized(Registry(o), o.name, 0);
    InvokedCharacterized(Registry(o), o.name, 0);
  }

  /** Every failure the engine reports comes from the first entry that does not pass. */
  lemma FailureComesFromFirstFailing(o: ObjectInterfaces) returns (k: nat)
    requires Check(o).Fail?
    ensures FirstFailingAt(Registry(o), o.name, k)
    ensures Check(o) == Registry(o)[k].Run(o.name) && Check(o).diagnostic.kind == Order[k]
  {
    var r := Registry(o);
    FirstFailureCharacterized(r, o.name, 0);
    k := 0;
    while Passes(r[k], o.name)
      invariant k < |r|
      invariant forall j :: 0 <= j < k ==> Passes(r[j], o.name)
      decreases |r| - k
    {
      k := k + 1;
    }
    ReportsFirstFailing(o, k);
  }

  /*** What the engine does not look at. ***/

  /** Two registry entries that the engine cannot tell apart: same flag, and, when set, same verdict. */
  predicate Indistinguishable(v: Validator, w: Validator, name: string)
  {
    v.flag == w.flag && (v.flag ==> v.Run(name) == w.Run(name))
  }

  lemma {:induction false} WalkDependsOnlyOnSeen(e1: seq<Validator>, e2: seq<Validator>, name: string, i: nat, n: nat)
    requires i <= n <= |e1| && n <= |e2|
    requires forall j :: i <= j < n ==> Indistinguishable(e1[j], e2[j], name)
    requires (n == |e1| && n == |e2|) || (i < n && !Passes(e1[n - 1], name))
    ensures FirstFailureFrom(e1, name, i) == FirstFailureFrom(e2, name, i)
    ensures InvokedFrom(e1, name, i) == InvokedFrom(e2, name, i)
    decreases n - i
  {
    if i < n {
      assert Indistinguishable(e1[i], e2[i], name);
      if Passes(e1[i], name) {
        WalkDependsOnlyOnSeen(e1, e2, name, i + 1, n);
      }
    }
  }

  /** Replacing one unflagged entry by another unflagged entry changes nothing. */
  lemma SwapUnflaggedEntry(e1: seq<Validator>, e2: seq<Validator>, name: string, k: nat)
    requires |e1| == |e2| && k < |e1|
    requires !e1[k].flag && !e2[k].flag
    requires forall j :: 0 <= j < |e1| && j != k ==> e1[j] == e2[j]
    ensures FirstFailureFrom(e1, name, 0) == FirstFailureFrom(e2, name, 0)
    ensures InvokedFrom(e1, name, 0) == InvokedFrom(e2, name, 0)
  {
    assert forall j :: 0 <= j < |e1| ==> Indistinguishable(e1[j], e2[j], name);
    WalkDependsOnlyOnSeen(e1, e2, name, 0, |e1|);
  }

  /*
   * A capability whose flag is clear never has its bundle looked at: any
   * bundle in its slot, absent or not, leaves the outcome and the calls unchanged.
   */

  lemma UnflaggedDrawableIgnored(o: ObjectInterfaces, b: Option<Drawable>)
    requires !o.isDrawable
    ensures Check(o.(drawable := b)) == Check(o)
    ensures Invoked(o.(drawable := b)) == Invoked(o)
  {
    SwapUnflaggedEntry(Registry(o), Registry(o.(drawable := b)), o.name, 0);
  }

  lemma UnflaggedInteractableIgnored(o: ObjectInterfaces, b: Option<Interactable>)
    requires !o.isInteractable
    ensures Check(o.(interactable := b)) == Check(o)
    ensures Invoked(o.(interactable := b)) == Invoked(o)
  {
    SwapUnflaggedEntry(Registry(o), Registry(o.(interactable := b)), o.name, 1);
  }

  lemma UnflaggedCardHandlerIgnored(o: ObjectInterfaces, b: Option<CardHandler>)
    requires !o.canHoldCards
    ensures Check(o.(cardHandler := b)) == Check(o)
    ensures Invoked(o.(cardHandler := b)) == Invoked(o)
  {
    SwapUnflaggedEntry(Registry(o), Registry(o.(cardHandler := b)), o.name, 2);
  }

  lemma UnflaggedButtonHandlerIgnored(o: ObjectInterfaces, b: Option<ButtonHandler>)
    requires !o.haveButtons
    ensures Check(o.(buttonHandler := b)) == Check(o)
    ensures Invoked(o.(buttonHandler := b)) == Invoked(o)
  {
    SwapUnflaggedEntry(Registry(o), Registry(o.(buttonHandler := b)), o.name, 3);
  }

  lemma UnflaggedDynamicIgnored(o: ObjectInterfaces, b: Option<Dynamic>)
    requires !o.isDynamic
    ensures Check(o.(dynamic := b)) == Check(o)
    ensures Invoked(o.(dynamic := b)) == Invoked(o)
  {
    SwapUnflaggedEntry(Registry(o), Registry(o.(dynamic := b)), o.name, 4);
  }

  /** An unflagged capability's validator is never called. */
  lemma UnflaggedNeverInvoked(o: ObjectInterfaces, k: nat)
    requires k < |Order| && !Registry(o)[k].flag
    ensures k !in Invoked(o)
  {
    InvokedCharacterized(Registry(o), o.name, 0);
  }

  /**
   * Once entry `k` fails, nothing after it matters: an object that agrees
   * with `o` on the entries up to `k` gets the same outcome and the same calls.
   */
  lemma LaterEntriesNotEvaluated(o: ObjectInterfaces, o': ObjectInterfaces, k: nat)
    requires FirstFailingAt(Registry(o), o.name, k)
    requires o'.name == o.name
    requires forall j :: 0 <= j <= k ==> Registry(o')[j] == Registry(o)[j]
    ensures Check(o') == Check(o)
    ensures Invoked(o') == Invoked(o)
  {
    WalkDependsOnlyOnSeen(Registry(o), Registry(o'), o.name, 0, k + 1);
  }

  /** A declared capability without a bundle always fails the check; Drawable, checked first, is reported. */
  lemma FlaggedAbsentBundleFails(o: ObjectInterfaces)
    ensures o.isDrawable && o.drawable.None? ==>
      Check(o) == Fail(Diagnostic(o.name, DrawableKind, BundleAbsent))
    ensures o.isInteractable && o.interactable.None? ==> Check(o).Fail?
    ensures o.canHoldCards && o.cardHandler.None? ==> Check(o).Fail?
    ensures o.haveButtons && o.buttonHandler.None? ==> Check(o).Fail?
    ensures o.isDynamic && o.dynamic.None? ==> Check(o).Fail?
  {
    AcceptsExactlyWellFormed(o);
    if o.isDrawable && o.drawable.None? {
      ReportsFirstFailing(o, 0);
    }
  }

  /*** Order within one bundle. ***/

  /** When several entry points are missing, the earliest in checking order is named. */
  lemma EarliestMissingEntryReported(name: string, i: Interactable, c: CardHandler, b: ButtonHandler)
    ensures !i.move ==>
      ValidateInteractable(name, Some(i)) == Fail(Diagnostic(name, InteractableKind, Missing(Move)))
    ensures !b.isButtonPosition ==>
      ValidateButtonHandler(name, Some(b))
        == Fail(Diagnostic(name, ButtonHandlerKind, Missing(IsButtonPosition)))
    ensures c.canGiveCards && !c.selectCards ==>
      ValidateCardHandler(name, Some(c)) == Fail(Diagnostic(name, CardHandlerKind, Missing(SelectCards)))
    ensures c.canGiveCards && c.selectCards && !c.getCards ==>
      ValidateCardHandler(name, Some(c)) == Fail(Diagnostic(name, CardHandlerKind, Missing(GetCards)))
    ensures c.canGiveCards && c.selectCards && c.getCards && !c.isSameCard ==>
      ValidateCardHandler(name, Some(c)) == Fail(Diagnostic(name, CardHandlerKind, Missing(IsSameCard)))
  {
  }

  /**
   * Every give-side requirement of a card handler is checked before any
   * take-side one: a give-side failure is reported whatever the take side holds.
   */
  lemma GiveSideCheckedFirst(name: string, h: CardHandler)
    ensures FirstMissing(h.GiveRequired(), h.Provided()).Some? ==>
      ValidateCardHandler(name, Some(h))
        == Fail(Diagnostic(name, CardHandlerKind, Missing(FirstMissing(h.GiveRequired(), h.Provided()).value)))
    ensures FirstMissing(h.GiveRequired(), h.Provided()).None? ==>
      ValidateCardHandler(name, Some(h)) == Verdict(name, CardHandlerKind, h.TakeRequired(), h.Provided())
  {
    CardHandlerMatchesTable(name, Some(h));
    FirstMissingConcat(h.GiveRequired(), h.TakeRequired(), h.Provided());
  }

  /** A card handler that neither gives nor takes cards needs none of its entry points. */
  lemma NeitherGiveNorTakeAlwaysPasses(name: string, h: CardHandler)
    requires !h.canGiveCards && !h.canTakeCards
    ensures ValidateCardHandler(name, Some(h)) == Pass
  {
  }

  /*** Two scenarios. ***/

  /** An absent Drawable and an absent Dynamic: only the Drawable violation is reported. */
  lemma DrawableReportedBeforeDynamic(o: ObjectInterfaces)
    requires o.isDrawable && o.drawable.None? && o.isDynamic && o.dynamic.None?
    ensures Check(o) == Fail(Diagnostic(o.name, DrawableKind, BundleAbsent))
    ensures Invoked(o) == [0]
  {
  }

  /**
   * An object "Clock" with only a Dynamic capability that supplies `free` is
   * accepted, whatever its four unflagged slots hold.
   */
  lemma ClockIsAccepted(clock: ObjectInterfaces)
    requires clock.name == "Clock"
    requires !clock.isDrawable && !clock.isInteractable && !clock.canHoldCards && !clock.haveButtons
    requires clock.isDynamic && clock.dynamic == Some(Dynamic(true))
    ensures Check(clock) == Pass
    ensures Invoked(clock) == [4]
  {
    var r, name := Registry(clock), clock.name;
    assert FirstFailureFrom(r, name, 4) == Pass && InvokedFrom(r, name, 4) == [4];
    assert FirstFailureFrom(r, name, 3) == Pass && InvokedFrom(r, name, 3) == [4];
    assert FirstFailureFrom(r, name, 2) == Pass && InvokedFrom(r, name, 2) == [4];
    assert FirstFailureFrom(r, name, 1) == Pass && InvokedFrom(r, name, 1) == [4];
  }
}
