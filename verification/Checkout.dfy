/**
 * One visit's cart and checkout (`Cart`, `Order.Checkout`, `cartController._GET_checkout`): the
 * free/charged decision, the subscription debit, and what survives a failure half-way. The cart is
 * kept in the visit's cache entry and nowhere else, and reading or writing that entry may fail silently.
 */
module Checkout {
  import opened Collections

  /** A cart item. The subscription fields are copied from the catalogue when the item is added. */
  datatype Item = Item(skuID: int, subscriptionOrderID: int, subscriptionQuantityRemaining: int,
                       profileID: Option<string>, queryID: int)

  /** A catalogue entry; order 0 means that no subscription covers it. */
  datatype Sku = Sku(requireQuery: bool, requireState: bool, requireProfile: bool, subscriptionOrderID: int)

  datatype Error =
    | SkuNotFound | PreviewNull | QueryRequired | StateRequired | ProfileRequired | PromoFailed | CartRowFailed
    | AuthorizationRequired | NoPaymentMethod | CartEmpty
    | OrderUnreadable | CardDeclined | StorefrontFailed | FailedAfterImport

  /** What previews were found for a name given with the request. */
  datatype Preview = NotAsked | NoResponse | Found(queryID: int)

  /** A subscription bought with the order: `quantity` free units of `skuID` under `orderID`. */
  datatype Grant = Grant(skuID: int, orderID: int, quantity: nat)

  /**
   * How the storefront call and what follows it go: the order import, and then reading the order
   * back, the receipt mail and the subscription look-up, which may throw after recording a grant.
   */
  datatype Storefront =
    | Charged(orderID: int, grant: Option<Grant>)
    | ChargedThenFailed
    | ImportedThenFailed(recorded: Option<Grant>)
    | Declined
    | AlreadyInService
    | Failed

  /** The calls around setting the cart: the promotion before it, the cart row after it. */
  datatype AddFault = NoFault | PromoThrows | RowThrows

  /**
   * How a request fares with the visit's cache entry: whether reading it yields it, whether the visit
   * loaded from the database instead is written back, and whether the writes of the query and of the
   * cart go through.
   */
  datatype Io = Io(read: bool, fill: bool, queryWrite: bool, cartWrite: bool)

  const ALL_WELL := Io(true, true, true, true)
  const CART_WRITE_LOST := Io(true, true, true, false)
  const NEW_ORDER := 1

  datatype Op =
    | Add(skuID: int, preview: Preview, profileID: Option<string>, state: Option<string>, fault: AddFault, io: Io)
    | Remove(skuID': int, io: Io)
    | Clear(io: Io)
    | Checkout(storefront: Storefront, orderReadable: bool, io: Io)
    /** Any other request of the visit. */
    | View(io: Io)

  /** What has happened so far: debits and free orders by SKU, the cart version of each charge, charged orders. */
  datatype Ledger = Ledger(debits: seq<int>, freeOrders: seq<int>, charges: seq<nat>, chargedOrders: nat, granted: seq<Grant>)

  /** The fields of the visit that no database row holds; `version` tells the carts of one visit apart. */
  datatype VisitData = VisitData(cart: Option<seq<Item>>, version: nat, queryID: int, queryState: Option<string>) {
    function Items(): seq<Item> {
      if cart.None? then [] else cart.value
    }

    function With(cart': Option<seq<Item>>): VisitData {
      this.(cart := cart', version := version + 1)
    }
  }

  /** `stored` is the visit's cache entry. */
  datatype Shop = Shop(
    stored: VisitData, catalog: map<int, Sku>, remaining: map<int, int>,
    userID: int, paymentCached: bool, paymentStored: bool,
    ledger: Ledger)
  {
    function Left(sku: int): int {
      if sku in remaining then remaining[sku] else 0
    }
  }

  predicate Blank(s: Option<string>) {
    s.None? || s.value == ""
  }

  /** The visit a request works on: the cache entry, or else the database's row, which has no cart and no query. */
  function Loaded(s: Shop, io: Io): VisitData {
    if io.read then s.stored else VisitData(None, s.stored.version + 1, 0, None)
  }

  function Saved(s: Shop, v: VisitData, ok: bool): Shop {
    if ok then s.(stored := v) else s
  }

  function AfterLoad(s: Shop, io: Io): Shop {
    Saved(s, Loaded(s, io), !io.read && io.fill)
  }

  /** A name given with the request sets the query. */
  predicate SetsQuery(preview: Preview) {
    preview.Found? && preview.queryID != 0
  }

  function Queried(v: VisitData, preview: Preview, state: Option<string>): VisitData {
    if SetsQuery(preview) then v.(queryID := preview.queryID, queryState := state) else v
  }

  /** Why an item is refused before the cart is touched, if it is. */
  function Refusal(catalog: map<int, Sku>, v: VisitData, skuID: int, profileID: Option<string>, state: Option<string>, fault: AddFault)
    : (r: Option<Error>)
    ensures r.None? ==> skuID in catalog
    ensures r != Some(CartRowFailed)
  {
    if skuID !in catalog then Some(SkuNotFound)
    else
      var sku := catalog[skuID];
      if sku.requireQuery && v.queryID == 0 then Some(QueryRequired)
      else if sku.requireState && Blank(v.queryState) && Blank(state) then Some(StateRequired)
      else if sku.requireProfile && Blank(profileID) then Some(ProfileRequired)
      else if fault.PromoThrows? then Some(PromoFailed)
      else None
  }

  /** The item as it is put into the cart, with the subscription as it stands. */
  function NewItem(s: Shop, v: VisitData, skuID: int, profileID: Option<string>): Item
    requires skuID in s.catalog
  {
    Item(skuID, s.catalog[skuID].subscriptionOrderID, s.Left(skuID), profileID, v.queryID)
  }

  function AddSku(s: Shop, skuID: int, preview: Preview, profileID: Option<string>, state: Option<string>, fault: AddFault, io: Io)
    : (Result<(), Error>, Shop)
  {
    if preview.NoResponse? then (Failure(PreviewNull), AfterLoad(s, io))
    else
      var (v, s1) := Ready(s, preview, state, io);
      PlaceSku(s1, v, skuID, profileID, state, fault, io.cartWrite)
  }

  /** The visit at hand with its query, and the shop after that has been written or not. */
  function Ready(s: Shop, preview: Preview, state: Option<string>, io: Io): (VisitData, Shop) {
    var v := Queried(Loaded(s, io), preview, state);
    (v, Saved(AfterLoad(s, io), v, SetsQuery(preview) && io.queryWrite))
  }

  /** The rest of an add, once the visit at hand has its query. */
  function PlaceSku(s: Shop, v: VisitData, skuID: int, profileID: Option<string>, state: Option<string>, fault: AddFault, ok: bool)
    : (Result<(), Error>, Shop)
  {
    match Refusal(s.catalog, v, skuID, profileID, state, fault)
    case Some(e) => (Failure(e), s)
    case None =>
      (if fault.RowThrows? then Failure(CartRowFailed) else Success(()),
       Saved(s, v.With(Some([NewItem(s, v, skuID, profileID)])), ok))
  }

  function Without(items: seq<Item>, skuID: int): seq<Item> {
    if items == [] then []
    else (if items[0].skuID == skuID then [] else [items[0]]) + Without(items[1..], skuID)
  }

  function RemoveSku(s: Shop, skuID: int, io: Io): Shop {
    var v := Loaded(s, io);
    Saved(AfterLoad(s, io), v.With(Some(Without(v.Items(), skuID))), io.cartWrite)
  }

  function ClearCart(s: Shop, io: Io): Shop {
    Saved(AfterLoad(s, io), Loaded(s, io).With(None), io.cartWrite)
  }

  /** Covered by a subscription that, when the item was added, had units left. */
  predicate Covered(item: Item) {
    item.subscriptionOrderID != 0 && item.subscriptionQuantityRemaining > 0
  }

  predicate FreeOrder(items: seq<Item>) {
    forall i | 0 <= i < |items| :: Covered(items[i])
  }

  /** The order and SKU of the last item that names a subscription. */
  function SubscriptionOf(items: seq<Item>): (int, int) {
    if items == [] then (0, 0)
    else
      var item := items[|items| - 1];
      if item.subscriptionOrderID != 0 then (item.subscriptionOrderID, item.skuID)
      else SubscriptionOf(items[..|items| - 1])
  }

  function Debited(s: Shop, sku: int): Shop {
    s.(remaining := s.remaining[sku := s.Left(sku) - 1], ledger := s.ledger.(debits := s.ledger.debits + [sku]))
  }

  function FreelyOrdered(s: Shop, sku: int): Shop {
    s.(ledger := s.ledger.(freeOrders := s.ledger.freeOrders + [sku]))
  }

  function Granted(s: Shop, grant: Option<Grant>): Shop {
    if grant.None? || grant.value.skuID !in s.catalog then s
    else
      var g := grant.value;
      s.(catalog := s.catalog[g.skuID := s.catalog[g.skuID].(subscriptionOrderID := g.orderID)],
         remaining := s.remaining[g.skuID := s.Left(g.skuID) + g.quantity],
         ledger := s.ledger.(granted := s.ledger.granted + [g]))
  }

  function ChargeOnce(s: Shop, version: nat): Shop {
    s.(ledger := s.ledger.(charges := s.ledger.charges + [version]))
  }

  function Imported(s: Shop): Shop {
    s.(ledger := s.ledger.(chargedOrders := s.ledger.chargedOrders + 1))
  }

  /** `Order.Checkout` of a cart that is not empty: the order, the visit is not written. */
  function Pay(s: Shop, v: VisitData, storefront: Storefront, orderReadable: bool): (Result<int, Error>, Shop) {
    if FreeOrder(v.Items()) then
      var (order, sku) := SubscriptionOf(v.Items());
      if !orderReadable then (Failure(OrderUnreadable), Debited(s, sku))
      else (Success(order), FreelyOrdered(Debited(s, sku), sku))
    else match storefront
      case Charged(orderID, grant) => (Success(orderID), Granted(Imported(ChargeOnce(s, v.version)), grant))
      case ChargedThenFailed => (Failure(StorefrontFailed), ChargeOnce(s, v.version))
      case ImportedThenFailed(recorded) =>
        (Failure(FailedAfterImport), Granted(Imported(ChargeOnce(s, v.version)), recorded))
      case Declined => (Failure(CardDeclined), s.(paymentStored := false))
      case AlreadyInService => (Failure(StorefrontFailed), s)
      case Failed => (Failure(StorefrontFailed), s)
  }

  /** `_GET_checkout`: the guards, `Order.Checkout`, and clearing the cart on success. */
  function CheckoutStep(s: Shop, storefront: Storefront, orderReadable: bool, io: Io): (Result<int, Error>, Shop) {
    var s0, v := AfterLoad(s, io), Loaded(s, io);
    if s.userID == 0 then (Failure(AuthorizationRequired), s0)
    else if !s.paymentCached then (Failure(NoPaymentMethod), s0)
    else if v.Items() == [] then (Failure(CartEmpty), s0)
    else
      var (r, s1) := Pay(s0, v, storefront, orderReadable);
      (r, Saved(s1, v.With(None), r.Success? && io.cartWrite))
  }

  function Step(s: Shop, op: Op): (Result<(), Error>, Shop) {
    match op
    case Add(sku, preview, profile, state, fault, io) => AddSku(s, sku, preview, profile, state, fault, io)
    case Remove(sku, io) => (Success(()), RemoveSku(s, sku, io))
    case Clear(io) => (Success(()), ClearCart(s, io))
    case Checkout(storefront, readable, io) =>
      var (r, s') := CheckoutStep(s, storefront, readable, io);
      (if r.Success? then Success(()) else Failure(r.error), s')
    case View(io) => (Success(()), AfterLoad(s, io))
  }

  function Run(s: Shop, ops: seq<Op>): Shop
    decreases ops
  {
    if ops == [] then s else Run(Step(s, ops[0]).1, ops[1..])
  }

  /**
   * The visit as it runs: `s` is the cache entry, the user's subscription rows and the ledger, and
   * `context` the visit of the request at hand.
   */
  class Visit {
    var s: Shop
    var context: VisitData

    constructor (s: Shop)
      ensures this.s == s
    {
      this.s := s;
      this.context := s.stored;
    }

    /** The start of every request: `Visit.Get` through the cache. */
    method Load(io: Io)
      modifies this
      ensures s == AfterLoad(old(s), io) && context == Loaded(old(s), io)
      ensures if io.read then context == old(s).stored
        else context.cart.None? && context.queryID == 0 && context.queryState.None?
      ensures s == old(s).(stored := if !io.read && io.fill then context else old(s).stored)
    {
      context := s.stored;
      if !io.read {
        context := VisitData(None, s.stored.version + 1, 0, None);
        if io.fill {
          s := s.(stored := context);
        }
      }
    }

    /** The loop over the items that decides between free and charged. */
    method Decide(items: seq<Item>) returns (free: bool, orderID: int, skuID: int)
      ensures free == FreeOrder(items)
      ensures (orderID, skuID) == SubscriptionOf(items)
    {
      free, orderID, skuID := true, 0, 0;
      for i := 0 to |items|
        invariant free == FreeOrder(items[..i])
        invariant (orderID, skuID) == SubscriptionOf(items[..i])
      {
        assert items[..i + 1][..i] == items[..i] && items[..i + 1][i] == items[i];
        assert FreeOrder(items[..i + 1]) <==> FreeOrder(items[..i]) && Covered(items[i]);
        if items[i].subscriptionOrderID != 0 {
          orderID, skuID := items[i].subscriptionOrderID, items[i].skuID;
        }
        if items[i].subscriptionOrderID == 0 || items[i].subscriptionQuantityRemaining <= 0 {
          free := false;
        }
      }
      assert items[..|items|] == items;
    }

    /** The request goes on with the new cart whether or not it is stored. */
    method Update(cart: Option<seq<Item>>, ok: bool)
      modifies this
      ensures context == old(context).With(cart)
      ensures s == Saved(old(s), context, ok) && (!ok ==> s.stored == old(s).stored)
    {
      context := context.(cart := cart, version := context.version + 1);
      if ok {
        s := s.(stored := context);
      }
    }

    /** `Visit.SetStateAndQueryID`, which the preview calls for a name it finds. */
    method SetQuery(preview: Preview, state: Option<string>, ok: bool)
      modifies this
      ensures context == Queried(old(context), preview, state)
      ensures s == Saved(old(s), context, SetsQuery(preview) && ok)
    {
      if preview.Found? && preview.queryID != 0 {
        context := context.(queryID := preview.queryID, queryState := state);
        if ok {
          s := s.(stored := context);
        }
      }
    }

    /** The guards of `AddSku`: each error is given exactly when its guard fails and the ones before it do not. */
    method CheckItem(skuID: int, profileID: Option<string>, state: Option<string>, fault: AddFault) returns (r: Option<Error>)
      ensures r == Refusal(s.catalog, context, skuID, profileID, state, fault)
      ensures r == Some(SkuNotFound) <==> skuID !in s.catalog
      ensures skuID in s.catalog ==>
        var sku := s.catalog[skuID];
        var query, place := sku.requireQuery && context.queryID == 0, sku.requireState && Blank(context.queryState) && Blank(state);
        var person := sku.requireProfile && Blank(profileID);
        && (r == Some(QueryRequired) <==> query)
        && (r == Some(StateRequired) <==> !query && place)
        && (r == Some(ProfileRequired) <==> !query && !place && person)
        && (r == Some(PromoFailed) <==> !query && !place && !person && fault.PromoThrows?)
        && (r == None <==> !query && !place && !person && !fault.PromoThrows?)
    {
      if skuID !in s.catalog {
        return Some(SkuNotFound);
      }
      var sku := s.catalog[skuID];
      if sku.requireQuery && context.queryID == 0 {
        return Some(QueryRequired);
      }
      if sku.requireState && Blank(context.queryState) && Blank(state) {
        return Some(StateRequired);
      }
      if sku.requireProfile && Blank(profileID) {
        return Some(ProfileRequired);
      }
      if fault.PromoThrows? {
        return Some(PromoFailed);
      }
      r := None;
    }

    method AddToCart(skuID: int, preview: Preview, profileID: Option<string>, state: Option<string>, fault: AddFault, io: Io)
      returns (r: Result<(), Error>)
      modifies this
      ensures (r, s) == AddSku(old(s), skuID, preview, profileID, state, fault, io)
    {
      Load(io);
      if preview.NoResponse? {
        return Failure(PreviewNull);
      }
      SetQuery(preview, state, io.queryWrite);
      r := PlaceInCart(skuID, profileID, state, fault, io.cartWrite);
    }

    method PlaceInCart(skuID: int, profileID: Option<string>, state: Option<string>, fault: AddFault, ok: bool)
      returns (r: Result<(), Error>)
      modifies this
      ensures (r, s) == PlaceSku(old(s), old(context), skuID, profileID, state, fault, ok)
    {
      var refused := CheckItem(skuID, profileID, state, fault);
      if refused.Some? {
        return Failure(refused.value);
      }
      Update(Some([Item(skuID, s.catalog[skuID].subscriptionOrderID, s.Left(skuID), profileID, context.queryID)]), ok);
      if fault.RowThrows? {
        return Failure(CartRowFailed);
      }
      r := Success(());
    }

    method RemoveFromCart(skuID: int, io: Io)
      modifies this
      ensures s == RemoveSku(old(s), skuID, io)
      ensures var items, items' := Loaded(old(s), io).Items(), context.Items();
        && IsSubsequence(items', items)
        && (forall item :: Count(items', item) == if item.skuID == skuID then 0 else Count(items, item))
        && (io.cartWrite ==> s.stored.Items() == items')
    {
      Load(io);
      WithoutKeepsOthers(context.Items(), skuID);
      Update(Some(Without(context.Items(), skuID)), io.cartWrite);
    }

    method ClearAll(io: Io)
      modifies this
      ensures s == ClearCart(old(s), io)
      ensures context.Items() == [] && (io.cartWrite ==> s.stored.Items() == [])
    {
      Load(io);
      Update(None, io.cartWrite);
    }

    /** `Order.Checkout`. */
    method PayFor(storefront: Storefront, orderReadable: bool) returns (r: Result<int, Error>)
      modifies this`s
      ensures (r, s) == Pay(old(s), context, storefront, orderReadable)
    {
      var free, orderID, skuID := Decide(context.Items());
      if free {
        s := Debited(s, skuID);
        if !orderReadable {
          return Failure(OrderUnreadable);
        }
        s := FreelyOrdered(s, skuID);
        return Success(orderID);
      }
      match storefront {
        case Charged(newOrder, grant) =>
          s := ChargeOnce(s, context.version);
          s := Imported(s);
          s := Granted(s, grant);
          r := Success(newOrder);
        case ChargedThenFailed =>
          s := ChargeOnce(s, context.version);
          r := Failure(StorefrontFailed);
        case ImportedThenFailed(recorded) =>
          s := ChargeOnce(s, context.version);
          s := Imported(s);
          s := Granted(s, recorded);
          r := Failure(FailedAfterImport);
        case Declined =>
          s := s.(paymentStored := false);
          r := Failure(CardDeclined);
        case AlreadyInService =>
          r := Failure(StorefrontFailed);
        case Failed =>
          r := Failure(StorefrontFailed);
      }
    }

    method CheckOut(storefront: Storefront, orderReadable: bool, io: Io) returns (r: Result<int, Error>)
      modifies this
      ensures (r, s) == CheckoutStep(old(s), storefront, orderReadable, io)
    {
      Load(io);
      if s.userID == 0 {
        return Failure(AuthorizationRequired);
      }
      if !s.paymentCached {
        return Failure(NoPaymentMethod);
      }
      if context.Items() == [] {
        return Failure(CartEmpty);
      }
      r := PayFor(storefront, orderReadable);
      if r.Success? {
        Update(None, io.cartWrite);
      }
    }
  }

  // ---------- laws ----------

  /** Paying leaves the visit, the user and the cached payment flag alone. */
  lemma PayKeepsVisit(s: Shop, v: VisitData, storefront: Storefront, readable: bool)
    ensures var s' := Pay(s, v, storefront, readable).1; s'.stored == s.stored && s'.userID == s.userID
  {
  }

  /**
   * A successful checkout of any cart makes exactly one debit or one charge. Its cart is gone exactly if
   * the write that clears it goes through; otherwise the visit is stored as it was.
   */
  lemma SuccessPaysOnce(s: Shop, storefront: Storefront, readable: bool, io: Io)
    requires CheckoutStep(s, storefront, readable, io).0.Success?
    ensures var s' := CheckoutStep(s, storefront, readable, io).1;
      && io.read && s.stored.Items() != []
      && |s'.ledger.debits| - |s.ledger.debits| + |s'.ledger.charges| - |s.ledger.charges| == 1
      && (|s'.ledger.debits| > |s.ledger.debits| <==> FreeOrder(s.stored.Items()))
      && CheckoutStep(s, storefront, readable, io).0.value ==
           (if FreeOrder(s.stored.Items()) then s.stored.Items()[|s.stored.Items()| - 1].subscriptionOrderID
            else if storefront.Charged? then storefront.orderID else 0)
      && (if io.cartWrite then s'.stored.cart == None else s'.stored == s.stored)
  {
    PayKeepsVisit(AfterLoad(s, io), Loaded(s, io), storefront, readable);
  }

  /** The subscription found is that of the last item that names one. */
  lemma {:induction false} SubscriptionOfLast(items: seq<Item>)
    ensures var r := SubscriptionOf(items);
      || (r == (0, 0) && forall i :: 0 <= i < |items| ==> items[i].subscriptionOrderID == 0)
      || exists i :: 0 <= i < |items| && r == (items[i].subscriptionOrderID, items[i].skuID) && r.0 != 0 &&
           forall j :: i < j < |items| ==> items[j].subscriptionOrderID == 0
  {
    if items != [] {
      var n := |items| - 1;
      if items[n].subscriptionOrderID == 0 {
        SubscriptionOfLast(items[..n]);
      }
    }
  }

  /** Each result of a checkout by the guard that decides it, and what becomes of the user's payment method. */
  lemma CheckoutOutcome(s: Shop, storefront: Storefront, readable: bool, io: Io)
    ensures var (r, s') := CheckoutStep(s, storefront, readable, io);
      var items := if io.read then s.stored.Items() else [];
      var pays := s.userID != 0 && s.paymentCached && items != [];
      && (r == Failure(AuthorizationRequired) <==> s.userID == 0)
      && (r == Failure(NoPaymentMethod) <==> s.userID != 0 && !s.paymentCached)
      && (r == Failure(CartEmpty) <==> s.userID != 0 && s.paymentCached && items == [])
      && (pays && FreeOrder(items) ==>
            r == if readable then Success(items[|items| - 1].subscriptionOrderID) else Failure(OrderUnreadable))
      && (pays && !FreeOrder(items) ==> r == Answered(storefront))
      && s'.userID == s.userID && s'.paymentCached == s.paymentCached
      && s'.paymentStored == (s.paymentStored && !(pays && !FreeOrder(items) && storefront.Declined?))
  {
    LoadEffect(s, io);
  }

  /** What the user is told of a charged order. */
  function Answered(storefront: Storefront): Result<int, Error> {
    match storefront
    case Charged(order, _) => Success(order)
    case Declined => Failure(CardDeclined)
    case ImportedThenFailed(_) => Failure(FailedAfterImport)
    case ChargedThenFailed => Failure(StorefrontFailed)
    case AlreadyInService => Failure(StorefrontFailed)
    case Failed => Failure(StorefrontFailed)
  }

  /** No item of the SKU is left, and the others stay as often as they were and in their order. */
  lemma {:induction false} WithoutKeepsOthers(items: seq<Item>, skuID: int)
    ensures IsSubsequence(Without(items, skuID), items)
    ensures forall item :: Count(Without(items, skuID), item) == if item.skuID == skuID then 0 else Count(items, item)
  {
    if items != [] {
      WithoutKeepsOthers(items[1..], skuID);
      var r := Without(items, skuID);
      if items[0].skuID != skuID {
        assert r[1..] == Without(items[1..], skuID);
      } else {
        assert r == Without(items[1..], skuID);
      }
    }
  }

  /** At most one item, whose copy of the subscription promises no more units than are left. */
  ghost predicate Honest(items: seq<Item>, s: Shop) {
    |items| <= 1 && forall i :: 0 <= i < |items| ==> items[i].subscriptionQuantityRemaining <= s.Left(items[i].skuID)
  }

  ghost predicate Current(s: Shop) {
    Honest(s.stored.Items(), s)
  }

  function GrantedUnits(grants: seq<Grant>, sku: int): nat {
    if grants == [] then 0
    else GrantedUnits(grants[..|grants| - 1], sku) +
         (if grants[|grants| - 1].skuID == sku then grants[|grants| - 1].quantity else 0)
  }

  /** Free orders of a SKU plus the units left equal the initial units plus those granted; none is negative. */
  ghost predicate Balanced(s: Shop, initial: int -> nat) {
    s.ledger.debits == s.ledger.freeOrders && forall sku :: BalancedAt(s, initial, sku)
  }

  ghost predicate BalancedAt(s: Shop, initial: int -> nat, sku: int) {
    && s.Left(sku) >= 0
    && Count(s.ledger.freeOrders, sku) + s.Left(sku) == initial(sku) + GrantedUnits(s.ledger.granted, sku)
  }

  /** The guards of a checkout are met by the stored visit. */
  predicate CanCheckOut(s: Shop) {
    s.userID != 0 && s.paymentCached && s.stored.Items() != []
  }

  /** The step is a free checkout: it debits the subscription. */
  predicate DebitsCart(s: Shop, op: Op) {
    op.Checkout? && op.io.read && CanCheckOut(s) && FreeOrder(s.stored.Items())
  }

  /** The cart promises as many units as there are. */
  predicate PromisesAll(s: Shop)
    requires s.stored.Items() != []
  {
    var item := s.stored.Items()[0];
    item.subscriptionQuantityRemaining == s.Left(item.skuID)
  }

  /**
   * A free checkout after which the cart promises a unit that is gone, or whose debit bought nothing: its
   * order cannot be read back, or it is not cleared away and promises as many units as there were.
   */
  predicate Overpromises(s: Shop, op: Op) {
    DebitsCart(s, op) && (!op.orderReadable || (!op.io.cartWrite && PromisesAll(s)))
  }

  // ---------- what a request stores ----------

  lemma WithoutShrinks(items: seq<Item>, skuID: int)
    requires |items| <= 1
    ensures Without(items, skuID) == [] || Without(items, skuID) == items
  {
    if items != [] {
      assert items[1..] == [];
      assert items == [items[0]];
    }
  }

  /** Nothing but the visit is touched. */
  ghost predicate OnlyVisit(s: Shop, s': Shop) {
    s' == s.(stored := s'.stored)
  }

  lemma LoadEffect(s: Shop, io: Io)
    ensures OnlyVisit(s, AfterLoad(s, io))
    ensures AfterLoad(s, io).stored.Items() == [] || AfterLoad(s, io).stored == s.stored
    ensures Loaded(s, io).Items() == if io.read then s.stored.Items() else []
  {
  }

  /** The query of the visit that an add works on: the one found for the name given, or the visit's own. */
  function QueryFor(s: Shop, preview: Preview, state: Option<string>, io: Io): (int, Option<string>) {
    if preview.Found? && preview.queryID != 0 then (preview.queryID, state)
    else if io.read then (s.stored.queryID, s.stored.queryState)
    else (0, None)
  }

  /** The add sets the cart, whether or not its row is written afterwards. */
  predicate PutsItem(r: Result<(), Error>) {
    r.Success? || r.error == CartRowFailed
  }

  /** The visit as the add finds it, and as it is stored by then. */
  ghost predicate IsReady(s: Shop, v: VisitData, s1: Shop, preview: Preview, state: Option<string>, io: Io) {
    var found := preview.Found? && preview.queryID != 0;
    var lost := !io.read && (io.fill || (found && io.queryWrite));
    && OnlyVisit(s, s1) && (v.queryID, v.queryState) == QueryFor(s, preview, state, io)
    && v.version == (if io.read then s.stored.version else s.stored.version + 1)
    && s1.stored.Items() == (if lost then [] else s.stored.Items())
    && s1.stored.version == (if lost then s.stored.version + 1 else s.stored.version)
    && (s1.stored.queryID, s1.stored.queryState) ==
         (if found && io.queryWrite then (preview.queryID, state)
          else if lost then (0, None) else (s.stored.queryID, s.stored.queryState))
  }

  lemma ReadyEffect(s: Shop, preview: Preview, state: Option<string>, io: Io)
    ensures var (v, s1) := Ready(s, preview, state, io); IsReady(s, v, s1, preview, state, io)
  {
  }

  ghost predicate IsPlaced(s: Shop, v: VisitData, sku: int, profile: Option<string>, ok: bool, r: Result<(), Error>, s': Shop) {
    && OnlyVisit(s, s') && r != Failure(PreviewNull)
    && (!(PutsItem(r) && ok) ==> s' == s)
    && (PutsItem(r) ==> sku in s.catalog)
    && (PutsItem(r) && ok ==>
          s'.stored == v.With(Some([Item(sku, s.catalog[sku].subscriptionOrderID, s.Left(sku), profile, v.queryID)])))
  }

  lemma PlaceEffect(s: Shop, v: VisitData, sku: int, profile: Option<string>, state: Option<string>, fault: AddFault, ok: bool)
    ensures var (r, s') := PlaceSku(s, v, sku, profile, state, fault, ok);
      && IsPlaced(s, v, sku, profile, ok, r, s')
      && (PutsItem(r) <==>
          sku in s.catalog && !fault.PromoThrows? && Complete(s.catalog[sku], (v.queryID, v.queryState), profile, state))
      && (PutsItem(r) ==> (r.Success? <==> !fault.RowThrows?))
  {
    AddRefused(s.catalog, v, sku, profile, state, fault);
  }

  /**
   * Adding touches only the visit. The stored cart becomes the one new item exactly when the add
   * succeeds or only its row fails, and the write goes through; otherwise it stays, or is lost with the
   * visit that could not be read.
   */
  lemma AddEffect(s: Shop, sku: int, preview: Preview, profile: Option<string>, state: Option<string>, fault: AddFault, io: Io)
    ensures var (r, s') := AddSku(s, sku, preview, profile, state, fault, io);
      var put := PutsItem(r) && io.cartWrite;
      && OnlyVisit(s, s')
      && (put ==> sku in s.catalog)
      && (put ==> s'.stored.Items() ==
                  [Item(sku, s.catalog[sku].subscriptionOrderID, s.Left(sku), profile, QueryFor(s, preview, state, io).0)])
      && (!put ==> s'.stored.Items() == s.stored.Items() || (!io.read && s'.stored.Items() == []))
  {
    var (v, s1) := Ready(s, preview, state, io);
    ReadyEffect(s, preview, state, io);
    PlaceEffect(s1, v, sku, profile, state, fault, io.cartWrite);
  }

  /** The query is stored with whichever write of the visit goes through, and with none it stays or is lost with the visit. */
  lemma AddStoresQuery(s: Shop, sku: int, preview: Preview, profile: Option<string>, state: Option<string>, fault: AddFault, io: Io)
    ensures var (r, s') := AddSku(s, sku, preview, profile, state, fault, io);
      var query := (s'.stored.queryID, s'.stored.queryState);
      if (preview.Found? && preview.queryID != 0 && io.queryWrite) || (PutsItem(r) && io.cartWrite)
      then query == QueryFor(s, preview, state, io)
      else query == (if !io.read && io.fill then (0, None) else (s.stored.queryID, s.stored.queryState))
  {
    var (v, s1) := Ready(s, preview, state, io);
    ReadyEffect(s, preview, state, io);
    PlaceEffect(s1, v, sku, profile, state, fault, io.cartWrite);
  }

  /** What the SKU asks for is there. */
  predicate Complete(sku: Sku, query: (int, Option<string>), profile: Option<string>, state: Option<string>) {
    && (sku.requireQuery ==> query.0 != 0)
    && (sku.requireState ==> !Blank(query.1) || !Blank(state))
    && (sku.requireProfile ==> !Blank(profile))
  }

  /** When an add succeeds, when only its row fails, and when the preview is to blame. */
  lemma AddOutcome(s: Shop, sku: int, preview: Preview, profile: Option<string>, state: Option<string>, fault: AddFault, io: Io)
    ensures var r := AddSku(s, sku, preview, profile, state, fault, io).0;
      var sets := SetsCart(s, sku, preview, profile, state, fault, io);
      && (r == Failure(PreviewNull) <==> preview.NoResponse?)
      && (r == Success(()) <==> sets && fault.NoFault?)
      && (r == Failure(CartRowFailed) <==> sets && fault.RowThrows?)
  {
    var (v, s1) := Ready(s, preview, state, io);
    ReadyEffect(s, preview, state, io);
    PlaceEffect(s1, v, sku, profile, state, fault, io.cartWrite);
  }

  lemma AddKeepsBalance(s: Shop, sku: int, preview: Preview, profile: Option<string>, state: Option<string>, fault: AddFault, io: Io,
                        initial: int -> nat)
    requires Current(s) && Balanced(s, initial)
    ensures var s' := AddSku(s, sku, preview, profile, state, fault, io).1; Current(s') && Balanced(s', initial)
  {
    AddEffect(s, sku, preview, profile, state, fault, io);
    var s' := AddSku(s, sku, preview, profile, state, fault, io).1;
    BalanceFrame(s, s', initial);
    HonestFrame(s, s', s'.stored.Items());
  }

  /** A cart that is honest about one shop is honest about another with at least as many units left. */
  lemma HonestFrame(s: Shop, s': Shop, items: seq<Item>)
    requires forall y :: s'.Left(y) >= s.Left(y)
    ensures Honest(items, s) ==> Honest(items, s')
  {
  }

  lemma RemoveKeepsBalance(s: Shop, sku: int, io: Io, initial: int -> nat)
    requires Current(s) && Balanced(s, initial)
    ensures Current(RemoveSku(s, sku, io)) && Balanced(RemoveSku(s, sku, io), initial)
  {
    var s' := RemoveSku(s, sku, io);
    LoadEffect(s, io);
    WithoutShrinks(Loaded(s, io).Items(), sku);
    BalanceFrame(s, s', initial);
    HonestFrame(s, s', s'.stored.Items());
  }

  lemma PlainKeepsBalance(s: Shop, s': Shop, initial: int -> nat)
    requires Current(s) && Balanced(s, initial) && OnlyVisit(s, s')
    requires s'.stored.Items() == [] || s'.stored.Items() == s.stored.Items()
    ensures Current(s') && Balanced(s', initial)
  {
    BalanceFrame(s, s', initial);
    HonestFrame(s, s', s'.stored.Items());
  }

  /**
   * A step keeps the cart honest and the units balanced if and only if it is not a free checkout whose
   * order cannot be read back, or whose cart is not cleared away and promises as many units as there were.
   */
  lemma StepKeepsBalance(s: Shop, op: Op, initial: int -> nat)
    requires Current(s) && Balanced(s, initial)
    ensures var s' := Step(s, op).1;
      Current(s') && Balanced(s', initial) <==> !Overpromises(s, op)
  {
    match op
    case Add(sku, preview, profile, state, fault, io) =>
      AddKeepsBalance(s, sku, preview, profile, state, fault, io, initial);
    case Remove(sku, io) =>
      RemoveKeepsBalance(s, sku, io, initial);
    case Clear(io) =>
      PlainKeepsBalance(s, ClearCart(s, io), initial);
    case View(io) =>
      PlainKeepsBalance(s, AfterLoad(s, io), initial);
    case Checkout(storefront, readable, io) =>
      if io.read && CanCheckOut(s) {
        CheckoutKeepsBalance(s, storefront, readable, io, initial);
      } else {
        PlainKeepsBalance(s, CheckoutStep(s, storefront, readable, io).1, initial);
      }
  }

  lemma CheckoutKeepsBalance(s: Shop, storefront: Storefront, readable: bool, io: Io, initial: int -> nat)
    requires Current(s) && Balanced(s, initial) && io.read && CanCheckOut(s)
    ensures var s' := CheckoutStep(s, storefront, readable, io).1;
      Current(s') && Balanced(s', initial) <==>
        !FreeOrder(s.stored.Items()) || (readable && (io.cartWrite || !PromisesAll(s)))
  {
    var (r, s1) := Pay(s, s.stored, storefront, readable);
    var s' := CheckoutStep(s, storefront, readable, io).1;
    PayKeepsVisit(s, s.stored, storefront, readable);
    if !FreeOrder(s.stored.Items()) {
      ChargeKeepsBalance(s, storefront, readable, initial);
      BalanceFrame(s1, s', initial);
      HonestFrame(s, s', s'.stored.Items());
    } else if readable {
      FreeKeepsBalance(s, storefront, initial);
      BalanceFrame(s1, s', initial);
      DebitShows(s, s1, s', io.cartWrite);
    } else {
      assert |s'.ledger.debits| == |s.ledger.debits| + 1 && s'.ledger.freeOrders == s.ledger.freeOrders;
    }
  }

  /** After a debit the cart, if it is still there, is honest exactly if it did not promise all units. */
  lemma DebitShows(s: Shop, s1: Shop, s': Shop, cleared: bool)
    requires Current(s) && s.stored.Items() != [] && s'.stored.Items() == (if cleared then [] else s.stored.Items())
    requires s'.remaining == s1.remaining
    requires var sku := s.stored.Items()[0].skuID; s1.Left(sku) == s.Left(sku) - 1
    ensures Current(s') <==> cleared || !PromisesAll(s)
  {
    assert s'.Left(s.stored.Items()[0].skuID) == s.Left(s.stored.Items()[0].skuID) - 1;
  }

  /** The balance reads only the units, the debits, the free orders and the grants. */
  lemma BalanceFrame(s: Shop, s': Shop, initial: int -> nat)
    requires Balanced(s, initial) && s'.remaining == s.remaining && s'.ledger.granted == s.ledger.granted
    requires s'.ledger.debits == s.ledger.debits && s'.ledger.freeOrders == s.ledger.freeOrders
    ensures Balanced(s', initial)
  {
    forall y
      ensures BalancedAt(s', initial, y)
    {
      assert BalancedAt(s, initial, y) && s'.Left(y) == s.Left(y);
    }
  }

  function GrantOf(o: Storefront): Option<Grant> {
    match o
    case Charged(_, grant) => grant
    case ImportedThenFailed(recorded) => recorded
    case _ => None
  }

  /** Charging keeps the balance however far it gets, a grant recorded on the way included, and takes no unit. */
  lemma ChargeKeepsBalance(s: Shop, storefront: Storefront, readable: bool, initial: int -> nat)
    requires Balanced(s, initial) && !FreeOrder(s.stored.Items())
    ensures var s' := Pay(s, s.stored, storefront, readable).1;
      Balanced(s', initial) && forall y :: s'.Left(y) >= s.Left(y)
  {
    var s' := Pay(s, s.stored, storefront, readable).1;
    GrantKeepsBalance(s, GrantOf(storefront), initial);
    ChargeAndGrant(s, storefront, readable);
    BalanceFrame(Granted(s, GrantOf(storefront)), s', initial);
    forall y
      ensures s'.Left(y) >= s.Left(y)
    {
      assert s'.Left(y) == Granted(s, GrantOf(storefront)).Left(y);
    }
  }

  lemma ChargeAndGrant(s: Shop, storefront: Storefront, readable: bool)
    requires !FreeOrder(s.stored.Items())
    ensures var s', g := Pay(s, s.stored, storefront, readable).1, Granted(s, GrantOf(storefront));
      && s'.remaining == g.remaining && s'.ledger.granted == g.ledger.granted
      && s'.ledger.debits == g.ledger.debits && s'.ledger.freeOrders == g.ledger.freeOrders
  {
  }

  lemma FreeKeepsBalance(s: Shop, storefront: Storefront, initial: int -> nat)
    requires Current(s) && Balanced(s, initial) && s.stored.Items() != [] && FreeOrder(s.stored.Items())
    ensures var s' := Pay(s, s.stored, storefront, true).1; var sku := s.stored.Items()[0].skuID;
      Balanced(s', initial) && s'.Left(sku) == s.Left(sku) - 1
  {
    var item := s.stored.Items()[0];
    assert Covered(item) && SubscriptionOf(s.stored.Items()).1 == item.skuID;
    assert s.Left(item.skuID) > 0;
    DebitKeepsBalance(s, item.skuID, initial);
  }

  lemma DebitKeepsBalance(s: Shop, sku: int, initial: int -> nat)
    requires Balanced(s, initial) && s.Left(sku) > 0
    ensures Balanced(FreelyOrdered(Debited(s, sku), sku), initial)
  {
    var s2 := FreelyOrdered(Debited(s, sku), sku);
    forall y
      ensures BalancedAt(s2, initial, y)
    {
      CountOneMore(s.ledger.freeOrders, sku, y);
      assert BalancedAt(s, initial, y);
      assert s2.Left(y) == s.Left(y) - (if y == sku then 1 else 0);
    }
  }

  lemma GrantKeepsBalance(s: Shop, grant: Option<Grant>, initial: int -> nat)
    requires Balanced(s, initial)
    ensures Balanced(Granted(s, grant), initial) && forall y :: Granted(s, grant).Left(y) >= s.Left(y)
  {
    if grant.Some? && grant.value.skuID in s.catalog {
      var g, s' := grant.value, Granted(s, grant);
      forall y
        ensures BalancedAt(s', initial, y)
      {
        assert BalancedAt(s, initial, y);
        assert s'.Left(y) == s.Left(y) + (if y == g.skuID then g.quantity else 0);
        GrantedOneMore(s.ledger.granted, g, y);
      }
    }
  }

  lemma GrantedOneMore(grants: seq<Grant>, g: Grant, sku: int)
    ensures GrantedUnits(grants + [g], sku) == GrantedUnits(grants, sku) + (if g.skuID == sku then g.quantity else 0)
  {
    assert (grants + [g])[..|grants|] == grants;
  }

  /** No step of the run overpromises. */
  ghost predicate Sound(s: Shop, ops: seq<Op>)
    decreases ops
  {
    ops == [] || (!Overpromises(s, ops[0]) && Sound(Step(s, ops[0]).1, ops[1..]))
  }

  /**
   * Over every run of requests of the visit, whatever reads and writes of its cache entry are lost, in
   * which no step overpromises: the cart holds at most one item and promises no more units than are left,
   * every debit bought a free order, and per SKU free orders plus units left stay equal to the units ever
   * available.
   */
  lemma {:induction false} RunKeepsBalance(s: Shop, ops: seq<Op>, initial: int -> nat)
    requires Current(s) && Balanced(s, initial) && Sound(s, ops)
    ensures Current(Run(s, ops)) && Balanced(Run(s, ops), initial)
    decreases ops
  {
    if ops != [] {
      StepKeepsBalance(s, ops[0], initial);
      RunKeepsBalance(Step(s, ops[0]).1, ops[1..], initial);
    }
  }

  // ---------- charges ----------

  predicate ChargingOutcome(o: Storefront) {
    o.Charged? || o.ChargedThenFailed? || o.ImportedThenFailed?
  }

  /** The step is a checkout that charges the stored cart. */
  predicate ChargesCart(s: Shop, op: Op) {
    op.Checkout? && op.io.read && CanCheckOut(s) && !FreeOrder(s.stored.Items()) && ChargingOutcome(op.storefront)
  }

  /** The add gets as far as setting the cart. */
  predicate SetsCart(s: Shop, skuID: int, preview: Preview, profile: Option<string>, state: Option<string>, fault: AddFault, io: Io) {
    && !preview.NoResponse? && skuID in s.catalog && !fault.PromoThrows?
    && Complete(s.catalog[skuID], QueryFor(s, preview, state, io), profile, state)
  }

  /** The request sets the cart, whether or not that is stored. */
  predicate UpdatesCart(s: Shop, op: Op) {
    match op
    case Add(sku, preview, profile, state, fault, io) => SetsCart(s, sku, preview, profile, state, fault, io)
    case Remove(_, _) => true
    case Clear(_) => true
    case Checkout(storefront, readable, io) =>
      io.read && CanCheckOut(s) && if FreeOrder(s.stored.Items()) then readable else storefront.Charged?
    case View(_) => false
  }

  /**
   * The stored cart is replaced: by the cart the request sets, or because the visit was not read and the
   * one from the database, which has no cart, is written over it.
   */
  predicate ReplacesCart(s: Shop, op: Op) {
    || (UpdatesCart(s, op) && op.io.cartWrite)
    || (!op.io.read && op.io.fill)
    || (!op.io.read && op.Add? && SetsQuery(op.preview) && op.io.queryWrite)
  }

  /** The cart now stored is charged before anything replaces it. */
  predicate ChargedBeforeReplaced(s: Shop, ops: seq<Op>)
    decreases ops
  {
    ops != [] &&
    (ChargesCart(s, ops[0]) || (!ReplacesCart(s, ops[0]) && ChargedBeforeReplaced(Step(s, ops[0]).1, ops[1..])))
  }

  /**
   * Some checkout charges a cart and leaves it in place, because it fails after the charge or because the
   * clearing write is lost, and that same cart is charged again.
   */
  predicate StaysAndIsChargedAgain(s: Shop, ops: seq<Op>)
    decreases ops
  {
    ops != [] &&
    var s' := Step(s, ops[0]).1;
    || (ChargesCart(s, ops[0]) && !(ops[0].storefront.Charged? && ops[0].io.cartWrite) && ChargedBeforeReplaced(s', ops[1..]))
    || StaysAndIsChargedAgain(s', ops[1..])
  }

  lemma AddVersions(s: Shop, sku: int, preview: Preview, profile: Option<string>, state: Option<string>, fault: AddFault, io: Io)
    ensures var s' := AddSku(s, sku, preview, profile, state, fault, io).1;
      && s'.ledger == s.ledger
      && (if ReplacesCart(s, Add(sku, preview, profile, state, fault, io)) then s'.stored.version > s.stored.version
          else s'.stored.version == s.stored.version)
  {
    var (v, s1) := Ready(s, preview, state, io);
    ReadyEffect(s, preview, state, io);
    PlaceEffect(s1, v, sku, profile, state, fault, io.cartWrite);
  }

  lemma AddRefused(catalog: map<int, Sku>, v: VisitData, sku: int, profile: Option<string>, state: Option<string>, fault: AddFault)
    ensures Refusal(catalog, v, sku, profile, state, fault).None? <==>
      && sku in catalog && !fault.PromoThrows?
      && (catalog[sku].requireQuery ==> v.queryID != 0)
      && (catalog[sku].requireState ==> !(Blank(v.queryState) && Blank(state)))
      && (catalog[sku].requireProfile ==> !Blank(profile))
  {
  }

  lemma PayCharges(s: Shop, v: VisitData, storefront: Storefront, readable: bool)
    ensures var (r, s') := Pay(s, v, storefront, readable); var charges := !FreeOrder(v.Items()) && ChargingOutcome(storefront);
      && s'.ledger.charges == s.ledger.charges + (if charges then [v.version] else [])
      && s'.ledger.chargedOrders ==
         s.ledger.chargedOrders + (if charges && !storefront.ChargedThenFailed? then 1 else 0)
      && (r.Success? <==> if FreeOrder(v.Items()) then readable else storefront.Charged?)
  {
    assert s.ledger.charges + [] == s.ledger.charges;
  }

  /** A step charges the stored cart under the guards above, and its version moves on exactly when it is replaced. */
  lemma StepVersions(s: Shop, op: Op)
    ensures var s' := Step(s, op).1;
      && s'.ledger.charges == s.ledger.charges + (if ChargesCart(s, op) then [s.stored.version] else [])
      && (if ReplacesCart(s, op) then s'.stored.version > s.stored.version else s'.stored.version == s.stored.version)
  {
    assert s.ledger.charges + [] == s.ledger.charges;
    match op
    case Add(sku, preview, profile, state, fault, io) =>
      AddVersions(s, sku, preview, profile, state, fault, io);
    case Checkout(storefront, readable, io) =>
      PayCharges(AfterLoad(s, io), Loaded(s, io), storefront, readable);
      PayKeepsVisit(AfterLoad(s, io), Loaded(s, io), storefront, readable);
    case _ =>
  }

  /** Charges name carts that have been in the visit, none of them twice. */
  ghost predicate ChargedOnce(s: Shop) {
    NoDuplicates(s.ledger.charges) && forall v :: v in s.ledger.charges ==> v <= s.stored.version
  }

  lemma {:induction false} ChargesGrow(s: Shop, ops: seq<Op>)
    ensures s.ledger.charges <= Run(s, ops).ledger.charges
    decreases ops
  {
    if ops != [] {
      StepVersions(s, ops[0]);
      ChargesGrow(Step(s, ops[0]).1, ops[1..]);
    }
  }

  lemma DuplicatesStay(a: seq<nat>, b: seq<nat>)
    requires !NoDuplicates(a) && a <= b
    ensures !NoDuplicates(b)
  {
    var i, j :| 0 <= i < j < |a| && a[i] == a[j];
    assert b[i] == b[j];
  }

  /**
   * Over every run one cart is charged twice if and only if some checkout charges it and leaves it in
   * place, and the same cart is charged again before anything replaces it.
   */
  lemma {:induction false} ChargedTwiceExactly(s: Shop, ops: seq<Op>)
    requires ChargedOnce(s)
    ensures !NoDuplicates(Run(s, ops).ledger.charges) <==>
      || StaysAndIsChargedAgain(s, ops)
      || (s.stored.version in s.ledger.charges && ChargedBeforeReplaced(s, ops))
    decreases ops
  {
    if ops != [] {
      var s' := Step(s, ops[0]).1;
      StepVersions(s, ops[0]);
      if ChargesCart(s, ops[0]) && s.stored.version in s.ledger.charges {
        ChargesGrow(s', ops[1..]);
        assert !NoDuplicates(s'.ledger.charges) by {
          var i :| 0 <= i < |s.ledger.charges| && s.ledger.charges[i] == s.stored.version;
          assert s'.ledger.charges[i] == s'.ledger.charges[|s.ledger.charges|];
        }
        DuplicatesStay(s'.ledger.charges, Run(s', ops[1..]).ledger.charges);
      } else {
        ChargedTwiceExactly(s', ops[1..]);
      }
    }
  }

  /** A checkout that neither fails after the charge nor loses the clearing write. */
  predicate Tidy(op: Op) {
    op.Checkout? ==> !op.storefront.ChargedThenFailed? && !op.storefront.ImportedThenFailed? && op.io.cartWrite
  }

  lemma {:induction false} TidyNeverStays(s: Shop, ops: seq<Op>)
    requires forall i :: 0 <= i < |ops| ==> Tidy(ops[i])
    ensures !StaysAndIsChargedAgain(s, ops)
    decreases ops
  {
    if ops != [] {
      TidyNeverStays(Step(s, ops[0]).1, ops[1..]);
    }
  }

  /** Without a failure after the charge and without a lost clearing write no cart is charged twice. */
  lemma NoLateFailureNoDoubleCharge(s: Shop, ops: seq<Op>)
    requires ChargedOnce(s) && s.stored.version !in s.ledger.charges
    requires forall i :: 0 <= i < |ops| ==> Tidy(ops[i])
    ensures NoDuplicates(Run(s, ops).ledger.charges)
  {
    TidyNeverStays(s, ops);
    ChargedTwiceExactly(s, ops);
  }

  lemma RunTwo(s: Shop, a: Op, b: Op)
    ensures Run(s, [a, b]) == Step(Step(s, a).1, b).1
  {
    assert [a, b][1..] == [b] && [b][1..] == [];
    var s1 := Step(s, a).1;
    assert Run(s1, [b]) == Run(Step(s1, b).1, [b][1..]);
  }

  /** The receipt mail fails and the user tries again: one cart, two charges and two orders. */
  lemma RetryChargesTwice(s: Shop)
    requires CanCheckOut(s) && !FreeOrder(s.stored.Items())
    ensures var s' := Run(s, [Checkout(ImportedThenFailed(None), true, ALL_WELL), Checkout(Charged(NEW_ORDER, None), true, ALL_WELL)]);
      && s'.ledger.charges == s.ledger.charges + [s.stored.version, s.stored.version]
      && s'.ledger.chargedOrders == s.ledger.chargedOrders + 2
  {
    TwoCharges(s, ImportedThenFailed(None), ALL_WELL);
  }

  /** A checkout succeeds, the write that clears its cart is lost, and the next one charges the cart again. */
  lemma LostClearChargesTwice(s: Shop)
    requires CanCheckOut(s) && !FreeOrder(s.stored.Items())
    ensures var first := Checkout(Charged(NEW_ORDER, None), true, CART_WRITE_LOST);
      var s' := Run(s, [first, Checkout(Charged(NEW_ORDER, None), true, ALL_WELL)]);
      && Step(s, first).0.Success?
      && s'.ledger.charges == s.ledger.charges + [s.stored.version, s.stored.version]
      && s'.ledger.chargedOrders == s.ledger.chargedOrders + 2
  {
    TwoCharges(s, Charged(NEW_ORDER, None), CART_WRITE_LOST);
    PayCharges(s, s.stored, Charged(NEW_ORDER, None), true);
  }

  /** A charging checkout that leaves the cart in place, and another one. */
  lemma TwoCharges(s: Shop, o: Storefront, io: Io)
    requires CanCheckOut(s) && !FreeOrder(s.stored.Items()) && io.read
    requires o == ImportedThenFailed(None) || (o == Charged(NEW_ORDER, None) && !io.cartWrite)
    ensures var s' := Run(s, [Checkout(o, true, io), Checkout(Charged(NEW_ORDER, None), true, ALL_WELL)]);
      && s'.ledger.charges == s.ledger.charges + [s.stored.version, s.stored.version]
      && s'.ledger.chargedOrders == s.ledger.chargedOrders + 2
  {
    RunTwo(s, Checkout(o, true, io), Checkout(Charged(NEW_ORDER, None), true, ALL_WELL));
    var s1 := CheckoutStep(s, o, true, io).1;
    PayCharges(s, s.stored, o, true);
    PayKeepsVisit(s, s.stored, o, true);
    assert s1.stored == s.stored && s1.paymentCached == s.paymentCached && s1.userID == s.userID;
    PayCharges(s1, s1.stored, Charged(NEW_ORDER, None), true);
  }

  /** A charge whose order could not be imported. */
  predicate LosesCharge(s: Shop, op: Op) {
    ChargesCart(s, op) && op.storefront.ChargedThenFailed?
  }

  function LostCharges(s: Shop, ops: seq<Op>): nat
    decreases ops
  {
    if ops == [] then 0
    else (if LosesCharge(s, ops[0]) then 1 else 0) + LostCharges(Step(s, ops[0]).1, ops[1..])
  }

  lemma StepCharges(s: Shop, op: Op)
    ensures var s' := Step(s, op).1;
      |s'.ledger.charges| - |s.ledger.charges| ==
      s'.ledger.chargedOrders - s.ledger.chargedOrders + (if LosesCharge(s, op) then 1 else 0)
  {
    match op
    case Add(sku, preview, profile, state, fault, io) =>
      AddVersions(s, sku, preview, profile, state, fault, io);
    case Checkout(storefront, readable, io) =>
      PayCharges(AfterLoad(s, io), Loaded(s, io), storefront, readable);
    case _ =>
  }

  lemma {:induction false} ChargesMatchOrders(s: Shop, ops: seq<Op>)
    ensures |Run(s, ops).ledger.charges| - |s.ledger.charges| ==
      Run(s, ops).ledger.chargedOrders - s.ledger.chargedOrders + LostCharges(s, ops)
    decreases ops
  {
    if ops != [] {
      StepCharges(s, ops[0]);
      ChargesMatchOrders(Step(s, ops[0]).1, ops[1..]);
    }
  }

  // ---------- using up a subscription ----------

  /** The user can order `sku` under a subscription without giving more details. */
  predicate CanOrder(s: Shop, sku: int) {
    && s.userID != 0 && s.paymentCached && sku in s.catalog
    && s.catalog[sku].subscriptionOrderID != 0
    && (s.catalog[sku].requireQuery ==> s.stored.queryID != 0)
    && (s.catalog[sku].requireState ==> !Blank(s.stored.queryState))
    && !s.catalog[sku].requireProfile
  }

  function AddPlain(s: Shop, sku: int): Shop {
    AddSku(s, sku, NotAsked, None, None, NoFault, ALL_WELL).1
  }

  function Order(s: Shop, sku: int): Shop {
    CheckoutStep(AddPlain(s, sku), Charged(NEW_ORDER, None), true, ALL_WELL).1
  }

  function Orders(s: Shop, sku: int, n: nat): Shop {
    if n == 0 then s else Order(Orders(s, sku, n - 1), sku)
  }

  /** What one order does: free and debited while units are left, charged once they are used up. */
  ghost predicate Ordered(s: Shop, s': Shop, sku: int) {
    && CanOrder(s', sku)
    && if s.Left(sku) > 0
       then s'.Left(sku) == s.Left(sku) - 1 && s'.ledger.freeOrders == s.ledger.freeOrders + [sku] &&
            s'.ledger.charges == s.ledger.charges
       else s'.Left(sku) == s.Left(sku) && s'.ledger.freeOrders == s.ledger.freeOrders &&
            |s'.ledger.charges| == |s.ledger.charges| + 1
  }

  /** A plain add under a subscription stores the one item, covered exactly while units are left. */
  lemma PlainAdd(s: Shop, sku: int)
    requires CanOrder(s, sku)
    ensures var s1 := AddPlain(s, sku);
      && s1 == s.(stored := s.stored.With(Some([NewItem(s, s.stored, sku, None)])))
      && (FreeOrder(s1.stored.Items()) <==> s.Left(sku) > 0)
      && SubscriptionOf(s1.stored.Items()).1 == sku
  {
    var item := NewItem(s, s.stored, sku, None);
    assert FreeOrder([item]) <==> Covered(item) by {
      assert [item][0] == item;
    }
  }

  lemma OneOrder(s: Shop, sku: int)
    requires CanOrder(s, sku)
    ensures Ordered(s, Order(s, sku), sku)
  {
    PlainAdd(s, sku);
    var s1 := AddPlain(s, sku);
    PayCharges(s1, s1.stored, Charged(NEW_ORDER, None), true);
  }

  /** After `n` orders: as many free ones as there were units, and charges for the rest. */
  ghost predicate UsedUp(s: Shop, s': Shop, sku: int, n: nat) {
    var r := s.Left(sku);
    && CanOrder(s', sku)
    && |s'.ledger.freeOrders| - |s.ledger.freeOrders| == (if n <= r then n else r)
    && |s'.ledger.charges| - |s.ledger.charges| == (if n <= r then 0 else n - r)
    && s'.Left(sku) == (if n <= r then r - n else 0)
  }

  lemma UsedUpStep(s: Shop, s0: Shop, s1: Shop, sku: int, n: nat)
    requires s.Left(sku) >= 0 && UsedUp(s, s0, sku, n) && Ordered(s0, s1, sku)
    ensures UsedUp(s, s1, sku, n + 1)
  {
  }

  /** A subscription of r units gives exactly r free orders, and every order after that is charged. */
  lemma {:induction false} SubscriptionUsedUp(s: Shop, sku: int, n: nat)
    requires CanOrder(s, sku) && s.Left(sku) >= 0
    ensures UsedUp(s, Orders(s, sku, n), sku, n)
  {
    if n > 0 {
      SubscriptionUsedUp(s, sku, n - 1);
      OneOrder(Orders(s, sku, n - 1), sku);
      UsedUpStep(s, Orders(s, sku, n - 1), Orders(s, sku, n), sku, n - 1);
    }
  }

  /** A grant for a SKU of the catalogue puts the SKU under its order and adds its units; no other SKU is touched. */
  lemma GrantRecorded(s: Shop, g: Grant, sku: int)
    ensures var s' := Granted(s, Some(g)); var here := g.skuID in s.catalog && sku == g.skuID;
      && s'.catalog.Keys == s.catalog.Keys
      && (sku in s.catalog ==> s'.catalog[sku] == if here then s.catalog[sku].(subscriptionOrderID := g.orderID) else s.catalog[sku])
      && s'.Left(sku) == s.Left(sku) + (if here then g.quantity else 0)
      && s'.ledger.granted == s.ledger.granted + (if g.skuID in s.catalog then [g] else [])
  {
    assert s.ledger.granted + [] == s.ledger.granted;
  }

  /** A subscription bought in the shop is in force at once: the next order under it is free. */
  lemma BoughtSubscriptionCovers(s: Shop, order: int, g: Grant)
    requires CanCheckOut(s) && !FreeOrder(s.stored.Items()) && g.skuID in s.catalog && g.orderID != 0
    requires s.Left(g.skuID) >= 0 && g.quantity > 0 && !s.catalog[g.skuID].requireProfile
    requires s.catalog[g.skuID].requireQuery ==> s.stored.queryID != 0
    requires s.catalog[g.skuID].requireState ==> !Blank(s.stored.queryState)
    ensures var s1 := CheckoutStep(s, Charged(order, Some(g)), true, ALL_WELL).1;
      var s2 := Order(s1, g.skuID);
      && s2.ledger.freeOrders == s.ledger.freeOrders + [g.skuID]
      && s2.ledger.charges == s.ledger.charges + [s.stored.version]
      && s2.Left(g.skuID) == s.Left(g.skuID) + g.quantity - 1
  {
    var paid := Imported(ChargeOnce(s, s.stored.version));
    GrantRecorded(paid, g, g.skuID);
    var s1 := CheckoutStep(s, Charged(order, Some(g)), true, ALL_WELL).1;
    assert s1 == Granted(paid, Some(g)).(stored := s.stored.With(None));
    OneOrder(s1, g.skuID);
  }

  /** If the order cannot be read back, the stale copy in the cart lets a subscription be overdrawn. */
  lemma UnreadableOrderOverdraws(s: Shop, sku: int)
    requires CanOrder(s, sku) && s.Left(sku) == 1
    ensures var op := Checkout(Failed, false, ALL_WELL);
      var s' := Run(AddPlain(s, sku), [op, op]);
      s'.Left(sku) == -1 && s'.ledger.freeOrders == s.ledger.freeOrders
  {
    PlainAdd(s, sku);
    var op := Checkout(Failed, false, ALL_WELL);
    RunTwo(AddPlain(s, sku), op, op);
  }

  /** And if the clearing write is lost, one unit pays for two free orders, both of which succeed. */
  lemma LostClearOverdraws(s: Shop, sku: int)
    requires CanOrder(s, sku) && s.Left(sku) == 1
    ensures var op := Checkout(Failed, true, CART_WRITE_LOST);
      var s1 := AddPlain(s, sku);
      var s' := Run(s1, [op, op]);
      && Step(s1, op).0.Success? && Step(Step(s1, op).1, op).0.Success?
      && s'.Left(sku) == -1 && s'.ledger.freeOrders == s.ledger.freeOrders + [sku, sku]
  {
    PlainAdd(s, sku);
    var op := Checkout(Failed, true, CART_WRITE_LOST);
    var s1 := AddPlain(s, sku);
    RunTwo(s1, op, op);
    var s2 := Step(s1, op).1;
    assert s2.stored == s1.stored && s2.ledger.freeOrders == s.ledger.freeOrders + [sku];
    assert s.ledger.freeOrders + [sku] + [sku] == s.ledger.freeOrders + [sku, sku];
  }
}
