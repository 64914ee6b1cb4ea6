/** Services/Implementations/OfferService.cs: the offer catalogue, its
    reference checks, and the idempotent "user has opened this offer" record. */
module OfferService {
  import opened Base
  import opened Seqs
  import opened Sorting
  import opened Models
  import opened Data

  /** CreateOfferRequest.cs */
  datatype CreateOfferRequest = CreateOfferRequest(
    title: string, description: Option<string>, discountPercent: int,
    startAt: Time, endAt: Time, restaurantId: Option<Id>, menuItemId: Option<Id>,
    isPersonalized: bool)

  /** UpdateOfferRequest.cs: the seven fields an update overwrites. */
  datatype UpdateOfferRequest = UpdateOfferRequest(
    title: string, description: Option<string>, discountPercent: int,
    startAt: Time, endAt: Time, isPersonalized: bool, isActive: bool)

  /** "Restaurant not found." and "Menu item not found." */
  datatype OfferError = RestaurantNotFound | MenuItemNotFound

  function HasId(id: Id): Offer -> bool {
    (o: Offer) => o.id == id
  }

  /** Position of the offer with key `id` (`FirstOrDefaultAsync(o => o.Id == id)`). */
  function FindOffer(offers: seq<Offer>, id: Id): (r: Option<nat>)
    ensures r.None? <==> !OfferExists(offers, id)
    ensures r.Some? ==> r.value < |offers| && offers[r.value].id == id
  {
    FirstIndex(offers, HasId(id))
  }

  // ---------------------------------------------------------------------------
  // TrackCouponViewAsync

  /** The coupon views after (user, offer) is tracked at `now`: one new view for
      a known offer the user has not opened, else no change. */
  function TrackedViews(offers: seq<Offer>, views: seq<CouponView>, userId: Id, offerId: Id, now: Time): seq<CouponView> {
    if OfferExists(offers, offerId) && !HasViewed(views, userId, offerId)
    then views + [CouponView(userId, offerId, now)]
    else views
  }

  /** Records that the user opened the offer. False, and nothing recorded, for
      an unknown offer; true, and nothing recorded, when already recorded. */
  method TrackCouponView(db: Store, userId: Id, offerId: Id, now: Time) returns (tracked: bool)
    modifies db`couponViews
    ensures tracked <==> OfferExists(db.offers, offerId)
    ensures db.couponViews == TrackedViews(db.offers, old(db.couponViews), userId, offerId, now)
  {
    var offerExists := OfferExists(db.offers, offerId);
    if !offerExists {
      return false;
    }
    var viewed := HasViewed(db.couponViews, userId, offerId);
    if viewed {
      return true;
    }
    db.couponViews := db.couponViews + [CouponView(userId, offerId, now)];
    tracked := true;
  }

  /** After tracking, a known offer counts as opened by the user, and the views
      grow by at most one. */
  lemma TrackRecords(offers: seq<Offer>, views: seq<CouponView>, userId: Id, offerId: Id, now: Time)
    requires OfferExists(offers, offerId)
    ensures var after := TrackedViews(offers, views, userId, offerId, now);
      HasViewed(after, userId, offerId) && |views| <= |after| <= |views| + 1
  {
    var after := TrackedViews(offers, views, userId, offerId, now);
    if !HasViewed(views, userId, offerId) {
      assert after[|views|] == CouponView(userId, offerId, now);
    }
  }

  /** Tracking is idempotent: a second call, at any instant, changes nothing. */
  lemma TrackIdempotent(offers: seq<Offer>, views: seq<CouponView>, userId: Id, offerId: Id, now: Time, later: Time)
    ensures var once := TrackedViews(offers, views, userId, offerId, now);
      TrackedViews(offers, once, userId, offerId, later) == once
  {
    if OfferExists(offers, offerId) {
      TrackRecords(offers, views, userId, offerId, now);
    }
  }

  /** No (user, offer) pair is recorded twice. */
  predicate ViewsUnique(views: seq<CouponView>) {
    forall i, j :: 0 <= i < j < |views| ==>
      !(views[i].userId == views[j].userId && views[i].offerId == views[j].offerId)
  }

  /** Appending a view for a pair not yet recorded keeps the pairs unique; both
      tracking and ticket consumption append only such views. */
  lemma AppendUnviewedKeepsUnique(views: seq<CouponView>, userId: Id, offerId: Id, now: Time)
    requires ViewsUnique(views) && !HasViewed(views, userId, offerId)
    ensures ViewsUnique(views + [CouponView(userId, offerId, now)])
  {
    var after := views + [CouponView(userId, offerId, now)];
    forall i, j | 0 <= i < j < |after|
      ensures !(after[i].userId == after[j].userId && after[i].offerId == after[j].offerId)
    {
      if j == |views| {
        assert after[i] == views[i];
      } else {
        assert after[i] == views[i] && after[j] == views[j];
      }
    }
  }

  /** Tracking keeps the recorded pairs unique. */
  lemma TrackKeepsUnique(offers: seq<Offer>, views: seq<CouponView>, userId: Id, offerId: Id, now: Time)
    requires ViewsUnique(views)
    ensures ViewsUnique(TrackedViews(offers, views, userId, offerId, now))
  {
    if OfferExists(offers, offerId) && !HasViewed(views, userId, offerId) {
      AppendUnviewedKeepsUnique(views, userId, offerId, now);
    }
  }

  // ---------------------------------------------------------------------------
  // GetOffersAsync

  function StartAtOf(o: Offer): int { o.startAt }

  /** A reordering of the running offers holds exactly the running offers. */
  lemma RunningMembers(offers: seq<Offer>, now: Time, r: seq<Offer>)
    requires multiset(r) == multiset(Filter(offers, IsRunningAt(now)))
    ensures forall o :: o in r ==> o in offers && IsRunningAt(now)(o)
    ensures forall o :: o in offers && IsRunningAt(now)(o) ==> o in r
  {
    var selected := Filter(offers, IsRunningAt(now));
    forall o | o in r ensures o in offers && IsRunningAt(now)(o) {
      assert o in multiset(selected);
    }
    forall o | o in offers && IsRunningAt(now)(o) ensures o in r {
      FilterKeeps(offers, IsRunningAt(now), o);
      assert o in multiset(r);
    }
  }

  /** The listing: every offer, or only the offers running at `now`, starting
      latest first. Exactly the selected offers appear. */
  function GetOffers(offers: seq<Offer>, includeInactive: bool, now: Time): (r: seq<Offer>)
    ensures includeInactive ==> multiset(r) == multiset(offers)
    ensures !includeInactive ==> multiset(r) == multiset(Filter(offers, IsRunningAt(now)))
    ensures !includeInactive ==> forall o :: o in r ==> o in offers && IsRunningAt(now)(o)
    ensures !includeInactive ==> forall o :: o in offers && IsRunningAt(now)(o) ==> o in r
    ensures SortedDesc(r, StartAtOf)
  {
    if includeInactive then SortDesc(offers, StartAtOf)
    else
      var r := SortDesc(Filter(offers, IsRunningAt(now)), StartAtOf);
      RunningMembers(offers, now, r);
      r
  }

  // ---------------------------------------------------------------------------
  // CreateOfferAsync, ValidateOfferReferencesAsync

  /** The first reference that does not resolve, restaurant before menu item. */
  function ValidateOfferReferences(restaurants: seq<Restaurant>, menuItems: seq<MenuItem>,
                                   restaurantId: Option<Id>, menuItemId: Option<Id>): (r: Option<OfferError>)
    ensures r.None? <==>
      (restaurantId.None? || RestaurantExists(restaurants, restaurantId.value))
      && (menuItemId.None? || MenuItemExists(menuItems, menuItemId.value))
    ensures r == Some(RestaurantNotFound) <==>
      restaurantId.Some? && !RestaurantExists(restaurants, restaurantId.value)
  {
    if restaurantId.Some? && !RestaurantExists(restaurants, restaurantId.value) then Some(RestaurantNotFound)
    else if menuItemId.Some? && !MenuItemExists(menuItems, menuItemId.value) then Some(MenuItemNotFound)
    else None
  }

  /** The offer a create request stores: active, with the request's fields. */
  function NewOffer(id: Id, req: CreateOfferRequest): Offer {
    Offer(id, req.title, req.description, req.discountPercent, req.startAt, req.endAt,
          req.restaurantId, req.menuItemId, req.isPersonalized, true)
  }

  /** Stores a new active offer when its references resolve; otherwise fails
      with the first unresolved reference and stores nothing. */
  method CreateOffer(db: Store, req: CreateOfferRequest, newId: Id) returns (r: Result<Offer, OfferError>)
    modifies db`offers
    ensures var err := ValidateOfferReferences(db.restaurants, db.menuItems, req.restaurantId, req.menuItemId);
      && (r.Failure? <==> err.Some?)
      && (r.Failure? ==> r.error == err.value && db.offers == old(db.offers))
    ensures r.Success? ==> r.value == NewOffer(newId, req) && db.offers == old(db.offers) + [r.value]
  {
    var err := ValidateOfferReferences(db.restaurants, db.menuItems, req.restaurantId, req.menuItemId);
    if err.Some? {
      return Failure(err.value);
    }
    var offer := NewOffer(newId, req);
    db.offers := db.offers + [offer];
    r := Success(offer);
  }

  /** A created offer is active and carries exactly the request's fields and
      references. */
  lemma NewOfferFields(id: Id, req: CreateOfferRequest)
    ensures var o := NewOffer(id, req);
      && o.isActive && o.id == id
      && CreateOfferRequest(o.title, o.description, o.discountPercent, o.startAt, o.endAt,
                            o.restaurantId, o.menuItemId, o.isPersonalized) == req
  {
  }

  // ---------------------------------------------------------------------------
  // UpdateOfferAsync, DeleteOfferAsync

  /** The offer after an update: the seven request fields overwritten; the key
      and both references kept. */
  function Overwrite(o: Offer, req: UpdateOfferRequest): Offer {
    o.(title := req.title, description := req.description, discountPercent := req.discountPercent,
       startAt := req.startAt, endAt := req.endAt, isPersonalized := req.isPersonalized,
       isActive := req.isActive)
  }

  /** An update keeps the key and both references, and afterwards the offer
      holds exactly the request's seven fields. */
  lemma OverwriteFields(o: Offer, req: UpdateOfferRequest)
    ensures var u := Overwrite(o, req);
      && u.id == o.id && u.restaurantId == o.restaurantId && u.menuItemId == o.menuItemId
      && UpdateOfferRequest(u.title, u.description, u.discountPercent, u.startAt, u.endAt,
                            u.isPersonalized, u.isActive) == req
  {
  }

  /** Overwrites the offer with key `id`; None, with no change, when there is none. */
  method UpdateOffer(db: Store, id: Id, req: UpdateOfferRequest) returns (r: Option<Offer>)
    modifies db`offers
    ensures r.None? <==> !OfferExists(old(db.offers), id)
    ensures r.None? ==> db.offers == old(db.offers)
    ensures r.Some? ==> var i := FindOffer(old(db.offers), id).value;
      && r.value == Overwrite(old(db.offers)[i], req)
      && db.offers == old(db.offers)[i := r.value]
  {
    var found := FindOffer(db.offers, id);
    if found.None? {
      return None;
    }
    var offer := Overwrite(db.offers[found.value], req);
    db.offers := db.offers[found.value := offer];
    r := Some(offer);
  }

  /** Removes the offer with key `id`; false, with no change, when there is none. */
  method DeleteOffer(db: Store, id: Id) returns (deleted: bool)
    modifies db`offers
    ensures deleted <==> OfferExists(old(db.offers), id)
    ensures deleted ==> db.offers == RemoveAt(old(db.offers), FindOffer(old(db.offers), id).value)
    ensures !deleted ==> db.offers == old(db.offers)
  {
    var found := FindOffer(db.offers, id);
    if found.None? {
      return false;
    }
    db.offers := RemoveAt(db.offers, found.value);
    deleted := true;
  }

  /** Deleting removes exactly one row with the key and keeps every other row. */
  lemma DeleteRemovesOne(offers: seq<Offer>, id: Id)
    requires OfferExists(offers, id)
    ensures var after := RemoveAt(offers, FindOffer(offers, id).value);
      && |after| == |offers| - 1
      && Count(after, HasId(id)) == Count(offers, HasId(id)) - 1
      && forall o :: o in offers && o.id != id ==> o in after
  {
    var i := FindOffer(offers, id).value;
    var after := RemoveAt(offers, i);
    CountRemoveAt(offers, i, HasId(id));
    forall o | o in offers && o.id != id ensures o in after {
      assert o in multiset(offers);
      assert o != offers[i];
      assert o in multiset(after);
    }
  }
}

/** Controllers/OffersController.cs: opening an offer spends a ticket the first
    time, and tracking maps to 204 or 404. */
module OffersController {
  import opened Base
  import opened Models
  import opened Data
  import TicketService
  import OfferService

  /** The three answers of `GetOffer`. */
  datatype GetOfferResult =
    | NotFound
    | NoTicketLeft
    | Shown(offer: Offer, ticketConsumed: bool)

  /** The HTTP status of each answer. */
  function StatusOf(r: GetOfferResult): int {
    match r
    case NotFound => 404
    case NoTicketLeft => 400
    case Shown(_, _) => 200
  }

  /** Opens an offer for the user: 404 for an unknown offer; 200 without a ticket
      when the user already opened it; otherwise the oldest ticket is spent and
      the answer is 200, or 400 when the user has no ticket left. */
  method GetOffer(db: Store, userId: Id, id: Id, now: Time) returns (r: GetOfferResult)
    modifies db`tickets, db`couponViews
    ensures !OfferExists(old(db.offers), id) ==>
              r == NotFound && db.tickets == old(db.tickets) && db.couponViews == old(db.couponViews)
    ensures r.Shown? ==> r.offer == old(db.offers)[OfferService.FindOffer(old(db.offers), id).value]
    ensures OfferExists(old(db.offers), id) && HasViewed(old(db.couponViews), userId, id) ==>
              r.Shown? && !r.ticketConsumed
              && db.tickets == old(db.tickets) && db.couponViews == old(db.couponViews)
    ensures OfferExists(old(db.offers), id) && !HasViewed(old(db.couponViews), userId, id)
            && TicketService.AvailableCount(old(db.tickets), userId) > 0 ==>
              r.Shown? && r.ticketConsumed
              && db.tickets == TicketService.Spend(old(db.tickets), userId, id, now)
              && db.couponViews == old(db.couponViews) + [CouponView(userId, id, now)]
    ensures OfferExists(old(db.offers), id) && !HasViewed(old(db.couponViews), userId, id)
            && TicketService.AvailableCount(old(db.tickets), userId) == 0 ==>
              r == NoTicketLeft && db.tickets == old(db.tickets) && db.couponViews == old(db.couponViews)
    ensures r.Shown? && !r.ticketConsumed ==> HasViewed(old(db.couponViews), userId, id)
    ensures OfferService.ViewsUnique(old(db.couponViews)) ==> OfferService.ViewsUnique(db.couponViews)
  {
    var found := OfferService.FindOffer(db.offers, id);
    if found.None? {
      return NotFound;
    }
    var offer := db.offers[found.value];
    var alreadyViewed := HasViewed(db.couponViews, userId, id);
    var ticketConsumed := false;
    if !alreadyViewed {
      var consumed := TicketService.ConsumeTicketForOffer(db, userId, id, now);
      if !consumed {
        var availableTickets := TicketService.AvailableCount(db.tickets, userId);
        if availableTickets == 0 {
          return NoTicketLeft;
        }
        ticketConsumed := false;
      } else {
        if OfferService.ViewsUnique(old(db.couponViews)) {
          OfferService.AppendUnviewedKeepsUnique(old(db.couponViews), userId, id, now);
        }
        ticketConsumed := true;
      }
    }
    r := Shown(offer, ticketConsumed);
  }

  /** `result ? NoContent() : NotFound()` */
  function TrackStatus(tracked: bool): (status: int)
    ensures status == 204 || status == 404
    ensures status == 204 <==> tracked
  {
    if tracked then 204 else 404
  }

  /** Tracks the view and answers 204 for a known offer, 404 otherwise. */
  method TrackCoupon(db: Store, userId: Id, id: Id, now: Time) returns (status: int)
    modifies db`couponViews
    ensures status == (if OfferExists(db.offers, id) then 204 else 404)
    ensures db.couponViews == OfferService.TrackedViews(db.offers, old(db.couponViews), userId, id, now)
    ensures OfferService.ViewsUnique(old(db.couponViews)) ==> OfferService.ViewsUnique(db.couponViews)
  {
    if OfferService.ViewsUnique(db.couponViews) {
      OfferService.TrackKeepsUnique(db.offers, db.couponViews, userId, id, now);
    }
    var result := OfferService.TrackCouponView(db, userId, id, now);
    status := TrackStatus(result);
  }
}
