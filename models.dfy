/** The persisted records (the entity classes under Models) and the enumerations (Models/Enumerations.cs).
    Money is in integer cents (the columns are decimal(18,2)); percentages and
    ratings are in hundredths (decimal(5,2) and decimal(3,2)); instants are
    minutes. Navigation properties are left out: rows refer to each other by id. */
module Models {
  import opened Base

  /** Referenced by the ticket code but declared nowhere in the enumerations. */
  datatype TicketStatus = Available | Used

  datatype OrderStatus = Pending | Confirmed | Ready | Completed | Cancelled | Expired
  datatype OrderType = Pickup | DineIn | Delivery
  datatype PaymentStatus = PaymentPending | Succeeded | Failed | Refunded
  datatype PaymentType = Deposit | Remaining | Full
  /** General, Offer, Order, System. */
  datatype NotificationType = GeneralNotice | OfferNotice | OrderNotice | SystemNotice
  /** Restaurant, MenuItem, Offer. */
  datatype FavoriteType = RestaurantFavorite | MenuItemFavorite | OfferFavorite
  datatype VerificationChannel = Sms | Call | EmailChannel
  datatype TicketClaimStatus = Claimed | Redeemed | ClaimExpired | ClaimCancelled

  /** UserTicket.cs. The key is generated by the database and read by no core code. */
  datatype UserTicket = UserTicket(
    userId: Id, status: TicketStatus, offerId: Option<Id>, generatedAt: Time, usedAt: Option<Time>)

  /** CouponView.cs: "user has opened this offer". */
  datatype CouponView = CouponView(userId: Id, offerId: Id, viewedAt: Time)

  /** CancellationRight.cs */
  datatype CancellationRight = CancellationRight(
    id: Id, userId: Id, isUsed: bool, generatedAt: Time, usedAt: Option<Time>, orderId: Option<Id>)

  /** TicketDrop.cs: a shared batch of claimable tickets for one offer. */
  datatype TicketDrop = TicketDrop(
    id: Id, offerId: Id, ticketsTotal: int, ticketsRemaining: int,
    availableFrom: Time, expiresAt: Time, isActive: bool, createdAt: Time)

  /** TicketClaim.cs */
  datatype TicketClaim = TicketClaim(
    id: Id, ticketDropId: Id, userId: Id, code: string, qrPayload: string,
    status: TicketClaimStatus, claimedAt: Time, redeemedAt: Option<Time>, expiredAt: Option<Time>)

  /** Offer.cs */
  datatype Offer = Offer(
    id: Id, title: string, description: Option<string>, discountPercent: int,
    startAt: Time, endAt: Time, restaurantId: Option<Id>, menuItemId: Option<Id>,
    isPersonalized: bool, isActive: bool)

  /** An offer that runs at `now`: `o.IsActive && o.StartAt <= now && o.EndAt >= now`. */
  function IsRunningAt(now: Time): Offer -> bool {
    (o: Offer) => o.isActive && o.startAt <= now && o.endAt >= now
  }

  /** Restaurant.cs, the columns the core reads or writes. */
  datatype Restaurant = Restaurant(id: Id, name: string, averageRating: int, totalReviews: int)

  /** MenuItem.cs, the columns the core reads. */
  datatype MenuItem = MenuItem(id: Id, restaurantId: Id, title: string, basePrice: int)

  /** OrderItem.cs */
  datatype OrderItem = OrderItem(
    menuItemId: Id, name: string, quantity: int, unitPrice: int, discountAmount: int)

  /** Order.cs */
  datatype Order = Order(
    id: Id, orderNumber: string, userId: Id, restaurantId: Id, status: OrderStatus,
    orderType: OrderType, reservationCode: Option<string>, reservationExpiresAt: Option<Time>,
    depositAmount: int, remainingAmount: int, qrCode: Option<string>, notes: Option<string>,
    createdAt: Time, confirmedAt: Option<Time>, completedAt: Option<Time>, cancelledAt: Option<Time>,
    items: seq<OrderItem>)

  /** Payment.cs */
  datatype Payment = Payment(
    id: Id, orderId: Id, userId: Id, amount: int, paymentType: PaymentType,
    status: PaymentStatus, processedAt: Option<Time>, paymentMethod: string)

  /** UserAddress.cs (coordinates left out). */
  datatype UserAddress = UserAddress(
    id: Id, userId: Id, addressLabel: string, line1: string, line2: Option<string>,
    city: string, district: string, postalCode: string, isDefault: bool, createdAt: Time)

  /** Favorite.cs */
  datatype Favorite = Favorite(
    id: Id, userId: Id, favoriteType: FavoriteType, targetId: Id, createdAt: Time)

  /** SearchHistory.cs */
  datatype SearchHistory = SearchHistory(id: Id, userId: Id, query: string, createdAt: Time)

  /** Notification.cs */
  datatype Notification = Notification(
    id: Id, userId: Id, title: string, message: string, notificationType: NotificationType,
    isRead: bool, createdAt: Time, readAt: Option<Time>, metadataJson: Option<string>)

  /** User.cs, the columns the core reads or writes. */
  datatype User = User(
    id: Id, firstName: string, lastName: string, email: Option<string>,
    phoneNumber: string, passwordHash: string, isDeleted: bool, createdAt: Time)

  /** RefreshToken.cs */
  datatype RefreshToken = RefreshToken(
    id: Id, userId: Id, tokenHash: string, createdAt: Time, expiresAt: Time, revokedAt: Option<Time>)

  /** PhoneVerification.cs */
  datatype PhoneVerification = PhoneVerification(
    id: Id, userId: Id, code: string, expiresAt: Time, createdAt: Time,
    verifiedAt: Option<Time>, channel: VerificationChannel)

  /** Review.cs */
  datatype Review = Review(
    id: Id, userId: Id, restaurantId: Id, orderId: Option<Id>, rating: int,
    comment: Option<string>, isAnonymous: bool, createdAt: Time)

  /** TicketOptions.cs: configuration of both ticket designs. */
  datatype TicketOptions = TicketOptions(
    generationIntervalMinutes: int, dropDurationMinutes: int,
    ticketsPerInterval: int, maxActiveTickets: int)

  /** The defaults of TicketOptions.cs. */
  const DefaultTicketOptions := TicketOptions(30, 30, 1, 5)
}

/** The database context: one table per entity, each a sequence of rows in table order. */
module Data {
  import opened Base
  import opened Models

  class Store {
    var users: seq<User>
    var addresses: seq<UserAddress>
    var refreshTokens: seq<RefreshToken>
    var phoneVerifications: seq<PhoneVerification>
    var restaurants: seq<Restaurant>
    var menuItems: seq<MenuItem>
    var offers: seq<Offer>
    var favorites: seq<Favorite>
    var searchHistories: seq<SearchHistory>
    var couponViews: seq<CouponView>
    var orders: seq<Order>
    var payments: seq<Payment>
    var notifications: seq<Notification>
    var reviews: seq<Review>
    var ticketDrops: seq<TicketDrop>
    var ticketClaims: seq<TicketClaim>
    var tickets: seq<UserTicket>
    var cancellationRights: seq<CancellationRight>

    /** An empty database. */
    constructor ()
      ensures users == [] && addresses == [] && refreshTokens == [] && phoneVerifications == []
      ensures restaurants == [] && menuItems == [] && offers == [] && favorites == []
      ensures searchHistories == [] && couponViews == [] && orders == [] && payments == []
      ensures notifications == [] && reviews == [] && ticketDrops == [] && ticketClaims == []
      ensures tickets == [] && cancellationRights == []
    {
      users, addresses, refreshTokens, phoneVerifications := [], [], [], [];
      restaurants, menuItems, offers, favorites := [], [], [], [];
      searchHistories, couponViews, orders, payments := [], [], [], [];
      notifications, reviews, ticketDrops, ticketClaims := [], [], [], [];
      tickets, cancellationRights := [], [];
    }
  }

  /** `Offers.AnyAsync(o => o.Id == id)` */
  predicate OfferExists(offers: seq<Offer>, id: Id) {
    exists i :: 0 <= i < |offers| && offers[i].id == id
  }

  /** `CouponViews.AnyAsync(cv => cv.UserId == userId && cv.OfferId == offerId)` */
  predicate HasViewed(views: seq<CouponView>, userId: Id, offerId: Id) {
    exists i :: 0 <= i < |views| && views[i].userId == userId && views[i].offerId == offerId
  }

  /** `Restaurants.AnyAsync(r => r.Id == id)` */
  predicate RestaurantExists(restaurants: seq<Restaurant>, id: Id) {
    exists i :: 0 <= i < |restaurants| && restaurants[i].id == id
  }

  /** `MenuItems.AnyAsync(mi => mi.Id == id)` */
  predicate MenuItemExists(items: seq<MenuItem>, id: Id) {
    exists i :: 0 <= i < |items| && items[i].id == id
  }

  /** `Users.AnyAsync(u => u.Id == id)` */
  predicate UserExists(users: seq<User>, id: Id) {
    exists i :: 0 <= i < |users| && users[i].id == id
  }
}
