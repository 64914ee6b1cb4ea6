/** Services/Implementations/ReviewService.cs: restaurant reviews, at most one per
    user, restaurant and order, and the restaurant's rating, recomputed after
    every change as the mean rating rounded to hundredths together with the
    number of reviews. */
module ReviewService {
  import opened Base
  import opened Seqs
  import opened Sorting
  import opened Models
  import opened Data
  import opened Money

  /** CreateReviewRequest */
  datatype CreateReviewRequest = CreateReviewRequest(
    restaurantId: Id, orderId: Option<Id>, rating: int, comment: Option<string>, isAnonymous: bool)

  /** UpdateReviewRequest */
  datatype UpdateReviewRequest = UpdateReviewRequest(rating: int, comment: Option<string>, isAnonymous: bool)

  /** The InvalidOperationExceptions the service throws. */
  datatype ReviewError =
    | RestaurantNotFound      // "Restaurant not found."
    | OrderNotFoundForUser    // "Order not found for user."
    | ReviewAlreadyExists     // "Review already exists for this order."

  /** RestaurantRatingResponse: the average in hundredths. */
  datatype RatingSummary = RatingSummary(restaurantId: Id, averageRating: int, totalReviews: nat)

  function IsReviewOf(restaurantId: Id): Review -> bool {
    (r: Review) => r.restaurantId == restaurantId
  }

  /** `r.Id == reviewId && r.UserId == userId` */
  function IsOwnReview(userId: Id, reviewId: Id): Review -> bool {
    (r: Review) => r.id == reviewId && r.userId == userId
  }

  function HasRestaurantId(restaurantId: Id): Restaurant -> bool {
    (r: Restaurant) => r.id == restaurantId
  }

  // ---------------------------------------------------------------------------
  // Rating

  /** Sum of the ratings of the restaurant's reviews. */
  function RatingSum(reviews: seq<Review>, restaurantId: Id): int {
    if |reviews| == 0 then 0
    else
      var last := reviews[|reviews| - 1];
      RatingSum(reviews[..|reviews| - 1], restaurantId) + (if last.restaurantId == restaurantId then last.rating else 0)
  }

  /** Number of the restaurant's reviews. */
  function RatingCount(reviews: seq<Review>, restaurantId: Id): nat {
    Count(reviews, IsReviewOf(restaurantId))
  }

  /** The mean rating in hundredths, rounded half to even (`Math.Round(decimal, 2)`);
      0 without reviews. */
  function AverageRating(reviews: seq<Review>, restaurantId: Id): (avg: int)
    ensures RatingCount(reviews, restaurantId) == 0 ==> avg == 0
    ensures var n, s := RatingCount(reviews, restaurantId), RatingSum(reviews, restaurantId);
      n > 0 ==> (2 * Abs(100 * s - avg * n) <= n
                 && (2 * Abs(100 * s - avg * n) == n ==> avg % 2 == 0))
  {
    var n := RatingCount(reviews, restaurantId);
    if n == 0 then 0 else RoundHalfEven(100 * RatingSum(reviews, restaurantId), n)
  }

  /** Ratings are validated to lie in 1..5. */
  ghost predicate RatingsInRange(reviews: seq<Review>) {
    forall i :: 0 <= i < |reviews| ==> 1 <= reviews[i].rating <= 5
  }

  lemma {:induction false} SumBounds(reviews: seq<Review>, restaurantId: Id)
    requires RatingsInRange(reviews)
    ensures RatingCount(reviews, restaurantId) <= RatingSum(reviews, restaurantId) <= 5 * RatingCount(reviews, restaurantId)
  {
    if |reviews| > 0 {
      SumBounds(reviews[..|reviews| - 1], restaurantId);
    }
  }

  /** With ratings in 1..5, a rated restaurant's average lies in 1.00..5.00. */
  lemma AverageBounds(reviews: seq<Review>, restaurantId: Id)
    requires RatingsInRange(reviews)
    requires RatingCount(reviews, restaurantId) > 0
    ensures 100 <= AverageRating(reviews, restaurantId) <= 500
  {
    var n, s, avg := RatingCount(reviews, restaurantId), RatingSum(reviews, restaurantId), AverageRating(reviews, restaurantId);
    SumBounds(reviews, restaurantId);
    RoundedMeanBounds(s, n, avg);
  }

  /** A mean of values in 1..5, rounded to hundredths, lies in 100..500. */
  lemma RoundedMeanBounds(s: int, n: int, avg: int)
    requires n > 0 && n <= s <= 5 * n
    requires 2 * Abs(100 * s - avg * n) <= n
    ensures 100 <= avg <= 500
  {
    if avg <= 99 {
      MulMono(avg, 99, n);
    }
    if avg >= 501 {
      MulMono(501, avg, n);
    }
  }

  lemma MulMono(a: int, b: int, n: int)
    requires a <= b && n >= 0
    ensures a * n <= b * n
  {
    assert b * n - a * n == (b - a) * n;
  }

  /** A new review adds one to the count and its rating to the sum. */
  lemma AddedReviewCounts(reviews: seq<Review>, review: Review)
    ensures RatingCount(reviews + [review], review.restaurantId) == RatingCount(reviews, review.restaurantId) + 1
    ensures RatingSum(reviews + [review], review.restaurantId) == RatingSum(reviews, review.restaurantId) + review.rating
    ensures forall other :: other != review.restaurantId ==>
              RatingCount(reviews + [review], other) == RatingCount(reviews, other)
              && RatingSum(reviews + [review], other) == RatingSum(reviews, other)
  {
    var after := reviews + [review];
    assert after[..|after| - 1] == reviews;
    CountSnoc(reviews, review, IsReviewOf(review.restaurantId));
    forall other | other != review.restaurantId
      ensures RatingCount(after, other) == RatingCount(reviews, other)
    {
      CountSnoc(reviews, review, IsReviewOf(other));
    }
  }

  /** The restaurant row with the recomputed average and count. */
  function Rated(restaurants: seq<Restaurant>, i: nat, reviews: seq<Review>): (r: seq<Restaurant>)
    requires i < |restaurants|
    ensures |r| == |restaurants|
  {
    var id := restaurants[i].id;
    restaurants[i := restaurants[i].(averageRating := AverageRating(reviews, id),
                                     totalReviews := RatingCount(reviews, id))]
  }

  /** Recomputes the restaurant's rating from its reviews; an unknown restaurant is
      refused with no change. */
  method UpdateRestaurantRating(db: Store, restaurantId: Id) returns (r: Result<RatingSummary, ReviewError>)
    modifies db`restaurants
    ensures var f := FirstIndex(old(db.restaurants), HasRestaurantId(restaurantId));
      && (r.Failure? <==> f.None?)
      && (r.Failure? ==> r.error == RestaurantNotFound && db.restaurants == old(db.restaurants))
      && (r.Success? ==>
            && db.restaurants == Rated(old(db.restaurants), f.value, db.reviews)
            && r.value == RatingSummary(restaurantId, AverageRating(db.reviews, restaurantId),
                                        RatingCount(db.reviews, restaurantId)))
  {
    var found := FirstIndex(db.restaurants, HasRestaurantId(restaurantId));
    if found.None? {
      return Failure(RestaurantNotFound);
    }
    var count := RatingCount(db.reviews, restaurantId);
    var average := if count == 0 then 0 else RoundHalfEven(100 * RatingSum(db.reviews, restaurantId), count);
    var i := found.value;
    db.restaurants := db.restaurants[i := db.restaurants[i].(averageRating := average, totalReviews := count)];
    r := Success(RatingSummary(restaurantId, average, count));
  }

  /** After a recomputation the restaurant holds its review count and the rounded
      mean, 0 and 0 without reviews; no other restaurant changes. */
  lemma RatedEffect(restaurants: seq<Restaurant>, i: nat, reviews: seq<Review>)
    requires i < |restaurants|
    ensures var after := Rated(restaurants, i, reviews);
      var id := restaurants[i].id;
      && after[i].id == id
      && after[i].totalReviews == Count(reviews, IsReviewOf(id))
      && (Count(reviews, IsReviewOf(id)) == 0 ==> after[i].averageRating == 0 && after[i].totalReviews == 0)
      && (RatingsInRange(reviews) && Count(reviews, IsReviewOf(id)) > 0 ==> 100 <= after[i].averageRating <= 500)
      && forall j :: 0 <= j < |after| && j != i ==> after[j] == restaurants[j]
  {
    var id := restaurants[i].id;
    if RatingsInRange(reviews) && Count(reviews, IsReviewOf(id)) > 0 {
      AverageBounds(reviews, id);
    }
  }

  // ---------------------------------------------------------------------------
  // Create

  /** `o.Id == orderId && o.UserId == userId` */
  predicate OrderOfUser(orders: seq<Order>, orderId: Id, userId: Id) {
    exists i :: 0 <= i < |orders| && orders[i].id == orderId && orders[i].userId == userId
  }

  /** `r.UserId == userId && r.RestaurantId == restaurantId && r.OrderId == orderId`,
      where two missing orders compare equal. */
  predicate HasReviewed(reviews: seq<Review>, userId: Id, restaurantId: Id, orderId: Option<Id>) {
    exists i :: 0 <= i < |reviews| && reviews[i].userId == userId
      && reviews[i].restaurantId == restaurantId && reviews[i].orderId == orderId
  }

  /** The error CreateReview throws, if any, in the order the checks run. */
  function CreateRefusal(restaurants: seq<Restaurant>, orders: seq<Order>, reviews: seq<Review>,
                         userId: Id, req: CreateReviewRequest): Option<ReviewError>
  {
    if !RestaurantExists(restaurants, req.restaurantId) then Some(RestaurantNotFound)
    else if req.orderId.Some? && !OrderOfUser(orders, req.orderId.value, userId) then Some(OrderNotFoundForUser)
    else if HasReviewed(reviews, userId, req.restaurantId, req.orderId) then Some(ReviewAlreadyExists)
    else None
  }

  /** The review CreateReview stores. */
  function NewReview(id: Id, userId: Id, req: CreateReviewRequest, now: Time): Review {
    Review(id, userId, req.restaurantId, req.orderId, req.rating, req.comment, req.isAnonymous, now)
  }

  /** Stores the review and recomputes the restaurant's rating, or fails with the
      refusal and changes nothing. */
  method CreateReview(db: Store, userId: Id, req: CreateReviewRequest, newId: Id, now: Time)
    returns (r: Result<Review, ReviewError>)
    modifies db`reviews, db`restaurants
    ensures var refusal := CreateRefusal(old(db.restaurants), db.orders, old(db.reviews), userId, req);
      && (r.Failure? <==> refusal.Some?)
      && (r.Failure? ==>
            && r.error == refusal.value
            && db.reviews == old(db.reviews) && db.restaurants == old(db.restaurants))
    ensures r.Success? ==>
              && r.value == NewReview(newId, userId, req, now)
              && db.reviews == old(db.reviews) + [r.value]
              && FirstIndex(old(db.restaurants), HasRestaurantId(req.restaurantId)).Some?
              && db.restaurants == Rated(old(db.restaurants),
                                         FirstIndex(old(db.restaurants), HasRestaurantId(req.restaurantId)).value,
                                         db.reviews)
  {
    if !RestaurantExists(db.restaurants, req.restaurantId) {
      return Failure(RestaurantNotFound);
    }
    if req.orderId.Some? {
      var orderExists := OrderOfUser(db.orders, req.orderId.value, userId);
      if !orderExists {
        return Failure(OrderNotFoundForUser);
      }
    }
    var hasReviewed := HasReviewed(db.reviews, userId, req.restaurantId, req.orderId);
    if hasReviewed {
      return Failure(ReviewAlreadyExists);
    }
    var review := NewReview(newId, userId, req, now);
    db.reviews := db.reviews + [review];
    var rating := UpdateRestaurantRating(db, req.restaurantId);
    r := Success(review);
  }

  /** The same review cannot be written twice: once a create succeeds, the same
      request from the same user is refused. */
  lemma SecondReviewRejected(restaurants: seq<Restaurant>, orders: seq<Order>, reviews: seq<Review>,
                             userId: Id, req: CreateReviewRequest, newId: Id, now: Time)
    requires CreateRefusal(restaurants, orders, reviews, userId, req).None?
    requires FirstIndex(restaurants, HasRestaurantId(req.restaurantId)).Some?
    ensures var after := reviews + [NewReview(newId, userId, req, now)];
      var rated := Rated(restaurants, FirstIndex(restaurants, HasRestaurantId(req.restaurantId)).value, after);
      CreateRefusal(rated, orders, after, userId, req) == Some(ReviewAlreadyExists)
  {
    var after := reviews + [NewReview(newId, userId, req, now)];
    var i := FirstIndex(restaurants, HasRestaurantId(req.restaurantId)).value;
    var rated := Rated(restaurants, i, after);
    assert rated[i].id == req.restaurantId;
    assert after[|reviews|].userId == userId;
  }

  // ---------------------------------------------------------------------------
  // Update and delete

  function FindReview(reviews: seq<Review>, userId: Id, reviewId: Id): Option<nat> {
    FirstIndex(reviews, IsOwnReview(userId, reviewId))
  }

  /** The request's rating, comment and anonymity over the stored review. */
  function Revise(review: Review, req: UpdateReviewRequest): (r: Review)
    ensures r == Review(review.id, review.userId, review.restaurantId, review.orderId,
                        req.rating, req.comment, req.isAnonymous, review.createdAt)
  {
    review.(rating := req.rating, comment := req.comment, isAnonymous := req.isAnonymous)
  }

  /** Rewrites the caller's review and recomputes its restaurant's rating; None,
      with no change, for a missing or foreign review. The review is saved before
      the rating, so a missing restaurant fails after the review has changed. */
  method UpdateReview(db: Store, userId: Id, reviewId: Id, req: UpdateReviewRequest)
    returns (r: Result<Option<Review>, ReviewError>)
    modifies db`reviews, db`restaurants
    ensures var f := FindReview(old(db.reviews), userId, reviewId);
      && (f.None? ==> r == Success(None) && db.reviews == old(db.reviews) && db.restaurants == old(db.restaurants))
      && (f.Some? ==>
            var revised := Revise(old(db.reviews)[f.value], req);
            var g := FirstIndex(old(db.restaurants), HasRestaurantId(revised.restaurantId));
            && db.reviews == old(db.reviews)[f.value := revised]
            && (g.None? ==> r == Failure(RestaurantNotFound) && db.restaurants == old(db.restaurants))
            && (g.Some? ==> r == Success(Some(revised)) && db.restaurants == Rated(old(db.restaurants), g.value, db.reviews)))
  {
    var found := FindReview(db.reviews, userId, reviewId);
    if found.None? {
      return Success(None);
    }
    var revised := Revise(db.reviews[found.value], req);
    db.reviews := db.reviews[found.value := revised];
    var rating := UpdateRestaurantRating(db, revised.restaurantId);
    if rating.Failure? {
      return Failure(rating.error);
    }
    r := Success(Some(revised));
  }

  /** Removes the caller's review and recomputes its restaurant's rating; false,
      with no change, for a missing or foreign review. */
  method DeleteReview(db: Store, userId: Id, reviewId: Id) returns (r: Result<bool, ReviewError>)
    modifies db`reviews, db`restaurants
    ensures var f := FindReview(old(db.reviews), userId, reviewId);
      && (f.None? ==> r == Success(false) && db.reviews == old(db.reviews) && db.restaurants == old(db.restaurants))
      && (f.Some? ==>
            var g := FirstIndex(old(db.restaurants), HasRestaurantId(old(db.reviews)[f.value].restaurantId));
            && db.reviews == RemoveAt(old(db.reviews), f.value)
            && (g.None? ==> r == Failure(RestaurantNotFound) && db.restaurants == old(db.restaurants))
            && (g.Some? ==> r == Success(true) && db.restaurants == Rated(old(db.restaurants), g.value, db.reviews)))
  {
    var found := FindReview(db.reviews, userId, reviewId);
    if found.None? {
      return Success(false);
    }
    var review := db.reviews[found.value];
    db.reviews := RemoveAt(db.reviews, found.value);
    var rating := UpdateRestaurantRating(db, review.restaurantId);
    if rating.Failure? {
      return Failure(rating.error);
    }
    r := Success(true);
  }

  /** Update and delete touch only the caller's own review: the row found is the
      caller's, an update keeps its owner, restaurant and order, and a delete
      leaves every other review in place. */
  lemma OwnReviewOnly(reviews: seq<Review>, userId: Id, reviewId: Id, req: UpdateReviewRequest)
    requires FindReview(reviews, userId, reviewId).Some?
    ensures var i := FindReview(reviews, userId, reviewId).value;
      var revised := Revise(reviews[i], req);
      && reviews[i].id == reviewId && reviews[i].userId == userId
      && revised.userId == userId && revised.restaurantId == reviews[i].restaurantId
      && revised.orderId == reviews[i].orderId
      && multiset(RemoveAt(reviews, i)) + multiset{reviews[i]} == multiset(reviews)
      && RatingCount(RemoveAt(reviews, i), reviews[i].restaurantId) == RatingCount(reviews, reviews[i].restaurantId) - 1
  {
    var i := FindReview(reviews, userId, reviewId).value;
    CountRemoveAt(reviews, i, IsReviewOf(reviews[i].restaurantId));
  }

  // ---------------------------------------------------------------------------
  // Listing

  function CreatedAtOf(r: Review): int { r.createdAt }

  /** The restaurant's reviews, newest first. */
  function Listing(reviews: seq<Review>, restaurantId: Id): (r: seq<Review>)
    ensures |r| == RatingCount(reviews, restaurantId)
    ensures multiset(r) == multiset(Filter(reviews, IsReviewOf(restaurantId)))
    ensures forall x :: x in r ==> x in reviews && x.restaurantId == restaurantId
    ensures SortedDesc(r, CreatedAtOf)
  {
    var mine := Filter(reviews, IsReviewOf(restaurantId));
    var r := SortDesc(mine, CreatedAtOf);
    forall x | x in r ensures x in mine {
      assert x in multiset(r);
    }
    r
  }

  const Int32Max := 0x7FFF_FFFF

  /** A C# `int` result, wrapped to 32 bits as unchecked arithmetic does. */
  function WrapInt32(x: int): (r: int)
    ensures -0x8000_0000 <= r <= Int32Max
    ensures (r - x) % 0x1_0000_0000 == 0
    ensures -0x8000_0000 <= x <= Int32Max ==> r == x
  {
    (x + 0x8000_0000) % 0x1_0000_0000 - 0x8000_0000
  }

  /** Page and page size are C# `int`s, the page at least 1 and the size positive,
      as the controller clamps them. */
  predicate PageArgs(page: int, pageSize: int) {
    1 <= page <= Int32Max && 1 <= pageSize <= Int32Max
  }

  /** The offset `(page - 1) * pageSize`, computed in 32-bit `int`. */
  function Offset(page: int, pageSize: int): int {
    WrapInt32((page - 1) * pageSize)
  }

  /** Offsets that fit in an `int` are exact (`NoWrap`); larger ones wrap around,
      to a small offset or to a negative one. */
  lemma OffsetWraps()
    ensures Offset(1431655767, 3) == 2
    ensures Offset(42949674, 50) < 0
  {
    var big := (1431655767 - 1) * 3;
    assert big == 0x1_0000_0000 + 2;
    assert WrapInt32(big) == (0x1_0000_0000 + 2 + 0x8000_0000) % 0x1_0000_0000 - 0x8000_0000;
    var neg := (42949674 - 1) * 50;
    assert neg == 0x8000_0000 + 2;
    assert WrapInt32(neg) == (0x8000_0000 + 2 + 0x8000_0000) % 0x1_0000_0000 - 0x8000_0000;
  }

  /** An offset that fits in an `int` is computed exactly. */
  lemma NoWrap(page: int, pageSize: int)
    requires PageArgs(page, pageSize) && (page - 1) * pageSize <= Int32Max
    ensures 0 <= (page - 1) * pageSize == Offset(page, pageSize)
  {
    var x := (page - 1) * pageSize;
    assert 0 <= x by {
      assert page - 1 >= 0 && pageSize >= 0;
    }
    assert WrapInt32(x) == x;
  }

  /** `Skip(offset).Take(pageSize)` on a list; None when the wrapped offset is
      negative, which the database refuses. */
  function Paged<T>(all: seq<T>, page: int, pageSize: int): (r: Option<seq<T>>)
    requires PageArgs(page, pageSize)
    ensures r.None? <==> Offset(page, pageSize) < 0
    ensures r.Some? ==> |r.value| <= pageSize && forall x :: x in r.value ==> x in all
    ensures r.Some? ==> |r.value| == Min(pageSize, Max(0, |all| - Offset(page, pageSize)))
    ensures r.Some? ==> forall i :: 0 <= i < |r.value| ==> r.value[i] == all[Offset(page, pageSize) + i]
  {
    var skip := Offset(page, pageSize);
    if skip < 0 then None
    else if skip >= |all| then Some([])
    else Some(all[skip..Min(skip + pageSize, |all|)])
  }

  /** Page `page` of `pageSize` reviews, newest first; None when the offset wraps
      negative. */
  function Page(reviews: seq<Review>, restaurantId: Id, page: int, pageSize: int): (r: Option<seq<Review>>)
    requires PageArgs(page, pageSize)
    ensures r.None? <==> Offset(page, pageSize) < 0
    ensures r.Some? ==> |r.value| <= pageSize
    ensures r.Some? ==> |r.value| == Min(pageSize, Max(0, |Listing(reviews, restaurantId)| - Offset(page, pageSize)))
    ensures r.Some? ==> forall x :: x in r.value ==> x in reviews && x.restaurantId == restaurantId
    ensures r.Some? ==> SortedDesc(r.value, CreatedAtOf)
  {
    var all := Listing(reviews, restaurantId);
    var r := Paged(all, page, pageSize);
    PagedSorted(all, page, pageSize);
    r
  }

  lemma PagedSorted(all: seq<Review>, page: int, pageSize: int)
    requires PageArgs(page, pageSize)
    requires SortedDesc(all, CreatedAtOf)
    ensures Paged(all, page, pageSize).Some? ==> SortedDesc(Paged(all, page, pageSize).value, CreatedAtOf)
  {
    var skip := Offset(page, pageSize);
    if 0 <= skip < |all| {
      SliceSorted(all, skip, Min(skip + pageSize, |all|), CreatedAtOf);
    }
  }

  /** The page that holds entry `k` of a list (`k / pageSize + 1`). */
  function PageOf(k: nat, pageSize: int): (page: int)
    requires pageSize >= 1
    ensures page >= 1
  {
    k / pageSize + 1
  }

  /** The position of entry `k` of a list on its page (`k % pageSize`). */
  function SlotOf(k: nat, pageSize: int): (i: nat)
    requires pageSize >= 1
    ensures i < pageSize
  {
    k % pageSize
  }

  /** The page holding entry k skips exactly the entries before its slot. */
  lemma PageStart(k: nat, pageSize: int)
    requires pageSize >= 1
    ensures (PageOf(k, pageSize) - 1) * pageSize + SlotOf(k, pageSize) == k
  {
  }

  /** Pages split a list: entry k of the list, for k within `int` range, is entry
      k mod pageSize of page k / pageSize + 1. */
  lemma {:induction false} PagedSplits<T>(all: seq<T>, pageSize: int, k: nat)
    requires 1 <= pageSize <= Int32Max && k < |all| && k < Int32Max
    ensures PageArgs(PageOf(k, pageSize), pageSize)
    ensures var p := Paged(all, PageOf(k, pageSize), pageSize);
      p.Some? && SlotOf(k, pageSize) < |p.value| && p.value[SlotOf(k, pageSize)] == all[k]
  {
    var page, slot := PageOf(k, pageSize), SlotOf(k, pageSize);
    PageStart(k, pageSize);
    var skip := k - slot;
    assert skip == (page - 1) * pageSize;
    assert page <= k + 1 by {
      DivAtMost(k, pageSize);
    }
    PagedAt(all, page, pageSize, skip, slot);
  }

  /** Every listed review within `int` range is on exactly the page its position
      says. */
  lemma OnePagePerReview(reviews: seq<Review>, restaurantId: Id, pageSize: int, k: nat)
    requires 1 <= pageSize <= Int32Max && k < Int32Max
    requires k < |Listing(reviews, restaurantId)|
    ensures PageArgs(PageOf(k, pageSize), pageSize)
    ensures var p := Page(reviews, restaurantId, PageOf(k, pageSize), pageSize);
      p.Some? && SlotOf(k, pageSize) < |p.value| && p.value[SlotOf(k, pageSize)] == Listing(reviews, restaurantId)[k]
  {
    PagedSplits(Listing(reviews, restaurantId), pageSize, k);
  }

  lemma DivAtMost(k: nat, d: int)
    requires d >= 1
    ensures k / d <= k
  {
  }

  /** Entry `i` of a page whose offset `skip` fits in an `int` is entry
      `skip + i` of the list. */
  lemma PagedAt<T>(all: seq<T>, page: int, pageSize: int, skip: nat, i: nat)
    requires PageArgs(page, pageSize) && i < pageSize
    requires skip == (page - 1) * pageSize && skip <= Int32Max
    requires skip + i < |all|
    ensures Paged(all, page, pageSize).Some?
    ensures i < |Paged(all, page, pageSize).value|
    ensures Paged(all, page, pageSize).value[i] == all[skip + i]
  {
    NoWrap(page, pageSize);
    assert Paged(all, page, pageSize).value == all[skip..Min(skip + pageSize, |all|)];
  }

  // ---------------------------------------------------------------------------
  // Author name

  /** ReviewResponse.AuthorName: "Anonim" for an anonymous review, otherwise the
      first name, a space, the initial of the last name and a full stop. The
      initial is `LastName[0]`, so the source requires a last name. */
  function AuthorName(isAnonymous: bool, firstName: string, lastName: string): (r: string)
    requires isAnonymous || |lastName| > 0
    ensures isAnonymous ==> r == "Anonim"
    ensures !isAnonymous ==>
              && |r| == |firstName| + 3
              && r[..|firstName|] == firstName
              && r[|firstName|] == ' ' && r[|firstName| + 1] == lastName[0] && r[|r| - 1] == '.'
  {
    if isAnonymous then "Anonim" else firstName + " " + [lastName[0]] + "."
  }

  /** A named author never reads as "Anonim": the name ends in a full stop. */
  lemma NamedNeverAnonymous(firstName: string, lastName: string)
    requires |lastName| > 0
    ensures AuthorName(false, firstName, lastName) != "Anonim"
  {
    var r := AuthorName(false, firstName, lastName);
    assert r[|r| - 1] == '.';
  }
}
