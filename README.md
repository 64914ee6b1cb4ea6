# OdiNow core in Dafny

OdiNow is a food-offer and pickup-ordering backend (ASP.NET Core with Entity
Framework). This project models its business core in Dafny:

- the per-user ticket ledger: a lazily refilled bucket of tickets that a user
  spends to open an offer;
- the offer-view gate of the offers controller;
- the cancellation-rights ledger;
- the older shared ticket-drop sweeper and generator;
- orders, with their deposit and remainder arithmetic;
- offer CRUD and coupon-view tracking;
- the profile collections: addresses, favorites and search history;
- notifications and their read state;
- authentication logic apart from cryptography;
- restaurant reviews with their rating aggregation.

The model proves properties of each of these.

The database is the class `Data.Store`, one `seq` field per table, with rows
kept in table order. Every service is a module of methods over the store,
declared `modifies` on exactly the tables it writes. Each method is tied to
specification functions on the old table contents, and lemmas state what the
service promises about those functions.

Values are modelled as follows:

- Time is an integer number of minutes.
- Money is integer cents. Rounding to 2 decimals is exact, half to even, as
  `decimal.Round` does it.
- A restaurant's average rating is an integer number of hundredths, computed
  from the exact rational mean.
- Identifiers (GUIDs) are natural numbers that the caller passes to each
  operation. The same holds for password and token hashes.
- The order number and reservation code an order draws are parameters of
  `CreateOrder`, required to lie in the range the source draws from. The
  other random draws (verification code, the offer a drop is released for)
  are nondeterministic choices within the source's ranges.

Files:

| file | modules |
|---|---|
| base.dfy | `Base` (Option, Result), `Seqs` (Count, Filter, FirstIndex and their lemmas) |
| sorting.dfy | `Sorting`: descending insertion sort by a key, top-k, sort by a total order |
| text.dfy | `Text`: trimming, digits, decimal printing and parsing, ordinal string order |
| models.dfy | `Models` (the records and enumerations), `Data` (the `Store` class) |
| tickets.dfy | `TicketService` |
| rights.dfy | `CancellationRightsService` |
| drops.dfy | `TicketGenerationService` |
| offers.dfy | `OfferService`, `OffersController` |
| orders.dfy | `Money`, `OrderService` |
| profile.dfy | `ProfileService` |
| notifications.dfy | `NotificationService` |
| auth.dfy | `AuthService` |
| reviews.dfy | `ReviewService` |

A few behaviours follow the code even where the system's description suggests
otherwise:

- Backfill stamps a new user's newest ticket one interval before now, not at
  now.
- The review page offset `(page - 1) * pageSize` is computed in 32-bit `int`
  and wraps: a large page can return an early page's entries, or a negative
  offset that the database refuses (`OffsetWraps`).
- `ConfirmOrder` does not look at the order's status, so a cancelled or
  completed order with the right code is confirmed (`ConfirmIgnoresStatus`).
- A Full payment reduces only the remaining amount.
- `UpdateNotification` looks the notification up by id alone, with no owner
  check.
- `UpdateReview` and `DeleteReview` save the review before the rating is
  recomputed. A missing restaurant therefore fails after the review has
  changed.
- A request that names one menu item on two lines is rejected by the count
  check (`RepeatedItemRejected`).

## Model

| member | source | states |
|---|---|---|
| TicketService.AppendBackfill | Services/Implementations/TicketService.cs:223-236 | the backfill loop appends exactly `Backfill(userId, now, opts)` and returns the last ticket's GeneratedAt |
| TicketService.AppendCatchUp | Services/Implementations/TicketService.cs:240-271 | the catch-up while loop, re-reading the Available count each round, appends exactly `CatchUp(...)` from the old Available count; returns the last stamp appended |
| TicketService.EnsureTickets | Services/Implementations/TicketService.cs:207-294 | Ensure only appends: the new table is the old one plus `Generated(...)`; the returned latest ticket is `EnsuredLatest` |
| TicketService.BackfillSpacing | Services/Implementations/TicketService.cs:226-232 | backfilled tickets are one interval apart and the newest is stamped now minus one interval |
| TicketService.BackfillShape | Services/Implementations/TicketService.cs:223-236 | a user with no ticket gets exactly MaxActiveTickets Available tickets, ticket i stamped `now - interval*(Max - i)`, spaced one interval apart, the newest at now minus one interval |
| TicketService.CatchUpAt | Services/Implementations/TicketService.cs:246-267 | the k-th caught-up ticket is stamped `next + k*interval`, and that stamp is not after now |
| TicketService.CatchUpLength | Services/Implementations/TicketService.cs:246-256 | catch-up adds at most `Max - available` tickets and stops only at the cap or at the first boundary after now |
| TicketService.CatchUpStamps | Services/Implementations/TicketService.cs:240-267 | for an existing user the k-th new ticket is `latest + (k+1)*interval`, Available, and not after now |
| TicketService.GeneratedCounts | Services/Implementations/TicketService.cs:207-294 | every generated ticket is a fresh Available ticket of the user; the user's Available count grows by the number generated, and every other user's count is unchanged |
| TicketService.EnsureRespectsCap | Services/Implementations/TicketService.cs:246-256 | at or above the cap nothing is generated; at or below the cap before Ensure means at or below it after |
| TicketService.EnsureCatchesUp | Services/Implementations/TicketService.cs:246-265 | after Ensure the user is at the cap, or the next boundary lies after now |
| TicketService.EnsureRefillRate | Services/Implementations/TicketService.cs:240-267 | with room for k tickets and now within the k-th interval after the latest ticket, Ensure creates exactly k |
| TicketService.EnsuredLatestIsNewest | Services/Implementations/TicketService.cs:211-214 | the ticket Ensure returns is the user's newest ticket in the table after the call |
| TicketService.EnsureLeavesTicket | Services/Implementations/TicketService.cs:223-237 | with a positive cap, Ensure always leaves the user a latest ticket |
| TicketService.OldestAvailable | Services/Implementations/TicketService.cs:133-136 | None exactly when the user has no Available ticket; otherwise an Available ticket of the user with the smallest GeneratedAt |
| TicketService.Spend | Services/Implementations/TicketService.cs:133-151 | the table with an Available ticket of the user of minimal GeneratedAt set Used, with OfferId and UsedAt |
| TicketService.SpendCounts | Services/Implementations/TicketService.cs:148-151 | spending lowers the user's Available count by exactly one, raises their history count by one, and leaves other users' counts alone |
| TicketService.ConsumeTicketForOffer | Services/Implementations/TicketService.cs:86-162 | consumes exactly when the offer exists, the pair was not viewed and a ticket is Available; then spends the oldest ticket and appends the view at now; otherwise nothing changes |
| TicketService.ConsumeOncePerOffer | Services/Implementations/TicketService.cs:98-116 | after the view is recorded the same user can never be charged again for the same offer |
| TicketService.TimedFirst | Services/Implementations/TicketService.cs:59 | rows with a UsedAt sorted descending, followed by rows without, are in UsedAt-descending order, nulls last |
| TicketService.ByUsedAtDesc | Services/Implementations/TicketService.cs:59 | the ordered list is a permutation of the input, UsedAt-descending with nulls last |
| TicketService.History | Services/Implementations/TicketService.cs:54-61 | at most 20 distinct rows of the user's Used tickets with an offer, all of them when fewer, most recently used first; no omitted one was used later than a kept one (a null UsedAt counts as earliest) |
| TicketService.NextTicketFromNewest | Services/Implementations/TicketService.cs:47-52 | the next ticket is null exactly when the user is at the cap after Ensure; otherwise it is the newest ticket's GeneratedAt plus one interval |
| TicketService.GetSummary | Services/Implementations/TicketService.cs:25-84 | runs Ensure, then reports the Available count after it, the cap, the next-ticket time and the history |
| CancellationRightsService.NewestIsLatest | Services/Implementations/CancellationRightsService.cs:73-86 | the 5-newest list is empty exactly when the user has no right; its head is the user's newest right |
| CancellationRightsService.RenewsIff | Services/Implementations/CancellationRightsService.cs:73-90 | a right is granted exactly when fewer than 5 of the 5 newest are unused, and the user has no right or the newest is at least 15 minutes old |
| CancellationRightsService.FullNoRenewal | Services/Implementations/CancellationRightsService.cs:79-84 | nothing is granted while the 5 newest rights are all unused |
| CancellationRightsService.RecentNoRenewal | Services/Implementations/CancellationRightsService.cs:86-90 | nothing is granted within 15 minutes of the newest right |
| CancellationRightsService.FirstEnsureGrants | Services/Implementations/CancellationRightsService.cs:86-101 | a user with no right is granted one on the first call |
| CancellationRightsService.EnsureRights | Services/Implementations/CancellationRightsService.cs:70-102 | appends exactly one unused right stamped now when renewal is due, and nothing otherwise |
| CancellationRightsService.UseRightCounts | Services/Implementations/CancellationRightsService.cs:54-64 | using a right marks one unused right of the user as used now for the order, lowers their unused count by one, and leaves other users' counts alone |
| CancellationRightsService.UseRight | Services/Implementations/CancellationRightsService.cs:52-68 | true exactly when the user has an unused right; then the first one is marked used; false leaves the table unchanged |
| CancellationRightsService.RightsSummaryFacts | Services/Implementations/CancellationRightsService.cs:24-35 | at most 5 rights are listed, all the user's, newest first; the available count is at most 5; the next renewal is reported exactly when a right exists and fewer than 5 are available, at the newest right plus 15 minutes |
| CancellationRightsService.GetRights | Services/Implementations/CancellationRightsService.cs:20-50 | grants a right when due, then lists the 5 newest with their unused count, the cap and the next renewal |
| TicketGenerationService.SweepDrops | Services/Implementations/TicketGenerationService.cs:106-117 | the sweep keeps the drop table's length (row by row in SweepEffect) |
| TicketGenerationService.SweepClaims | Services/Implementations/TicketGenerationService.cs:119-131 | the sweep keeps the claim table's length (row by row in SweepEffect) |
| TicketGenerationService.ExpireStaleDrops | Services/Implementations/TicketGenerationService.cs:104-137 | both foreach loops together leave exactly the swept drop and claim tables |
| TicketGenerationService.SweepEffect | Services/Implementations/TicketGenerationService.cs:106-131 | an active drop expired by now is deactivated with no tickets remaining, and every other drop is untouched; a Claimed claim on an expired drop becomes Expired at now, and every other claim is untouched |
| TicketGenerationService.SweepKeepsExpiry | Services/Implementations/TicketGenerationService.cs:119-121 | the sweep keeps every drop's id and expiry, so whether a claim's drop has expired is unchanged |
| TicketGenerationService.SweepLeavesNothingStale | Services/Implementations/TicketGenerationService.cs:104-131 | after the sweep no drop is stale and no Claimed claim sits on an expired drop |
| TicketGenerationService.SweepIdempotent | Services/Implementations/TicketGenerationService.cs:104-137 | sweeping again at the same instant changes nothing |
| TicketGenerationService.GenerateDropIfNeeded | Services/Implementations/TicketGenerationService.cs:49-102 | one tick sweeps; when no release is due it adds nothing; otherwise it appends one drop for a running offer |
| TicketGenerationService.NewDropIsLive | Services/Implementations/TicketGenerationService.cs:85-96 | the released drop counts as live and becomes the latest drop |
| TicketGenerationService.NoSecondDropAtOnce | Services/Implementations/TicketGenerationService.cs:63-73 | with a positive interval, no second drop is due at the same instant |
| OfferService.FindOffer | Services/Implementations/OfferService.cs:98 | None exactly when no offer has the key; otherwise the position of an offer with it |
| OfferService.TrackCouponView | Services/Implementations/OfferService.cs:128-151 | true exactly when the offer exists; the views become `TrackedViews` |
| OfferService.TrackRecords | Services/Implementations/OfferService.cs:142-150 | for a known offer the pair is recorded afterwards and at most one view is added |
| OfferService.TrackIdempotent | Services/Implementations/OfferService.cs:136-140 | tracking again, at any time, changes nothing |
| OfferService.AppendUnviewedKeepsUnique | Services/Implementations/OfferService.cs:142-148 | appending a view for an unrecorded pair keeps the (user, offer) pairs unique |
| OfferService.TrackKeepsUnique | Services/Implementations/OfferService.cs:128-151 | tracking keeps the (user, offer) pairs unique |
| OfferService.RunningMembers | Services/Implementations/OfferService.cs:29-32 | any reordering of the running offers holds exactly the running offers |
| OfferService.GetOffers | Services/Implementations/OfferService.cs:22-37 | a permutation of all offers when inactive ones are included, otherwise a permutation of exactly those active with StartAt ≤ now ≤ EndAt, each once; StartAt descending |
| OfferService.ValidateOfferReferences | Services/Implementations/OfferService.cs:172-191 | no error exactly when each given reference resolves; the restaurant error exactly when the restaurant reference fails |
| OfferService.CreateOffer | Services/Implementations/OfferService.cs:50-74 | fails with the validation error and no change, or appends the new active offer |
| OfferService.NewOfferFields | Services/Implementations/OfferService.cs:54-65 | a created offer is active and carries exactly the request's fields |
| OfferService.OverwriteFields | Services/Implementations/OfferService.cs:84-90 | an update keeps the key and both references, and the offer then holds exactly the seven request fields |
| OfferService.UpdateOffer | Services/Implementations/OfferService.cs:76-94 | None with no change for an unknown key; otherwise only the found row is overwritten |
| OfferService.DeleteOffer | Services/Implementations/OfferService.cs:96-107 | true exactly when the key exists; then that one row is removed; false means no change |
| OfferService.DeleteRemovesOne | Services/Implementations/OfferService.cs:104 | deleting removes exactly one row with the key and keeps every other offer |
| OffersController.GetOffer | Controllers/OffersController.cs:54-133 | 404 and no consumption for an unknown offer; 200 without a ticket for an already viewed offer; otherwise the oldest ticket is spent and 200 with ticketConsumed, or 400 with no change when none is Available; view pairs stay unique |
| OffersController.TrackStatus | Controllers/OffersController.cs:174 | 204 exactly when tracking succeeded, otherwise 404 |
| OffersController.TrackCoupon | Controllers/OffersController.cs:168-175 | 204 for a known offer and 404 otherwise, with the views tracked |
| Money.RoundHalfEven | Services/Implementations/OrderService.cs:64-65 | the result is within half a unit of the exact quotient, and even on a tie |
| OrderService.AmountsSplitSubtotal | Services/Implementations/OrderService.cs:50-66 | the deposit is 20% of the subtotal and the remainder 80%, each within half a cent; they add up to the subtotal and are not negative for a non-negative subtotal |
| OrderService.CodesFormat | Services/Implementations/OrderService.cs:198-206 | an order number is "ODN-" and five digits, a reservation code six digits; the 22-character QR payload "ORDER-number-code" holds both, and each parses back to its draw |
| OrderService.FindMenuItem | Services/Implementations/OrderService.cs:39 | None exactly when no loaded menu item has the key; otherwise one with it |
| OrderService.BuildItems | Services/Implementations/OrderService.cs:37-48 | one line per requested item, in request order, from a loaded menu item with its key; None exactly when some key has none |
| OrderService.CreateOrder | Services/Implementations/OrderService.cs:23-77 | succeeds exactly when the restaurant exists, the loaded count equals the requested count, every requested key resolves (with unique menu keys: exactly when the first two hold) and no stored order already holds the drawn order number, which the unique index refuses; a failure changes nothing, and a success appends a Pending order with the drawn codes, the amounts of its subtotal and a reservation held for an hour, keeping order numbers unique |
| OrderService.FreshNumberKeepsUnique | Data/ApplicationDbContext.cs:82-84 | appending an order whose number no stored order holds keeps order numbers unique |
| OrderService.KeyCount | Services/Implementations/OrderService.cs:28-30 | with unique keys, one key matches one menu item or none |
| OrderService.FreshResolving | Services/Implementations/OrderService.cs:28-32 | the number of requested keys that are new and exist is at most the number requested |
| OrderService.LoadedCount | Services/Implementations/OrderService.cs:28-32 | the query loads one menu item per distinct existing requested key |
| OrderService.FreshResolvingFull | Services/Implementations/OrderService.cs:32-35 | a full count means every key exists and no key repeats |
| OrderService.AcceptedRequestResolves | Services/Implementations/OrderService.cs:28-48 | a request passing the count check has distinct keys, and each one finds a menu item |
| OrderService.RepeatedItemRejected | Services/Implementations/OrderService.cs:28-35 | a request naming one menu item twice fails the count check |
| OrderService.FindOrder | Services/Implementations/OrderService.cs:123 | None exactly when no order has both the id and the user; otherwise the position of one |
| OrderService.ConfirmOrder | Services/Implementations/OrderService.cs:101-119 | None for a missing or foreign order; a mismatch failure with no change for a wrong code; otherwise that order confirmed now |
| OrderService.CancelOrder | Services/Implementations/OrderService.cs:121-138 | true exactly for the caller's order that is neither Completed nor Cancelled; it is then cancelled now; false means no change |
| OrderService.CancelOnce | Services/Implementations/OrderService.cs:129-132 | a cancelled order is found again and can no longer be cancelled |
| OrderService.ConfirmIgnoresStatus | Services/Implementations/OrderService.cs:109-115 | confirmation turns a Cancelled or Completed order into a Confirmed, cancellable one |
| OrderService.PaymentEffect | Services/Implementations/OrderService.cs:166-179 | a Deposit payment lowers the deposit and any other payment the remainder, each floored at 0; the order completes when both are 0, and no other field changes |
| OrderService.PayInFullCompletes | Services/Implementations/OrderService.cs:145-179 | paying the whole deposit and then the whole remainder is never refused and completes the order |
| OrderService.ProcessPayment | Services/Implementations/OrderService.cs:140-185 | fails with no change for a missing or foreign order or a part already paid; otherwise records a Succeeded payment and applies it |
| ProfileService.UnsetDefaults | Services/Implementations/ProfileService.cs:209-219 | unsetting keeps the address table's length |
| ProfileService.UnsetDefaultsEffect | Services/Implementations/ProfileService.cs:209-219 | exactly the user's defaults other than the excluded one lose the flag; nothing else changes |
| ProfileService.UnsetDefaultAddresses | Services/Implementations/ProfileService.cs:209-219 | the foreach loop leaves exactly `UnsetDefaults` of the old table |
| ProfileService.AddAddress | Services/Implementations/ProfileService.cs:63-87 | stores the new address, first clearing the user's defaults when it is a default |
| ProfileService.AddAddressEffect | Services/Implementations/ProfileService.cs:63-87 | a default address added is the user's only default; a non-default one leaves every existing row unchanged |
| ProfileService.AddKeepsSingleDefault | Services/Implementations/ProfileService.cs:65-68 | adding keeps every user at no more than one default |
| ProfileService.Revise | Services/Implementations/ProfileService.cs:102-110 | an update writes every request field; only the key, the owner and the creation time survive |
| ProfileService.UpdateAddress | Services/Implementations/ProfileService.cs:89-114 | None with no change for a missing or foreign address; otherwise that row is rewritten, after the user's other defaults are cleared when it becomes a default |
| ProfileService.UpdateAddressEffect | Services/Implementations/ProfileService.cs:89-114 | with the flag set, the updated row is the user's only default; without it, only that row changes; other users' rows never change |
| ProfileService.UpdateKeepsSingleDefault | Services/Implementations/ProfileService.cs:89-114 | updating keeps every user at no more than one default |
| ProfileService.DeleteAddress | Services/Implementations/ProfileService.cs:116-127 | true exactly for the user's own address; it is removed; false means no change |
| ProfileService.DeleteRemovesOwnOnly | Services/Implementations/ProfileService.cs:116-127 | deleting removes one of the user's addresses and leaves every other user's count alone |
| ProfileService.AddressOrder | Services/Implementations/ProfileService.cs:56-57 | default-first, then by label, is a total and transitive order |
| ProfileService.GetAddresses | Services/Implementations/ProfileService.cs:51-61 | exactly the user's addresses, each as often as stored, defaults first and then by label |
| ProfileService.ListedAddresses | Services/Implementations/ProfileService.cs:51-61 | the sorted list holds exactly the user's addresses, every pair in order |
| ProfileService.AddFavorite | Services/Implementations/ProfileService.cs:141-164 | fails with no change exactly when the (user, type, target) triple exists; otherwise appends the favorite |
| ProfileService.AddFavoriteKeepsUnique | Services/Implementations/ProfileService.cs:143-151 | a favorite admitted by the check keeps the triples unique |
| ProfileService.SecondAddRejected | Services/Implementations/ProfileService.cs:143-151 | once added, the same triple is refused |
| ProfileService.RemoveFavorite | Services/Implementations/ProfileService.cs:166-177 | true exactly for the user's own favorite; it is removed; false means no change |
| ProfileService.RemoveFavoriteEffect | Services/Implementations/ProfileService.cs:166-177 | removing takes one of the user's favorites, leaves other users' counts alone and keeps the triples unique |
| ProfileService.GetFavorites | Services/Implementations/ProfileService.cs:129-139 | exactly the user's favorites, of the type when one is given, newest first |
| ProfileService.GetSearchHistory | Services/Implementations/ProfileService.cs:179-189 | 50 distinct rows of the user's searches (a sub-multiset), or all of them when fewer, newest first; no omitted search is newer than a listed one |
| ProfileService.HistoryMembers | Services/Implementations/ProfileService.cs:179-189 | the top 50 are the user's searches, and none left out is newer than one kept |
| ProfileService.ClearSearchHistory | Services/Implementations/ProfileService.cs:191-196 | exactly the user's searches are deleted |
| ProfileService.ClearRemovesExactly | Services/Implementations/ProfileService.cs:191-196 | after clearing, the user has no search and every other user keeps all of theirs |
| NotificationService.GetUserNotifications | Services/Implementations/NotificationService.cs:22-31 | exactly the user's notifications, newest first |
| NotificationService.GetNotification | Services/Implementations/NotificationService.cs:33-40 | None exactly when the user has no notification with the id; otherwise that notification |
| NotificationService.CreateNotification | Services/Implementations/NotificationService.cs:42-63 | fails with no change exactly when the user does not exist; otherwise appends an unread notification |
| NotificationService.Revise | Services/Implementations/NotificationService.cs:73-78 | a revised notification is read exactly when ReadAt is set, as the request says, at now; key, owner and creation time are kept |
| NotificationService.UpdateNotification | Services/Implementations/NotificationService.cs:65-82 | None with no change for an unknown id; otherwise the first row with the id is revised, whoever owns it |
| NotificationService.MarkAsRead | Services/Implementations/NotificationService.cs:84-100 | true exactly when the user owns the notification; the table becomes `MarkedRead` |
| NotificationService.MarkedReadEffect | Services/Implementations/NotificationService.cs:92-99 | the notification ends read; an unread one gets ReadAt now, a read one is unchanged; every other row is unchanged |
| NotificationService.MarkAsReadIdempotent | Services/Implementations/NotificationService.cs:92-99 | marking read again, at any later time, changes nothing |
| NotificationService.MarkedAllRead | Services/Implementations/NotificationService.cs:102-113 | marking all keeps the table's length |
| NotificationService.MarkAllAsRead | Services/Implementations/NotificationService.cs:102-113 | the loop leaves `MarkedAllRead` and returns the number of the user's unread notifications before the call |
| NotificationService.MarkedAllReadEffect | Services/Implementations/NotificationService.cs:102-113 | afterwards the user has nothing unread, each formerly unread one is read at now, and other users' rows and unread counts are unchanged |
| NotificationService.SameUnread | Services/Implementations/NotificationService.cs:104-109 | rows with unchanged unread status for a user give that user the same unread count |
| NotificationService.DeleteNotification | Services/Implementations/NotificationService.cs:115-126 | true exactly for the caller's own notification; it is removed; false means no change |
| NotificationService.DeleteRemovesOwnOnly | Services/Implementations/NotificationService.cs:115-126 | deleting removes one of the caller's notifications and none of anyone else's |
| NotificationService.ReadStateKept | Services/Implementations/NotificationService.cs:42-126 | create, update, mark-read, mark-all and delete all keep ReadAt set exactly on the read notifications |
| AuthService.NormalizePhone | Services/Implementations/AuthService.cs:192-201 | the trimmed input when it holds '@'; otherwise exactly the digits of the trimmed input, in order, with no '@' |
| AuthService.NoAtInDigits | Services/Implementations/AuthService.cs:195-200 | a string of digits holds no '@' |
| AuthService.DigitsNormal | Services/Implementations/AuthService.cs:192-201 | a string of digits is its own normal form |
| AuthService.NormalizeIdempotent | Services/Implementations/AuthService.cs:192-201 | normalising twice equals normalising once |
| AuthService.NormalizeConcat | Services/Implementations/AuthService.cs:200 | digits are kept in order: a number written in two parts normalises to the digits of each part, concatenated |
| AuthService.RegisterRefusal | Services/Implementations/AuthService.cs:40-57 | the phone error exactly when a live user holds the normalised phone; otherwise the email error exactly when a non-blank email is held by any user |
| AuthService.IssueTokens | Services/Implementations/AuthService.cs:169-190 | stores one refresh token for the user under the given hash and expiry |
| AuthService.Register | Services/Implementations/AuthService.cs:37-73 | fails with the refusal and no change; otherwise appends the user with the normalised phone and their first refresh token |
| AuthService.RegisterKeepsLivePhonesUnique | Services/Implementations/AuthService.cs:40-47 | with the corrected check, registering keeps live users' phone numbers unique |
| AuthService.AsWrittenAdmitsSecondLiveHolder | Services/Implementations/AuthService.cs:40-47 | with a deleted first holder and a live second one, the check as written lets the number through, and a third live holder breaks uniqueness |
| AuthService.RegisterRefusals | Services/Implementations/AuthService.cs:40-57 | a phone held by a live user is refused; an email held by any user, deleted or not, is refused |
| AuthService.PresentedToken | Services/Implementations/AuthService.cs:101-109 | the first token with the hash, when it is neither expired nor revoked; None exactly when that first token is missing or unusable |
| AuthService.Refresh | Services/Implementations/AuthService.cs:97-114 | refused with no change exactly when the token is unknown, expired or revoked; otherwise it is revoked now and a new token for the same user is appended |
| AuthService.RefreshSingleUse | Services/Implementations/AuthService.cs:111-113 | after a refresh the same token is refused at any time |
| AuthService.RefreshRevokesOne | Services/Implementations/AuthService.cs:111-113 | a refresh revokes exactly the presented token and changes no other token |
| AuthService.SendPhoneCode | Services/Implementations/AuthService.cs:116-142 | fails with no change for an unknown phone; otherwise appends a drawn code for that user |
| AuthService.SentCodeShape | Services/Implementations/AuthService.cs:127-133 | a sent code is six ASCII digits that parse back to the draw; it expires five minutes after creation and is unverified |
| AuthService.VerifyPhone | Services/Implementations/AuthService.cs:144-167 | fails for an unknown phone; true exactly when the user has an unexpired matching code, which is then verified now; otherwise no change |
| AuthService.CodeExpiry | Services/Implementations/AuthService.cs:157 | a code matches up to and including its expiry minute; a fresh code works for five minutes and fails in the sixth |
| ReviewService.AverageRating | Services/Implementations/ReviewService.cs:130-136 | 0 without reviews; otherwise the mean rating in hundredths, within half a hundredth and even on a tie |
| ReviewService.SumBounds | Services/Implementations/ReviewService.cs:114-116 | with ratings in 1..5 the sum lies between the count and five times the count |
| ReviewService.AverageBounds | Services/Implementations/ReviewService.cs:135 | with ratings in 1..5, a rated restaurant's average lies in 1.00..5.00 |
| ReviewService.RoundedMeanBounds | Services/Implementations/ReviewService.cs:135 | a rounded mean of values in 1..5 lies in 1.00..5.00 |
| ReviewService.AddedReviewCounts | Services/Implementations/ReviewService.cs:57-67 | a new review adds one to its restaurant's count and its rating to the sum, and no other restaurant's |
| ReviewService.Rated | Services/Implementations/ReviewService.cs:125-137 | recomputation keeps the restaurant table's length (field by field in RatedEffect) |
| ReviewService.UpdateRestaurantRating | Services/Implementations/ReviewService.cs:112-147 | fails with no change for an unknown restaurant; otherwise stores and reports the rounded average and the count |
| ReviewService.RatedEffect | Services/Implementations/ReviewService.cs:128-137 | the restaurant holds its review count and the rounded mean, 0 and 0 without reviews, in 1.00..5.00 for valid ratings; no other restaurant changes |
| ReviewService.CreateReview | Services/Implementations/ReviewService.cs:36-74 | fails with the first refusal in check order and no change; otherwise appends the review and recomputes its restaurant |
| ReviewService.SecondReviewRejected | Services/Implementations/ReviewService.cs:49-55 | once created, the same (user, restaurant, order) review is refused |
| ReviewService.UpdateReview | Services/Implementations/ReviewService.cs:76-91 | None with no change for a missing or foreign review; otherwise the caller's review is rewritten, then the restaurant is recomputed |
| ReviewService.DeleteReview | Services/Implementations/ReviewService.cs:93-105 | false with no change for a missing or foreign review; otherwise that review is removed, then the restaurant is recomputed |
| ReviewService.OwnReviewOnly | Services/Implementations/ReviewService.cs:78-100 | the row found is the caller's; an update keeps owner, restaurant and order; a delete removes just that review |
| ReviewService.Listing | Services/Implementations/ReviewService.cs:24-28 | a permutation of the restaurant's reviews, newest first |
| ReviewService.NoWrap | Services/Implementations/ReviewService.cs:29 | the offset (page - 1) * pageSize is exact and non-negative while it fits in an int |
| ReviewService.OffsetWraps | Services/Implementations/ReviewService.cs:29 | past the int range the offset wraps: page 1431655767 of size 3 skips 2 entries, page 42949674 of size 50 gets a negative offset |
| ReviewService.Paged | Services/Implementations/ReviewService.cs:29-30 | fails exactly when the 32-bit offset is negative; otherwise a page holds min(pageSize, entries past the offset) entries, the ones starting at the offset, in list order |
| ReviewService.Page | Services/Implementations/ReviewService.cs:22-34 | fails exactly when the 32-bit offset is negative; otherwise min(pageSize, the restaurant's reviews past the offset) of the restaurant's reviews, newest first |
| ReviewService.PagedSorted | Services/Implementations/ReviewService.cs:28-30 | a page of a newest-first list is newest first |
| ReviewService.PageStart | Services/Implementations/ReviewService.cs:29 | page k / size + 1 skips exactly k - k mod size entries |
| ReviewService.PagedSplits | Services/Implementations/ReviewService.cs:29-30 | entry k of a list, for k below 2^31 - 1, is entry k mod size of page k / size + 1, and that page does not fail |
| ReviewService.OnePagePerReview | Services/Implementations/ReviewService.cs:22-34 | every listed review at a position below 2^31 - 1 is on the page its position says |
| ReviewService.AuthorName | Services/Implementations/ReviewService.cs:169 | "Anonim" for an anonymous review; otherwise the first name, a space, the last name's initial and a full stop |
| ReviewService.NamedNeverAnonymous | Services/Implementations/ReviewService.cs:169 | a named author never reads as "Anonim" |

## Left out

- Logging, the post-commit re-read and the count checks in `ConsumeTicketForOfferAsync` carry no behaviour and are not modelled.
- Transactions, rollback and concurrent requests are not modelled: every service call is one atomic step.
- The controller's duplicated already-viewed check is the same atomic step.
- Password hashing, SHA-256 token hashing and JWT issuance are foreign cryptography. Hashes and tokens are opaque parameters.
- Random draws are parameters (order number, reservation code) or choices left to the verifier (verification code, the released offer), within the source's ranges.
- The clock is read once per call, as the parameter `now`, even where the source reads it twice.
- `TicketGenerationService.ExecuteAsync` is not modelled. It is the background timer loop and its cancellation; one tick is modelled.
- DTO projections are not modelled: MapOffer, AutoMapper, the ticket-history item, CouponResponse and ReviewResponse apart from AuthorName. A listing returns the rows themselves.
- `OfferService.GetUserCouponsAsync`, `ProfileService.GetProfileAsync`, `UpdateProfileAsync` and `GetViewedCouponsAsync` are read-only projections outside the modelled operations.
- `AuthService.LoginAsync` turns on password verification, which is cryptography.
- Coordinates and distances are floating point and are not modelled: latitude and longitude on addresses, and the offer listing's location arguments.
- `OffersController.GetOffers` calls a `GetOffersAsync` overload with location arguments that the interface does not declare. The model uses the two-argument filter the service implements.
- Unique-index violations thrown by the database are not raised by the model for the email index on users and the (user, type, target) index on favorites; the lemmas state the uniqueness the service checks keep. The OrderNumber index on orders is modelled: `OrderService.CreateOrder` fails with `DuplicateOrderNumber` and stores nothing.
- Cascade deletes and foreign keys are not modelled.
- Validation attributes on request types are not modelled: rating range, pageSize clamping and string lengths.
- The controller's clamp (page ≥ 1, pageSize ≥ 1, both C# `int`s) appears as the requires of `ReviewService.Page`. The upper clamp of pageSize at 50 is not assumed.
- A negative page offset is refused by the database; the model returns None there and does not model the exception's type.
- SQL collation for ordering by address label is not modelled. The model orders labels by ordinal character comparison.
- SQL collation for string equality in queries is not modelled either. The server's default collation compares case-insensitively and ignores trailing spaces; the model compares strings exactly. This concerns the email check in AuthService.Register and AuthService.RegisterRefusal (an address differing only in letter case is refused by the source and admitted by the model), and the phone lookups in AuthService.Register, AuthService.SendPhoneCode and AuthService.VerifyPhone.
- Ties in OrderBy are broken arbitrarily by SQL. The model fixes one order, the insertion sort's. The listing lemmas hold for any tie order. The cancellation-rights renewal does not: `NewestRights` takes the five newest rights in that fixed order, so `Renews`, `RenewsIff`, `FullNoRenewal`, `EnsureRights` and `GetRights` hold for that order only when rights share a GeneratedAt.
- A `FirstOrDefault` without an ordering is modelled as the first matching row in table order (for example, the right `UseRight` marks).
- Characters are `char`. `char.IsDigit` is modelled as the decimal digits (category Nd) of the Basic Multilingual Plane, and `char.IsWhiteSpace` as the .NET white-space set used by Trim. There is no other Unicode case or category handling, and no supplementary-plane characters.
- OrderService.ProcessPayment: `PaymentRequest.Amount` is a `decimal` that can carry sub-cent values; the model takes whole cents, so a sub-cent amount is not represented.
- ReviewService.AverageRating: the source averages in double and then converts to decimal. The model rounds the exact rational mean, so results can differ in the last digit where double rounding errs.
- AuthService.Register: uses the corrected phone check, where any live holder refuses the number. The source's first-match check is modelled separately (see Findings).
- AuthService.RegisterRefusal: states the corrected phone check, not the source's first-match check.
- AuthService.Register: compares the email and the phone number exactly, where the database's default collation ignores letter case and trailing spaces.
- AuthService.RegisterRefusal: an email differing from a held one only in letter case is admitted by the model and refused by the source.
- AuthService.RegisterRefusals: proves the refusal of a live-held phone for the corrected check, not the source's first-match check.
- AuthService.SendPhoneCode and AuthService.VerifyPhone: take the first user with the phone, deleted or not, as the source does. No query filter excludes deleted users.
- AuthService.VerifyPhone: a verified code stays valid until it expires, and VerifiedAt is overwritten on each use, as in the source.
- ReviewService.AuthorName: requires a last name for a named author, because `LastName[0]` throws on an empty one.

## Findings

| source | as written | input that shows it | evidently intended | confidence | as-written member | corrected member |
|---|---|---|---|---|---|---|
| Services/Implementations/AuthService.cs:40-47 | the phone check looks only at the first user holding the number and refuses only when that user is not deleted | users [deleted holder of 994501234567, live holder of 994501234567]: the first holder is deleted, so registering 994501234567 again passes and creates a second live holder | refuse a phone number held by any user that is not deleted | not executed | AuthService.AsWrittenAdmitsSecondLiveHolder | AuthService.RegisterKeepsLivePhonesUnique |
