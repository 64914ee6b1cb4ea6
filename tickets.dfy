/** Services/Implementations/TicketService.cs: the per-user ticket ledger, a lazy
    token bucket. Reading the summary tops the user's tickets up to the cap, one
    per elapsed generation interval; opening an offer spends the oldest ticket. */
module TicketService {
  import opened Base
  import opened Seqs
  import opened Sorting
  import opened Models
  import opened Data

  /** `t.UserId == userId && t.Status == TicketStatus.Available` */
  function IsAvailableOf(userId: Id): UserTicket -> bool {
    (t: UserTicket) => t.userId == userId && t.status == Available
  }

  /** `t.UserId == userId` */
  function IsOwnedBy(userId: Id): UserTicket -> bool {
    (t: UserTicket) => t.userId == userId
  }

  function GeneratedAtOf(t: UserTicket): int { t.generatedAt }

  function AvailableCount(tickets: seq<UserTicket>, userId: Id): nat {
    Count(tickets, IsAvailableOf(userId))
  }

  /** GeneratedAt of the user's newest ticket, None when the user has none. */
  function LatestGeneratedAt(tickets: seq<UserTicket>, userId: Id): Option<Time> {
    MaxKeyWhere(tickets, IsOwnedBy(userId), GeneratedAtOf)
  }

  /** A ticket as the entity's defaults make it: Available, spent on nothing. */
  function NewTicket(userId: Id, at: Time): UserTicket {
    UserTicket(userId, Available, None, at, None)
  }

  // ---------------------------------------------------------------------------
  // EnsureTicketsAsync

  /** The tickets created for a user who has none: `MaxActiveTickets` of them,
      the i-th stamped `now - interval * (MaxActiveTickets - i)`. */
  function Backfill(userId: Id, now: Time, opts: TicketOptions): seq<UserTicket> {
    seq(Max(0, opts.maxActiveTickets),
        i => NewTicket(userId, now - opts.generationIntervalMinutes * (opts.maxActiveTickets - i)))
  }

  /** The tickets the catch-up loop creates from boundary `next` on, while
      `next <= now` and fewer than `MaxActiveTickets` are Available. */
  function CatchUp(userId: Id, next: Time, available: int, now: Time, opts: TicketOptions): seq<UserTicket>
    decreases opts.maxActiveTickets - available
  {
    if next > now || available >= opts.maxActiveTickets then []
    else [NewTicket(userId, next)] + CatchUp(userId, next + opts.generationIntervalMinutes, available + 1, now, opts)
  }

  /** The tickets EnsureTickets appends for `userId`. */
  function Generated(tickets: seq<UserTicket>, userId: Id, now: Time, opts: TicketOptions): seq<UserTicket> {
    match LatestGeneratedAt(tickets, userId)
    case None => Backfill(userId, now, opts)
    case Some(latest) =>
      CatchUp(userId, latest + opts.generationIntervalMinutes, AvailableCount(tickets, userId), now, opts)
  }

  /** GeneratedAt of the ticket EnsureTickets returns: the last one it created,
      else the user's newest. */
  function EnsuredLatest(tickets: seq<UserTicket>, userId: Id, now: Time, opts: TicketOptions): Option<Time> {
    var g := Generated(tickets, userId, now, opts);
    if |g| == 0 then LatestGeneratedAt(tickets, userId) else Some(g[|g| - 1].generatedAt)
  }

  /** The backfill loop: appends the user's `MaxActiveTickets` initial tickets.
      Returns the GeneratedAt of the last one appended. */
  method AppendBackfill(db: Store, opts: TicketOptions, userId: Id, now: Time) returns (last: Option<Time>)
    modifies db`tickets
    ensures db.tickets == old(db.tickets) + Backfill(userId, now, opts)
    ensures var fill := Backfill(userId, now, opts);
      last == if |fill| == 0 then None else Some(fill[|fill| - 1].generatedAt)
  {
    ghost var before := db.tickets;
    ghost var fill := Backfill(userId, now, opts);
    last := None;
    var i := 0;
    while i < opts.maxActiveTickets
      invariant 0 <= i <= Max(0, opts.maxActiveTickets)
      invariant db.tickets == before + fill[..i]
      invariant last == if i == 0 then None else Some(fill[i - 1].generatedAt)
    {
      var ticket := NewTicket(userId, now - opts.generationIntervalMinutes * (opts.maxActiveTickets - i));
      assert fill[..i + 1] == fill[..i] + [ticket];
      db.tickets := db.tickets + [ticket];
      last := Some(ticket.generatedAt);
      i := i + 1;
    }
    assert fill[..i] == fill;
  }

  /** The catch-up loop: from boundary `next` on, re-counts the user's Available
      tickets each round, stops at the cap or after `now`, and otherwise appends a
      ticket stamped at the boundary. Returns the GeneratedAt of the last one appended. */
  method AppendCatchUp(db: Store, opts: TicketOptions, userId: Id, next: Time, now: Time) returns (last: Option<Time>)
    modifies db`tickets
    ensures db.tickets == old(db.tickets) + CatchUp(userId, next, AvailableCount(old(db.tickets), userId), now, opts)
    ensures last == if |db.tickets| == |old(db.tickets)| then None else Some(db.tickets[|db.tickets| - 1].generatedAt)
  {
    ghost var before := db.tickets;
    ghost var target := before + CatchUp(userId, next, AvailableCount(before, userId), now, opts);
    last := None;
    var nextGenerationAt := next;
    while nextGenerationAt <= now
      invariant db.tickets + CatchUp(userId, nextGenerationAt, AvailableCount(db.tickets, userId), now, opts) == target
      invariant |before| <= |db.tickets|
      invariant last == if |db.tickets| == |before| then None else Some(db.tickets[|db.tickets| - 1].generatedAt)
      decreases opts.maxActiveTickets - AvailableCount(db.tickets, userId)
    {
      var currentAvailableCount := AvailableCount(db.tickets, userId);
      if currentAvailableCount >= opts.maxActiveTickets {
        break;
      }
      var ticket := NewTicket(userId, nextGenerationAt);
      ghost var rest := CatchUp(userId, nextGenerationAt + opts.generationIntervalMinutes, currentAvailableCount + 1, now, opts);
      assert CatchUp(userId, nextGenerationAt, currentAvailableCount, now, opts) == [ticket] + rest;
      assert (db.tickets + [ticket]) + rest == db.tickets + ([ticket] + rest);
      CountSnoc(db.tickets, ticket, IsAvailableOf(userId));
      db.tickets := db.tickets + [ticket];
      last := Some(nextGenerationAt);
      nextGenerationAt := nextGenerationAt + opts.generationIntervalMinutes;
    }
  }

  /** Tops the user's tickets up: a backfill for a user who has none, otherwise one
      ticket per elapsed interval boundary while below the cap. Returns the
      GeneratedAt of the last ticket created, or of the user's newest ticket. */
  method EnsureTickets(db: Store, opts: TicketOptions, userId: Id, now: Time) returns (latest: Option<Time>)
    modifies db`tickets
    ensures db.tickets == old(db.tickets) + Generated(old(db.tickets), userId, now, opts)
    ensures latest == EnsuredLatest(old(db.tickets), userId, now, opts)
  {
    latest := LatestGeneratedAt(db.tickets, userId);
    if latest.None? {
      latest := AppendBackfill(db, opts, userId, now);
    } else {
      var last := AppendCatchUp(db, opts, userId, latest.value + opts.generationIntervalMinutes, now);
      if last.Some? {
        latest := last;
      }
    }
  }

  lemma MulMono(a: int, b: int, c: int)
    requires c > 0 && a <= b
    ensures c * a <= c * b
  {
    assert c * b - c * a == c * (b - a);
  }

  lemma MulStrict(a: int, b: int, c: int)
    requires c > 0 && c * a < c * b
    ensures a < b
  {
    if a >= b {
      MulMono(b, a, c);
    }
  }

  lemma BackfillStep(iv: int, mx: int, i: int)
    ensures iv * (mx - i + 1) == iv * (mx - i) + iv
  {
  }

  /** The backfilled tickets are one interval apart and the newest is stamped one
      interval before now. */
  lemma BackfillSpacing(userId: Id, now: Time, opts: TicketOptions)
    ensures var g, iv := Backfill(userId, now, opts), opts.generationIntervalMinutes;
      && (forall i :: 0 < i < |g| ==> g[i].generatedAt == g[i - 1].generatedAt + iv)
      && (|g| > 0 ==> g[|g| - 1].generatedAt == now - iv)
  {
    var g, iv, mx := Backfill(userId, now, opts), opts.generationIntervalMinutes, opts.maxActiveTickets;
    assert forall i :: 0 <= i < |g| ==> g[i] == NewTicket(userId, now - iv * (mx - i));
    forall i | 0 < i < |g| ensures g[i].generatedAt == g[i - 1].generatedAt + iv {
      BackfillStep(iv, mx, i);
    }
    if |g| > 0 {
      BackfillStep(iv, mx, mx);
    }
  }

  /** A user with no tickets gets exactly MaxActiveTickets Available ones, the i-th
      stamped `now - interval * (MaxActiveTickets - i)`: one interval apart, the
      newest one interval before now. */
  lemma BackfillShape(tickets: seq<UserTicket>, userId: Id, now: Time, opts: TicketOptions)
    requires LatestGeneratedAt(tickets, userId).None?
    requires opts.maxActiveTickets >= 0
    ensures var g, iv, mx := Generated(tickets, userId, now, opts), opts.generationIntervalMinutes, opts.maxActiveTickets;
      && |g| == mx
      && (forall i :: 0 <= i < |g| ==> g[i] == NewTicket(userId, now - iv * (mx - i)))
      && (forall i :: 0 < i < |g| ==> g[i].generatedAt == g[i - 1].generatedAt + iv)
      && (|g| > 0 ==> g[|g| - 1].generatedAt == now - iv)
      && AvailableCount(tickets + g, userId) == mx
  {
    var g := Generated(tickets, userId, now, opts);
    assert g == Backfill(userId, now, opts);
    assert forall i :: 0 <= i < |g| ==> g[i] == NewTicket(userId, now - opts.generationIntervalMinutes * (opts.maxActiveTickets - i));
    BackfillSpacing(userId, now, opts);
    CountZero(tickets, IsAvailableOf(userId));
    CountAll(g, IsAvailableOf(userId));
    CountConcat(tickets, g, IsAvailableOf(userId));
  }

  /** The k-th catch-up ticket is stamped at boundary `next + k * interval`, which is not after now. */
  lemma {:induction false} CatchUpAt(userId: Id, next: Time, available: int, now: Time, opts: TicketOptions, k: nat)
    requires k < |CatchUp(userId, next, available, now, opts)|
    ensures CatchUp(userId, next, available, now, opts)[k] == NewTicket(userId, next + k * opts.generationIntervalMinutes)
    ensures next + k * opts.generationIntervalMinutes <= now
    decreases k
  {
    var iv := opts.generationIntervalMinutes;
    var rest := CatchUp(userId, next + iv, available + 1, now, opts);
    assert CatchUp(userId, next, available, now, opts) == [NewTicket(userId, next)] + rest;
    if k > 0 {
      CatchUpAt(userId, next + iv, available + 1, now, opts, k - 1);
      assert next + iv + (k - 1) * iv == next + k * iv;
    }
  }

  /** The catch-up adds no more tickets than there are free places under the cap,
      and stops only at the cap or at the first boundary after now. */
  lemma {:induction false} CatchUpLength(userId: Id, next: Time, available: int, now: Time, opts: TicketOptions)
    ensures var g := CatchUp(userId, next, available, now, opts);
      && |g| <= Max(0, opts.maxActiveTickets - available)
      && (available + |g| >= opts.maxActiveTickets || next + |g| * opts.generationIntervalMinutes > now)
    decreases opts.maxActiveTickets - available
  {
    var iv := opts.generationIntervalMinutes;
    if !(next > now || available >= opts.maxActiveTickets) {
      CatchUpLength(userId, next + iv, available + 1, now, opts);
      var rest := CatchUp(userId, next + iv, available + 1, now, opts);
      assert |CatchUp(userId, next, available, now, opts)| == 1 + |rest|;
      assert next + iv + |rest| * iv == next + (1 + |rest|) * iv;
    }
  }

  /** Every ticket Ensure appends for an existing user is stamped `latest + k * interval`
      for k = 1, 2, ..., and no stamp is later than now. */
  lemma CatchUpStamps(tickets: seq<UserTicket>, userId: Id, now: Time, opts: TicketOptions)
    requires LatestGeneratedAt(tickets, userId).Some?
    ensures var latest, g := LatestGeneratedAt(tickets, userId).value, Generated(tickets, userId, now, opts);
      forall k :: 0 <= k < |g| ==>
        g[k] == NewTicket(userId, latest + (k + 1) * opts.generationIntervalMinutes) && g[k].generatedAt <= now
  {
    var latest, iv := LatestGeneratedAt(tickets, userId).value, opts.generationIntervalMinutes;
    var g := Generated(tickets, userId, now, opts);
    forall k | 0 <= k < |g|
      ensures g[k] == NewTicket(userId, latest + (k + 1) * iv) && g[k].generatedAt <= now
    {
      CatchUpAt(userId, latest + iv, AvailableCount(tickets, userId), now, opts, k);
      assert latest + iv + k * iv == latest + (k + 1) * iv;
    }
  }

  /** Ensure appends only Available tickets of the user: the user's Available
      count grows by the number appended and every other user's stays the same. */
  lemma GeneratedCounts(tickets: seq<UserTicket>, userId: Id, now: Time, opts: TicketOptions)
    ensures var g := Generated(tickets, userId, now, opts);
      && (forall i :: 0 <= i < |g| ==> g[i] == NewTicket(userId, g[i].generatedAt))
      && AvailableCount(tickets + g, userId) == AvailableCount(tickets, userId) + |g|
      && forall v :: v != userId ==> AvailableCount(tickets + g, v) == AvailableCount(tickets, v)
  {
    var g := Generated(tickets, userId, now, opts);
    if LatestGeneratedAt(tickets, userId).Some? {
      CatchUpStamps(tickets, userId, now, opts);
    } else {
      assert g == Backfill(userId, now, opts);
      assert forall i :: 0 <= i < |g| ==> g[i] == NewTicket(userId, now - opts.generationIntervalMinutes * (opts.maxActiveTickets - i));
    }
    assert forall i :: 0 <= i < |g| ==> IsAvailableOf(userId)(g[i]);
    CountAll(g, IsAvailableOf(userId));
    CountConcat(tickets, g, IsAvailableOf(userId));
    forall v | v != userId ensures AvailableCount(tickets + g, v) == AvailableCount(tickets, v) {
      CountZero(g, IsAvailableOf(v));
      CountConcat(tickets, g, IsAvailableOf(v));
    }
  }

  /** Ensure never adds a ticket while the user is at or over the cap, and never
      takes an Available count that is within the cap over it. */
  lemma EnsureRespectsCap(tickets: seq<UserTicket>, userId: Id, now: Time, opts: TicketOptions)
    ensures var g := Generated(tickets, userId, now, opts);
      && (AvailableCount(tickets, userId) >= opts.maxActiveTickets ==> g == [])
      && (AvailableCount(tickets, userId) <= opts.maxActiveTickets ==>
            AvailableCount(tickets + g, userId) <= opts.maxActiveTickets)
  {
    var latest := LatestGeneratedAt(tickets, userId);
    GeneratedCounts(tickets, userId, now, opts);
    if latest.Some? {
      CatchUpLength(userId, latest.value + opts.generationIntervalMinutes, AvailableCount(tickets, userId), now, opts);
    } else {
      CountZero(tickets, IsAvailableOf(userId));
    }
  }

  /** Ensure leaves an existing user either at the cap or with the next interval
      boundary still in the future: no due ticket is withheld. */
  lemma EnsureCatchesUp(tickets: seq<UserTicket>, userId: Id, now: Time, opts: TicketOptions)
    requires LatestGeneratedAt(tickets, userId).Some?
    ensures var latest, g := LatestGeneratedAt(tickets, userId).value, Generated(tickets, userId, now, opts);
      AvailableCount(tickets + g, userId) >= opts.maxActiveTickets
      || latest + (|g| + 1) * opts.generationIntervalMinutes > now
  {
    var latest, iv := LatestGeneratedAt(tickets, userId).value, opts.generationIntervalMinutes;
    var g := Generated(tickets, userId, now, opts);
    CatchUpLength(userId, latest + iv, AvailableCount(tickets, userId), now, opts);
    GeneratedCounts(tickets, userId, now, opts);
    assert latest + iv + |g| * iv == latest + (|g| + 1) * iv;
  }

  lemma RateArith(latest: int, iv: int, k: int, n: int, now: int)
    requires iv > 0 && k >= 0 && n >= 0
    requires latest + k * iv <= now < latest + (k + 1) * iv
    requires n < k ==> latest + iv + n * iv > now
    requires n > k ==> latest + iv + k * iv <= now
    ensures n == k
  {
    assert latest + iv + k * iv == latest + (k + 1) * iv;
    if n < k {
      assert iv + n * iv == iv * (n + 1);
      MulStrict(k, n + 1, iv);
    }
  }

  /** The replenishment rate: an existing user whose newest ticket is `latest`, and
      who has room for `k` more, gets exactly `k` new tickets when Ensure runs
      between `latest + k * interval` and the boundary after it. */
  lemma EnsureRefillRate(tickets: seq<UserTicket>, userId: Id, now: Time, opts: TicketOptions, k: nat)
    requires opts.generationIntervalMinutes > 0
    requires LatestGeneratedAt(tickets, userId).Some?
    requires AvailableCount(tickets, userId) + k <= opts.maxActiveTickets
    requires LatestGeneratedAt(tickets, userId).value + k * opts.generationIntervalMinutes <= now
    requires now < LatestGeneratedAt(tickets, userId).value + (k + 1) * opts.generationIntervalMinutes
    ensures |Generated(tickets, userId, now, opts)| == k
  {
    var latest, iv := LatestGeneratedAt(tickets, userId).value, opts.generationIntervalMinutes;
    var available := AvailableCount(tickets, userId);
    var g := CatchUp(userId, latest + iv, available, now, opts);
    CatchUpLength(userId, latest + iv, available, now, opts);
    if |g| > k {
      CatchUpAt(userId, latest + iv, available, now, opts, k);
    }
    RateArith(latest, iv, k, |g|, now);
  }

  /** With a positive interval the ticket Ensure reports is the user's newest
      ticket afterwards, so the summary's next-ticket time is measured from it. */
  lemma EnsuredLatestIsNewest(tickets: seq<UserTicket>, userId: Id, now: Time, opts: TicketOptions)
    requires opts.generationIntervalMinutes > 0
    ensures EnsuredLatest(tickets, userId, now, opts)
            == LatestGeneratedAt(tickets + Generated(tickets, userId, now, opts), userId)
  {
    var g := Generated(tickets, userId, now, opts);
    if |g| == 0 {
      assert tickets + g == tickets;
    } else {
      GeneratedCounts(tickets, userId, now, opts);
      if LatestGeneratedAt(tickets, userId).None? {
        BackfillIsNewest(tickets, userId, now, opts);
      } else {
        CatchUpIsNewest(tickets, userId, now, opts);
      }
      AppendedNewest(tickets, g, userId);
    }
  }

  /** Appending the user's tickets, the last of them the newest of all, makes
      that last one the user's newest. */
  lemma AppendedNewest(tickets: seq<UserTicket>, g: seq<UserTicket>, userId: Id)
    requires |g| > 0 && g[|g| - 1].userId == userId
    requires forall i :: 0 <= i < |tickets| && tickets[i].userId == userId ==>
               tickets[i].generatedAt <= g[|g| - 1].generatedAt
    requires forall k :: 0 <= k < |g| && g[k].userId == userId ==> g[k].generatedAt <= g[|g| - 1].generatedAt
    ensures LatestGeneratedAt(tickets + g, userId) == Some(g[|g| - 1].generatedAt)
  {
    var all := tickets + g;
    var last := |all| - 1;
    assert all[last] == g[|g| - 1];
    forall i | 0 <= i < |all| && IsOwnedBy(userId)(all[i])
      ensures GeneratedAtOf(all[i]) <= GeneratedAtOf(all[last])
    {
      if i < |tickets| {
        assert all[i] == tickets[i];
      } else {
        assert all[i] == g[i - |tickets|];
      }
    }
    MaxKeyAt(all, IsOwnedBy(userId), GeneratedAtOf, last);
  }

  /** The backfill's last ticket is the newest of a user who had none. */
  lemma BackfillIsNewest(tickets: seq<UserTicket>, userId: Id, now: Time, opts: TicketOptions)
    requires opts.generationIntervalMinutes > 0
    requires LatestGeneratedAt(tickets, userId).None?
    ensures var g := Generated(tickets, userId, now, opts);
      |g| > 0 ==>
        && (forall i :: 0 <= i < |tickets| ==> tickets[i].userId != userId)
        && forall k :: 0 <= k < |g| ==> g[k].generatedAt <= g[|g| - 1].generatedAt
  {
    var g := Generated(tickets, userId, now, opts);
    var iv, mx := opts.generationIntervalMinutes, opts.maxActiveTickets;
    if |g| > 0 {
      BackfillShape(tickets, userId, now, opts);
      assert forall i :: 0 <= i < |tickets| ==> !IsOwnedBy(userId)(tickets[i]);
      forall k | 0 <= k < |g|
        ensures g[k].generatedAt <= g[|g| - 1].generatedAt
      {
        MulMono(1, mx - k, iv);
      }
    }
  }

  /** The catch-up's last ticket is the newest: every earlier ticket of the user
      is at most `latest`, and the appended stamps rise from there. */
  lemma CatchUpIsNewest(tickets: seq<UserTicket>, userId: Id, now: Time, opts: TicketOptions)
    requires opts.generationIntervalMinutes > 0
    requires LatestGeneratedAt(tickets, userId).Some?
    ensures var g := Generated(tickets, userId, now, opts);
      |g| > 0 ==>
        && (forall i :: 0 <= i < |tickets| && tickets[i].userId == userId ==>
              tickets[i].generatedAt <= g[|g| - 1].generatedAt)
        && forall k :: 0 <= k < |g| ==> g[k].generatedAt <= g[|g| - 1].generatedAt
  {
    var g := Generated(tickets, userId, now, opts);
    var latest, iv := LatestGeneratedAt(tickets, userId).value, opts.generationIntervalMinutes;
    if |g| > 0 {
      CatchUpStamps(tickets, userId, now, opts);
      MulMono(1, |g|, iv);
      assert forall i :: 0 <= i < |tickets| && IsOwnedBy(userId)(tickets[i]) ==> GeneratedAtOf(tickets[i]) <= latest;
      forall k | 0 <= k < |g|
        ensures g[k].generatedAt <= g[|g| - 1].generatedAt
      {
        MulMono(k + 1, |g|, iv);
      }
    }
  }

  /** With a positive cap the user owns a ticket after Ensure. */
  lemma EnsureLeavesTicket(tickets: seq<UserTicket>, userId: Id, now: Time, opts: TicketOptions)
    requires opts.maxActiveTickets > 0
    ensures EnsuredLatest(tickets, userId, now, opts).Some?
  {
    if LatestGeneratedAt(tickets, userId).None? {
      assert |Backfill(userId, now, opts)| > 0;
    }
  }

  // ---------------------------------------------------------------------------
  // ConsumeTicketForOfferAsync

  /** Index of the user's Available ticket with the smallest GeneratedAt. */
  function OldestAvailable(tickets: seq<UserTicket>, userId: Id): (r: Option<nat>)
    ensures r.None? <==> AvailableCount(tickets, userId) == 0
    ensures r.Some? ==> r.value < |tickets| && IsAvailableOf(userId)(tickets[r.value])
    ensures r.Some? ==> forall j :: 0 <= j < |tickets| && IsAvailableOf(userId)(tickets[j]) ==>
                          tickets[r.value].generatedAt <= tickets[j].generatedAt
  {
    CountZero(tickets, IsAvailableOf(userId));
    ArgMinWhere(tickets, IsAvailableOf(userId), GeneratedAtOf)
  }

  /** A ticket spent on `offerId` at `now`. */
  function Spent(t: UserTicket, offerId: Id, now: Time): UserTicket {
    t.(status := Used, offerId := Some(offerId), usedAt := Some(now))
  }

  /** The table after the user's oldest Available ticket is spent on `offerId`. */
  function Spend(tickets: seq<UserTicket>, userId: Id, offerId: Id, now: Time): (r: seq<UserTicket>)
    requires AvailableCount(tickets, userId) > 0
    ensures exists i ::
              && 0 <= i < |tickets| && IsAvailableOf(userId)(tickets[i])
              && (forall j :: 0 <= j < |tickets| && IsAvailableOf(userId)(tickets[j]) ==>
                    tickets[i].generatedAt <= tickets[j].generatedAt)
              && r == tickets[i := Spent(tickets[i], offerId, now)]
  {
    var i := OldestAvailable(tickets, userId).value;
    tickets[i := Spent(tickets[i], offerId, now)]
  }

  /** Spending takes exactly one Available ticket from the user and none from
      anybody else, and puts one more ticket in the user's history. */
  lemma SpendCounts(tickets: seq<UserTicket>, userId: Id, offerId: Id, now: Time)
    requires AvailableCount(tickets, userId) > 0
    ensures var r := Spend(tickets, userId, offerId, now);
      && |r| == |tickets|
      && AvailableCount(r, userId) == AvailableCount(tickets, userId) - 1
      && (forall v :: v != userId ==> AvailableCount(r, v) == AvailableCount(tickets, v))
      && Count(r, IsHistoryOf(userId)) == Count(tickets, IsHistoryOf(userId)) + 1
  {
    var i := OldestAvailable(tickets, userId).value;
    var t := Spent(tickets[i], offerId, now);
    CountUpdate(tickets, i, t, IsAvailableOf(userId));
    CountUpdate(tickets, i, t, IsHistoryOf(userId));
    forall v | v != userId
      ensures AvailableCount(tickets[i := t], v) == AvailableCount(tickets, v)
    {
      CountUpdate(tickets, i, t, IsAvailableOf(v));
    }
  }

  /** The three conditions under which a ticket is spent. */
  predicate CanConsume(offers: seq<Offer>, views: seq<CouponView>, tickets: seq<UserTicket>, userId: Id, offerId: Id) {
    OfferExists(offers, offerId) && !HasViewed(views, userId, offerId) && AvailableCount(tickets, userId) > 0
  }

  /** Spends the user's oldest Available ticket on the offer and records the view.
      Changes nothing and answers false when the offer is unknown, the user has
      already viewed it, or the user has no Available ticket. */
  method ConsumeTicketForOffer(db: Store, userId: Id, offerId: Id, now: Time) returns (consumed: bool)
    modifies db`tickets, db`couponViews
    ensures consumed <==> CanConsume(old(db.offers), old(db.couponViews), old(db.tickets), userId, offerId)
    ensures consumed ==> db.tickets == Spend(old(db.tickets), userId, offerId, now)
    ensures consumed ==> db.couponViews == old(db.couponViews) + [CouponView(userId, offerId, now)]
    ensures !consumed ==> db.tickets == old(db.tickets) && db.couponViews == old(db.couponViews)
    ensures HasViewed(old(db.couponViews), userId, offerId) || consumed ==> HasViewed(db.couponViews, userId, offerId)
  {
    if !OfferExists(db.offers, offerId) {
      return false;
    }
    if HasViewed(db.couponViews, userId, offerId) {
      return false;
    }
    var ticket := OldestAvailable(db.tickets, userId);
    if ticket.None? {
      return false;
    }
    var i := ticket.value;
    db.tickets := db.tickets[i := Spent(db.tickets[i], offerId, now)];
    db.couponViews := db.couponViews + [CouponView(userId, offerId, now)];
    assert db.couponViews[|db.couponViews| - 1] == CouponView(userId, offerId, now);
    consumed := true;
  }

  /** No double spend: once a ticket was spent on an offer, the same user cannot
      spend another on it. */
  lemma ConsumeOncePerOffer(offers: seq<Offer>, views: seq<CouponView>, tickets: seq<UserTicket>,
                            userId: Id, offerId: Id, now: Time)
    ensures !CanConsume(offers, views + [CouponView(userId, offerId, now)], tickets, userId, offerId)
  {
    var views' := views + [CouponView(userId, offerId, now)];
    assert views'[|views|] == CouponView(userId, offerId, now);
  }

  // ---------------------------------------------------------------------------
  // GetSummaryAsync

  /** `t.UserId == userId && t.Status == TicketStatus.Used && t.OfferId != null` */
  function IsHistoryOf(userId: Id): UserTicket -> bool {
    (t: UserTicket) => t.userId == userId && t.status == Used && t.offerId.Some?
  }

  function HasUsedAt(t: UserTicket): bool { t.usedAt.Some? }

  function LacksUsedAt(t: UserTicket): bool { t.usedAt.None? }

  function UsedAtOf(t: UserTicket): int {
    match t.usedAt
    case Some(at) => at
    case None => 0
  }

  const HistorySize := 20

  /** Rows with a UsedAt come first, latest first; rows without one last. */
  ghost predicate UsedAtDescending(s: seq<UserTicket>) {
    forall i, j :: 0 <= i < j < |s| && s[j].usedAt.Some? ==>
      s[i].usedAt.Some? && s[i].usedAt.value >= s[j].usedAt.value
  }

  lemma TimedFirst(timedRows: seq<UserTicket>, timed: seq<UserTicket>, untimed: seq<UserTicket>)
    requires multiset(timed) == multiset(timedRows) && SortedDesc(timed, UsedAtOf)
    requires forall t :: t in timedRows ==> t.usedAt.Some?
    requires forall t :: t in untimed ==> t.usedAt.None?
    ensures UsedAtDescending(timed + untimed)
  {
    var all := timed + untimed;
    forall i, j | 0 <= i < j < |all| && all[j].usedAt.Some?
      ensures all[i].usedAt.Some? && all[i].usedAt.value >= all[j].usedAt.value
    {
      if j < |timed| {
        assert all[i] == timed[i] && all[j] == timed[j];
        assert timed[i] in multiset(timedRows) && timed[j] in multiset(timedRows);
      }
    }
  }

  /** `OrderByDescending(t => t.UsedAt)` as SQL Server orders it: rows without
      UsedAt (null) sort lowest, so they come last. */
  function ByUsedAtDesc(rows: seq<UserTicket>): (r: seq<UserTicket>)
    ensures |r| == |rows|
    ensures multiset(r) == multiset(rows)
    ensures forall t :: t in r ==> t in rows
    ensures UsedAtDescending(r)
  {
    var timedRows := Filter(rows, HasUsedAt);
    var timed := SortDesc(timedRows, UsedAtOf);
    var untimed := Filter(rows, LacksUsedAt);
    CountComplement(rows, HasUsedAt, LacksUsedAt);
    FilterComplement(rows, HasUsedAt, LacksUsedAt);
    assert multiset(timed + untimed) == multiset(rows);
    TimedFirst(timedRows, timed, untimed);
    assert forall t :: t in timed ==> t in multiset(timedRows);
    timed + untimed
  }

  /** `y` was used no earlier than `x`, a missing UsedAt counting as earliest. */
  ghost predicate UsedNoEarlier(y: UserTicket, x: UserTicket) {
    x.usedAt.Some? ==> y.usedAt.Some? && y.usedAt.value >= x.usedAt.value
  }

  /** The user's spent tickets, most recently used first, at most 20 of them:
      distinct rows of the user's history, and no history row left out was used
      later than one kept. */
  function History(tickets: seq<UserTicket>, userId: Id): (h: seq<UserTicket>)
    ensures |h| == Min(HistorySize, Count(tickets, IsHistoryOf(userId)))
    ensures multiset(h) <= multiset(Filter(tickets, IsHistoryOf(userId)))
    ensures forall t :: t in h ==> t in tickets && IsHistoryOf(userId)(t)
    ensures UsedAtDescending(h)
    ensures forall x, y :: x in tickets && IsHistoryOf(userId)(x) && x !in h && y in h ==> UsedNoEarlier(y, x)
  {
    var rows := Filter(tickets, IsHistoryOf(userId));
    var r := ByUsedAtDesc(rows);
    var h := if |r| <= HistorySize then r else r[..HistorySize];
    TakeKeepsLatest(r, h);
    HistoryRows(tickets, userId, rows, r, h);
    h
  }

  lemma HistoryRows(tickets: seq<UserTicket>, userId: Id, rows: seq<UserTicket>, r: seq<UserTicket>, h: seq<UserTicket>)
    requires rows == Filter(tickets, IsHistoryOf(userId))
    requires multiset(r) == multiset(rows) && multiset(h) <= multiset(r)
    requires forall x, y :: x in r && x !in h && y in h ==> UsedNoEarlier(y, x)
    ensures forall t :: t in h ==> t in tickets && IsHistoryOf(userId)(t)
    ensures forall x, y :: x in tickets && IsHistoryOf(userId)(x) && x !in h && y in h ==> UsedNoEarlier(y, x)
  {
    forall t | t in h ensures t in tickets && IsHistoryOf(userId)(t) {
      assert t in multiset(h);
      assert t in multiset(rows);
    }
    forall x, y | x in tickets && IsHistoryOf(userId)(x) && x !in h && y in h
      ensures UsedNoEarlier(y, x)
    {
      FilterKeeps(tickets, IsHistoryOf(userId), x);
      assert x in multiset(r);
    }
  }

  /** A prefix of a list in UsedAt order keeps rows used no earlier than the
      rows after it. */
  lemma TakeKeepsLatest(r: seq<UserTicket>, h: seq<UserTicket>)
    requires UsedAtDescending(r) && |h| <= |r| && h == r[..|h|]
    ensures multiset(h) <= multiset(r)
    ensures UsedAtDescending(h)
    ensures forall x, y :: x in r && x !in h && y in h ==> UsedNoEarlier(y, x)
  {
    assert r == h + r[|h|..];
    assert multiset(r) == multiset(h) + multiset(r[|h|..]);
    forall x, y | x in r && x !in h && y in h
      ensures UsedNoEarlier(y, x)
    {
      var j :| 0 <= j < |r| && r[j] == x;
      var i :| 0 <= i < |h| && h[i] == y;
      assert r[i] == y;
    }
  }

  /** TicketSummaryResponse (the history rows are kept as tickets, not projected). */
  datatype TicketSummary = TicketSummary(
    availableTickets: nat, maxTickets: int, nextTicketAt: Option<Time>, history: seq<UserTicket>)

  /** When the summary says the next ticket is due, given the GeneratedAt of the
      ticket Ensure returned: none at the cap, else one interval after that ticket,
      or now when Ensure returned none. */
  function NextTicketAt(latest: Option<Time>, available: int, now: Time, opts: TicketOptions): Option<Time> {
    if available >= opts.maxActiveTickets then None
    else match latest
      case None => Some(now)
      case Some(at) => Some(at + opts.generationIntervalMinutes)
  }

  /** With a positive interval the next-ticket time is one interval after the
      user's newest ticket, or none when the user is at the cap. */
  lemma NextTicketFromNewest(tickets: seq<UserTicket>, userId: Id, now: Time, opts: TicketOptions)
    requires opts.generationIntervalMinutes > 0
    ensures var after := tickets + Generated(tickets, userId, now, opts);
      var next := NextTicketAt(EnsuredLatest(tickets, userId, now, opts), AvailableCount(after, userId), now, opts);
      && (next.None? <==> AvailableCount(after, userId) >= opts.maxActiveTickets)
      && (next.Some? ==>
            LatestGeneratedAt(after, userId).Some?
            && next.value == LatestGeneratedAt(after, userId).value + opts.generationIntervalMinutes)
  {
    EnsuredLatestIsNewest(tickets, userId, now, opts);
    var after := tickets + Generated(tickets, userId, now, opts);
    if AvailableCount(after, userId) < opts.maxActiveTickets {
      EnsureLeavesTicket(tickets, userId, now, opts);
    }
  }

  /** Tops the user's tickets up, then reports the Available count, the cap, when
      the next ticket is due and the history. */
  method GetSummary(db: Store, opts: TicketOptions, userId: Id, now: Time) returns (summary: TicketSummary)
    modifies db`tickets
    ensures db.tickets == old(db.tickets) + Generated(old(db.tickets), userId, now, opts)
    ensures summary.availableTickets == AvailableCount(db.tickets, userId)
    ensures summary.maxTickets == opts.maxActiveTickets
    ensures summary.nextTicketAt
            == NextTicketAt(EnsuredLatest(old(db.tickets), userId, now, opts), summary.availableTickets, now, opts)
    ensures summary.history == History(db.tickets, userId)
  {
    var latest := EnsureTickets(db, opts, userId, now);
    var availableTickets := AvailableCount(db.tickets, userId);
    var nextTicketAt := NextTicketAt(latest, availableTickets, now, opts);
    summary := TicketSummary(availableTickets, opts.maxActiveTickets, nextTicketAt, History(db.tickets, userId));
  }
}
