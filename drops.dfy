/** Services/Implementations/TicketGenerationService.cs: the older shared-drop
    design. On each timer tick stale drops are closed and their open claims
    expired, then at most one new drop of tickets is released for an eligible offer. */
module TicketGenerationService {
  import opened Base
  import opened Seqs
  import opened Models
  import opened Data

  // ---------------------------------------------------------------------------
  // ExpireStaleDropsAsync

  /** `td.IsActive && td.ExpiresAt <= now` */
  predicate IsStale(d: TicketDrop, now: Time) {
    d.isActive && d.expiresAt <= now
  }

  /** A drop after the sweep: closed with no tickets left when stale, else as it was. */
  function SweepDrop(d: TicketDrop, now: Time): TicketDrop {
    if IsStale(d, now) then d.(isActive := false, ticketsRemaining := 0) else d
  }

  /** The drops table after the sweep. */
  function SweepDrops(drops: seq<TicketDrop>, now: Time): (r: seq<TicketDrop>)
    ensures |r| == |drops|
  {
    seq(|drops|, i requires 0 <= i < |drops| => SweepDrop(drops[i], now))
  }

  /** The claim's drop has expired (`tc.TicketDrop.ExpiresAt <= now`, an inner join on the drop id). */
  predicate DropExpired(drops: seq<TicketDrop>, dropId: Id, now: Time) {
    exists j :: 0 <= j < |drops| && drops[j].id == dropId && drops[j].expiresAt <= now
  }

  /** A claim after the sweep: expired now when still Claimed and its drop has expired. */
  function SweepClaim(c: TicketClaim, drops: seq<TicketDrop>, now: Time): TicketClaim {
    if c.status == Claimed && DropExpired(drops, c.ticketDropId, now)
    then c.(status := ClaimExpired, expiredAt := Some(now))
    else c
  }

  /** The claims table after the sweep. */
  function SweepClaims(claims: seq<TicketClaim>, drops: seq<TicketDrop>, now: Time): (r: seq<TicketClaim>)
    ensures |r| == |claims|
  {
    seq(|claims|, i requires 0 <= i < |claims| => SweepClaim(claims[i], drops, now))
  }

  /** Closes every stale drop and expires every open claim on an expired drop. */
  method ExpireStaleDrops(db: Store, now: Time)
    modifies db`ticketDrops, db`ticketClaims
    ensures db.ticketDrops == SweepDrops(old(db.ticketDrops), now)
    ensures db.ticketClaims == SweepClaims(old(db.ticketClaims), old(db.ticketDrops), now)
  {
    var drops0 := db.ticketDrops;
    var i := 0;
    while i < |db.ticketDrops|
      invariant db.ticketClaims == old(db.ticketClaims)
      invariant |db.ticketDrops| == |drops0| && 0 <= i <= |drops0|
      invariant forall k :: 0 <= k < i ==> db.ticketDrops[k] == SweepDrop(drops0[k], now)
      invariant forall k :: i <= k < |drops0| ==> db.ticketDrops[k] == drops0[k]
    {
      var drop := db.ticketDrops[i];
      if drop.isActive && drop.expiresAt <= now {
        db.ticketDrops := db.ticketDrops[i := drop.(isActive := false, ticketsRemaining := 0)];
      }
      i := i + 1;
    }
    assert db.ticketDrops == SweepDrops(drops0, now);
    ghost var claims0 := db.ticketClaims;
    var j := 0;
    while j < |db.ticketClaims|
      invariant db.ticketDrops == SweepDrops(drops0, now)
      invariant |db.ticketClaims| == |claims0| && 0 <= j <= |claims0|
      invariant forall k :: 0 <= k < j ==> db.ticketClaims[k] == SweepClaim(claims0[k], drops0, now)
      invariant forall k :: j <= k < |claims0| ==> db.ticketClaims[k] == claims0[k]
    {
      var claim := db.ticketClaims[j];
      if claim.status == Claimed && DropExpired(drops0, claim.ticketDropId, now) {
        db.ticketClaims := db.ticketClaims[j := claim.(status := ClaimExpired, expiredAt := Some(now))];
      }
      j := j + 1;
    }
    assert db.ticketClaims == SweepClaims(claims0, drops0, now);
  }

  /** What the sweep does to each row: a stale drop is closed with no tickets left
      and nothing else about it changes; any other drop is untouched; an open claim
      on an expired drop becomes Expired at now and any other claim is untouched.
      This is the row-by-row relational form of `SweepDrops` and `SweepClaims`. */
  lemma SweepEffect(drops: seq<TicketDrop>, claims: seq<TicketClaim>, now: Time)
    ensures var d := SweepDrops(drops, now);
      forall i :: 0 <= i < |drops| ==>
        if drops[i].isActive && drops[i].expiresAt <= now
        then !d[i].isActive && d[i].ticketsRemaining == 0
             && d[i] == drops[i].(isActive := d[i].isActive, ticketsRemaining := d[i].ticketsRemaining)
        else d[i] == drops[i]
    ensures var c := SweepClaims(claims, drops, now);
      forall i :: 0 <= i < |claims| ==>
        if claims[i].status == Claimed
           && (exists j :: 0 <= j < |drops| && drops[j].id == claims[i].ticketDropId && drops[j].expiresAt <= now)
        then c[i].status == ClaimExpired && c[i].expiredAt == Some(now)
             && c[i] == claims[i].(status := c[i].status, expiredAt := c[i].expiredAt)
        else c[i] == claims[i]
  {
  }

  /** The sweep keeps every drop's id and expiry, so a drop expired before it is
      expired after it. */
  lemma SweepKeepsExpiry(drops: seq<TicketDrop>, now: Time, dropId: Id, at: Time)
    ensures DropExpired(SweepDrops(drops, now), dropId, at) <==> DropExpired(drops, dropId, at)
  {
    var d := SweepDrops(drops, now);
    if DropExpired(drops, dropId, at) {
      var j :| 0 <= j < |drops| && drops[j].id == dropId && drops[j].expiresAt <= at;
      assert d[j].id == dropId && d[j].expiresAt <= at;
    }
    if DropExpired(d, dropId, at) {
      var j :| 0 <= j < |d| && d[j].id == dropId && d[j].expiresAt <= at;
      assert drops[j].id == dropId && drops[j].expiresAt <= at;
    }
  }

  /** After the sweep no drop is stale and no open claim sits on an expired drop. */
  lemma SweepLeavesNothingStale(drops: seq<TicketDrop>, claims: seq<TicketClaim>, now: Time)
    ensures forall i :: 0 <= i < |drops| ==> !IsStale(SweepDrops(drops, now)[i], now)
    ensures var d, c := SweepDrops(drops, now), SweepClaims(claims, drops, now);
      forall i :: 0 <= i < |c| ==> !(c[i].status == Claimed && DropExpired(d, c[i].ticketDropId, now))
  {
    var d, c := SweepDrops(drops, now), SweepClaims(claims, drops, now);
    forall i | 0 <= i < |c| ensures !(c[i].status == Claimed && DropExpired(d, c[i].ticketDropId, now)) {
      SweepKeepsExpiry(drops, now, claims[i].ticketDropId, now);
    }
  }

  /** Sweeping twice at the same instant changes nothing the second time. */
  lemma SweepIdempotent(drops: seq<TicketDrop>, claims: seq<TicketClaim>, now: Time)
    ensures var d := SweepDrops(drops, now);
      && SweepDrops(d, now) == d
      && SweepClaims(SweepClaims(claims, drops, now), d, now) == SweepClaims(claims, drops, now)
  {
    var d, c := SweepDrops(drops, now), SweepClaims(claims, drops, now);
    SweepLeavesNothingStale(drops, claims, now);
    assert SweepDrops(d, now) == d;
    var c2 := SweepClaims(c, d, now);
    forall i | 0 <= i < |c| ensures c2[i] == c[i] {
      SweepKeepsExpiry(drops, now, claims[i].ticketDropId, now);
    }
  }

  // ---------------------------------------------------------------------------
  // GenerateDropIfNeededAsync

  /** `td.IsActive && td.TicketsRemaining > 0 && td.ExpiresAt > now` */
  function IsLiveAt(now: Time): TicketDrop -> bool {
    (d: TicketDrop) => d.isActive && d.ticketsRemaining > 0 && d.expiresAt > now
  }

  function AnyDrop(d: TicketDrop): bool { true }

  function CreatedAtOf(d: TicketDrop): int { d.createdAt }

  /** CreatedAt of the most recent drop, None when there is no drop. */
  function LastDropCreatedAt(drops: seq<TicketDrop>): Option<Time> {
    MaxKeyWhere(drops, AnyDrop, CreatedAtOf)
  }

  /** The drop released for `offerId` at `now`. */
  function NewDrop(id: Id, offerId: Id, now: Time, opts: TicketOptions): TicketDrop {
    TicketDrop(id, offerId, opts.ticketsPerInterval, opts.ticketsPerInterval,
               now, now + opts.dropDurationMinutes, true, now)
  }

  /** A drop is released when, after the sweep, fewer than MaxActiveTickets drops
      are live, the last drop is at least one interval old, and some offer is
      eligible. */
  predicate DropDue(drops: seq<TicketDrop>, offers: seq<Offer>, now: Time, opts: TicketOptions) {
    && Count(drops, IsLiveAt(now)) < opts.maxActiveTickets
    && (LastDropCreatedAt(drops).None? || LastDropCreatedAt(drops).value + opts.generationIntervalMinutes <= now)
    && Count(offers, IsRunningAt(now)) > 0
  }

  /** One timer tick: the sweep, then at most one new drop for an eligible offer
      chosen at random. */
  method GenerateDropIfNeeded(db: Store, opts: TicketOptions, newId: Id, now: Time)
    modifies db`ticketDrops, db`ticketClaims
    ensures db.ticketClaims == SweepClaims(old(db.ticketClaims), old(db.ticketDrops), now)
    ensures var swept := SweepDrops(old(db.ticketDrops), now);
      !DropDue(swept, db.offers, now, opts) ==> db.ticketDrops == swept
    ensures var swept := SweepDrops(old(db.ticketDrops), now);
      DropDue(swept, db.offers, now, opts) ==>
        exists k :: 0 <= k < |db.offers| && IsRunningAt(now)(db.offers[k])
                    && db.ticketDrops == swept + [NewDrop(newId, db.offers[k].id, now, opts)]
  {
    ExpireStaleDrops(db, now);
    var activeCount := Count(db.ticketDrops, IsLiveAt(now));
    if activeCount >= opts.maxActiveTickets {
      return;
    }
    var lastDropCreatedAt := LastDropCreatedAt(db.ticketDrops);
    if lastDropCreatedAt.Some? && lastDropCreatedAt.value + opts.generationIntervalMinutes > now {
      return;
    }
    var eligibleOffers := Filter(db.offers, IsRunningAt(now));
    if |eligibleOffers| == 0 {
      return;
    }
    var pick :| 0 <= pick < |eligibleOffers|;
    var offer := eligibleOffers[pick];
    assert offer in eligibleOffers;
    var k :| 0 <= k < |db.offers| && db.offers[k] == offer;
    db.ticketDrops := db.ticketDrops + [NewDrop(newId, offer.id, now, opts)];
  }

  /** The released drop is live when the options give it tickets and a lifetime,
      so one tick raises the live count by exactly one. */
  lemma NewDropIsLive(drops: seq<TicketDrop>, id: Id, offerId: Id, now: Time, opts: TicketOptions)
    requires opts.ticketsPerInterval > 0 && opts.dropDurationMinutes > 0
    ensures Count(drops + [NewDrop(id, offerId, now, opts)], IsLiveAt(now)) == Count(drops, IsLiveAt(now)) + 1
    ensures LastDropCreatedAt(drops + [NewDrop(id, offerId, now, opts)]).Some?
  {
    CountSnoc(drops, NewDrop(id, offerId, now, opts), IsLiveAt(now));
  }

  /** The release is never due twice at one instant with a positive interval:
      right after a drop is released the interval gate is closed. */
  lemma NoSecondDropAtOnce(drops: seq<TicketDrop>, offers: seq<Offer>, id: Id, offerId: Id, now: Time, opts: TicketOptions)
    requires opts.generationIntervalMinutes > 0
    requires forall j :: 0 <= j < |drops| ==> drops[j].createdAt <= now
    ensures !DropDue(drops + [NewDrop(id, offerId, now, opts)], offers, now, opts)
  {
    var all := drops + [NewDrop(id, offerId, now, opts)];
    forall j | 0 <= j < |all| && AnyDrop(all[j]) ensures CreatedAtOf(all[j]) <= CreatedAtOf(all[|drops|]) {
      if j < |drops| {
        assert all[j] == drops[j];
      }
    }
    MaxKeyAt(all, AnyDrop, CreatedAtOf, |drops|);
  }
}
