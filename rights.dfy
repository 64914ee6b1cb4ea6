/** Services/Implementations/CancellationRightsService.cs: a user's rights to
    cancel orders. A right is granted on demand, at most one per call and no more
    often than every 15 minutes, while fewer than 5 of the user's 5 newest rights
    are unused; using a right marks it spent on an order. */
module CancellationRightsService {
  import opened Base
  import opened Seqs
  import opened Sorting
  import opened Models
  import opened Data

  const MaxRights := 5
  const RenewalIntervalMinutes := 15

  /** `c.UserId == userId` */
  function IsRightOf(userId: Id): CancellationRight -> bool {
    (c: CancellationRight) => c.userId == userId
  }

  /** `c.UserId == userId && !c.IsUsed` */
  function IsUnusedOf(userId: Id): CancellationRight -> bool {
    (c: CancellationRight) => c.userId == userId && !c.isUsed
  }

  function IsUnused(c: CancellationRight): bool { !c.isUsed }

  function GeneratedAtOf(c: CancellationRight): int { c.generatedAt }

  /** The user's 5 newest rights, newest first. */
  function NewestRights(rights: seq<CancellationRight>, userId: Id): seq<CancellationRight> {
    TopByKey(Filter(rights, IsRightOf(userId)), GeneratedAtOf, MaxRights)
  }

  /** The first of a newest-first list (`OrderByDescending(r => r.GeneratedAt).FirstOrDefault()`). */
  function Newest(top: seq<CancellationRight>): Option<CancellationRight> {
    if |top| == 0 then None else Some(top[0])
  }

  /** GeneratedAt of the user's newest right among all of them. */
  function LatestGeneratedAt(rights: seq<CancellationRight>, userId: Id): Option<Time> {
    MaxKeyWhere(rights, IsRightOf(userId), GeneratedAtOf)
  }

  /** Whether EnsureRights grants a right: fewer than 5 of the 5 newest are unused,
      and the newest of them is at least 15 minutes old. */
  predicate Renews(rights: seq<CancellationRight>, userId: Id, now: Time) {
    var top := NewestRights(rights, userId);
    Count(top, IsUnused) < MaxRights
    && match Newest(top)
       case None => true
       case Some(latest) => latest.generatedAt + RenewalIntervalMinutes <= now
  }

  /** The head of the 5 newest rights is the user's newest right, and there is
      one exactly when the user has any right. */
  lemma NewestIsLatest(rights: seq<CancellationRight>, userId: Id)
    ensures var top := NewestRights(rights, userId);
      && (|top| == 0 <==> LatestGeneratedAt(rights, userId).None?)
      && (|top| > 0 ==> top[0] in rights && top[0].userId == userId
                        && LatestGeneratedAt(rights, userId) == Some(top[0].generatedAt))
  {
    var mine := Filter(rights, IsRightOf(userId));
    var top := NewestRights(rights, userId);
    CountZero(rights, IsRightOf(userId));
    if |top| > 0 {
      assert top[0] in multiset(mine);
      var j :| 0 <= j < |rights| && rights[j] == top[0];
      forall i | 0 <= i < |rights| && IsRightOf(userId)(rights[i])
        ensures GeneratedAtOf(rights[i]) <= GeneratedAtOf(rights[j])
      {
        FilterKeeps(rights, IsRightOf(userId), rights[i]);
        if rights[i] !in top {
          assert top[0] in top;
        } else {
          var k :| 0 <= k < |top| && top[k] == rights[i];
        }
      }
      MaxKeyAt(rights, IsRightOf(userId), GeneratedAtOf, j);
    }
  }

  /** Renewal in terms of the user's whole table: fewer than 5 unused among the 5
      newest, and the user has no right or the newest is 15 minutes old. */
  lemma RenewsIff(rights: seq<CancellationRight>, userId: Id, now: Time)
    ensures Renews(rights, userId, now) <==>
      Count(NewestRights(rights, userId), IsUnused) < MaxRights
      && (LatestGeneratedAt(rights, userId).None?
          || LatestGeneratedAt(rights, userId).value + RenewalIntervalMinutes <= now)
  {
    NewestIsLatest(rights, userId);
  }

  /** No renewal while the 5 newest rights are all unused. */
  lemma FullNoRenewal(rights: seq<CancellationRight>, userId: Id, now: Time)
    requires |NewestRights(rights, userId)| == MaxRights
    requires forall c :: c in NewestRights(rights, userId) ==> !c.isUsed
    ensures !Renews(rights, userId, now)
  {
    var top := NewestRights(rights, userId);
    assert forall j :: 0 <= j < |top| ==> top[j] in top;
    CountAll(top, IsUnused);
  }

  /** No renewal within 15 minutes of the user's newest right. */
  lemma RecentNoRenewal(rights: seq<CancellationRight>, userId: Id, now: Time)
    requires LatestGeneratedAt(rights, userId).Some?
    requires LatestGeneratedAt(rights, userId).value + RenewalIntervalMinutes > now
    ensures !Renews(rights, userId, now)
  {
    RenewsIff(rights, userId, now);
  }

  /** A user without rights is granted one on the first call, and only one. */
  lemma FirstEnsureGrants(rights: seq<CancellationRight>, userId: Id, now: Time)
    requires forall j :: 0 <= j < |rights| ==> rights[j].userId != userId
    ensures Renews(rights, userId, now)
  {
    NewestIsLatest(rights, userId);
  }

  /** The right EnsureRights grants. */
  function NewRight(id: Id, userId: Id, now: Time): CancellationRight {
    CancellationRight(id, userId, false, now, None, None)
  }

  /** Grants the user one unused right stamped now when renewal is due; otherwise
      changes nothing. */
  method EnsureRights(db: Store, userId: Id, newId: Id, now: Time)
    modifies db`cancellationRights
    ensures Renews(old(db.cancellationRights), userId, now) ==>
              db.cancellationRights == old(db.cancellationRights) + [NewRight(newId, userId, now)]
    ensures !Renews(old(db.cancellationRights), userId, now) ==>
              db.cancellationRights == old(db.cancellationRights)
  {
    var rights := NewestRights(db.cancellationRights, userId);
    var availableCount := Count(rights, IsUnused);
    if availableCount >= MaxRights {
      return;
    }
    var latestRight := Newest(rights);
    if latestRight.Some? && latestRight.value.generatedAt + RenewalIntervalMinutes > now {
      return;
    }
    db.cancellationRights := db.cancellationRights + [NewRight(newId, userId, now)];
  }

  /** The first unused right of the user in table order. */
  function FirstUnused(rights: seq<CancellationRight>, userId: Id): Option<nat> {
    FirstIndex(rights, IsUnusedOf(userId))
  }

  /** The table after right `i` is spent on `orderId` at `now`. */
  function MarkUsed(rights: seq<CancellationRight>, i: nat, orderId: Id, now: Time): seq<CancellationRight>
    requires i < |rights|
  {
    rights[i := rights[i].(isUsed := true, usedAt := Some(now), orderId := Some(orderId))]
  }

  /** Using a right spends exactly one unused right of the user, creates none,
      and leaves every other user's unused count alone. */
  lemma UseRightCounts(rights: seq<CancellationRight>, userId: Id, orderId: Id, now: Time)
    requires FirstUnused(rights, userId).Some?
    ensures var i := FirstUnused(rights, userId).value;
      var after := MarkUsed(rights, i, orderId, now);
      && |after| == |rights|
      && rights[i].userId == userId && !rights[i].isUsed
      && after[i].isUsed && after[i].usedAt == Some(now) && after[i].orderId == Some(orderId)
      && Count(after, IsUnusedOf(userId)) == Count(rights, IsUnusedOf(userId)) - 1
      && forall v :: v != userId ==> Count(after, IsUnusedOf(v)) == Count(rights, IsUnusedOf(v))
  {
    var i := FirstUnused(rights, userId).value;
    var c := rights[i].(isUsed := true, usedAt := Some(now), orderId := Some(orderId));
    CountUpdate(rights, i, c, IsUnusedOf(userId));
    forall v | v != userId
      ensures Count(rights[i := c], IsUnusedOf(v)) == Count(rights, IsUnusedOf(v))
    {
      CountUpdate(rights, i, c, IsUnusedOf(v));
    }
  }

  /** Spends the user's first unused right on the order; false, with no change,
      when the user has none. */
  method UseRight(db: Store, userId: Id, orderId: Id, now: Time) returns (used: bool)
    modifies db`cancellationRights
    ensures used <==> exists j :: 0 <= j < |old(db.cancellationRights)| && IsUnusedOf(userId)(old(db.cancellationRights)[j])
    ensures used ==> db.cancellationRights
                     == MarkUsed(old(db.cancellationRights), FirstUnused(old(db.cancellationRights), userId).value, orderId, now)
    ensures !used ==> db.cancellationRights == old(db.cancellationRights)
  {
    var availableRight := FirstUnused(db.cancellationRights, userId);
    if availableRight.None? {
      return false;
    }
    db.cancellationRights := MarkUsed(db.cancellationRights, availableRight.value, orderId, now);
    used := true;
  }

  /** CancellationRightsResponse (the listed rights are kept as rows). */
  datatype RightsSummary = RightsSummary(
    availableRights: nat, maxRights: int, nextRenewalAt: Option<Time>, rights: seq<CancellationRight>)

  /** When the next right is due: 15 minutes after the newest listed right while
      fewer than 5 listed rights are unused, else none. */
  function NextRenewalAt(top: seq<CancellationRight>, available: int): Option<Time> {
    match Newest(top)
    case Some(latest) => if available < MaxRights then Some(latest.generatedAt + RenewalIntervalMinutes) else None
    case None => None
  }

  /** The listing holds at most 5 rights, all the user's, newest first; the
      available count is at most 5; and the next renewal is 15 minutes after the
      user's newest right whenever one is reported. */
  lemma RightsSummaryFacts(rights: seq<CancellationRight>, userId: Id)
    ensures var top := NewestRights(rights, userId);
      var available := Count(top, IsUnused);
      var next := NextRenewalAt(top, available);
      && |top| <= MaxRights && available <= MaxRights
      && (forall c :: c in top ==> c in rights && c.userId == userId)
      && SortedDesc(top, GeneratedAtOf)
      && (next.Some? <==> LatestGeneratedAt(rights, userId).Some? && available < MaxRights)
      && (next.Some? ==> next.value == LatestGeneratedAt(rights, userId).value + RenewalIntervalMinutes)
  {
    NewestRightsOwned(rights, userId);
    NextRenewalFacts(rights, userId);
  }

  /** Every listed right is one of the user's rows. */
  lemma NewestRightsOwned(rights: seq<CancellationRight>, userId: Id)
    ensures forall c :: c in NewestRights(rights, userId) ==> c in rights && c.userId == userId
  {
    var mine := Filter(rights, IsRightOf(userId));
    forall c | c in NewestRights(rights, userId) ensures c in rights && c.userId == userId {
      assert c in multiset(mine);
    }
  }

  /** The next renewal is reported exactly when the user has a right and fewer
      than 5 listed ones are unused, 15 minutes after the newest. */
  lemma NextRenewalFacts(rights: seq<CancellationRight>, userId: Id)
    ensures var top := NewestRights(rights, userId);
      var next := NextRenewalAt(top, Count(top, IsUnused));
      && (next.Some? <==> LatestGeneratedAt(rights, userId).Some? && Count(top, IsUnused) < MaxRights)
      && (next.Some? ==> next.value == LatestGeneratedAt(rights, userId).value + RenewalIntervalMinutes)
  {
    NewestIsLatest(rights, userId);
  }

  /** Grants a right when renewal is due, then lists the user's 5 newest rights,
      how many of them are unused and when the next one is due. */
  method GetRights(db: Store, userId: Id, newId: Id, now: Time) returns (summary: RightsSummary)
    modifies db`cancellationRights
    ensures Renews(old(db.cancellationRights), userId, now) ==>
              db.cancellationRights == old(db.cancellationRights) + [NewRight(newId, userId, now)]
    ensures !Renews(old(db.cancellationRights), userId, now) ==>
              db.cancellationRights == old(db.cancellationRights)
    ensures summary.rights == NewestRights(db.cancellationRights, userId)
    ensures summary.availableRights == Count(summary.rights, IsUnused)
    ensures summary.maxRights == MaxRights
    ensures summary.nextRenewalAt == NextRenewalAt(summary.rights, summary.availableRights)
  {
    EnsureRights(db, userId, newId, now);
    var rights := NewestRights(db.cancellationRights, userId);
    var availableCount := Count(rights, IsUnused);
    var nextRenewal := NextRenewalAt(rights, availableCount);
    summary := RightsSummary(availableCount, MaxRights, nextRenewal, rights);
  }
}
