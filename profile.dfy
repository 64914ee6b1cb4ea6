/** Services/Implementations/ProfileService.cs: a user's saved addresses, with at
    most one default among them; favorites, unique per (user, type, target); and
    the search history, listed newest first and capped at 50 entries. */
module ProfileService {
  import opened Base
  import opened Seqs
  import opened Sorting
  import opened Models
  import opened Data
  import opened Text

  /** CreateAddressRequest and UpdateAddressRequest: the fields both write. */
  datatype AddressRequest = AddressRequest(
    addressLabel: string, line1: string, line2: Option<string>,
    city: string, district: string, postalCode: string, isDefault: bool)

  /** CreateFavoriteRequest */
  datatype FavoriteRequest = FavoriteRequest(favoriteType: FavoriteType, targetId: Id)

  /** The InvalidOperationException AddFavorite throws ("Already in favorites."). */
  datatype ProfileError = AlreadyInFavorites

  // ---------------------------------------------------------------------------
  // Addresses

  function IsAddressOf(userId: Id): UserAddress -> bool {
    (a: UserAddress) => a.userId == userId
  }

  /** `a.Id == addressId && a.UserId == userId` */
  function IsOwnAddress(userId: Id, addressId: Id): UserAddress -> bool {
    (a: UserAddress) => a.id == addressId && a.userId == userId
  }

  function IsDefaultOf(userId: Id): UserAddress -> bool {
    (a: UserAddress) => a.userId == userId && a.isDefault
  }

  /** The rows UnsetDefaultAddresses selects: the user's defaults, except the
      address with id `excludeId` when one is given. */
  predicate Clears(a: UserAddress, userId: Id, excludeId: Option<Id>) {
    a.userId == userId && a.isDefault && (excludeId.None? || a.id != excludeId.value)
  }

  function Unset(a: UserAddress, userId: Id, excludeId: Option<Id>): UserAddress {
    if Clears(a, userId, excludeId) then a.(isDefault := false) else a
  }

  /** The table once the selected rows have lost their default flag. */
  function UnsetDefaults(addresses: seq<UserAddress>, userId: Id, excludeId: Option<Id>): (r: seq<UserAddress>)
    ensures |r| == |addresses|
  {
    seq(|addresses|, i requires 0 <= i < |addresses| => Unset(addresses[i], userId, excludeId))
  }

  /** Unsetting changes only the default flag, and only of the selected rows;
      afterwards the user has no default apart from the excluded address. */
  lemma UnsetDefaultsEffect(addresses: seq<UserAddress>, userId: Id, excludeId: Option<Id>)
    ensures var r := UnsetDefaults(addresses, userId, excludeId);
      && (forall i :: 0 <= i < |r| ==> r[i] == addresses[i].(isDefault := r[i].isDefault))
      && (forall i :: 0 <= i < |r| ==>
            (r[i].isDefault <==> addresses[i].isDefault && !Clears(addresses[i], userId, excludeId)))
      && (forall i :: 0 <= i < |r| && IsDefaultOf(userId)(r[i]) ==> excludeId == Some(r[i].id))
      && (forall i :: 0 <= i < |r| && addresses[i].userId != userId ==> r[i] == addresses[i])
  {
  }

  /** The foreach loop of UnsetDefaultAddresses, over the table in order. */
  method UnsetDefaultAddresses(db: Store, userId: Id, excludeId: Option<Id>)
    modifies db`addresses
    ensures db.addresses == UnsetDefaults(old(db.addresses), userId, excludeId)
  {
    var i := 0;
    while i < |db.addresses|
      invariant |db.addresses| == |old(db.addresses)|
      invariant i <= |db.addresses|
      invariant forall j :: 0 <= j < i ==> db.addresses[j] == Unset(old(db.addresses)[j], userId, excludeId)
      invariant forall j :: i <= j < |db.addresses| ==> db.addresses[j] == old(db.addresses)[j]
      decreases |db.addresses| - i
    {
      var address := db.addresses[i];
      if address.userId == userId && address.isDefault && (excludeId.None? || address.id != excludeId.value) {
        db.addresses := db.addresses[i := address.(isDefault := false)];
      }
      i := i + 1;
    }
  }

  /** The user has at most one default address. */
  ghost predicate SingleDefault(addresses: seq<UserAddress>, userId: Id) {
    forall i, j ::
      (0 <= i < |addresses| && 0 <= j < |addresses|
       && IsDefaultOf(userId)(addresses[i]) && IsDefaultOf(userId)(addresses[j])) ==> i == j
  }

  /** Address ids are keys. */
  ghost predicate AddressIdsUnique(addresses: seq<UserAddress>) {
    forall i, j :: 0 <= i < |addresses| && 0 <= j < |addresses| && addresses[i].id == addresses[j].id ==> i == j
  }

  /** The address AddAddress stores. */
  function NewAddress(id: Id, userId: Id, req: AddressRequest, now: Time): UserAddress {
    UserAddress(id, userId, req.addressLabel, req.line1, req.line2, req.city, req.district,
                req.postalCode, req.isDefault, now)
  }

  /** The table after AddAddress. */
  function AddedAddresses(addresses: seq<UserAddress>, userId: Id, a: UserAddress): seq<UserAddress> {
    (if a.isDefault then UnsetDefaults(addresses, userId, None) else addresses) + [a]
  }

  /** Adds the address; a default one first takes the flag off the user's other
      addresses. */
  method AddAddress(db: Store, userId: Id, req: AddressRequest, newId: Id, now: Time) returns (address: UserAddress)
    modifies db`addresses
    ensures address == NewAddress(newId, userId, req, now)
    ensures db.addresses == AddedAddresses(old(db.addresses), userId, address)
  {
    if req.isDefault {
      UnsetDefaultAddresses(db, userId, None);
    }
    address := NewAddress(newId, userId, req, now);
    db.addresses := db.addresses + [address];
  }

  /** A default address added is the user's only default; a non-default one leaves
      every existing row as it was; other users' rows never change. */
  lemma AddAddressEffect(addresses: seq<UserAddress>, userId: Id, req: AddressRequest, newId: Id, now: Time)
    ensures var a := NewAddress(newId, userId, req, now);
      var after := AddedAddresses(addresses, userId, a);
      && |after| == |addresses| + 1 && after[|addresses|] == a
      && (req.isDefault ==> forall i :: 0 <= i < |after| && IsDefaultOf(userId)(after[i]) ==> i == |addresses|)
      && (!req.isDefault ==> after[..|addresses|] == addresses)
      && (forall i :: 0 <= i < |addresses| && addresses[i].userId != userId ==> after[i] == addresses[i])
  {
    var a := NewAddress(newId, userId, req, now);
    var after := AddedAddresses(addresses, userId, a);
    UnsetDefaultsEffect(addresses, userId, None);
    assert after[..|addresses|] == if req.isDefault then UnsetDefaults(addresses, userId, None) else addresses;
  }

  /** AddAddress keeps every user's single default. */
  lemma AddKeepsSingleDefault(addresses: seq<UserAddress>, userId: Id, req: AddressRequest, newId: Id, now: Time, v: Id)
    requires SingleDefault(addresses, v)
    ensures SingleDefault(AddedAddresses(addresses, userId, NewAddress(newId, userId, req, now)), v)
  {
    var a := NewAddress(newId, userId, req, now);
    var after := AddedAddresses(addresses, userId, a);
    AddAddressEffect(addresses, userId, req, newId, now);
    UnsetDefaultsEffect(addresses, userId, None);
    if !(req.isDefault && v == userId) {
      forall i, j | 0 <= i < |after| && 0 <= j < |after|
        && IsDefaultOf(v)(after[i]) && IsDefaultOf(v)(after[j])
        ensures i == j
      {
        assert i < |addresses| && j < |addresses|;
        assert IsDefaultOf(v)(addresses[i]) && IsDefaultOf(v)(addresses[j]);
      }
    }
  }

  /** The user's address with this id, first in table order. */
  function FindAddress(addresses: seq<UserAddress>, userId: Id, addressId: Id): Option<nat> {
    FirstIndex(addresses, IsOwnAddress(userId, addressId))
  }

  /** The request's fields written over the stored ones (id, owner and creation
      time stay). */
  function Revise(a: UserAddress, req: AddressRequest): (r: UserAddress)
    ensures r.id == a.id && r.userId == a.userId && r.createdAt == a.createdAt
    ensures r == NewAddress(a.id, a.userId, req, a.createdAt)
  {
    a.(addressLabel := req.addressLabel, line1 := req.line1, line2 := req.line2, city := req.city,
       district := req.district, postalCode := req.postalCode, isDefault := req.isDefault)
  }

  /** The table after UpdateAddress of row `i`. */
  function RevisedAddresses(addresses: seq<UserAddress>, userId: Id, i: nat, req: AddressRequest): seq<UserAddress>
    requires i < |addresses|
  {
    var cleared := if req.isDefault then UnsetDefaults(addresses, userId, Some(addresses[i].id)) else addresses;
    cleared[i := Revise(addresses[i], req)]
  }

  /** Rewrites the user's address; a missing or foreign address gives None and no
      change. A default one first takes the flag off the user's other addresses. */
  method UpdateAddress(db: Store, userId: Id, addressId: Id, req: AddressRequest) returns (r: Option<UserAddress>)
    modifies db`addresses
    ensures r.None? <==> FindAddress(old(db.addresses), userId, addressId).None?
    ensures r.None? ==> db.addresses == old(db.addresses)
    ensures r.Some? ==>
              var i := FindAddress(old(db.addresses), userId, addressId).value;
              && r.value == Revise(old(db.addresses)[i], req)
              && db.addresses == RevisedAddresses(old(db.addresses), userId, i, req)
  {
    var found := FindAddress(db.addresses, userId, addressId);
    if found.None? {
      return None;
    }
    var i := found.value;
    var address := db.addresses[i];
    if req.isDefault {
      UnsetDefaultAddresses(db, userId, Some(address.id));
    }
    var revised := Revise(address, req);
    db.addresses := db.addresses[i := revised];
    r := Some(revised);
  }

  /** After an update with the flag set, the updated row is the user's only
      default; without it, only that row changes. Ids are keys. */
  lemma UpdateAddressEffect(addresses: seq<UserAddress>, userId: Id, addressId: Id, req: AddressRequest)
    requires AddressIdsUnique(addresses)
    requires FindAddress(addresses, userId, addressId).Some?
    ensures var i := FindAddress(addresses, userId, addressId).value;
      var after := RevisedAddresses(addresses, userId, i, req);
      && |after| == |addresses|
      && addresses[i].id == addressId && addresses[i].userId == userId
      && (req.isDefault ==> forall j :: 0 <= j < |after| && IsDefaultOf(userId)(after[j]) ==> j == i)
      && (!req.isDefault ==> forall j :: 0 <= j < |after| && j != i ==> after[j] == addresses[j])
      && (forall j :: 0 <= j < |after| && j != i && addresses[j].userId != userId ==> after[j] == addresses[j])
  {
    var i := FindAddress(addresses, userId, addressId).value;
    UnsetDefaultsEffect(addresses, userId, Some(addresses[i].id));
  }

  /** UpdateAddress keeps every user's single default. */
  lemma UpdateKeepsSingleDefault(addresses: seq<UserAddress>, userId: Id, addressId: Id, req: AddressRequest, v: Id)
    requires AddressIdsUnique(addresses) && SingleDefault(addresses, v)
    requires FindAddress(addresses, userId, addressId).Some?
    ensures SingleDefault(RevisedAddresses(addresses, userId, FindAddress(addresses, userId, addressId).value, req), v)
  {
    var i := FindAddress(addresses, userId, addressId).value;
    var after := RevisedAddresses(addresses, userId, i, req);
    UpdateAddressEffect(addresses, userId, addressId, req);
    UnsetDefaultsEffect(addresses, userId, Some(addresses[i].id));
    if !(req.isDefault && v == userId) {
      forall j, k | 0 <= j < |after| && 0 <= k < |after|
        && IsDefaultOf(v)(after[j]) && IsDefaultOf(v)(after[k])
        ensures j == k
      {
        if j != i && k != i {
          assert IsDefaultOf(v)(addresses[j]) && IsDefaultOf(v)(addresses[k]);
        }
      }
    }
  }

  /** Removes the user's address; false, with no change, for a missing or foreign one. */
  method DeleteAddress(db: Store, userId: Id, addressId: Id) returns (deleted: bool)
    modifies db`addresses
    ensures deleted <==> FindAddress(old(db.addresses), userId, addressId).Some?
    ensures deleted ==> db.addresses == RemoveAt(old(db.addresses), FindAddress(old(db.addresses), userId, addressId).value)
    ensures !deleted ==> db.addresses == old(db.addresses)
  {
    var found := FindAddress(db.addresses, userId, addressId);
    if found.None? {
      return false;
    }
    db.addresses := RemoveAt(db.addresses, found.value);
    deleted := true;
  }

  /** Deleting removes exactly one address, the user's own with that id; every
      other user keeps all of theirs. */
  lemma DeleteRemovesOwnOnly(addresses: seq<UserAddress>, userId: Id, addressId: Id)
    requires FindAddress(addresses, userId, addressId).Some?
    ensures var i := FindAddress(addresses, userId, addressId).value;
      var after := RemoveAt(addresses, i);
      && addresses[i].id == addressId && addresses[i].userId == userId
      && Count(after, IsAddressOf(userId)) == Count(addresses, IsAddressOf(userId)) - 1
      && forall v :: v != userId ==> Count(after, IsAddressOf(v)) == Count(addresses, IsAddressOf(v))
  {
    var i := FindAddress(addresses, userId, addressId).value;
    CountRemoveAt(addresses, i, IsAddressOf(userId));
    forall v | v != userId
      ensures Count(RemoveAt(addresses, i), IsAddressOf(v)) == Count(addresses, IsAddressOf(v))
    {
      CountRemoveAt(addresses, i, IsAddressOf(v));
    }
  }

  /** `OrderByDescending(a => a.IsDefault).ThenBy(a => a.Label)`: a default before
      a non-default, and labels in ordinal order otherwise. */
  predicate AddressBefore(a: UserAddress, b: UserAddress) {
    (a.isDefault && !b.isDefault)
    || (a.isDefault == b.isDefault && OrdinalLeq(a.addressLabel, b.addressLabel))
  }

  lemma AddressOrder()
    ensures Total(AddressBefore) && Transitive(AddressBefore)
  {
    forall a: UserAddress, b: UserAddress ensures AddressBefore(a, b) || AddressBefore(b, a) {
      OrdinalTotal(a.addressLabel, b.addressLabel);
    }
    forall a: UserAddress, b: UserAddress, c: UserAddress | AddressBefore(a, b) && AddressBefore(b, c)
      ensures AddressBefore(a, c)
    {
      if a.isDefault == b.isDefault == c.isDefault {
        OrdinalTransitive(a.addressLabel, b.addressLabel, c.addressLabel);
      }
    }
  }

  /** The user's addresses, defaults first, then by label. */
  function GetAddresses(addresses: seq<UserAddress>, userId: Id): (r: seq<UserAddress>)
    ensures multiset(r) == multiset(Filter(addresses, IsAddressOf(userId)))
    ensures forall a :: a in r <==> a in addresses && a.userId == userId
    ensures forall i, j :: 0 <= i < j < |r| ==> AddressBefore(r[i], r[j])
  {
    AddressOrder();
    var r := SortBy(Filter(addresses, IsAddressOf(userId)), AddressBefore);
    ListedAddresses(addresses, userId, r);
    r
  }

  lemma ListedAddresses(addresses: seq<UserAddress>, userId: Id, r: seq<UserAddress>)
    requires Total(AddressBefore) && Transitive(AddressBefore)
    requires r == SortBy(Filter(addresses, IsAddressOf(userId)), AddressBefore)
    ensures forall a :: a in r <==> a in addresses && a.userId == userId
    ensures forall i, j :: 0 <= i < j < |r| ==> AddressBefore(r[i], r[j])
  {
    var mine := Filter(addresses, IsAddressOf(userId));
    forall a ensures a in r <==> a in addresses && a.userId == userId {
      if a in addresses && a.userId == userId {
        FilterKeeps(addresses, IsAddressOf(userId), a);
      }
      assert a in r <==> a in multiset(mine);
    }
    SortedByAll(r, AddressBefore);
  }

  lemma SameMembers<T>(r: seq<T>, s: seq<T>)
    requires multiset(r) == multiset(s)
    ensures forall x :: x in r <==> x in s
  {
    forall x ensures x in r <==> x in s {
      assert x in r <==> x in multiset(r);
      assert x in s <==> x in multiset(s);
    }
  }

  lemma SubMembers<T>(r: seq<T>, s: seq<T>)
    requires multiset(r) <= multiset(s)
    ensures forall x :: x in r ==> x in s
  {
    forall x | x in r ensures x in s {
      assert x in multiset(r);
    }
  }

  // ---------------------------------------------------------------------------
  // Favorites

  /** `f.UserId == userId && f.FavoriteType == type && f.TargetId == targetId` */
  function IsFavorite(userId: Id, favoriteType: FavoriteType, targetId: Id): Favorite -> bool {
    (f: Favorite) => f.userId == userId && f.favoriteType == favoriteType && f.targetId == targetId
  }

  /** `f.Id == favoriteId && f.UserId == userId` */
  function IsOwnFavorite(userId: Id, favoriteId: Id): Favorite -> bool {
    (f: Favorite) => f.id == favoriteId && f.userId == userId
  }

  function IsFavoriteOf(userId: Id): Favorite -> bool {
    (f: Favorite) => f.userId == userId
  }

  /** No two favorites share (user, type, target): the unique index on the table. */
  ghost predicate FavoritesUnique(favorites: seq<Favorite>) {
    forall i, j ::
      (0 <= i < |favorites| && 0 <= j < |favorites|
       && IsFavorite(favorites[i].userId, favorites[i].favoriteType, favorites[i].targetId)(favorites[j])) ==> i == j
  }

  function NewFavorite(id: Id, userId: Id, req: FavoriteRequest, now: Time): Favorite {
    Favorite(id, userId, req.favoriteType, req.targetId, now)
  }

  /** Adds the favorite, or fails with no change when the user already has that
      (type, target). */
  method AddFavorite(db: Store, userId: Id, req: FavoriteRequest, newId: Id, now: Time) returns (r: Result<Favorite, ProfileError>)
    modifies db`favorites
    ensures r.Failure? <==> exists j :: 0 <= j < |old(db.favorites)| && IsFavorite(userId, req.favoriteType, req.targetId)(old(db.favorites)[j])
    ensures r.Failure? ==> r.error == AlreadyInFavorites && db.favorites == old(db.favorites)
    ensures r.Success? ==> r.value == NewFavorite(newId, userId, req, now)
                           && db.favorites == old(db.favorites) + [r.value]
  {
    var exists_ := FirstIndex(db.favorites, IsFavorite(userId, req.favoriteType, req.targetId)).Some?;
    if exists_ {
      return Failure(AlreadyInFavorites);
    }
    var favorite := NewFavorite(newId, userId, req, now);
    db.favorites := db.favorites + [favorite];
    r := Success(favorite);
  }

  /** A favorite added where AddFavorite lets it through keeps the table unique. */
  lemma AddFavoriteKeepsUnique(favorites: seq<Favorite>, userId: Id, req: FavoriteRequest, newId: Id, now: Time)
    requires FavoritesUnique(favorites)
    requires forall j :: 0 <= j < |favorites| ==> !IsFavorite(userId, req.favoriteType, req.targetId)(favorites[j])
    ensures FavoritesUnique(favorites + [NewFavorite(newId, userId, req, now)])
  {
    var after := favorites + [NewFavorite(newId, userId, req, now)];
    forall i, j | 0 <= i < |after| && 0 <= j < |after|
      && IsFavorite(after[i].userId, after[i].favoriteType, after[i].targetId)(after[j])
      ensures i == j
    {
      if i < |favorites| && j < |favorites| {
        assert IsFavorite(favorites[i].userId, favorites[i].favoriteType, favorites[i].targetId)(favorites[j]);
      }
    }
  }

  /** A second add of the same (user, type, target) always fails. */
  lemma SecondAddRejected(favorites: seq<Favorite>, userId: Id, req: FavoriteRequest, newId: Id, now: Time)
    ensures var after := favorites + [NewFavorite(newId, userId, req, now)];
      exists j :: 0 <= j < |after| && IsFavorite(userId, req.favoriteType, req.targetId)(after[j])
  {
    var after := favorites + [NewFavorite(newId, userId, req, now)];
    assert IsFavorite(userId, req.favoriteType, req.targetId)(after[|favorites|]);
  }

  function FindFavorite(favorites: seq<Favorite>, userId: Id, favoriteId: Id): Option<nat> {
    FirstIndex(favorites, IsOwnFavorite(userId, favoriteId))
  }

  /** Removes the user's favorite; false, with no change, for a missing or foreign one. */
  method RemoveFavorite(db: Store, userId: Id, favoriteId: Id) returns (removed: bool)
    modifies db`favorites
    ensures removed <==> FindFavorite(old(db.favorites), userId, favoriteId).Some?
    ensures removed ==> db.favorites == RemoveAt(old(db.favorites), FindFavorite(old(db.favorites), userId, favoriteId).value)
    ensures !removed ==> db.favorites == old(db.favorites)
  {
    var found := FindFavorite(db.favorites, userId, favoriteId);
    if found.None? {
      return false;
    }
    db.favorites := RemoveAt(db.favorites, found.value);
    removed := true;
  }

  /** Removing takes out one of the user's own favorites, leaves every other user's
      favorites, and keeps the table unique. */
  lemma RemoveFavoriteEffect(favorites: seq<Favorite>, userId: Id, favoriteId: Id)
    requires FindFavorite(favorites, userId, favoriteId).Some?
    ensures var i := FindFavorite(favorites, userId, favoriteId).value;
      var after := RemoveAt(favorites, i);
      && favorites[i].id == favoriteId && favorites[i].userId == userId
      && Count(after, IsFavoriteOf(userId)) == Count(favorites, IsFavoriteOf(userId)) - 1
      && (forall v :: v != userId ==> Count(after, IsFavoriteOf(v)) == Count(favorites, IsFavoriteOf(v)))
      && (FavoritesUnique(favorites) ==> FavoritesUnique(after))
  {
    var i := FindFavorite(favorites, userId, favoriteId).value;
    var after := RemoveAt(favorites, i);
    CountRemoveAt(favorites, i, IsFavoriteOf(userId));
    forall v | v != userId
      ensures Count(after, IsFavoriteOf(v)) == Count(favorites, IsFavoriteOf(v))
    {
      CountRemoveAt(favorites, i, IsFavoriteOf(v));
    }
    if FavoritesUnique(favorites) {
      forall a, b | 0 <= a < |after| && 0 <= b < |after|
        && IsFavorite(after[a].userId, after[a].favoriteType, after[a].targetId)(after[b])
        ensures a == b
      {
        var a0 := if a < i then a else a + 1;
        var b0 := if b < i then b else b + 1;
        assert after[a] == favorites[a0] && after[b] == favorites[b0];
        assert IsFavorite(favorites[a0].userId, favorites[a0].favoriteType, favorites[a0].targetId)(favorites[b0]);
      }
    }
  }

  /** `Where(f => f.UserId == userId && (type is null || f.FavoriteType == type))` */
  function IsListedFavorite(userId: Id, favoriteType: Option<FavoriteType>): Favorite -> bool {
    (f: Favorite) => f.userId == userId && (favoriteType.None? || f.favoriteType == favoriteType.value)
  }

  function FavoriteCreatedAt(f: Favorite): int { f.createdAt }

  /** The user's favorites, of the given type when one is given, newest first. */
  function GetFavorites(favorites: seq<Favorite>, userId: Id, favoriteType: Option<FavoriteType>): (r: seq<Favorite>)
    ensures multiset(r) == multiset(Filter(favorites, IsListedFavorite(userId, favoriteType)))
    ensures forall f :: f in r ==> f in favorites && f.userId == userId
                                   && (favoriteType.None? || f.favoriteType == favoriteType.value)
    ensures SortedDesc(r, FavoriteCreatedAt)
  {
    var listed := Filter(favorites, IsListedFavorite(userId, favoriteType));
    var r := SortDesc(listed, FavoriteCreatedAt);
    SameMembers(r, listed);
    r
  }

  // ---------------------------------------------------------------------------
  // Search history

  const SearchHistoryLimit := 50

  function IsSearchOf(userId: Id): SearchHistory -> bool {
    (h: SearchHistory) => h.userId == userId
  }

  function IsOtherSearch(userId: Id): SearchHistory -> bool {
    (h: SearchHistory) => h.userId != userId
  }

  function SearchCreatedAt(h: SearchHistory): int { h.createdAt }

  /** The user's 50 newest searches, newest first. */
  function GetSearchHistory(histories: seq<SearchHistory>, userId: Id): (r: seq<SearchHistory>)
    ensures |r| == Min(SearchHistoryLimit, Count(histories, IsSearchOf(userId)))
    ensures multiset(r) <= multiset(Filter(histories, IsSearchOf(userId)))
    ensures forall h :: h in r ==> h in histories && h.userId == userId
    ensures SortedDesc(r, SearchCreatedAt)
    ensures forall h, k :: h in histories && h.userId == userId && h !in r && k in r ==> k.createdAt >= h.createdAt
  {
    var mine := Filter(histories, IsSearchOf(userId));
    var r := TopByKey(mine, SearchCreatedAt, SearchHistoryLimit);
    HistoryMembers(histories, userId, r);
    r
  }

  lemma HistoryMembers(histories: seq<SearchHistory>, userId: Id, r: seq<SearchHistory>)
    requires r == TopByKey(Filter(histories, IsSearchOf(userId)), SearchCreatedAt, SearchHistoryLimit)
    ensures forall h :: h in r ==> h in histories && h.userId == userId
    ensures forall h, k :: h in histories && h.userId == userId && h !in r && k in r ==> k.createdAt >= h.createdAt
  {
    var mine := Filter(histories, IsSearchOf(userId));
    SubMembers(r, mine);
    forall h, k | h in histories && h.userId == userId && h !in r && k in r
      ensures k.createdAt >= h.createdAt
    {
      FilterKeeps(histories, IsSearchOf(userId), h);
      assert SearchCreatedAt(k) >= SearchCreatedAt(h);
    }
  }

  /** Deletes every search of the user. */
  method ClearSearchHistory(db: Store, userId: Id)
    modifies db`searchHistories
    ensures db.searchHistories == Filter(old(db.searchHistories), IsOtherSearch(userId))
  {
    db.searchHistories := Filter(db.searchHistories, IsOtherSearch(userId));
  }

  /** Clearing leaves none of the user's searches and every other user's, in order
      and counted alike. */
  lemma ClearRemovesExactly(histories: seq<SearchHistory>, userId: Id, v: Id)
    requires v != userId
    ensures var after := Filter(histories, IsOtherSearch(userId));
      && Count(after, IsSearchOf(userId)) == 0
      && Count(after, IsSearchOf(v)) == Count(histories, IsSearchOf(v))
      && Filter(after, IsSearchOf(v)) == Filter(histories, IsSearchOf(v))
  {
    var after := Filter(histories, IsOtherSearch(userId));
    assert forall j :: 0 <= j < |after| ==> after[j] in after;
    CountZero(after, IsSearchOf(userId));
    FilterFilter(histories, IsOtherSearch(userId), IsSearchOf(v));
  }
}
