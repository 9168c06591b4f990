/** The in-memory review store and the service over it: listing, pages, deletion. */
module ReviewStore {
  import opened Ordering

  datatype ReviewRating = ReviewRating(stars: int, average: real, count: int)
  /** A stored review; the store never holds a rating. */
  datatype Review = Review(id: string, productId: string, reviewer: string, text: string, createdAt: int)
  datatype RatingData = RatingData(average: real, count: int, individualRatings: map<string, int>)

  datatype StoreError = NotFound

  /** Newest first; equal times by identifier. */
  predicate Before(a: Review, b: Review) {
    if a.createdAt != b.createdAt then a.createdAt > b.createdAt else LexLess(a.id, b.id)
  }

  /** The product's reviews in stored order. */
  function ForProduct(reviews: seq<Review>, productId: string): seq<Review> {
    if reviews == [] then []
    else
      var n := |reviews| - 1;
      ForProduct(reviews[..n], productId) + if reviews[n].productId == productId then [reviews[n]] else []
  }

  function Listing(reviews: seq<Review>, productId: string): seq<Review> {
    Sort(Before, ForProduct(reviews, productId))
  }

  function Stored(reviews: seq<Review>): set<Review> {
    set r | r in reviews
  }

  ghost predicate UniqueIds(reviews: seq<Review>) {
    forall i, j :: 0 <= i < j < |reviews| ==> reviews[i].id != reviews[j].id
  }

  lemma BeforeIsOrder()
    ensures WeakOrder(Before)
  {
    LexOrder();
  }

  lemma UniqueIdsSeparate(reviews: seq<Review>)
    requires UniqueIds(reviews)
    ensures Separates(Before, reviews) && NoDup(reviews)
  {
    LexOrder();
  }

  lemma {:induction false} ForProductMembers(reviews: seq<Review>, productId: string)
    ensures forall r :: r in ForProduct(reviews, productId) <==> r in reviews && r.productId == productId
    ensures UniqueIds(reviews) ==> UniqueIds(ForProduct(reviews, productId))
  {
    if reviews != [] {
      var n := |reviews| - 1;
      ForProductMembers(reviews[..n], productId);
      assert reviews == reviews[..n] + [reviews[n]];
      assert UniqueIds(reviews) ==> forall r :: r in ForProduct(reviews[..n], productId) ==> r.id != reviews[n].id;
    }
  }

  lemma {:induction false} ForProductCount(reviews: seq<Review>, productId: string, r: Review)
    ensures multiset(ForProduct(reviews, productId))[r] == if r.productId == productId then multiset(reviews)[r] else 0
  {
    if reviews != [] {
      var n := |reviews| - 1;
      ForProductCount(reviews[..n], productId, r);
      assert reviews == reviews[..n] + [reviews[n]];
    }
  }

  /** `ORDER BY created_at DESC, id`: by creation time, newest first, and at equal times by identifier. */
  ghost predicate NewestFirst(reviews: seq<Review>) {
    forall i, j :: 0 <= i < j < |reviews| ==>
      && reviews[i].createdAt >= reviews[j].createdAt
      && (reviews[i].createdAt == reviews[j].createdAt ==>
            reviews[i].id == reviews[j].id || ComesBefore(reviews[i].id, reviews[j].id))
  }

  lemma BeforeIff(a: Review, b: Review)
    ensures !Before(b, a) <==>
              && a.createdAt >= b.createdAt
              && (a.createdAt == b.createdAt ==> a.id == b.id || ComesBefore(a.id, b.id))
  {
    LexOrder();
    hide LexLess, ComesBefore;
    LexLessIff(a.id, b.id);
    if LexLess(a.id, b.id) {
      LexAsymmetric(a.id, b.id);
    }
    assert !LexLess(a.id, a.id);
  }

  lemma SortedIffNewestFirst(reviews: seq<Review>)
    ensures SortedBy(Before, reviews) <==> NewestFirst(reviews)
  {
    forall i, j | 0 <= i < j < |reviews|
      ensures !Before(reviews[j], reviews[i]) <==>
                && reviews[i].createdAt >= reviews[j].createdAt
                && (reviews[i].createdAt == reviews[j].createdAt ==>
                      reviews[i].id == reviews[j].id || ComesBefore(reviews[i].id, reviews[j].id))
    {
      BeforeIff(reviews[i], reviews[j]);
    }
    hide Before, ComesBefore;
  }

  /** The listing is newest first, and is the product's reviews and nothing else, each as often as stored. */
  lemma ListingSorted(reviews: seq<Review>, productId: string)
    ensures SortedBy(Before, Listing(reviews, productId)) && NewestFirst(Listing(reviews, productId))
    ensures multiset(Listing(reviews, productId)) == multiset(ForProduct(reviews, productId))
    ensures forall r :: multiset(Listing(reviews, productId))[r]
                        == if r.productId == productId then multiset(reviews)[r] else 0
  {
    BeforeIsOrder();
    SortSorted(Before, ForProduct(reviews, productId));
    SortedIffNewestFirst(Listing(reviews, productId));
    forall r { ForProductCount(reviews, productId, r); }
  }

  /** Any list of the product's reviews ordered by creation time descending, then identifier, is the
      listing: the in-memory order is the order the SQL query asks for. */
  lemma ListingIsOrderBy(reviews: seq<Review>, productId: string, ordered: seq<Review>)
    requires UniqueIds(reviews) && multiset(ordered) == multiset(ForProduct(reviews, productId))
             && NewestFirst(ordered)
    ensures ordered == Listing(reviews, productId)
  {
    SortedIffNewestFirst(ordered);
    var filtered := ForProduct(reviews, productId);
    ForProductMembers(reviews, productId);
    UniqueIdsSeparate(filtered);
    BeforeIsOrder();
    SortSorted(Before, filtered);
    MembersByMultiset(filtered, Listing(reviews, productId));
    SortedIsUnique(Before, Listing(reviews, productId), ordered);
  }

  /** The listing is a function of the set of stored reviews: insertion order does not matter. */
  lemma ListingDependsOnSet(a: seq<Review>, b: seq<Review>, productId: string)
    requires UniqueIds(a) && UniqueIds(b) && Stored(a) == Stored(b)
    ensures Listing(a, productId) == Listing(b, productId)
  {
    forall r
      ensures r in a <==> r in b
    {
      assert r in a <==> r in Stored(a);
      assert r in b <==> r in Stored(b);
    }
    ForProductMembers(a, productId);
    ForProductMembers(b, productId);
    var fa, fb := ForProduct(a, productId), ForProduct(b, productId);
    UniqueIdsSeparate(fa);
    UniqueIdsSeparate(fb);
    SameMembersSameMultiset(fa, fb);
    BeforeIsOrder();
    SortIsUnique(Before, fa, fb);
  }

  // ---------------------------------------------------------------- deletion

  /** The index of the first review with the identifier, or the length if there is none. */
  function IndexOf(reviews: seq<Review>, id: string): (i: nat)
    ensures i <= |reviews| && (i < |reviews| ==> reviews[i].id == id) && forall j :: 0 <= j < i ==> reviews[j].id != id
  {
    if reviews == [] || reviews[0].id == id then 0 else 1 + IndexOf(reviews[1..], id)
  }

  function Without(reviews: seq<Review>, id: string): seq<Review> {
    var i := IndexOf(reviews, id);
    if i == |reviews| then reviews else reviews[..i] + reviews[i + 1..]
  }

  /** Only the first review with the identifier is gone, and without one nothing is. */
  lemma WithoutSays(reviews: seq<Review>, id: string)
    ensures (forall r :: r in reviews ==> r.id != id) ==> Without(reviews, id) == reviews
    ensures forall i | 0 <= i < |reviews| && reviews[i].id == id && (forall j :: 0 <= j < i ==> reviews[j].id != id) ::
              Without(reviews, id) == reviews[..i] + reviews[i + 1..]
  {
    var k := IndexOf(reviews, id);
    assert k < |reviews| ==> reviews[k] in reviews;
  }

  lemma {:induction false} ForProductConcat(a: seq<Review>, b: seq<Review>, productId: string)
    ensures ForProduct(a + b, productId) == ForProduct(a, productId) + ForProduct(b, productId)
  {
    if b == [] {
      assert a + b == a;
    } else {
      var n := |b| - 1;
      assert (a + b)[..|a| + n] == a + b[..n];
      ForProductConcat(a, b[..n], productId);
    }
  }

  lemma WithoutSorted(less: (Review, Review) -> bool, reviews: seq<Review>, id: string)
    requires SortedBy(less, reviews)
    ensures SortedBy(less, Without(reviews, id))
  {
  }

  lemma WithoutMultiset(reviews: seq<Review>, id: string)
    ensures var i := IndexOf(reviews, id);
            multiset(Without(reviews, id)) == if i < |reviews| then multiset(reviews) - multiset{reviews[i]}
                else multiset(reviews)
  {
    hide *;
    var i := IndexOf(reviews, id);
    WithoutIs(reviews, id);
    if i < |reviews| {
      CutMultiset(reviews, i);
      SameRest(multiset(reviews) - multiset{reviews[i]}, multiset(reviews[..i] + reviews[i + 1..]), reviews[i]);
    }
  }

  lemma WithoutIs(reviews: seq<Review>, id: string)
    ensures var i := IndexOf(reviews, id);
            Without(reviews, id) == if i == |reviews| then reviews else reviews[..i] + reviews[i + 1..]
  {
  }

  lemma WithoutUnique(reviews: seq<Review>, id: string)
    requires UniqueIds(reviews)
    ensures UniqueIds(Without(reviews, id))
  {
  }

  lemma UniqueIndex(reviews: seq<Review>, r: Review)
    requires UniqueIds(reviews) && r in reviews
    ensures IndexOf(reviews, r.id) < |reviews| && reviews[IndexOf(reviews, r.id)] == r
  {
  }

  /** Deleting shifts the store in place; every product's listing loses exactly that review. */
  lemma DeleteRemovesFromListing(reviews: seq<Review>, id: string, productId: string)
    requires UniqueIds(reviews)
    ensures UniqueIds(Without(reviews, id))
    ensures Listing(Without(reviews, id), productId) == Without(Listing(reviews, productId), id)
  {
    var listing, filtered := Listing(reviews, productId), ForProduct(reviews, productId);
    ForProductMembers(reviews, productId);
    ListingSorted(reviews, productId);
    WithoutSorted(Before, listing, id);
    SortedIffNewestFirst(Without(listing, id));
    FilteredWithout(reviews, id, productId);
    WithoutMultiset(filtered, id);
    WithoutMultiset(listing, id);
    MembersByMultiset(filtered, listing);
    SameVictim(filtered, listing, id);
    WithoutUnique(reviews, id);
    ListingIsOrderBy(Without(reviews, id), productId, Without(listing, id));
  }

  /** Two arrangements of the same reviews hold the same review under an identifier. */
  lemma SameVictim(a: seq<Review>, b: seq<Review>, id: string)
    requires UniqueIds(a) && forall r :: r in a <==> r in b
    ensures IndexOf(a, id) < |a| <==> IndexOf(b, id) < |b|
    ensures IndexOf(a, id) < |a| ==> a[IndexOf(a, id)] == b[IndexOf(b, id)]
  {
    if IndexOf(a, id) < |a| {
      var r := a[IndexOf(a, id)];
      assert r in b;
      var j :| 0 <= j < |b| && b[j] == r;
    }
    if IndexOf(b, id) < |b| {
      var r := b[IndexOf(b, id)];
      assert r in a;
      var j :| 0 <= j < |a| && a[j] == r;
      UniqueIndex(a, r);
    }
  }

  lemma FilteredWithout(reviews: seq<Review>, id: string, productId: string)
    requires UniqueIds(reviews)
    ensures multiset(ForProduct(Without(reviews, id), productId))
            == multiset(Without(ForProduct(reviews, productId), id))
  {
    hide *;
    var filtered := ForProduct(reviews, productId);
    WithoutMultiset(filtered, id);
    NotFiltered(reviews, id, productId);
    FilteredLoses(reviews, id, productId);
    if IndexOf(reviews, id) < |reviews| {
      FilteredVictim(reviews, id, productId);
    }
  }

  lemma FilteredLoses(reviews: seq<Review>, id: string, productId: string)
    ensures var i := IndexOf(reviews, id);
            multiset(ForProduct(Without(reviews, id), productId))
            == if i < |reviews| && reviews[i].productId == productId
               then multiset(ForProduct(reviews, productId)) - multiset{reviews[i]}
               else multiset(ForProduct(reviews, productId))
  {
    var i := IndexOf(reviews, id);
    hide ForProduct, IndexOf;
    if i < |reviews| {
      FilteredAround(reviews, i, productId);
    }
  }

  lemma FilteredVictim(reviews: seq<Review>, id: string, productId: string)
    requires UniqueIds(reviews) && IndexOf(reviews, id) < |reviews|
    ensures var r, filtered := reviews[IndexOf(reviews, id)], ForProduct(reviews, productId);
            r.productId == productId ==> IndexOf(filtered, id) < |filtered| && filtered[IndexOf(filtered, id)] == r
  {
    var r, filtered := reviews[IndexOf(reviews, id)], ForProduct(reviews, productId);
    ForProductMembers(reviews, productId);
    if r.productId == productId {
      assert r in reviews;
      UniqueIndex(filtered, r);
    }
  }

  lemma FilteredAround(reviews: seq<Review>, i: nat, productId: string)
    requires i < |reviews|
    ensures multiset(ForProduct(reviews, productId))
            == multiset(ForProduct(reviews[..i] + reviews[i + 1..], productId)) + if reviews[i].productId == productId
                then multiset{reviews[i]} else multiset{}
  {
    var a, r, b := reviews[..i], reviews[i], reviews[i + 1..];
    assert reviews == (a + [r]) + b;
    ForProductConcat(a + [r], b, productId);
    ForProductConcat(a, [r], productId);
    ForProductConcat(a, b, productId);
    assert [r][..0] == [];
  }

  lemma NotFiltered(reviews: seq<Review>, id: string, productId: string)
    requires UniqueIds(reviews)
    ensures var i, filtered := IndexOf(reviews, id), ForProduct(reviews, productId);
            i == |reviews| || reviews[i].productId != productId ==> IndexOf(filtered, id) == |filtered|
  {
    var i, filtered := IndexOf(reviews, id), ForProduct(reviews, productId);
    ForProductMembers(reviews, productId);
    var k := IndexOf(filtered, id);
    if k < |filtered| {
      assert filtered[k] in filtered;
      var j :| 0 <= j < |reviews| && reviews[j] == filtered[k];
    }
  }

  /** Saving a review and deleting it again restores every listing. */
  lemma DeleteUndoesSave(reviews: seq<Review>, r: Review, productId: string)
    requires UniqueIds(reviews + [r])
    ensures Listing(Without(reviews + [r], r.id), productId) == Listing(reviews, productId)
  {
    var saved := reviews + [r];
    assert saved[|reviews|] == r;
    assert IndexOf(saved, r.id) == |reviews| by {
      assert forall j :: 0 <= j < |reviews| ==> saved[j].id != r.id;
    }
    assert Without(saved, r.id) == reviews;
  }
}
