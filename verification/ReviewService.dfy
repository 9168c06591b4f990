/** The reviews repository and service: the objects that hold and page the reviews. */
module ReviewService {
  import opened Wrappers
  import opened Ordering
  import opened ReviewStore
  import opened Arithmetic
  import opened Pagination
  import opened Idempotency

  /** A review as the service returns it. */
  datatype RatedReview = RatedReview(review: Review, rating: Option<ReviewRating>)

  datatype ReviewEvent =
    | ReviewSubmitted(id: string, productId: string, reviewer: string, text: string, idempotencyKey: string)
    | ReviewDeleted(reviewId: string, idempotencyKey: string)

  datatype ReviewError = InvalidReview | AlreadyProcessed | PublishFailed

  function Rate(r: Review, data: RatingData): RatedReview {
    RatedReview(r, Some(ReviewRating(if r.reviewer in data.individualRatings then data.individualRatings[r.reviewer]
        else 0,
                                     data.average, data.count)))
  }

  /** A failed ratings lookup leaves the reviews without ratings. */
  function Enriched(page: seq<Review>, data: Option<RatingData>): seq<RatedReview> {
    seq(|page|, i requires 0 <= i < |page| => if data.Some? then Rate(page[i], data.value)
        else RatedReview(page[i], None))
  }

  /** A growing slice: the stored reviews are the first `count` elements of the backing array. */
  class ReviewRepository {
    var buffer: array<Review>
    var count: nat

    ghost predicate Valid()
      reads this
    {
      count <= buffer.Length
    }

    ghost function Reviews(): seq<Review>
      requires Valid()
      reads this, buffer
    {
      buffer[..count]
    }

    constructor ()
      ensures Valid() && Reviews() == [] && fresh(buffer)
    {
      buffer, count := new Review[0], 0;
    }

    /** The product's reviews, collected in stored order. */
    method Filter(productId: string) returns (filtered: seq<Review>)
      requires Valid()
      ensures filtered == ForProduct(Reviews(), productId)
    {
      filtered := [];
      for i := 0 to count
        invariant filtered == ForProduct(Reviews()[..i], productId)
      {
        assert Reviews()[..i + 1][..i] == Reviews()[..i];
        if buffer[i].productId == productId {
          filtered := filtered + [buffer[i]];
        }
      }
      assert Reviews()[..count] == Reviews();
    }

    /** None is the run-time panic of slicing at a negative offset. */
    method FindByProductID(productId: string, offset: int, limit: int) returns (page: Option<seq<Review>>, total: nat)
      requires Valid() && 0 <= limit
      ensures total == |Listing(Reviews(), productId)|
      ensures page.None? <==> offset < 0
      ensures page.Some? ==> page.value == Slice(Listing(Reviews(), productId), offset, limit)
      ensures NewestFirst(Listing(Reviews(), productId))
    {
      hide ForProduct, Sort;
      var filtered := Filter(productId);
      var sorted := SortStable(filtered);
      ListingSorted(Reviews(), productId);
      total := |sorted|;
      if offset >= total {
        return Some([]), total;
      }
      var end := offset + limit;
      if end > total {
        end := total;
      }
      if offset < 0 {
        return None, total;
      }
      return Some(sorted[offset..end]), total;
    }

    /** Appends in place, or into a larger array when the backing array is full. */
    method Save(review: Review)
      requires Valid()
      modifies this, buffer
      ensures Valid() && (buffer == old(buffer) || fresh(buffer))
      ensures Reviews() == old(Reviews()) + [review]
    {
      if count == buffer.Length {
        var stored := buffer[..count];
        buffer := new Review[2 * count + 1](i => if 0 <= i < |stored| then stored[i] else review);
        assert buffer[..count] == stored;
      }
      buffer[count] := review;
      count := count + 1;
    }

    method DeleteByID(id: string) returns (r: Outcome<StoreError>)
      requires Valid()
      modifies this, buffer
      ensures Valid() && buffer == old(buffer)
      ensures Reviews() == Without(old(Reviews()), id)
      ensures r == Done <==> exists i :: 0 <= i < |old(Reviews())| && old(Reviews())[i].id == id
    {
      hide IndexOf;
      for i := 0 to count
        invariant count == old(count) && buffer == old(buffer) && buffer[..] == old(buffer[..])
        invariant forall j | 0 <= j < i :: Reviews()[j].id != id
      {
        if buffer[i].id == id {
          FirstIndex(Reviews(), id, i);
          ShiftDown(i);
          return Done;
        }
      }
      return Failed(NotFound);
    }

    /** Moves every later review one place down: `append(reviews[:i], reviews[i+1:]...)`. */
    method ShiftDown(i: nat)
      requires Valid() && i < count
      modifies this`count, buffer
      ensures Valid() && Reviews() == old(Reviews())[..i] + old(Reviews())[i + 1..]
    {
      hide Shifting;
      ghost var was := buffer[..count];
      ShiftStarts(was, i);
      for j := i + 1 to count
        invariant count == |was| && buffer[..count] == Shifting(was, i, j)
      {
        ShiftExtends(was, i, j);
        MoveDown(j);
      }
      ShiftEnds(was, i);
      count := count - 1;
    }

    method MoveDown(j: nat)
      requires Valid() && 0 < j < count
      modifies buffer
      ensures buffer[..count] == old(buffer[..count])[j - 1 := old(buffer[..count])[j]]
    {
      buffer[j - 1] := buffer[j];
    }
  }

  /** `was` once the reviews after position `i` up to `j` have moved one place down. */
  function Shifting<T>(was: seq<T>, i: nat, j: nat): seq<T>
    requires i < j <= |was|
  {
    was[..i] + was[i + 1..j] + was[j - 1..]
  }

  lemma ShiftStarts<T>(was: seq<T>, i: nat)
    requires i < |was|
    ensures Shifting(was, i, i + 1) == was
  {
  }

  /** One more review moves down. */
  lemma ShiftExtends<T>(was: seq<T>, i: nat, j: nat)
    requires i < j < |was|
    ensures |Shifting(was, i, j)| == |was| && Shifting(was, i, j)[j] == was[j]
    ensures Shifting(was, i, j + 1) == Shifting(was, i, j)[j - 1 := was[j]]
  {
  }

  lemma ShiftEnds<T>(was: seq<T>, i: nat)
    requires i < |was|
    ensures |Shifting(was, i, |was|)| == |was|
    ensures Shifting(was, i, |was|)[..|was| - 1] == was[..i] + was[i + 1..]
  {
  }

  lemma FirstIndex(reviews: seq<Review>, id: string, i: nat)
    requires i < |reviews| && reviews[i].id == id && forall j :: 0 <= j < i ==> reviews[j].id != id
    ensures IndexOf(reviews, id) == i
  {
  }

  /** `sort.SliceStable` by `Before`. */
  method SortStable(s: seq<Review>) returns (r: seq<Review>)
    ensures r == Sort(Before, s)
  {
    r := [];
    for i := 0 to |s|
      invariant r == Sort(Before, s[..i])
    {
      assert s[..i + 1][..i] == s[..i];
      r := Insert(Before, s[i], r);
    }
    assert s[..|s|] == s;
  }

  /** The review with the stars its reviewer gave, zero if none, and the product's figures. */
  ghost predicate IsRated(entry: RatedReview, r: Review, ratings: Option<RatingData>) {
    && entry.review == r
    && match ratings
       case None => entry.rating == None
       case Some(data) =>
         && entry.rating.Some? && entry.rating.value.average == data.average && entry.rating.value.count == data.count
         && (r.reviewer in data.individualRatings ==> entry.rating.value.stars == data.individualRatings[r.reviewer])
         && (r.reviewer !in data.individualRatings ==> entry.rating.value.stars == 0)
  }

  /** The `limit` entries of the listing from `first` on, or as many as there are. */
  ghost predicate IsPage(entries: seq<RatedReview>, listing: seq<Review>, first: int, limit: int,
                         ratings: Option<RatingData>)
  {
    && |entries| == (if first + limit > |listing| then |listing| - first else limit)
    && forall i | 0 <= i < |entries| && 0 <= first + i < |listing| :: IsRated(entries[i], listing[first + i], ratings)
  }

  lemma EnrichedIsPage(listing: seq<Review>, page: int, pageSize: int, first: nat, ratings: Option<RatingData>)
    requires 1 <= page && 1 <= pageSize && first == (page - 1) * pageSize && first < |listing| <= MAX_INT64
    ensures ServePage(listing, page, pageSize).Entries?
    ensures IsPage(Enriched(ServePage(listing, page, pageSize).entries, ratings), listing, first, pageSize, ratings)
  {
    hide IsPage, ServePage, TotalPages, Slice;
    TotalPagesBound(|listing|, pageSize, page);
    ExistingPagesServed(listing, page, pageSize);
    SliceIsPage(listing, first, pageSize, ratings);
  }

  lemma SliceIsPage(listing: seq<Review>, first: nat, limit: nat, ratings: Option<RatingData>)
    requires first < |listing|
    ensures IsPage(Enriched(Slice(listing, first, limit), ratings), listing, first, limit, ratings)
  {
  }

  /** The broker client. */
  class ReviewPublisher {
    ghost var events: seq<ReviewEvent>

    constructor ()
      ensures events == []
    {
      events := [];
    }

    method Publish(e: ReviewEvent) returns (accepted: bool)
      modifies this
      ensures events == old(events) + if accepted then [e] else []
    {
      accepted := *;
      if accepted {
        events := events + [e];
      }
    }
  }

  class ReviewService {
    const repo: ReviewRepository
    const idempotency: MemoryStore
    const publisher: ReviewPublisher
    const hash: string -> string

    ghost predicate Valid()
      reads repo
    {
      repo.Valid()
    }

    constructor (repo: ReviewRepository, idempotency: MemoryStore, publisher: ReviewPublisher, hash: string -> string)
      requires repo.Valid()
      ensures Valid() && this.repo == repo && this.idempotency == idempotency && this.publisher == publisher
              && this.hash == hash
    {
      this.repo, this.idempotency, this.publisher, this.hash := repo, idempotency, publisher, hash;
    }

    /** `ratings` is what the ratings client returned, if it returned; None of the result is the
        run-time panic of an overflowed page number. */
    method GetProductReviews(productId: string, page: int, pageSize: int, ratings: Option<RatingData>)
      returns (r: Option<(seq<RatedReview>, nat)>)
      requires Valid() && 1 <= page <= MAX_INT64 && 1 <= pageSize <= MAX_PAGE_SIZE
      ensures var listing := Listing(repo.Reviews(), productId);
              match ServePage(listing, page, pageSize)
              case SliceBoundsPanic => r == None
              case Entries(entries) => r == Some((Enriched(entries, ratings), |listing|))
      ensures var listing, first := Listing(repo.Reviews(), productId), (page - 1) * pageSize;
              first < |listing| <= MAX_INT64 ==>
                r.Some? && r.value.1 == |listing| && IsPage(r.value.0, listing, first, pageSize, ratings)
      ensures NewestFirst(Listing(repo.Reviews(), productId))
    {
      var offset := WrapInt64((page - 1) * pageSize);
      hide WrapInt64, Slice, Listing, IsPage, NewestFirst, Enriched;
      ghost var first: nat := (page - 1) * pageSize;
      if first < |Listing(repo.Reviews(), productId)| <= MAX_INT64 {
        EnrichedIsPage(Listing(repo.Reviews(), productId), page, pageSize, first, ratings);
      }
      var slice, total := repo.FindByProductID(productId, offset, pageSize);
      if slice.None? {
        return None;
      }
      var rated := WithRatings(slice.value, ratings);
      return Some((rated, total));
    }

    /** Fills in the ratings, unless the lookup failed. */
    method WithRatings(found: seq<Review>, ratings: Option<RatingData>) returns (rated: seq<RatedReview>)
      ensures rated == Enriched(found, ratings)
    {
      rated := seq(|found|, i requires 0 <= i < |found| => RatedReview(found[i], None));
      if ratings.None? {
        assert rated == Enriched(found, ratings);
        return;
      }
      for i := 0 to |rated|
        invariant |rated| == |found|
        invariant forall j :: 0 <= j < |found| ==> rated[j] == if j < i then Rate(found[j], ratings.value)
                  else RatedReview(found[j], None)
      {
        rated := rated[i := Rate(rated[i].review, ratings.value)];
      }
      assert rated == Enriched(found, ratings);
    }

    /** Same shape as a rating submission: a duplicate saves nothing and still publishes. */
    method SubmitReview(productId: string, reviewer: string, text: string, idempotencyKey: string, id: string, now: int)
      returns (r: Result<Review, ReviewError>)
      requires Valid()
      modifies repo, repo.buffer, idempotency, publisher
      ensures Valid() && (repo.buffer == old(repo.buffer) || fresh(repo.buffer))
      ensures var key := if idempotencyKey != "" then idempotencyKey
                         else hash(productId + [SEPARATOR] + reviewer + [SEPARATOR] + text + [SEPARATOR]);
              var review := Review(id, productId, reviewer, text, now);
              if productId == "" || reviewer == "" || text == "" then
                r == Err(InvalidReview) && repo.Reviews() == old(repo.Reviews())
                    && idempotency.keys == old(idempotency.keys)
                && publisher.events == old(publisher.events)
              else
                && idempotency.keys == old(idempotency.keys) + {key}
                && repo.Reviews() == old(repo.Reviews()) + (if key in old(idempotency.keys) then [] else [review])
                && publisher.events == old(publisher.events)
                   + (if r == Err(PublishFailed) then [] else [ReviewSubmitted(id, productId, reviewer, text, key)])
                && (r == Err(PublishFailed) || r == if key in old(idempotency.keys) then Err(AlreadyProcessed)
                    else Ok(review))
    {
      EncodeTriple(productId, reviewer, text);
      var key := Resolve(hash, idempotencyKey, [productId, reviewer, text]);
      if productId == "" || reviewer == "" || text == "" {
        return Err(InvalidReview);
      }
      var review := Review(id, productId, reviewer, text, now);
      var alreadyProcessed := idempotency.CheckAndRecord(key);
      if !alreadyProcessed {
        repo.Save(review);
      }
      assert old(repo.Reviews()) + [] == old(repo.Reviews()) && old(publisher.events) + [] == old(publisher.events);
      var accepted := publisher.Publish(ReviewSubmitted(id, productId, reviewer, text, key));
      if !accepted {
        return Err(PublishFailed);
      }
      if alreadyProcessed {
        return Err(AlreadyProcessed);
      }
      return Ok(review);
    }

    /** Idempotent: a missing review is no error, and the deletion is published either way. */
    method DeleteReview(id: string) returns (r: Outcome<ReviewError>)
      requires Valid()
      modifies repo, repo.buffer, publisher
      ensures Valid()
      ensures repo.Reviews() == Without(old(repo.Reviews()), id)
      ensures publisher.events == old(publisher.events) + if r == Done then [ReviewDeleted(id, "review-deleted-" + id)]
              else []
      ensures r == Done || r == Failed(PublishFailed)
    {
      var deleted := repo.DeleteByID(id);
      var accepted := publisher.Publish(ReviewDeleted(id, "review-deleted-" + id));
      if !accepted {
        return Failed(PublishFailed);
      }
      return Done;
    }
  }
}
