/** The product page's review tab: the four review orders, the reviewer's
    display name and initials, and the add-review form's submit gate. */
module ReviewTabs {
  import opened Wrappers
  import StableSort
  import Text

  datatype Review = Review(
    id: Option<string>,
    userId: Option<string>,
    rating: Option<int>,
    comment: Option<string>,
    createdAt: Option<int>,
    userFullName: Option<string>,
    userImageUrl: Option<string>)

  /** `new Date(created_at ?? 0).getTime()`, with the timestamp already parsed. */
  function TimeOf(r: Review): int {
    r.createdAt.GetOr(0)
  }

  /** `rating ?? 0`. */
  function RatingOf(r: Review): int {
    r.rating.GetOr(0)
  }

  /** Each comparator is `(a, b) => Rank(a) - Rank(b)`. */
  function ReviewRank(sortBy: string, r: Review): real {
    if sortBy == "oldest" then TimeOf(r) as real
    else if sortBy == "rating_high" then -(RatingOf(r) as real)
    else if sortBy == "rating_low" then RatingOf(r) as real
    else -(TimeOf(r) as real)
  }

  function RankBy(sortBy: string): Review -> real {
    r => ReviewRank(sortBy, r)
  }

  /** `sortedReviews`: a sorted copy of the `reviews` prop. */
  method SortedReviews(reviews: seq<Review>, sortBy: string) returns (sorted: seq<Review>)
    ensures sorted == StableSort.Sort(reviews, RankBy(sortBy))
  {
    sorted := StableSort.SortedCopy(reviews, RankBy(sortBy));
  }

  /** Every order is a permutation of the reviews ordered by its key. */
  lemma SortedReviewsOrder(reviews: seq<Review>, sortBy: string)
    ensures var s := StableSort.Sort(reviews, RankBy(sortBy));
            multiset(s) == multiset(reviews) &&
            (sortBy == "oldest" ==>
               forall i, j :: 0 <= i < j < |s| ==> TimeOf(s[i]) <= TimeOf(s[j])) &&
            (sortBy == "rating_high" ==>
               forall i, j :: 0 <= i < j < |s| ==> RatingOf(s[i]) >= RatingOf(s[j])) &&
            (sortBy == "rating_low" ==>
               forall i, j :: 0 <= i < j < |s| ==> RatingOf(s[i]) <= RatingOf(s[j])) &&
            (sortBy != "oldest" && sortBy != "rating_high" && sortBy != "rating_low" ==>
               forall i, j :: 0 <= i < j < |s| ==> TimeOf(s[i]) >= TimeOf(s[j]))
  {
    var s := StableSort.Sort(reviews, RankBy(sortBy));
    StableSort.SortPermutes(reviews, RankBy(sortBy));
    StableSort.SortIsSorted(reviews, RankBy(sortBy));
    assert forall i, j :: 0 <= i < j < |s| ==> ReviewRank(sortBy, s[i]) <= ReviewRank(sortBy, s[j]);
  }

  /** Reviews of equal key keep their original relative order. */
  lemma SortedReviewsStable(reviews: seq<Review>, sortBy: string, k: real)
    ensures StableSort.WithRank(StableSort.Sort(reviews, RankBy(sortBy)), RankBy(sortBy), k)
         == StableSort.WithRank(reviews, RankBy(sortBy), k)
  {
    StableSort.SortIsStable(reviews, RankBy(sortBy), k);
  }

  // --------------------------------------------------------------- naming

  const Anonymous: string := "مستخدم"

  /** `getDisplayName`: the anonymous label, followed by the first four
      characters of the user id when there is one. */
  function DisplayName(userId: Option<string>): (name: string)
    ensures !Truthy(userId) ==> name == Anonymous
    ensures Truthy(userId) ==>
              |name| == |Anonymous| + 1 + (if |userId.value| < 4 then |userId.value| else 4) &&
              Anonymous + " " <= name &&
              name[|Anonymous| + 1..] <= userId.value
  {
    if !Truthy(userId) then Anonymous
    else
      var tail := Text.Prefix(userId.value, 4);
      var name := Anonymous + " " + tail;
      assert name[..|Anonymous| + 1] == Anonymous + " ";
      assert name[|Anonymous| + 1..] == tail;
      name
  }

  /** `getInitials`: two characters of the trimmed name, or, when that is
      shorter than two, of the display name. */
  function Initials(name: Option<string>, userId: Option<string>): (r: string)
    ensures |r| <= 2
    ensures |Text.Trim(name.GetOr(""))| >= 2 ==> r == Text.Trim(name.GetOr(""))[..2]
    ensures |Text.Trim(name.GetOr(""))| < 2 ==> r == DisplayName(userId)[..2]
  {
    var base := Text.Trim(name.GetOr(""));
    if |base| >= 2 then Text.Prefix(base, 2)
    else Text.Prefix(DisplayName(userId), 2)
  }

  /** The display name always has at least two characters, so the initials
      are always exactly two characters. */
  lemma InitialsLength(name: Option<string>, userId: Option<string>)
    ensures |Initials(name, userId)| == 2
  {
    assert |Anonymous| == 6;
  }

  // ----------------------------------------------------------------- form

  datatype ReviewRequest = ReviewRequest(productId: string, rating: int, comment: string)

  /** The add-review form's state. */
  class ReviewForm {
    const productId: Option<string>
    var rating: int
    var hover: int
    var comment: string
    var submitting: bool

    constructor (productId: Option<string>)
      ensures this.productId == productId
      ensures rating == 0 && hover == 0 && comment == "" && !submitting
    {
      this.productId := productId;
      rating := 0;
      hover := 0;
      comment := "";
      submitting := false;
    }

    /** `canSubmit`. */
    predicate CanSubmit()
      reads this
    {
      rating > 0 && |Text.Trim(comment)| > 0 && !submitting
    }

    /** The start of `handleSubmit`: the request it sends, if any. */
    method BeginSubmit() returns (request: Option<ReviewRequest>)
      modifies this
      ensures request.Some? <==> old(CanSubmit()) && Truthy(productId)
      ensures request.Some? ==>
                request.value == ReviewRequest(productId.value, old(rating), Text.Trim(old(comment))) &&
                submitting
      ensures request.None? ==> submitting == old(submitting)
      ensures rating == old(rating) && hover == old(hover) && comment == old(comment)
    {
      var trimmed := Text.Trim(comment);
      if !(rating > 0 && |trimmed| > 0 && !submitting) || !Truthy(productId) {
        return None;
      }
      submitting := true;
      request := Some(ReviewRequest(productId.value, rating, trimmed));
    }

    /** The end of `handleSubmit`, given whether the response was OK. */
    method FinishSubmit(ok: bool)
      modifies this
      ensures !submitting
      ensures ok ==> rating == 0 && hover == 0 && comment == "" && !CanSubmit()
      ensures !ok ==> rating == old(rating) && hover == old(hover) && comment == old(comment)
    {
      if ok {
        rating := 0;
        hover := 0;
        comment := "";
      }
      submitting := false;
    }
  }
}
