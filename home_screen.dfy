/**
 * The home feed: a list of posts with like and bookmark toggles, a refresh that
 * restores the mock feed, and "load more", which appends re-identified copies
 * of the mock posts. The timer delays are modelled as a begin step and a
 * completion step.
 */
module HomeScreen {
  import opened Text
  import opened Types

  /** One post after `handleLike`: the flag flips and the counter follows it. */
  function Liked(p: Post): (r: Post)
    ensures r.isLiked == !p.isLiked
    ensures r.likes == if p.isLiked then p.likes - 1 else p.likes + 1
    ensures r == p.(isLiked := r.isLiked, likes := r.likes)
  {
    p.(isLiked := !p.isLiked, likes := if p.isLiked then p.likes - 1 else p.likes + 1)
  }

  /** The like counter without the viewer's own like; a like toggle never changes it. */
  function LikeBalance(p: Post): int {
    p.likes - (if p.isLiked then 1 else 0)
  }

  /** `handleLike(postId)` over the whole list. */
  function LikePosts(posts: seq<Post>, postId: string): (r: seq<Post>)
    ensures |r| == |posts|
    ensures forall i :: 0 <= i < |r| && posts[i].id == postId ==> r[i] == Liked(posts[i])
    ensures forall i :: 0 <= i < |r| && posts[i].id != postId ==> r[i] == posts[i]
    ensures forall i :: 0 <= i < |r| ==> r[i].id == posts[i].id
  {
    seq(|posts|, i requires 0 <= i < |posts| => if posts[i].id == postId then Liked(posts[i]) else posts[i])
  }

  /** Liking a post twice restores the feed. */
  lemma LikeTwice(posts: seq<Post>, postId: string)
    ensures LikePosts(LikePosts(posts, postId), postId) == posts
  {
    var once := LikePosts(posts, postId);
    var twice := LikePosts(once, postId);
    assert forall i :: 0 <= i < |posts| ==> twice[i] == posts[i];
  }

  /** Every post keeps `likes - (isLiked ? 1 : 0)` under a like toggle. */
  lemma LikeKeepsBalance(posts: seq<Post>, postId: string)
    ensures forall i :: 0 <= i < |posts| ==> LikeBalance(LikePosts(posts, postId)[i]) == LikeBalance(posts[i])
  {
  }

  /** One post after `handleBookmark`. */
  function Bookmarked(p: Post): (r: Post)
    ensures r.isBookmarked == !p.isBookmarked
    ensures r == p.(isBookmarked := r.isBookmarked)
  {
    p.(isBookmarked := !p.isBookmarked)
  }

  /** `handleBookmark(postId)` over the whole list. */
  function BookmarkPosts(posts: seq<Post>, postId: string): (r: seq<Post>)
    ensures |r| == |posts|
    ensures forall i :: 0 <= i < |r| && posts[i].id == postId ==> r[i] == Bookmarked(posts[i])
    ensures forall i :: 0 <= i < |r| && posts[i].id != postId ==> r[i] == posts[i]
  {
    seq(|posts|, i requires 0 <= i < |posts| => if posts[i].id == postId then Bookmarked(posts[i]) else posts[i])
  }

  /** Bookmarking a post twice restores the feed. */
  lemma BookmarkTwice(posts: seq<Post>, postId: string)
    ensures BookmarkPosts(BookmarkPosts(posts, postId), postId) == posts
  {
    var once := BookmarkPosts(posts, postId);
    var twice := BookmarkPosts(once, postId);
    assert forall i :: 0 <= i < |posts| ==> twice[i] == posts[i];
  }

  /** The id given to the copy of a mock post: `${post.id}-more-${stamp}-${index}`. */
  function MoreId(id: string, stamp: nat, index: nat): (r: string)
    ensures r == id + "-more-" + NatToString(stamp) + "-" + NatToString(index)
  {
    id + "-more-" + NatToString(stamp) + "-" + NatToString(index)
  }

  /**
   * The copies `loadMore` appends: each mock post, in order, with a new id. The
   * clock is read once per copy, so copy `i` carries its own reading `stamps[i]`.
   */
  function MorePosts(mock: seq<Post>, stamps: seq<nat>): (r: seq<Post>)
    requires |stamps| == |mock|
    ensures |r| == |mock|
    ensures forall i :: 0 <= i < |r| ==> r[i] == mock[i].(id := MoreId(mock[i].id, stamps[i], i))
  {
    seq(|mock|, i requires 0 <= i < |mock| => mock[i].(id := MoreId(mock[i].id, stamps[i], i)))
  }

  /** Where the dash and the digits sit in `a + "-" + d`. */
  lemma DashThenDigits(a: string, d: string)
    ensures (a + "-" + d)[|a|] == '-'
    ensures forall k :: 0 <= k < |d| ==> (a + "-" + d)[|a| + 1 + k] == d[k]
  {
  }

  /** Two strings ending in a dash and a run of digits agree on that run. */
  lemma DigitTailsAgree(a: string, d1: string, b: string, d2: string)
    requires AllDigits(d1) && AllDigits(d2)
    requires a + "-" + d1 == b + "-" + d2
    ensures d1 == d2
  {
    var s := a + "-" + d1;
    DashThenDigits(a, d1);
    DashThenDigits(b, d2);
    if |d1| < |d2| {
      assert false;
    } else if |d2| < |d1| {
      assert false;
    }
    assert d1 == s[|s| - |d1|..];
  }

  /**
   * The copies of one batch carry pairwise distinct ids, whatever the mock ids
   * and the clock readings are: the index at the end tells them apart.
   */
  lemma MoreIdsDistinct(mock: seq<Post>, stamps: seq<nat>, i: nat, j: nat)
    requires |stamps| == |mock| && i < j < |mock|
    ensures MorePosts(mock, stamps)[i].id != MorePosts(mock, stamps)[j].id
  {
    var r := MorePosts(mock, stamps);
    if r[i].id == r[j].id {
      DigitTailsAgree(mock[i].id + "-more-" + NatToString(stamps[i]), NatToString(i),
                      mock[j].id + "-more-" + NatToString(stamps[j]), NatToString(j));
      NatToStringInjective(i, j);
    }
  }

  class Feed {
    const mock: seq<Post>
    var posts: seq<Post>
    var refreshing: bool
    var loadingMore: bool

    constructor (mock: seq<Post>)
      ensures this.mock == mock && posts == mock
      ensures !refreshing && !loadingMore
    {
      this.mock := mock;
      posts := mock;
      refreshing, loadingMore := false, false;
    }

    method Like(postId: string)
      modifies this
      ensures posts == LikePosts(old(posts), postId)
      ensures refreshing == old(refreshing) && loadingMore == old(loadingMore)
    {
      posts := LikePosts(posts, postId);
    }

    method Bookmark(postId: string)
      modifies this
      ensures posts == BookmarkPosts(old(posts), postId)
      ensures refreshing == old(refreshing) && loadingMore == old(loadingMore)
    {
      posts := BookmarkPosts(posts, postId);
    }

    /** Pull to refresh: the spinner shows until the timer fires. */
    method BeginRefresh()
      modifies this
      ensures refreshing && posts == old(posts) && loadingMore == old(loadingMore)
    {
      refreshing := true;
    }

    /** The refresh timer: a fresh copy of the mock feed replaces the posts. */
    method CompleteRefresh()
      modifies this
      ensures posts == mock && !refreshing && loadingMore == old(loadingMore)
    {
      posts := mock;
      refreshing := false;
    }

    /** `loadMore`: ignored while a load is in flight, otherwise marks one as started. */
    method BeginLoadMore() returns (started: bool)
      modifies this
      ensures started == !old(loadingMore)
      ensures loadingMore && posts == old(posts) && refreshing == old(refreshing)
    {
      if loadingMore {
        return false;
      }
      loadingMore := true;
      return true;
    }

    /**
     * The load-more timer: the copies, stamped with one clock reading each, go
     * after the existing posts.
     */
    method CompleteLoadMore(stamps: seq<nat>)
      requires loadingMore && |stamps| == |mock|
      modifies this
      ensures posts == old(posts) + MorePosts(mock, stamps)
      ensures old(posts) == posts[..|old(posts)|] && |posts| == |old(posts)| + |mock|
      ensures !loadingMore && refreshing == old(refreshing)
    {
      posts := posts + MorePosts(mock, stamps);
      loadingMore := false;
    }
  }
}
