/** The hashtag routes: the ten most used hashtags of the last seven days,
    and the fifty newest posts carrying a given hashtag. The clock reading
    `now` is a parameter. */
module HashtagsRoutes {
  import opened Common
  import opened Text
  import opened Lists
  import opened PostModel
  import opened HashtagExtractor

  /** Seven days, in milliseconds. */
  const TrendingWindow: int := 7 * 24 * 60 * 60 * 1000
  const TrendingLimit: nat := 10
  const TagPostsLimit: nat := 50

  /** The `$match` stage: created no earlier than seven days ago, with at
      least one hashtag. */
  predicate InWindow(p: Post, now: Time) {
    p.createdAt >= now - TrendingWindow && p.hashtags != []
  }

  function Window(posts: seq<Post>, now: Time): (r: seq<Post>)
    ensures forall p :: p in r <==> p in posts && InWindow(p, now)
  {
    Filter(posts, (p: Post) => InWindow(p, now))
  }

  /** The `$unwind` stage: one entry per hashtag per post. */
  function Unwind(ps: seq<Post>): (r: seq<string>)
    ensures forall t :: t in r <==> exists i :: 0 <= i < |ps| && t in ps[i].hashtags
    decreases |ps|
  {
    if ps == [] then []
    else
      var init := ps[..|ps| - 1];
      var rest := Unwind(init);
      assert forall i :: 0 <= i < |init| ==> init[i] == ps[i];
      rest + ps[|ps| - 1].hashtags
  }

  /** How often `tag` is used, summed post by post. */
  function Occurrences(ps: seq<Post>, tag: string): nat
    decreases |ps|
  {
    if ps == [] then 0 else Occurrences(ps[..|ps| - 1], tag) + multiset(ps[|ps| - 1].hashtags)[tag]
  }

  /** The `$group` stage's `$sum: 1` counts exactly the uses of the tag. */
  lemma {:induction false} UnwindCounts(ps: seq<Post>, tag: string)
    ensures multiset(Unwind(ps))[tag] == Occurrences(ps, tag)
    decreases |ps|
  {
    if ps != [] {
      UnwindCounts(ps[..|ps| - 1], tag);
    }
  }

  /** An output entry: a hashtag and its count. */
  datatype TagCount = TagCount(hashtag: string, count: nat)

  function Count(e: TagCount): int { e.count }

  /** One entry per distinct tag, in order of first use, with its number of
      uses. */
  function Groups(all: seq<string>): (r: seq<TagCount>)
    ensures |r| == |Dedup(all)|
    ensures forall i :: 0 <= i < |r| ==> r[i] == TagCount(Dedup(all)[i], multiset(all)[Dedup(all)[i]])
  {
    var tags := Dedup(all);
    seq(|tags|, i requires 0 <= i < |tags| => TagCount(tags[i], multiset(all)[tags[i]]))
  }

  /** The groups hold every used tag once, with its number of uses. */
  lemma GroupsExact(all: seq<string>)
    ensures forall e :: e in Groups(all) ==> e.count == multiset(all)[e.hashtag] && e.hashtag in all
    ensures forall t :: t in all ==> TagCount(t, multiset(all)[t]) in Groups(all)
    ensures NoDuplicates(Groups(all))
  {
    var tags := Dedup(all);
    var g := Groups(all);
    forall t | t in all ensures TagCount(t, multiset(all)[t]) in g {
      var i := IndexOf(tags, t);
      assert g[i] == TagCount(t, multiset(all)[t]);
    }
    forall i, j | 0 <= i < j < |g| ensures g[i] != g[j] {
      assert tags[i] != tags[j];
    }
  }

  /** `GET /hashtags/trending` at time `now`: group by tag, sort by count,
      keep ten. */
  function Trending(posts: seq<Post>, now: Time): (r: seq<TagCount>)
    ensures |r| <= TrendingLimit
    ensures SortedDesc(r, Count)
  {
    var groups := Groups(Unwind(Window(posts, now)));
    TopKBasics(groups, Count, TrendingLimit);
    TopK(groups, Count, TrendingLimit)
  }

  /** Ten tags are listed whenever more than ten are used in the window, and
      every one of them otherwise. */
  lemma TrendingLength(posts: seq<Post>, now: Time)
    ensures var n := |Dedup(Unwind(Window(posts, now)))|;
      |Trending(posts, now)| == if n <= TrendingLimit then n else TrendingLimit
  {
    TopKSpec(Groups(Unwind(Window(posts, now))), Count, TrendingLimit);
  }

  /** Each listed tag is counted exactly: its count is its number of uses in
      the window's posts, which is positive; no tag is listed twice. */
  lemma TrendingCounts(posts: seq<Post>, now: Time)
    ensures forall e :: e in Trending(posts, now) ==>
      e.count == Occurrences(Window(posts, now), e.hashtag) && e.count > 0
    ensures forall i, j :: 0 <= i < j < |Trending(posts, now)| ==>
      Trending(posts, now)[i].hashtag != Trending(posts, now)[j].hashtag
  {
    forall e | e in Trending(posts, now)
      ensures e.count == Occurrences(Window(posts, now), e.hashtag) && e.count > 0
    {
      TrendingEntryCounted(posts, now, e);
    }
    TrendingDistinct(posts, now);
  }

  /** One listed entry carries its tag's number of uses in the window. */
  lemma TrendingEntryCounted(posts: seq<Post>, now: Time, e: TagCount)
    requires e in Trending(posts, now)
    ensures e.count == Occurrences(Window(posts, now), e.hashtag) && e.count > 0
  {
    var all := Unwind(Window(posts, now));
    var groups := Groups(all);
    TopKBasics(groups, Count, TrendingLimit);
    assert e in groups;
    GroupsExact(all);
    UnwindCounts(Window(posts, now), e.hashtag);
  }

  /** The listed tags are pairwise distinct. */
  lemma TrendingDistinct(posts: seq<Post>, now: Time)
    ensures forall i, j :: 0 <= i < j < |Trending(posts, now)| ==>
      Trending(posts, now)[i].hashtag != Trending(posts, now)[j].hashtag
  {
    var all := Unwind(Window(posts, now));
    var groups := Groups(all);
    TopKSpec(groups, Count, TrendingLimit);
    GroupsExact(all);
    DistinctTags(Trending(posts, now), groups, all);
  }

  /** Entries drawn from distinct groups whose counts are fixed by their tag
      carry distinct tags. */
  lemma DistinctTags(r: seq<TagCount>, groups: seq<TagCount>, all: seq<string>)
    requires multiset(r) <= multiset(groups) && NoDuplicates(groups)
    requires forall e :: e in groups ==> e.count == multiset(all)[e.hashtag]
    ensures forall i, j :: 0 <= i < j < |r| ==> r[i].hashtag != r[j].hashtag
  {
    SubNoDuplicates(r, groups);
    forall i, j | 0 <= i < j < |r| ensures r[i].hashtag != r[j].hashtag {
      assert r[i] in multiset(groups) && r[j] in multiset(groups);
    }
  }

  /** No tag of the window that is left out is used more often than a
      listed one. */
  lemma TrendingLeftOutUsedLess(posts: seq<Post>, now: Time, tag: string)
    requires tag in Unwind(Window(posts, now))
    requires forall e :: e in Trending(posts, now) ==> e.hashtag != tag
    ensures forall e :: e in Trending(posts, now) ==> Occurrences(Window(posts, now), tag) <= e.count
  {
    var all := Unwind(Window(posts, now));
    var groups := Groups(all);
    GroupsExact(all);
    UnwindCounts(Window(posts, now), tag);
    var mine := TagCount(tag, multiset(all)[tag]);
    assert mine in groups;
    TopKLeftOut(groups, Count, TrendingLimit, mine);
  }

  /** When the window holds at most ten distinct tags, every one of them is
      listed with its count. */
  lemma TrendingListsAllWhenFew(posts: seq<Post>, now: Time, tag: string)
    requires tag in Unwind(Window(posts, now))
    requires |Dedup(Unwind(Window(posts, now)))| <= TrendingLimit
    ensures TagCount(tag, Occurrences(Window(posts, now), tag)) in Trending(posts, now)
  {
    var all := Unwind(Window(posts, now));
    var groups := Groups(all);
    GroupsExact(all);
    UnwindCounts(Window(posts, now), tag);
    TopKAll(groups, Count, TrendingLimit);
  }

  function CreatedAt(p: Post): int { p.createdAt }

  /** The `find({ hashtags: tag })` condition. The query casts the tag
      through the `hashtags` elements' `trim` setter, so the trimmed tag must
      be one of the post's hashtags; case is compared as given. */
  predicate Carries(p: Post, tag: string) {
    Trim(tag) in p.hashtags
  }

  /** Every post carrying `tag`, in store order, each as often as it is
      stored. */
  function Tagged(posts: seq<Post>, tag: string): (r: seq<Post>)
    ensures forall p :: p in r <==> p in posts && Carries(p, tag)
    ensures forall p :: p in r ==> multiset(r)[p] == multiset(posts)[p]
  {
    Filter(posts, (p: Post) => Carries(p, tag))
  }

  /** `GET /hashtags/:hashtag`: the posts whose hashtags hold the trimmed
      tag, newest first, at most fifty. */
  function TagPosts(posts: seq<Post>, tag: string): (r: seq<Post>)
    ensures |r| <= TagPostsLimit
    ensures SortedDesc(r, CreatedAt)
    ensures forall p :: p in r ==> p in posts && Carries(p, tag)
  {
    TopKBasics(Tagged(posts, tag), CreatedAt, TagPostsLimit);
    TopK(Tagged(posts, tag), CreatedAt, TagPostsLimit)
  }

  /** The fifty listed are the newest: the list is as long as it can be, a
      carrying post left out is no newer than any listed one, and with at
      most fifty carrying posts every one is listed, as often as it is
      stored. */
  lemma TagPostsNewest(posts: seq<Post>, tag: string)
    ensures var n := |Tagged(posts, tag)|;
      |TagPosts(posts, tag)| == if n <= TagPostsLimit then n else TagPostsLimit
    ensures forall p, q :: p in posts && Carries(p, tag) && p !in TagPosts(posts, tag) && q in TagPosts(posts, tag) ==>
      p.createdAt <= q.createdAt
    ensures |Tagged(posts, tag)| <= TagPostsLimit ==>
      forall p :: p in posts && Carries(p, tag) ==> multiset(TagPosts(posts, tag))[p] == multiset(posts)[p]
  {
    var tagged := Tagged(posts, tag);
    var r := TagPosts(posts, tag);
    TopKSpec(tagged, CreatedAt, TagPostsLimit);
    forall p, q | p in posts && Carries(p, tag) && p !in r && q in r
      ensures p.createdAt <= q.createdAt
    {
      TopKLeftOut(tagged, CreatedAt, TagPostsLimit, p);
    }
  }

  /** The lookup does not lower the tag: stored tags are lower-case, so a
      tag with an upper-case letter finds nothing. */
  lemma MixedCaseTagFindsNothing(posts: seq<Post>, tag: string, j: nat)
    requires forall p, t :: p in posts && t in p.hashtags ==> IsTag(t)
    requires j < |Trim(tag)| && IsUpper(Trim(tag)[j])
    ensures TagPosts(posts, tag) == []
  {
    var r := TagPosts(posts, tag);
    assert |r| > 0 ==> r[0] in r && IsTag(Trim(tag));
    assert !IsTag(Trim(tag));
  }

  /** Whitespace around the tag changes nothing: `" foo "` lists the posts
      tagged `foo`. */
  lemma TagPostsIgnoresPadding(posts: seq<Post>, tag: string)
    ensures TagPosts(posts, Trim(tag)) == TagPosts(posts, tag)
  {
    TrimIdempotent(tag);
    FilterAgree(posts, (p: Post) => Carries(p, Trim(tag)), (p: Post) => Carries(p, tag));
  }
}
