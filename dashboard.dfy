/** The aggregates of src/components/Dashboard.tsx, all derived from the `posts` list. */
module Dashboard {
  import opened Types
  import opened Platforms
  import PostHistory
  import PlatformConnections

  /** The number shown on the Platforms card: a literal, independent of the registry. */
  const PlatformsStat := 4

  /** `posts.slice(0, 5)`: the first five posts, or all of them when there are fewer, in order. */
  function RecentPosts(posts: seq<Post>): (r: seq<Post>)
    ensures |r| == if |posts| < 5 then |posts| else 5
    ensures r == posts[..|r|]
  {
    if |posts| <= 5 then posts else posts[..5]
  }

  /** `posts.filter(p => p.status === status)`. */
  function WithStatus(posts: seq<Post>, status: Status): (r: seq<Post>)
    ensures |r| <= |posts|
  {
    if posts == [] then []
    else (if posts[0].status == status then [posts[0]] else []) + WithStatus(posts[1..], status)
  }

  /** The filter keeps exactly the posts with that status, each as often as in the list. */
  lemma {:induction false} WithStatusSpec(posts: seq<Post>, status: Status)
    ensures var r := WithStatus(posts, status);
      && (forall p :: p in r ==> p.status == status)
      && (forall p :: multiset(r)[p] == if p.status == status then multiset(posts)[p] else 0)
  {
    if posts != [] {
      WithStatusSpec(posts[1..], status);
      assert posts == [posts[0]] + posts[1..];
    }
  }

  /** The four cards. */
  datatype Stats = Stats(totalPosts: nat, publishedPosts: nat, scheduledPosts: nat, platforms: nat)

  function Summarize(posts: seq<Post>): (r: Stats)
    ensures r.totalPosts == |posts| && r.platforms == PlatformsStat
  {
    Stats(|posts|, |WithStatus(posts, Published)|, |WithStatus(posts, Scheduled)|, PlatformsStat)
  }

  /** Every post has exactly one of the four statuses, so the four per-status counts add up to the total. */
  lemma {:induction false} StatusCountsPartition(posts: seq<Post>)
    ensures |WithStatus(posts, Draft)| + |WithStatus(posts, Scheduled)|
          + |WithStatus(posts, Published)| + |WithStatus(posts, Failed)| == |posts|
  {
    if posts != [] {
      StatusCountsPartition(posts[1..]);
    }
  }

  /** The status of each post, in order. */
  function Statuses(posts: seq<Post>): (r: seq<Status>)
    ensures |r| == |posts| && forall i :: 0 <= i < |posts| ==> r[i] == posts[i].status
  {
    if posts == [] then [] else [posts[0].status] + Statuses(posts[1..])
  }

  /** Each per-status count is the number of times that status occurs among the posts. */
  lemma {:induction false} WithStatusCount(posts: seq<Post>, status: Status)
    ensures |WithStatus(posts, status)| == multiset(Statuses(posts))[status]
  {
    if posts != [] {
      WithStatusCount(posts[1..], status);
      assert Statuses(posts) == [posts[0].status] + Statuses(posts[1..]);
    }
  }

  /**
   * The Published and Scheduled cards count exactly the posts with those
   * statuses, and together they never exceed the Total card.
   */
  lemma SummarizeCounts(posts: seq<Post>)
    ensures var st := Summarize(posts);
      && st.publishedPosts == multiset(Statuses(posts))[Published]
      && st.scheduledPosts == multiset(Statuses(posts))[Scheduled]
      && st.publishedPosts + st.scheduledPosts <= st.totalPosts
  {
    StatusCountsPartition(posts);
    WithStatusCount(posts, Published);
    WithStatusCount(posts, Scheduled);
  }

  /** The Platforms card equals the size of the initial registry. */
  lemma PlatformsStatIsRegistrySize()
    ensures PlatformsStat == |SocialPlatforms|
  {
  }

  /**
   * The card also equals the size of the connection screen's registry in
   * every reachable state, however many platforms are connected; it never
   * counts them.
   */
  lemma PlatformsStatIgnoresConnections(c: PlatformConnections.Connections)
    requires c.Valid()
    ensures |c.platforms| == PlatformsStat
  {
    assert |Ids(c.platforms)| == |RegistryIdList|;
  }

  /** An empty list gives zero counts and no recent posts. */
  lemma EmptyDashboard()
    ensures Summarize([]) == Stats(0, 0, 0, 4)
    ensures RecentPosts([]) == []
  {
  }

  /** The status badge of the recent-posts list, a chain of conditionals. */
  function RecentBadgeClass(status: Status): string {
    if status == Published then "bg-green-100 text-green-800"
    else if status == Scheduled then "bg-yellow-100 text-yellow-800"
    else if status == Failed then "bg-red-100 text-red-800"
    else "bg-gray-100 text-gray-800"
  }

  /** The dashboard and the history colour every status the same way. */
  lemma BadgeClassesAgree(status: Status)
    ensures RecentBadgeClass(status) == PostHistory.StatusColor(status)
  {
  }
}
