/**
 * The derived views of src/components/PostHistory.tsx: the `filteredPosts`
 * chain (filter by search term and status, then a stable sort by
 * `createdAt`), the status badge colour, and the per-platform badge.
 */
module PostHistory {
  import opened Types
  import opened Text
  import opened Platforms

  /** The two values of the sort selector. */
  datatype SortBy = Newest | Oldest

  /** Case-insensitive substring search on `content`. */
  predicate MatchesSearch(p: Post, searchTerm: string) {
    Includes(ToLower(p.content), ToLower(searchTerm))
  }

  /** The status filter is a string: "all" passes every post, otherwise the status literal must be equal. */
  predicate MatchesStatus(p: Post, statusFilter: string) {
    statusFilter == "all" || StatusName(p.status) == statusFilter
  }

  predicate Matches(p: Post, searchTerm: string, statusFilter: string) {
    MatchesSearch(p, searchTerm) && MatchesStatus(p, statusFilter)
  }

  /** A status filter naming a status passes exactly the posts with that status. */
  lemma MatchesStatusIff(p: Post, s: Status)
    ensures MatchesStatus(p, StatusName(s)) <==> p.status == s
  {
    StatusNameInjective(p.status, s);
  }

  /** `posts.filter(...)`: keeps exactly the matching posts, each as often as in the input. */
  function FilterPosts(posts: seq<Post>, searchTerm: string, statusFilter: string): (r: seq<Post>)
    ensures |r| <= |posts|
  {
    if posts == [] then []
    else
      (if Matches(posts[0], searchTerm, statusFilter) then [posts[0]] else [])
      + FilterPosts(posts[1..], searchTerm, statusFilter)
  }

  /** The filter keeps exactly the matching posts, each as often as in the input. */
  lemma {:induction false} FilterPostsSpec(posts: seq<Post>, searchTerm: string, statusFilter: string)
    ensures var r := FilterPosts(posts, searchTerm, statusFilter);
      && (forall p :: p in r ==> Matches(p, searchTerm, statusFilter))
      && (forall p :: multiset(r)[p] == if Matches(p, searchTerm, statusFilter) then multiset(posts)[p] else 0)
  {
    if posts != [] {
      FilterPostsSpec(posts[1..], searchTerm, statusFilter);
      assert posts == [posts[0]] + posts[1..];
    }
  }

  /** Filtering a list whose posts all match returns it unchanged. */
  lemma {:induction false} FilterAllMatching(posts: seq<Post>, searchTerm: string, statusFilter: string)
    requires forall p :: p in posts ==> Matches(p, searchTerm, statusFilter)
    ensures FilterPosts(posts, searchTerm, statusFilter) == posts
  {
    if posts != [] {
      FilterAllMatching(posts[1..], searchTerm, statusFilter);
    }
  }

  /** The sort comparator: `b - a` for newest first, `a - b` for oldest first. */
  function Compare(order: SortBy, a: Post, b: Post): int {
    match order
    case Newest => b.createdAt - a.createdAt
    case Oldest => a.createdAt - b.createdAt
  }

  /** Every earlier post compares at most zero against every later one. */
  ghost predicate Sorted(order: SortBy, s: seq<Post>) {
    forall i, j :: 0 <= i < j < |s| ==> Compare(order, s[i], s[j]) <= 0
  }

  /** Inserts `x` before the first post it does not compare above, so it stays ahead of equal posts. */
  function Insert(order: SortBy, x: Post, l: seq<Post>): (r: seq<Post>)
    ensures multiset(r) == multiset(l) + multiset{x}
  {
    if l == [] then [x]
    else if Compare(order, x, l[0]) <= 0 then [x] + l
    else
      assert l == [l[0]] + l[1..];
      [l[0]] + Insert(order, x, l[1..])
  }

  /** A stable insertion sort, as `Array.prototype.sort` must be. */
  function SortPosts(order: SortBy, s: seq<Post>): (r: seq<Post>)
    ensures multiset(r) == multiset(s)
  {
    if s == [] then []
    else
      assert s == [s[0]] + s[1..];
      Insert(order, s[0], SortPosts(order, s[1..]))
  }

  /** `y` compares at most zero against every post of `s`. */
  ghost predicate Precedes(order: SortBy, y: Post, s: seq<Post>) {
    forall k :: 0 <= k < |s| ==> Compare(order, y, s[k]) <= 0
  }

  lemma SortedTail(order: SortBy, l: seq<Post>)
    requires l != [] && Sorted(order, l)
    ensures Sorted(order, l[1..]) && Precedes(order, l[0], l[1..])
  {
    var tail := l[1..];
    forall i, j | 0 <= i < j < |tail| ensures Compare(order, tail[i], tail[j]) <= 0 {
      assert tail[i] == l[i + 1] && tail[j] == l[j + 1];
    }
    forall k | 0 <= k < |tail| ensures Compare(order, l[0], tail[k]) <= 0 {
      assert tail[k] == l[k + 1];
    }
  }

  lemma SortedCons(order: SortBy, y: Post, r: seq<Post>)
    requires Sorted(order, r) && Precedes(order, y, r)
    ensures Sorted(order, [y] + r)
  {
    var big := [y] + r;
    forall i, j | 0 <= i < j < |big| ensures Compare(order, big[i], big[j]) <= 0 {
      if i == 0 {
        assert big[j] == r[j - 1];
      } else {
        assert big[i] == r[i - 1] && big[j] == r[j - 1];
      }
    }
  }

  /** A post that precedes `x` and all of `l` precedes all of `Insert(x, l)`. */
  lemma {:induction false} InsertPrecedes(order: SortBy, y: Post, x: Post, l: seq<Post>)
    requires Compare(order, y, x) <= 0 && Precedes(order, y, l)
    ensures Precedes(order, y, Insert(order, x, l))
  {
    if l != [] && Compare(order, x, l[0]) > 0 {
      var r := Insert(order, x, l[1..]);
      assert Precedes(order, y, l[1..]) by {
        forall k | 0 <= k < |l| - 1 ensures Compare(order, y, l[1..][k]) <= 0 {
          assert l[1..][k] == l[k + 1];
        }
      }
      InsertPrecedes(order, y, x, l[1..]);
      var big := [l[0]] + r;
      assert Insert(order, x, l) == big;
      forall k | 0 <= k < |big| ensures Compare(order, y, big[k]) <= 0 {
        if k > 0 {
          assert big[k] == r[k - 1];
        }
      }
    }
  }

  lemma {:induction false} InsertSorted(order: SortBy, x: Post, l: seq<Post>)
    requires Sorted(order, l)
    ensures Sorted(order, Insert(order, x, l))
  {
    if l == [] {
    } else if Compare(order, x, l[0]) <= 0 {
      SortedTail(order, l);
      assert Precedes(order, x, l) by {
        forall k | 0 <= k < |l| ensures Compare(order, x, l[k]) <= 0 {
          if k > 0 {
            assert l[k] == l[1..][k - 1];
          }
        }
      }
      SortedCons(order, x, l);
    } else {
      SortedTail(order, l);
      InsertSorted(order, x, l[1..]);
      InsertPrecedes(order, l[0], x, l[1..]);
      SortedCons(order, l[0], Insert(order, x, l[1..]));
    }
  }

  /** The sort's output is ordered by the comparator. */
  lemma {:induction false} SortPostsSorted(order: SortBy, s: seq<Post>)
    ensures Sorted(order, SortPosts(order, s))
  {
    if s != [] {
      SortPostsSorted(order, s[1..]);
      InsertSorted(order, s[0], SortPosts(order, s[1..]));
    }
  }

  /** The sub-sequence of posts created at instant `t`. */
  function CreatedAt(s: seq<Post>, t: int): (r: seq<Post>)
    ensures |r| <= |s|
  {
    if s == [] then []
    else (if s[0].createdAt == t then [s[0]] else []) + CreatedAt(s[1..], t)
  }

  /** Selecting one instant from a list with a given head. */
  lemma CreatedAtCons(y: Post, r: seq<Post>, t: int)
    ensures CreatedAt([y] + r, t) == (if y.createdAt == t then [y] else []) + CreatedAt(r, t)
  {
    assert ([y] + r)[0] == y;
    assert ([y] + r)[1..] == r;
  }

  lemma {:induction false} InsertStable(order: SortBy, x: Post, l: seq<Post>, t: int)
    ensures CreatedAt(Insert(order, x, l), t) == (if x.createdAt == t then [x] else []) + CreatedAt(l, t)
  {
    if l == [] {
    } else if Compare(order, x, l[0]) <= 0 {
      CreatedAtCons(x, l, t);
    } else {
      var r := Insert(order, x, l[1..]);
      var c := CreatedAt(l[1..], t);
      assert Insert(order, x, l) == [l[0]] + r;
      CreatedAtCons(l[0], r, t);
      InsertStable(order, x, l[1..], t);
      if x.createdAt == t {
        assert l[0].createdAt != t;
        assert CreatedAt(l, t) == c;
        assert CreatedAt([l[0]] + r, t) == CreatedAt(r, t);
      } else if l[0].createdAt == t {
        assert CreatedAt(l, t) == [l[0]] + c;
        assert CreatedAt(r, t) == c;
      } else {
        assert CreatedAt(l, t) == c;
        assert CreatedAt(r, t) == c;
      }
    }
  }

  /** Stability: posts with equal `createdAt` keep their relative input order. */
  lemma {:induction false} SortPostsStable(order: SortBy, s: seq<Post>, t: int)
    ensures CreatedAt(SortPosts(order, s), t) == CreatedAt(s, t)
  {
    if s != [] {
      InsertStable(order, s[0], SortPosts(order, s[1..]), t);
      SortPostsStable(order, s[1..], t);
    }
  }

  /** Sorting an already sorted list leaves it as it is. */
  lemma {:induction false} SortPostsOfSorted(order: SortBy, s: seq<Post>)
    requires Sorted(order, s)
    ensures SortPosts(order, s) == s
  {
    if s != [] {
      assert Sorted(order, s[1..]);
      SortPostsOfSorted(order, s[1..]);
    }
  }

  /** Filtering by status and search commutes with selecting one creation instant. */
  lemma {:induction false} FilterCreatedAtCommute(s: seq<Post>, searchTerm: string, statusFilter: string, t: int)
    ensures CreatedAt(FilterPosts(s, searchTerm, statusFilter), t) == FilterPosts(CreatedAt(s, t), searchTerm, statusFilter)
  {
    if s != [] {
      FilterCreatedAtCommute(s[1..], searchTerm, statusFilter, t);
      var x := s[0];
      var f := FilterPosts(s[1..], searchTerm, statusFilter);
      var c := CreatedAt(s[1..], t);
      var keep := Matches(x, searchTerm, statusFilter);
      if keep {
        assert FilterPosts(s, searchTerm, statusFilter) == [x] + f;
        assert ([x] + f)[1..] == f;
      } else {
        assert FilterPosts(s, searchTerm, statusFilter) == f;
      }
      if x.createdAt == t {
        assert CreatedAt(s, t) == [x] + c;
        assert ([x] + c)[1..] == c;
      } else {
        assert CreatedAt(s, t) == c;
      }
    }
  }

  /** `filteredPosts`. */
  function Query(posts: seq<Post>, searchTerm: string, statusFilter: string, order: SortBy): seq<Post> {
    SortPosts(order, FilterPosts(posts, searchTerm, statusFilter))
  }

  /**
   * The history view holds exactly the matching posts (each as often as in
   * the input, so nothing is invented and it is no longer than the input),
   * ordered newest-first or oldest-first, with posts of equal `createdAt`
   * in their input order.
   */
  lemma QueryCorrect(posts: seq<Post>, searchTerm: string, statusFilter: string, order: SortBy)
    ensures var r := Query(posts, searchTerm, statusFilter, order);
      && |r| <= |posts|
      && (forall p :: p in r ==> Includes(ToLower(p.content), ToLower(searchTerm)))
      && (forall p :: p in r ==> statusFilter == "all" || StatusName(p.status) == statusFilter)
      && (forall p :: multiset(r)[p] == if Matches(p, searchTerm, statusFilter) then multiset(posts)[p] else 0)
      && (order == Newest ==> forall i, j :: 0 <= i < j < |r| ==> r[i].createdAt >= r[j].createdAt)
      && (order == Oldest ==> forall i, j :: 0 <= i < j < |r| ==> r[i].createdAt <= r[j].createdAt)
      && (forall t :: CreatedAt(r, t) == FilterPosts(CreatedAt(posts, t), searchTerm, statusFilter))
  {
    var f := FilterPosts(posts, searchTerm, statusFilter);
    var r := SortPosts(order, f);
    FilterPostsSpec(posts, searchTerm, statusFilter);
    SortPostsSorted(order, f);
    forall p | p in r ensures Matches(p, searchTerm, statusFilter) {
      assert p in multiset(r);
    }
    forall t ensures CreatedAt(r, t) == FilterPosts(CreatedAt(posts, t), searchTerm, statusFilter) {
      SortPostsStable(order, f, t);
      FilterCreatedAtCommute(posts, searchTerm, statusFilter, t);
    }
  }

  /** Applying the same query to its own output returns the same sequence. */
  lemma QueryIdempotent(posts: seq<Post>, searchTerm: string, statusFilter: string, order: SortBy)
    ensures var r := Query(posts, searchTerm, statusFilter, order);
      Query(r, searchTerm, statusFilter, order) == r
  {
    var r := Query(posts, searchTerm, statusFilter, order);
    QueryCorrect(posts, searchTerm, statusFilter, order);
    forall p | p in r ensures Matches(p, searchTerm, statusFilter) {
      assert p in multiset(r);
    }
    FilterAllMatching(r, searchTerm, statusFilter);
    SortPostsSorted(order, FilterPosts(posts, searchTerm, statusFilter));
    SortPostsOfSorted(order, r);
  }

  /** An empty search with filter "all" shows every post, sorted. */
  lemma QueryShowsAll(posts: seq<Post>, order: SortBy)
    ensures Query(posts, "", "all", order) == SortPosts(order, posts)
    ensures multiset(Query(posts, "", "all", order)) == multiset(posts)
  {
    forall p | p in posts ensures Matches(p, "", "all") {
      assert ToLower("") == "";
    }
    FilterAllMatching(posts, "", "all");
  }

  /** A search term that no content contains, or a filter that is neither "all" nor a status, shows nothing. */
  lemma QueryNoMatch(posts: seq<Post>, searchTerm: string, statusFilter: string, order: SortBy)
    requires (forall p :: p in posts ==> !Includes(ToLower(p.content), ToLower(searchTerm)))
          || (statusFilter != "all" && forall s: Status :: StatusName(s) != statusFilter)
    ensures Query(posts, searchTerm, statusFilter, order) == []
  {
    QueryCorrect(posts, searchTerm, statusFilter, order);
  }

  /** `getStatusColor`: the badge classes of the history list. */
  function StatusColor(status: Status): string {
    match status
    case Published => "bg-green-100 text-green-800"
    case Scheduled => "bg-yellow-100 text-yellow-800"
    case Failed => "bg-red-100 text-red-800"
    case _ => "bg-gray-100 text-gray-800"
  }

  /** Published, scheduled and failed each get a class of their own; draft gets the default grey. */
  lemma StatusColorDistinct(a: Status, b: Status)
    ensures StatusColor(Draft) == "bg-gray-100 text-gray-800"
    ensures StatusColor(a) == StatusColor(b) <==> a == b
  {
  }

  /** What the history shows for one platform id of a post: an icon when the capitalised id is an icon key, else the capitalised id as text. */
  datatype Badge = IconBadge(key: string) | TextBadge(text: string)

  /**
   * An icon is shown exactly for the four registry ids and the four icon
   * names, e.g. "twitter" and "Twitter"; any other id is shown as its
   * capitalised text.
   */
  function PlatformBadge(platformId: string): (b: Badge)
    ensures b.IconBadge? <==>
      exists i :: 0 <= i < |SocialPlatforms| && (platformId == SocialPlatforms[i].id || platformId == SocialPlatforms[i].icon)
    ensures b.IconBadge? ==> b.key in PlatformIcons
    ensures b.TextBadge? ==> b.text !in PlatformIcons && |b.text| == |platformId|
  {
    IconKeysRecognised(platformId);
    var shown := Capitalize(platformId);
    if shown in PlatformIcons then IconBadge(shown) else TextBadge(shown)
  }

  /** A capitalised id is an icon key exactly when the id is a registry id or an icon name. */
  lemma IconKeysRecognised(p: string)
    ensures Capitalize(p) in PlatformIcons <==>
      exists i :: 0 <= i < |SocialPlatforms| && (p == SocialPlatforms[i].id || p == SocialPlatforms[i].icon)
  {
    IconKeyInverse(p, 0);
    IconKeyInverse(p, 1);
    IconKeyInverse(p, 2);
    IconKeyInverse(p, 3);
    if Capitalize(p) in PlatformIcons {
      var k :| k in PlatformIcons && k == Capitalize(p);
      if k == SocialPlatforms[0].icon {
        assert p == SocialPlatforms[0].id || p == SocialPlatforms[0].icon;
      } else if k == SocialPlatforms[1].icon {
        assert p == SocialPlatforms[1].id || p == SocialPlatforms[1].icon;
      } else if k == SocialPlatforms[2].icon {
        assert p == SocialPlatforms[2].id || p == SocialPlatforms[2].icon;
      } else {
        assert p == SocialPlatforms[3].id || p == SocialPlatforms[3].icon;
      }
    }
  }

  /** The ids that capitalise to the icon of entry `j` are that entry's id and its icon. */
  lemma IconKeyInverse(p: string, j: nat)
    requires j < |SocialPlatforms|
    ensures Capitalize(p) == SocialPlatforms[j].icon <==> p == SocialPlatforms[j].id || p == SocialPlatforms[j].icon
  {
    var k := SocialPlatforms[j].icon;
    CapitalizeInverse(p, k);
    assert [LowerChar(k[0])] + k[1..] == SocialPlatforms[j].id;
  }

  /** Every id of the registry is shown as its own icon. */
  lemma RegistryIdsShowIcons()
    ensures forall i :: 0 <= i < |SocialPlatforms| ==> PlatformBadge(SocialPlatforms[i].id) == IconBadge(SocialPlatforms[i].icon)
  {
    RegistryIcons();
  }
}
