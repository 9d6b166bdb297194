/**
 * The post store of src/App.tsx: the `posts` state and `handleCreatePost`.
 * The two clock readings of a create (`Date.now()` for the id, `new Date()`
 * for `createdAt`) are parameters.
 */
module App {
  import opened Wrappers
  import opened Types
  import opened Text
  import ComposePost
  import Dashboard

  /** The created post: the draft's fields, the id rendered from the clock, and the creation time. */
  function NewPost(draft: PostDraft, idClock: nat, createdAt: int): (p: Post)
    ensures p.id == NatToString(idClock) && AllDigits(p.id) && p.id != []
    ensures p.createdAt == createdAt
  {
    Post(NatToString(idClock), draft.content, draft.images, draft.platforms, draft.status,
         createdAt, draft.scheduledAt, draft.publishedAt)
  }

  /** The draft fields of a post, i.e. the post without `id` and `createdAt`. */
  function DraftOf(p: Post): PostDraft {
    PostDraft(p.content, p.images, p.platforms, p.status, p.scheduledAt, p.publishedAt)
  }

  /** A new post carries every draft field unchanged, and its id reads back as the clock value. */
  lemma NewPostCarriesDraft(draft: PostDraft, idClock: nat, createdAt: int)
    ensures DraftOf(NewPost(draft, idClock, createdAt)) == draft
    ensures ParseDecimal(NewPost(draft, idClock, createdAt).id) == idClock
  {
    ParseNatToString(idClock);
  }

  /** Each post's id is the rendering of the clock value read when it was created. */
  ghost predicate IdsFrom(posts: seq<Post>, clocks: seq<nat>) {
    |clocks| == |posts| && forall i :: 0 <= i < |posts| ==> posts[i].id == NatToString(clocks[i])
  }

  /** Newer posts come first, so a strictly increasing clock gives strictly decreasing readings along the list. */
  ghost predicate StrictlyDecreasing(clocks: seq<nat>) {
    forall i, j :: 0 <= i < j < |clocks| ==> clocks[i] > clocks[j]
  }

  /** Two posts share an id exactly when they were created at the same clock value. */
  lemma IdsMatchClocks(posts: seq<Post>, clocks: seq<nat>)
    requires IdsFrom(posts, clocks)
    ensures forall i, j :: 0 <= i < |posts| && 0 <= j < |posts| ==>
      (posts[i].id == posts[j].id <==> clocks[i] == clocks[j])
  {
    forall i, j | 0 <= i < |posts| && 0 <= j < |posts|
      ensures posts[i].id == posts[j].id <==> clocks[i] == clocks[j]
    {
      NatToStringInjective(clocks[i], clocks[j]);
    }
  }

  /** Ids are pairwise distinct when the clock strictly increased between creates. */
  lemma IdsDistinct(posts: seq<Post>, clocks: seq<nat>)
    requires IdsFrom(posts, clocks) && StrictlyDecreasing(clocks)
    ensures forall i, j :: 0 <= i < j < |posts| ==> posts[i].id != posts[j].id
  {
    IdsMatchClocks(posts, clocks);
  }

  /** Two creates within the same clock tick give the same id. */
  lemma SameTickSameId(d1: PostDraft, d2: PostDraft, idClock: nat, t1: int, t2: int)
    ensures NewPost(d1, idClock, t1).id == NewPost(d2, idClock, t2).id
  {
  }

  /** The `posts` state of the application. */
  class PostStore {
    var posts: seq<Post>
    /** The `Date.now()` reading behind each post's id. */
    ghost var clocks: seq<nat>

    ghost predicate Valid()
      reads this
    {
      IdsFrom(posts, clocks)
    }

    /** `useState<Post[]>([])`. */
    constructor ()
      ensures posts == [] && clocks == [] && Valid()
    {
      posts, clocks := [], [];
    }

    /** `handleCreatePost`: the new post goes in front of the previous list. */
    method CreatePost(draft: PostDraft, idClock: nat, createdAt: int) returns (p: Post)
      requires Valid()
      modifies this
      ensures Valid()
      ensures p == NewPost(draft, idClock, createdAt)
      ensures posts == [p] + old(posts) && clocks == [idClock] + old(clocks)
      ensures |posts| == |old(posts)| + 1 && posts[0] == p && posts[1..] == old(posts)
      ensures StrictlyDecreasing(old(clocks)) && (old(clocks) == [] || old(clocks)[0] < idClock)
        ==> StrictlyDecreasing(clocks)
    {
      p := NewPost(draft, idClock, createdAt);
      posts, clocks := [p] + posts, [idClock] + clocks;
      assert posts[1..] == old(posts);
      if StrictlyDecreasing(old(clocks)) && (old(clocks) == [] || old(clocks)[0] < idClock) {
        forall i, j | 0 <= i < j < |clocks| ensures clocks[i] > clocks[j] {
          assert clocks[j] == old(clocks)[j - 1];
          if i > 0 {
            assert clocks[i] == old(clocks)[i - 1];
          }
        }
      }
    }
  }

  /**
   * One submit of the compose form wired to `onCreatePost`: a refused submit
   * leaves the form and the store alone; an accepted one prepends the built
   * draft and resets the form.
   */
  method SubmitAndCreate(form: ComposePost.ComposeForm, store: PostStore,
                         scheduledTime: int, now: int, idClock: nat, createdAt: int)
    returns (created: Option<Post>)
    requires store.Valid()
    modifies form, store
    ensures store.Valid()
    ensures created.Some? <==> ComposePost.SubmitAccepts(old(form.content), old(form.selectedPlatforms))
    ensures created.None? ==> store.posts == old(store.posts)
    ensures created.Some? ==> store.posts == [created.value] + old(store.posts)
    ensures created.Some? ==>
      DraftOf(created.value) == ComposePost.BuildDraft(old(form.content), old(form.selectedPlatforms), old(form.images),
                                                       old(form.isScheduled), old(form.scheduledDate), scheduledTime, now)
    ensures created.Some? ==> created.value.id == NatToString(idClock) && created.value.createdAt == createdAt
    ensures created.None? ==> unchanged(form)
    ensures created.Some? ==> form.IsEmpty() && !form.isSubmitting
  {
    var draft := form.Submit(scheduledTime, now);
    if draft.Some? {
      var p := store.CreatePost(draft.value, idClock, createdAt);
      NewPostCarriesDraft(draft.value, idClock, createdAt);
      created := Some(p);
    } else {
      created := None;
    }
  }

  /** A lone published post on an empty store shows 1 total, 1 published, 0 scheduled and 4 platforms. */
  lemma FirstPublishedPost(draft: PostDraft, idClock: nat, createdAt: int)
    requires draft.status == Published
    ensures Dashboard.Summarize([NewPost(draft, idClock, createdAt)]) == Dashboard.Stats(1, 1, 0, 4)
  {
    var s := [NewPost(draft, idClock, createdAt)];
    assert s[1..] == [];
  }

  /** "Hello world" sent now to Twitter becomes a published post trimmed, on twitter only, published at `now`. */
  lemma HelloWorldPublished(idClock: nat, now: int)
    ensures var d := ComposePost.BuildDraft("  Hello world  ", ["twitter"], [], false, "", 0, now);
      && d == PostDraft("Hello world", None, ["twitter"], Published, None, Some(now))
      && Dashboard.Summarize([NewPost(d, idClock, now)]) == Dashboard.Stats(1, 1, 0, 4)
  {
    var d := ComposePost.BuildDraft("  Hello world  ", ["twitter"], [], false, "", 0, now);
    TrimSpecimen();
    FirstPublishedPost(d, idClock, now);
  }

  /** Trimming drops the two leading and the two trailing spaces. */
  lemma TrimSpecimen()
    ensures Trim("  Hello world  ") == "Hello world"
  {
    var s := "  Hello world  ";
    assert !IsWhite(s[2]);
    assert TrimStart(s[1..]) == TrimStart(s[2..]);
    assert TrimStart(s) == s[2..];
    var t := s[2..];
    assert t == "Hello world  ";
    assert !IsWhite(t[|t| - 3]);
    assert TrimEnd(t) == TrimEnd(t[..|t| - 1]);
    assert TrimEnd(t[..|t| - 1]) == TrimEnd(t[..|t| - 2]);
    assert t[..|t| - 2] == "Hello world";
  }
}
