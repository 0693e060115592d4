/**
 * The posts hooks' effect on the shared query cache. A mutation touches the cache only
 * after the server confirmed it: create prepends to the cached list, update replaces by
 * id and overwrites the single-post entry, delete filters the list and evicts the
 * single-post entry; each then invalidates what it touched and posts a notification.
 * A failed mutation posts an error notification and leaves the cache alone.
 */
module PostsCache {
  import opened Wrappers
  import opened Text
  import opened Seqs
  import opened Types

  // ---------------------------------------------------------------------------
  // The list updaters passed to `setQueryData`
  // ---------------------------------------------------------------------------

  /** After a create: the new post first, then the cached list (if any). */
  function PrependPost(cached: Option<seq<Post>>, newPost: Post): (r: seq<Post>)
    ensures |r| == |cached.GetOr([])| + 1
    ensures r[0] == newPost && r[1..] == cached.GetOr([])
  {
    [newPost] + cached.GetOr([])
  }

  /** Every post with the updated post's id becomes the updated post. */
  function ReplaceAll(posts: seq<Post>, updated: Post): (r: seq<Post>)
    ensures |r| == |posts|
    ensures forall i :: 0 <= i < |posts| ==> r[i] == if posts[i].id == updated.id then updated else posts[i]
  {
    if posts == [] then []
    else [if posts[0].id == updated.id then updated else posts[0]] + ReplaceAll(posts[1..], updated)
  }

  /** After an update: the replaced list, or the empty list when nothing was cached. */
  function ReplacePost(cached: Option<seq<Post>>, updated: Post): (r: seq<Post>)
    ensures |r| == |cached.GetOr([])|
    ensures forall i :: 0 <= i < |r| ==> r[i].id == cached.value[i].id
    ensures forall i :: 0 <= i < |r| && r[i].id == updated.id ==> r[i] == updated
    ensures forall i :: 0 <= i < |r| && r[i].id != updated.id ==> r[i] == cached.value[i]
  {
    match cached
    case None => []
    case Some(posts) => ReplaceAll(posts, updated)
  }

  /** After a delete: the cached posts without the deleted id, or the empty list. */
  function RemovePost(cached: Option<seq<Post>>, deletedId: int): (r: seq<Post>)
    ensures forall p :: p in r ==> p.id != deletedId
  {
    match cached
    case None => []
    case Some(posts) => Filter(posts, (p: Post) => p.id != deletedId)
  }

  /** Delete keeps every other post, as often as it was cached. */
  lemma RemovePostCount(cached: Option<seq<Post>>, deletedId: int, p: Post)
    ensures multiset(RemovePost(cached, deletedId))[p] == if p.id == deletedId then 0 else multiset(cached.GetOr([]))[p]
  {
    if cached.Some? {
      FilterCount(cached.value, (q: Post) => q.id != deletedId, p);
    }
  }

  /** Delete keeps the survivors in their cached order: it distributes over concatenation. */
  lemma RemovePostKeepsOrder(a: seq<Post>, b: seq<Post>, deletedId: int)
    ensures RemovePost(Some(a + b), deletedId) == RemovePost(Some(a), deletedId) + RemovePost(Some(b), deletedId)
  {
    FilterAppend(a, b, (p: Post) => p.id != deletedId);
  }

  /** Deleting an id that no cached post has leaves the list unchanged. */
  lemma RemoveAbsentId(posts: seq<Post>, deletedId: int)
    requires forall i :: 0 <= i < |posts| ==> posts[i].id != deletedId
    ensures RemovePost(Some(posts), deletedId) == posts
  {
    FilterKeepsAll(posts, (p: Post) => p.id != deletedId);
  }

  /** Creating a post and then deleting it leaves the list as deleting alone would. */
  lemma CreateThenDelete(cached: Option<seq<Post>>, newPost: Post)
    ensures RemovePost(Some(PrependPost(cached, newPost)), newPost.id) == RemovePost(cached, newPost.id)
  {
    var rest := cached.GetOr([]);
    assert PrependPost(cached, newPost) == [newPost] + rest;
    RemovePostKeepsOrder([newPost], rest, newPost.id);
    if cached.None? {
      assert Filter(rest, (p: Post) => p.id != newPost.id) == [];
    }
  }

  /** Updating a post and then deleting its id leaves the list as deleting alone would. */
  lemma {:induction false} UpdateThenDelete(posts: seq<Post>, updated: Post)
    ensures RemovePost(Some(ReplaceAll(posts, updated)), updated.id) == RemovePost(Some(posts), updated.id)
    decreases |posts|
  {
    if posts != [] {
      UpdateThenDelete(posts[1..], updated);
      var head := if posts[0].id == updated.id then updated else posts[0];
      assert ReplaceAll(posts, updated) == [head] + ReplaceAll(posts[1..], updated);
      RemovePostKeepsOrder([head], ReplaceAll(posts[1..], updated), updated.id);
      RemovePostKeepsOrder([posts[0]], posts[1..], updated.id);
      assert posts == [posts[0]] + posts[1..];
    }
  }

  /** Applying the same update twice changes nothing more. */
  lemma ReplaceIdempotent(posts: seq<Post>, updated: Post)
    ensures ReplaceAll(ReplaceAll(posts, updated), updated) == ReplaceAll(posts, updated)
  {
  }

  // ---------------------------------------------------------------------------
  // The query cache
  // ---------------------------------------------------------------------------

  /** The query keys the posts hooks use: `["posts"]` and `["post", id]`. */
  datatype Key = PostsKey | PostKey(id: int)

  datatype CachedValue = PostList(posts: seq<Post>) | SinglePost(post: Post)

  /** A cached value and whether it has been invalidated (marked stale). */
  datatype Entry = Entry(value: CachedValue, invalidated: bool)

  datatype Variant = SuccessVariant | ErrorVariant

  /** A snackbar notification. */
  datatype Notification = Notification(message: string, variant: Variant)

  datatype Mutation = CreateMutation | UpdateMutation | DeleteMutation

  const CreatedMessage: string := "Post created successfully!"
  const UpdatedMessage: string := "Post updated successfully!"
  const DeletedMessage: string := "Post deleted successfully!"

  function FailureFallback(m: Mutation): string {
    match m
    case CreateMutation => "Failed to create post"
    case UpdateMutation => "Failed to update post"
    case DeleteMutation => "Failed to delete post"
  }

  /** The error snackbar: the error's own message, or the mutation's fallback when that is empty. */
  function ErrorNotice(m: Mutation, message: Option<string>): (n: Notification)
    ensures n.variant == ErrorVariant && n.message != []
    ensures message.Some? && message.value != [] ==> n.message == message.value
    ensures message.GetOr([]) == [] ==> n.message == FailureFallback(m)
  {
    Notification(if message.GetOr([]) != [] then message.value else FailureFallback(m), ErrorVariant)
  }

  /** The list key holds a list and a single-post key holds one post. */
  predicate WellShaped(k: Key, v: CachedValue) {
    match k
    case PostsKey => v.PostList?
    case PostKey(_) => v.SinglePost?
  }

  /** `usePost`'s `enabled: !!id`: the single-post query runs only for an id that is neither 0 nor NaN. */
  function PostQueryEnabled(id: Number): (enabled: bool)
    ensures enabled <==> id != NaN && id != Num(0)
  {
    id.Num? && id.value != 0
  }

  class QueryCache {
    var entries: map<Key, Entry>
    /** Every notification posted so far, oldest first. */
    var notifications: seq<Notification>

    ghost predicate Valid()
      reads this
    {
      forall k :: k in entries ==> WellShaped(k, entries[k].value)
    }

    /** `getQueryData(["posts"])`: the cached list, or `None` (`undefined`) when there is none. */
    function CachedPosts(): (r: Option<seq<Post>>)
      reads this
      requires Valid()
      ensures r.Some? <==> PostsKey in entries
      ensures r.Some? ==> entries[PostsKey].value == PostList(r.value)
    {
      if PostsKey in entries then Some(entries[PostsKey].value.posts) else None
    }

    constructor()
      ensures Valid() && entries == map[] && notifications == []
    {
      entries := map[];
      notifications := [];
    }

    /** Stores `v` under `k` as fresh data. */
    method SetQueryData(k: Key, v: CachedValue)
      requires Valid() && WellShaped(k, v)
      modifies this`entries
      ensures Valid()
      ensures entries == old(entries)[k := Entry(v, false)]
    {
      entries := entries[k := Entry(v, false)];
    }

    /** Marks the entry under `k` stale; no value changes and absent keys stay absent. */
    method InvalidateQueries(k: Key)
      requires Valid()
      modifies this`entries
      ensures Valid()
      ensures entries.Keys == old(entries).Keys
      ensures forall j :: j in entries ==> entries[j].value == old(entries)[j].value
      ensures forall j :: j in entries ==> entries[j].invalidated == (j == k || old(entries)[j].invalidated)
    {
      if k in entries {
        entries := entries[k := entries[k].(invalidated := true)];
      }
    }

    /** Evicts the entry under `k`. */
    method RemoveQueries(k: Key)
      requires Valid()
      modifies this`entries
      ensures Valid()
      ensures entries == old(entries) - {k}
    {
      entries := entries - {k};
    }

    method EnqueueSnackbar(n: Notification)
      modifies this`notifications
      ensures notifications == old(notifications) + [n]
    {
      notifications := notifications + [n];
    }

    /** `useCreatePost`'s `onSuccess`. */
    method OnCreateSuccess(newPost: Post)
      requires Valid()
      modifies this
      ensures Valid()
      ensures entries == old(entries)[PostsKey := Entry(PostList(PrependPost(old(CachedPosts()), newPost)), true)]
      ensures CachedPosts().Some? && CachedPosts().value[0] == newPost
      ensures |CachedPosts().value| == |old(CachedPosts()).GetOr([])| + 1
      ensures notifications == old(notifications) + [Notification(CreatedMessage, SuccessVariant)]
    {
      var cached := CachedPosts();
      SetQueryData(PostsKey, PostList(PrependPost(cached, newPost)));
      InvalidateQueries(PostsKey);
      EnqueueSnackbar(Notification(CreatedMessage, SuccessVariant));
    }

    /** `useUpdatePost`'s `onSuccess`. */
    method OnUpdateSuccess(updatedPost: Post)
      requires Valid()
      modifies this
      ensures Valid()
      ensures entries == old(entries)[PostsKey := Entry(PostList(ReplacePost(old(CachedPosts()), updatedPost)), true)]
                                     [PostKey(updatedPost.id) := Entry(SinglePost(updatedPost), true)]
      ensures |CachedPosts().value| == |old(CachedPosts()).GetOr([])|
      ensures notifications == old(notifications) + [Notification(UpdatedMessage, SuccessVariant)]
    {
      var cached := CachedPosts();
      SetQueryData(PostsKey, PostList(ReplacePost(cached, updatedPost)));
      SetQueryData(PostKey(updatedPost.id), SinglePost(updatedPost));
      InvalidateQueries(PostsKey);
      InvalidateQueries(PostKey(updatedPost.id));
      EnqueueSnackbar(Notification(UpdatedMessage, SuccessVariant));
    }

    /** `useDeletePost`'s `onSuccess`. */
    method OnDeleteSuccess(deletedId: int)
      requires Valid()
      modifies this
      ensures Valid()
      ensures entries == old(entries)[PostsKey := Entry(PostList(RemovePost(old(CachedPosts()), deletedId)), true)]
                         - {PostKey(deletedId)}
      ensures forall p :: p in CachedPosts().value ==> p.id != deletedId
      ensures notifications == old(notifications) + [Notification(DeletedMessage, SuccessVariant)]
    {
      var cached := CachedPosts();
      SetQueryData(PostsKey, PostList(RemovePost(cached, deletedId)));
      RemoveQueries(PostKey(deletedId));
      InvalidateQueries(PostsKey);
      EnqueueSnackbar(Notification(DeletedMessage, SuccessVariant));
    }

    /** The `onError` of all three mutations: a notification only, the cache is untouched. */
    method OnMutationError(m: Mutation, message: Option<string>)
      modifies this`notifications
      ensures entries == old(entries)
      ensures notifications == old(notifications) + [ErrorNotice(m, message)]
    {
      EnqueueSnackbar(ErrorNotice(m, message));
    }
  }
}
