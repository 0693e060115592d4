/**
 * The derived list the posts page shows: the cached posts filtered by search term and
 * author, then sorted by title in the chosen direction; and the author-label lookup.
 */
module PostsView {
  import opened Text
  import opened Seqs
  import opened Types
  import opened Constants

  /** The author filter value that disables author filtering. */
  const AllUsers: string := "all"

  /** The title or the body contains the search term, ignoring (ASCII) case. */
  predicate MatchesSearch(p: Post, searchTerm: string) {
    Contains(Lower(p.title), Lower(searchTerm)) || Contains(Lower(p.body), Lower(searchTerm))
  }

  /** `"all"` accepts every author; otherwise the author id, printed, must equal the selection. */
  predicate MatchesUser(p: Post, selectedUserId: string) {
    selectedUserId == AllUsers || IntToString(p.userId) == selectedUserId
  }

  /** A post is shown when it passes both the search and the author filter. */
  function Matches(p: Post, searchTerm: string, selectedUserId: string): (r: bool)
    ensures searchTerm == [] && selectedUserId == AllUsers ==> r
    ensures r && selectedUserId != AllUsers ==> IntToString(p.userId) == selectedUserId
    ensures r ==> |searchTerm| <= |p.title| || |searchTerm| <= |p.body|
  {
    assert Lower([]) == [];
    MatchesSearch(p, searchTerm) && MatchesUser(p, selectedUserId)
  }

  /** The filter step: a fresh sequence of the matching posts, in input order. */
  function FilterPosts(posts: seq<Post>, searchTerm: string, selectedUserId: string): (r: seq<Post>)
    ensures |r| <= |posts|
    ensures forall p :: p in r ==> p in posts && Matches(p, searchTerm, selectedUserId)
  {
    Filter(posts, (p: Post) => Matches(p, searchTerm, selectedUserId))
  }

  /** The filter keeps exactly the matching posts, each as often as it occurs. */
  lemma FilterPostsCount(posts: seq<Post>, searchTerm: string, selectedUserId: string)
    ensures forall p :: p in FilterPosts(posts, searchTerm, selectedUserId) ==> Matches(p, searchTerm, selectedUserId)
    ensures forall p :: multiset(FilterPosts(posts, searchTerm, selectedUserId))[p]
                        == if Matches(p, searchTerm, selectedUserId) then multiset(posts)[p] else 0
  {
    forall p
      ensures multiset(FilterPosts(posts, searchTerm, selectedUserId))[p]
              == if Matches(p, searchTerm, selectedUserId) then multiset(posts)[p] else 0
    {
      FilterCount(posts, (p: Post) => Matches(p, searchTerm, selectedUserId), p);
    }
  }

  /** The filter distributes over concatenation, so the kept posts stay in input order. */
  lemma FilterPostsAppend(a: seq<Post>, b: seq<Post>, searchTerm: string, selectedUserId: string)
    ensures FilterPosts(a + b, searchTerm, selectedUserId)
            == FilterPosts(a, searchTerm, selectedUserId) + FilterPosts(b, searchTerm, selectedUserId)
  {
    FilterAppend(a, b, (p: Post) => Matches(p, searchTerm, selectedUserId));
  }

  /** Selecting a printed author id keeps exactly that author's posts. */
  lemma SelectedUserIff(p: Post, u: int)
    ensures MatchesUser(p, IntToString(u)) <==> p.userId == u
  {
    IntToStringInjective(p.userId, u);
    assert IntToString(u) != AllUsers by {
      var s := IntToString(u);
      assert s[0] == '-' || DigitValue(s[0]) < 10;
    }
  }

  /** With no search term and every author selected, the filter keeps every post. */
  lemma NoCriteriaKeepsAll(posts: seq<Post>)
    ensures FilterPosts(posts, "", AllUsers) == posts
  {
    forall i | 0 <= i < |posts| ensures Matches(posts[i], "", AllUsers) {
      assert Lower("") == "";
      assert Contains(Lower(posts[i].title), "");
    }
    FilterKeepsAll(posts, (p: Post) => Matches(p, "", AllUsers));
  }

  // ---------------------------------------------------------------------------
  // Sorting by title
  // ---------------------------------------------------------------------------

  /** The sort comparator: `a.title.localeCompare(b.title)` ascending, reversed descending. */
  function ComparePosts(a: Post, b: Post, order: SortOrder): (r: int)
    ensures -1 <= r <= 1
    ensures order == Desc ==> r == -Compare(a.title, b.title)
  {
    CompareAntisymmetric(a.title, b.title);
    if order == Asc then Compare(a.title, b.title) else Compare(b.title, a.title)
  }

  lemma ComparePostsZero(a: Post, b: Post, order: SortOrder)
    ensures ComparePosts(a, b, order) == 0 <==> a.title == b.title
  {
    CompareZeroIff(a.title, b.title);
    CompareZeroIff(b.title, a.title);
  }

  lemma ComparePostsFlip(a: Post, b: Post, order: SortOrder)
    ensures ComparePosts(b, a, order) == -ComparePosts(a, b, order)
  {
    CompareAntisymmetric(a.title, b.title);
  }

  lemma ComparePostsTransitive(a: Post, b: Post, c: Post, order: SortOrder)
    requires ComparePosts(a, b, order) <= 0 && ComparePosts(b, c, order) <= 0
    ensures ComparePosts(a, c, order) <= 0
  {
    if order == Asc {
      CompareTransitive(a.title, b.title, c.title);
    } else {
      CompareTransitive(c.title, b.title, a.title);
    }
  }

  /** Every earlier post compares at most equal to every later one. */
  ghost predicate Sorted(s: seq<Post>, order: SortOrder) {
    forall i, j :: 0 <= i < j < |s| ==> ComparePosts(s[i], s[j], order) <= 0
  }

  /** The posts with title `t`, in their order in `s`. */
  function WithTitle(s: seq<Post>, t: string): seq<Post> {
    Filter(s, (p: Post) => p.title == t)
  }

  lemma WithTitleCons(x: Post, s: seq<Post>, t: string)
    ensures WithTitle([x] + s, t) == (if x.title == t then [x] else []) + WithTitle(s, t)
  {
    assert ([x] + s)[1..] == s;
  }

  /** A non-empty sequence's head leads the class of its title. */
  lemma WithTitleHead(s: seq<Post>)
    ensures s != [] ==> WithTitle(s, s[0].title) != [] && WithTitle(s, s[0].title)[0] == s[0]
  {
  }

  /** Places `x` before the first element it does not sort after. */
  function Insert(x: Post, ys: seq<Post>, order: SortOrder): (r: seq<Post>)
    ensures multiset(r) == multiset{x} + multiset(ys)
  {
    if ys == [] then [x]
    else if ComparePosts(x, ys[0], order) <= 0 then [x] + ys
    else
      assert ys == [ys[0]] + ys[1..];
      [ys[0]] + Insert(x, ys[1..], order)
  }

  /**
   * Stand-in for `Array.prototype.sort` with the title comparator: an insertion sort,
   * stable because an element never moves past one with an equal title.
   */
  function SortPosts(s: seq<Post>, order: SortOrder): (r: seq<Post>)
    ensures multiset(r) == multiset(s)
  {
    if s == [] then []
    else
      assert s == [s[0]] + s[1..];
      Insert(s[0], SortPosts(s[1..], order), order)
  }

  lemma SortedHeadFirst(a: seq<Post>, order: SortOrder, y: Post)
    requires Sorted(a, order) && y in a
    ensures ComparePosts(a[0], y, order) <= 0
  {
    var k :| 0 <= k < |a| && a[k] == y;
    if k == 0 {
      ComparePostsZero(y, y, order);
    }
  }

  /** A post that sorts no later than every post of a sorted sequence can lead it. */
  lemma ConsSorted(y: Post, rest: seq<Post>, order: SortOrder)
    requires Sorted(rest, order)
    requires forall z :: z in rest ==> ComparePosts(y, z, order) <= 0
    ensures Sorted([y] + rest, order)
  {
    var r := [y] + rest;
    forall i, j | 0 <= i < j < |r| ensures ComparePosts(r[i], r[j], order) <= 0 {
      if i == 0 {
        assert r[j] == rest[j - 1];
      } else {
        assert r[i] == rest[i - 1] && r[j] == rest[j - 1];
      }
    }
  }

  lemma {:induction false} InsertSorted(x: Post, ys: seq<Post>, order: SortOrder)
    requires Sorted(ys, order)
    ensures Sorted(Insert(x, ys, order), order)
    decreases |ys|
  {
    if ys == [] {
    } else if ComparePosts(x, ys[0], order) <= 0 {
      forall z | z in ys ensures ComparePosts(x, z, order) <= 0 {
        SortedHeadFirst(ys, order, z);
        ComparePostsTransitive(x, ys[0], z, order);
      }
      ConsSorted(x, ys, order);
    } else {
      var rest := Insert(x, ys[1..], order);
      InsertSorted(x, ys[1..], order);
      ComparePostsFlip(x, ys[0], order);
      forall z | z in rest ensures ComparePosts(ys[0], z, order) <= 0 {
        assert z in multiset(rest);
        if z != x {
          assert z in multiset(ys[1..]);
          assert z in ys;
          SortedHeadFirst(ys, order, z);
        }
      }
      ConsSorted(ys[0], rest, order);
    }
  }

  lemma {:induction false} SortSorted(s: seq<Post>, order: SortOrder)
    ensures Sorted(SortPosts(s, order), order)
    decreases |s|
  {
    if s != [] {
      SortSorted(s[1..], order);
      InsertSorted(s[0], SortPosts(s[1..], order), order);
    }
  }

  /** Two posts with different titles can swap places without changing any title class. */
  lemma SwapDistinctTitles(x: Post, y: Post, s: seq<Post>, t: string)
    requires x.title != y.title
    ensures WithTitle([y] + ([x] + s), t) == WithTitle([x] + ([y] + s), t)
  {
    WithTitleCons(y, [x] + s, t);
    WithTitleCons(x, s, t);
    WithTitleCons(x, [y] + s, t);
    WithTitleCons(y, s, t);
  }

  /** Inserting keeps the order among equal titles: `x` stays ahead of the equal titles after it. */
  lemma {:induction false} InsertStable(x: Post, ys: seq<Post>, order: SortOrder, t: string)
    ensures WithTitle(Insert(x, ys, order), t) == WithTitle([x] + ys, t)
    decreases |ys|
  {
    if ys != [] && ComparePosts(x, ys[0], order) > 0 {
      var y, tail := ys[0], ys[1..];
      assert ys == [y] + tail;
      ComparePostsZero(x, y, order);
      calc {
        WithTitle(Insert(x, ys, order), t);
        WithTitle([y] + Insert(x, tail, order), t);
        { WithTitleCons(y, Insert(x, tail, order), t); }
        (if y.title == t then [y] else []) + WithTitle(Insert(x, tail, order), t);
        { InsertStable(x, tail, order, t); }
        (if y.title == t then [y] else []) + WithTitle([x] + tail, t);
        { WithTitleCons(y, [x] + tail, t); }
        WithTitle([y] + ([x] + tail), t);
        { SwapDistinctTitles(x, y, tail, t); }
        WithTitle([x] + ys, t);
      }
    }
  }

  /** The sort is stable: posts with equal titles keep their relative input order. */
  lemma {:induction false} SortStable(s: seq<Post>, order: SortOrder, t: string)
    ensures WithTitle(SortPosts(s, order), t) == WithTitle(s, t)
    decreases |s|
  {
    if s != [] {
      SortStable(s[1..], order, t);
      InsertStable(s[0], SortPosts(s[1..], order), order, t);
      WithTitleCons(s[0], SortPosts(s[1..], order), t);
      WithTitleCons(s[0], s[1..], t);
      assert s == [s[0]] + s[1..];
    }
  }

  /**
   * A sorted sequence is determined by what it holds per title, in order: two sorted
   * sequences that agree on every title class are equal. So every stable sort by this
   * comparator, `Array.prototype.sort` included, gives the output of `SortPosts`.
   */
  lemma {:induction false} SortedStableUnique(a: seq<Post>, b: seq<Post>, order: SortOrder)
    requires Sorted(a, order) && Sorted(b, order)
    requires forall t :: WithTitle(a, t) == WithTitle(b, t)
    ensures a == b
    decreases |a|
  {
    WithTitleHead(a);
    WithTitleHead(b);
    if a != [] && b != [] {
      SameHead(a, b, order);
      TailsAgree(a, b);
      SortedStableUnique(a[1..], b[1..], order);
      assert a == [a[0]] + a[1..];
      assert b == [b[0]] + b[1..];
    }
  }

  /** Two sorted sequences with the same title classes start with the same post. */
  lemma SameHead(a: seq<Post>, b: seq<Post>, order: SortOrder)
    requires a != [] && b != []
    requires Sorted(a, order) && Sorted(b, order)
    requires forall t :: WithTitle(a, t) == WithTitle(b, t)
    ensures a[0] == b[0]
  {
    WithTitleHead(a);
    WithTitleHead(b);
    // Each head has a post with its title in the other sequence, which it cannot follow.
    var y := WithTitle(a, b[0].title)[0];
    assert y in a && y.title == b[0].title;
    SortedHeadFirst(a, order, y);
    var x := WithTitle(b, a[0].title)[0];
    assert x in b && x.title == a[0].title;
    SortedHeadFirst(b, order, x);
    ComparePostsFlip(a[0], b[0], order);
    ComparePostsZero(a[0], b[0], order);
  }

  /** Removing a common head leaves the title classes of the tails equal. */
  lemma TailsAgree(a: seq<Post>, b: seq<Post>)
    requires a != [] && b != [] && a[0] == b[0]
    requires forall t :: WithTitle(a, t) == WithTitle(b, t)
    ensures forall t :: WithTitle(a[1..], t) == WithTitle(b[1..], t)
  {
    assert a == [a[0]] + a[1..];
    assert b == [b[0]] + b[1..];
    forall t ensures WithTitle(a[1..], t) == WithTitle(b[1..], t) {
      WithTitleCons(a[0], a[1..], t);
      WithTitleCons(b[0], b[1..], t);
      var head := if a[0].title == t then [a[0]] else [];
      assert WithTitle(a, t) == WithTitle(b, t);
      assert WithTitle(a[1..], t) == WithTitle(a, t)[|head|..];
      assert WithTitle(b[1..], t) == WithTitle(b, t)[|head|..];
    }
  }

  // ---------------------------------------------------------------------------
  // The derived view
  // ---------------------------------------------------------------------------

  /**
   * The page's `filteredPosts`: filter, then sort the fresh filtered copy by title.
   * Its output holds exactly the matching input posts, ordered by title in the chosen
   * direction, with equal titles in input order.
   */
  function FilteredPosts(posts: seq<Post>, searchTerm: string, selectedUserId: string, order: SortOrder): (r: seq<Post>)
    ensures forall p :: p in r ==> Matches(p, searchTerm, selectedUserId)
    ensures forall p :: multiset(r)[p] == if Matches(p, searchTerm, selectedUserId) then multiset(posts)[p] else 0
    ensures order == Asc ==> forall i, j :: 0 <= i < j < |r| ==> Compare(r[i].title, r[j].title) <= 0
    ensures order == Desc ==> forall i, j :: 0 <= i < j < |r| ==> Compare(r[j].title, r[i].title) <= 0
    ensures forall t :: WithTitle(r, t) == WithTitle(FilterPosts(posts, searchTerm, selectedUserId), t)
  {
    var kept := FilterPosts(posts, searchTerm, selectedUserId);
    FilterPostsCount(posts, searchTerm, selectedUserId);
    SortSorted(kept, order);
    SortStableAll(kept, order);
    var r := SortPosts(kept, order);
    assert forall p :: p in r ==> p in multiset(kept);
    r
  }

  lemma SortStableAll(s: seq<Post>, order: SortOrder)
    ensures forall t :: WithTitle(SortPosts(s, order), t) == WithTitle(s, t)
  {
    forall t ensures WithTitle(SortPosts(s, order), t) == WithTitle(s, t) {
      SortStable(s, order, t);
    }
  }

  /** Any sorted arrangement of the filtered posts that keeps equal titles in input order is the view. */
  lemma FilteredPostsUnique(posts: seq<Post>, searchTerm: string, selectedUserId: string, order: SortOrder, other: seq<Post>)
    requires Sorted(other, order)
    requires forall t :: WithTitle(other, t) == WithTitle(FilterPosts(posts, searchTerm, selectedUserId), t)
    ensures other == FilteredPosts(posts, searchTerm, selectedUserId, order)
  {
    var kept := FilterPosts(posts, searchTerm, selectedUserId);
    SortSorted(kept, order);
    SortStableAll(kept, order);
    SortedStableUnique(other, SortPosts(kept, order), order);
  }

  // ---------------------------------------------------------------------------
  // Author labels
  // ---------------------------------------------------------------------------

  /** The index of the first user at or after `i` with id `userId` (`|users|` if none). */
  function FindUser(users: seq<User>, userId: int, i: nat): (k: nat)
    requires i <= |users|
    ensures i <= k <= |users|
    ensures forall j :: i <= j < k ==> users[j].id != userId
    ensures k < |users| ==> users[k].id == userId
    decreases |users| - i
  {
    if i == |users| || users[i].id == userId then i else FindUser(users, userId, i + 1)
  }

  /** The name of the first user with that id, or `"User <id>"` when there is none. */
  function GetUserName(users: seq<User>, userId: int): (name: string)
    ensures (forall i :: 0 <= i < |users| ==> users[i].id != userId) ==> name == "User " + IntToString(userId)
    ensures forall i :: 0 <= i < |users| && users[i].id == userId && (forall j :: 0 <= j < i ==> users[j].id != userId)
                        ==> name == users[i].name
  {
    var k := FindUser(users, userId, 0);
    if k < |users| then users[k].name else "User " + IntToString(userId)
  }
}
