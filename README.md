# Posts front end: a Dafny model of its logic

This project models the behaviour of a React CRUD front end for a "posts" REST resource.
Only the parts that carry logic are modelled:

- the derived view of the posts page: posts filtered by search term (case-insensitive,
  title or body) and author, then stably sorted by title in either direction, plus the
  author-label lookup (`PostsView.dfy`);
- the create/edit form: field validation, the submitted payload, and the choice between
  the create and update mutations (`PostForm.dfy`);
- the effect of a successful or failed create/update/delete on the shared query cache,
  modelled as a class holding a `map` from query key to entry and a log of notifications,
  with the list updaters as pure sequence functions (`PostsCache.dfy`);
- the REST client's response-error interceptor and the request each posts call sends (`Api.dfy`);
- the two preference stores: UI filters/view mode with the persisted projection, and the
  theme (`PostsStore.dfy`, `ThemeStore.dfy`, both classes whose methods update fields);
- validation bounds, messages and route builders (`Constants.dfy`).

The JavaScript built-ins this logic depends on are written out in `Text.dfy`:
`String.prototype.trim` (ECMAScript white space and line terminators), `length` in UTF-16
code units, `includes`, `toLowerCase` (ASCII letters only), integer `toString`,
`Number.parseInt` (whitespace, sign, `0x` prefix, longest digit run, NaN) and a
code-point lexicographic comparison in place of `localeCompare`. `Seqs.dfy` holds the
order-preserving `Filter` shared by the view and the cache.

Behaviour worth noting, as the code has it:

- A failed delete (a 404 included) leaves the cache as it was: the single-post entry is
  evicted only in the success handler.
- The author filter compares the printed author id with the selected string
  (`userId.toString() === selectedUserId`); `SelectedUserIff` shows this is the same as
  comparing ids when the selection is a printed id.
- The form's single-post query uses `parseInt` of the route's `:id`, and is disabled when
  that is 0 or NaN.
- The filter builds a fresh sequence before sorting, so the cached list itself is never
  reordered; in the model every list is an immutable value.

## Model

| member | source | states |
|---|---|---|
| Seqs.Filter | src/components/PostsManager.tsx:128 | `Array.prototype.filter`: every kept element is from the input and accepted, and there are no more of them than input elements |
| Seqs.FilterAppend | src/components/PostsManager.tsx:128 | filtering distributes over concatenation, so kept elements keep their relative order |
| Seqs.FilterCount | src/hooks/usePosts.ts:113 | an accepted value is kept exactly as often as it occurs, a rejected one never |
| Seqs.FilterKeepsAll | src/hooks/usePosts.ts:113 | when every element is accepted the result is the input |
| Text.ContainsIff | src/components/PostsManager.tsx:131-132 | `includes` holds exactly when the term occurs at some index of the string; the empty term occurs everywhere |
| Text.Contains | src/components/PostsManager.tsx:131-132 | `includes`: the empty term is always included, a string includes itself, and a term longer than the string never is |
| Text.Lower | src/components/PostsManager.tsx:131-132 | `toLowerCase` keeps the length, leaves no ASCII capital, and keeps every character that is not one |
| Text.Trim | src/components/PostForm.tsx:92-114 | `trim` splits the input into white space, the result, and white space, and the result neither starts nor ends with white space; it is empty exactly when the input is all white space |
| Text.TrimIdempotent | src/components/PostForm.tsx:134-135 | trimming a trimmed value changes nothing |
| Text.Utf16Length | src/components/PostForm.tsx:94-98 | the length the validator compares counts UTF-16 units: the character count when no character is above U+FFFF, twice it exactly when every character is, and in between otherwise |
| Text.Utf16LengthAppend | src/components/PostForm.tsx:94-98 | the UTF-16 length of a concatenation is the sum of the lengths, so with the one-character cases it fixes the length of every string |
| Text.ParseIntToString | src/components/PostForm.tsx:58 | `parseInt` of a printed integer gives that integer back |
| Text.ParseInt | src/components/PostForm.tsx:136-137 | `Number.parseInt`: a number is read only when the text has a decimal digit, and a negative one only when it has a minus sign |
| Text.ParseIntSkipsWhitespace | src/components/PostForm.tsx:58 | `parseInt` ignores leading white space |
| Text.ParseIntPlus | src/components/PostForm.tsx:136 | `parseInt` drops a leading plus sign and reads the rest unsigned |
| Text.IntToString | src/components/PostsManager.tsx:134 | `toString` of an integer is a non-empty run of decimal digits without a leading zero, preceded by a minus sign exactly when the integer is negative |
| Text.ParseIntToStringPrefix | src/components/PostForm.tsx:136-137 | `parseInt` of a printed integer followed by any text that does not start with a decimal digit (nor with `x`/`X` after a lone `0`) gives the integer back |
| Text.IntToStringInjective | src/components/PostsManager.tsx:134 | distinct ids print as distinct strings |
| Text.CompareZeroIff | src/components/PostsManager.tsx:139 | the title comparison is zero exactly for equal titles |
| Text.CompareAntisymmetric | src/components/PostsManager.tsx:141 | swapping the operands negates the comparison, so descending is ascending reversed |
| Text.CompareTransitive | src/components/PostsManager.tsx:137-142 | the title comparison is transitive, a consistent comparator for the sort |
| Text.Compare | src/components/PostsManager.tsx:139 | the stand-in for `localeCompare` returns -1, 0 or 1; with the three lemmas above it is a total order that is zero only for equal strings |
| Constants.BoundsOrdered | src/constants/index.ts:76-85 | title bounds 3..100 and body bounds 10..1000, each minimum positive and below its maximum |
| Constants.MinLengthMessage | src/constants/index.ts:88 | the minimum-length message starts with "Must be at least " |
| Constants.MaxLengthMessage | src/constants/index.ts:89 | the maximum-length message starts with "Must be no more than " |
| Constants.MinLengthMessageBound | src/constants/index.ts:88 | the bound can be read back from the minimum-length message |
| Constants.MaxLengthMessageBound | src/constants/index.ts:89 | the bound can be read back from the maximum-length message |
| Constants.LengthMessagesDistinct | src/constants/index.ts:87-89 | required, minimum and maximum messages never coincide, and a length message determines its bound |
| Constants.EditRoute | src/constants/index.ts:151 | the edit path is "/edit/" followed by a non-empty id segment |
| Constants.PostDetailRoute | src/constants/index.ts:152 | the detail path is "/post/" followed by a non-empty id segment |
| Constants.RouteParam | src/App.tsx:152-153 | a path matches `/edit/:id` or `/post/:id` exactly when it is the prefix followed by a non-empty segment without `/`, and then `:id` is that segment |
| Constants.EditRouteRoundTrip | src/constants/index.ts:151 | the `:id` of `EDIT(n)`, parsed as the form parses it, is `n` for every integer `n` |
| Constants.PostDetailRouteRoundTrip | src/constants/index.ts:152 | the `:id` of `POST_DETAIL(n)`, parsed as the detail page parses it, is `n` |
| Api.Classify | src/services/api.ts:35-42 | 404 is not-found; otherwise status 500 or more is server error; otherwise code ECONNABORTED is timeout; each kind in both directions; otherwise the error's message when non-empty, else "An unexpected error occurred" |
| Api.ErrorMessage | src/services/api.ts:33-43 | the thrown message rule by rule: "Resource not found" for 404, the server-error text for 500 or more, the timeout text for ECONNABORTED, else the error's message or "An unexpected error occurred"; never empty |
| Api.KindMessage | src/services/api.ts:36-42 | the three rule kinds have pairwise distinct messages, and any other error keeps its own message |
| Api.NotFoundWins | src/services/api.ts:35-36 | a 404 maps to "Resource not found" whatever the code and message |
| Api.TimeoutOnlyWithoutStatusRule | src/services/api.ts:37-40 | a timeout code yields the timeout message exactly when neither status rule applies |
| Api.Intercept | src/services/api.ts:29-44 | a response passes through unchanged; a failure always rejects with the classified message |
| Api.RequestFor | src/services/api.ts:47-73 | list and get use GET, create POST, update PUT, delete DELETE; list and create hit "/posts", the others the post's own path; create sends the draft and update the whole post, the others no body |
| Api.PostPath | src/services/api.ts:54 | a post's path is "/posts/" followed by one segment without `/` |
| Api.PostPathRoundTrip | src/services/api.ts:54 | the id can be parsed back from "/posts/" + id |
| Api.SamePathIffSameId | src/services/api.ts:53-73 | two single-post calls address the same path exactly when they name the same id |
| PostsView.Matches | src/components/PostsManager.tsx:129-135 | a post passes both filters; with no term and "all" every post passes; a selected author must print as the selection |
| PostsView.FilterPosts | src/components/PostsManager.tsx:128-136 | the filter returns only input posts that match, and no more than there were |
| PostsView.FilterPostsAppend | src/components/PostsManager.tsx:128-136 | the filter distributes over concatenation, so the kept posts stay in input order |
| PostsView.FilterPostsCount | src/components/PostsManager.tsx:128-136 | the filter keeps exactly the matching posts, each as often as it occurs in the input |
| PostsView.SelectedUserIff | src/components/PostsManager.tsx:133-134 | selecting a printed author id keeps exactly that author's posts |
| PostsView.NoCriteriaKeepsAll | src/components/PostsManager.tsx:130-135 | an empty term with "all" keeps every post, in order |
| PostsView.ComparePostsZero | src/components/PostsManager.tsx:137-142 | the post comparator is zero exactly for equal titles, in both directions |
| PostsView.ComparePostsFlip | src/components/PostsManager.tsx:137-142 | the post comparator is antisymmetric |
| PostsView.ComparePostsTransitive | src/components/PostsManager.tsx:137-142 | the post comparator is transitive |
| PostsView.ComparePosts | src/components/PostsManager.tsx:137-142 | the comparator returns -1, 0 or 1, and descending is ascending negated; with the three lemmas above it is a consistent comparator |
| PostsView.Insert | src/components/PostsManager.tsx:137 | inserting adds exactly the one post |
| PostsView.SortPosts | src/components/PostsManager.tsx:137-142 | the sort is a permutation of its input |
| PostsView.InsertSorted | src/components/PostsManager.tsx:137-142 | inserting into a sorted list keeps it sorted |
| PostsView.SortSorted | src/components/PostsManager.tsx:137-142 | the sort's output is ordered by the comparator |
| PostsView.SortStable | src/components/PostsManager.tsx:137-142 | posts with equal titles keep their relative input order |
| PostsView.SortedStableUnique | src/components/PostsManager.tsx:137-142 | a sorted sequence is determined by its per-title subsequences, so every stable sort gives this output |
| PostsView.FilteredPosts | src/components/PostsManager.tsx:127-143 | output holds exactly the matching posts with their multiplicities, non-decreasing by title for asc, non-increasing for desc, equal titles in input order |
| PostsView.FilteredPostsUnique | src/components/PostsManager.tsx:127-143 | any sorted, stable arrangement of the filtered posts equals the view |
| PostsView.GetUserName | src/components/PostsManager.tsx:145-148 | the name of the first user with the id, else "User " + id |
| PostsCache.PrependPost | src/hooks/usePosts.ts:52-54 | after create the new post comes first, followed by the old list or nothing; length grows by one |
| PostsCache.ReplaceAll | src/hooks/usePosts.ts:79-81 | after update the list keeps its length and order; posts with the updated id become the updated post, others are unchanged |
| PostsCache.ReplacePost | src/hooks/usePosts.ts:77-83 | the update's list updater: ids and length are kept, every post with the updated id becomes the updated post, the others are unchanged, and no cached list gives the empty list |
| PostsCache.RemovePost | src/hooks/usePosts.ts:112-114 | after delete no post has the deleted id |
| PostsCache.RemovePostCount | src/hooks/usePosts.ts:113 | every other post is kept as often as it was cached; no entry gives the empty list |
| PostsCache.RemovePostKeepsOrder | src/hooks/usePosts.ts:113 | delete distributes over concatenation, so survivors keep their order |
| PostsCache.RemoveAbsentId | src/hooks/usePosts.ts:113 | deleting an id nobody has leaves the list unchanged |
| PostsCache.CreateThenDelete | src/hooks/usePosts.ts:52-54 | create followed by delete of the new id leaves the list as delete alone |
| PostsCache.UpdateThenDelete | src/hooks/usePosts.ts:79-81 | update followed by delete of that id leaves the list as delete alone |
| PostsCache.ReplaceIdempotent | src/hooks/usePosts.ts:79-81 | applying the same update twice is the same as once |
| PostsCache.ErrorNotice | src/hooks/usePosts.ts:61-65 | the error notification carries the error's message, or the mutation's fallback when it is empty |
| PostsCache.PostQueryEnabled | src/hooks/usePosts.ts:39 | `enabled: !!id`: the single-post query runs exactly when the id is neither NaN nor 0 |
| PostsCache.QueryCache.CachedPosts | src/hooks/usePosts.ts:52 | the updater sees the cached list, or nothing when the key has no entry |
| PostsCache.QueryCache.SetQueryData | src/hooks/usePosts.ts:86 | writing an entry replaces exactly that key's value, as fresh data |
| PostsCache.QueryCache.InvalidateQueries | src/hooks/usePosts.ts:89-92 | invalidation marks the key stale and changes no value and no key |
| PostsCache.QueryCache.RemoveQueries | src/hooks/usePosts.ts:117 | removal evicts exactly that key |
| PostsCache.QueryCache.EnqueueSnackbar | src/hooks/usePosts.ts:59 | a notification is appended to the log; nothing else changes |
| PostsCache.QueryCache.OnCreateSuccess | src/hooks/usePosts.ts:50-60 | the list entry becomes the prepended list, marked stale; nothing else changes; a success notification is logged |
| PostsCache.QueryCache.OnUpdateSuccess | src/hooks/usePosts.ts:75-95 | the list entry becomes the replaced list and the post's own entry the updated post, both stale; a success notification is logged |
| PostsCache.QueryCache.OnDeleteSuccess | src/hooks/usePosts.ts:110-123 | the list entry loses the id and is stale, that post's entry is evicted, other entries are untouched |
| PostsCache.QueryCache.OnMutationError | src/hooks/usePosts.ts:124-128 | on error the cache is unchanged and only an error notification is logged |
| PostForm.ValidateForm | src/components/PostForm.tsx:89-122 | the record follows the per-field rules: a title or body message exactly when out of bounds, required exactly when trimmed blank, minimum exactly when 1 to min-1 units, maximum exactly when above max; author message exactly when unset; valid exactly when the record is empty, exactly when every field is valid |
| PostForm.ReportsErrorsUnique | src/components/PostForm.tsx:89-122 | the per-field rules leave exactly one possible error record |
| PostForm.BuildPostData | src/components/PostForm.tsx:133-138 | the payload holds the trimmed title and body, `parseInt` of the author, and, exactly when editing, `parseInt` of the route's `:id` |
| PostForm.QueryId | src/components/PostForm.tsx:58 | the single-post query asks for `parseInt` of `:id` when editing and for 0 otherwise, so it can run only when editing |
| PostForm.IsEditing | src/components/PostForm.tsx:42 | `!!id`: editing exactly when the route supplied an `:id` that is not the empty string |
| PostForm.EditUnchangedRoundTrip | src/components/PostForm.tsx:72-78 | loading a post whose title and body carry no surrounding white space into the form and submitting it unchanged sends the same post, id included |
| PostForm.EditPageQueryEnabled | src/hooks/usePosts.ts:39 | on the edit page of post n the single-post query runs exactly when n is not 0 |
| PostForm.CreatePageQueryDisabled | src/components/PostForm.tsx:58 | on the create page the single-post query is disabled |
| PostForm.HandleSubmit | src/components/PostForm.tsx:124-150 | the error record set is the one validation produces; an invalid form only shows a toast and requests no mutation; a valid one requests update exactly when editing, create otherwise, with the built payload |
| PostsStore.FiltersReset | src/store/postsStore.ts:42-47 | reset restores search, author and sort to their initial values and keeps the view mode |
| PostsStore.ResetFiltersIdempotent | src/store/postsStore.ts:42-47 | resetting twice is resetting once |
| PostsStore.Partialize | src/store/postsStore.ts:51-54 | the persisted projection holds exactly view mode and sort order |
| PostsStore.Rehydrate | src/store/postsStore.ts:49-55 | a restored session keeps exactly the stored preferences and starts from the initial filters |
| PostsStore.PersistRoundTrip | src/store/postsStore.ts:49-55 | restoring what was stored loses no persisted preference and starts the filters afresh |
| PostsStore.FiltersNotPersisted | src/store/postsStore.ts:51-54 | search term and author filter never reach storage |
| PostsStore.PostsUIStore.constructor | src/store/postsStore.ts:32-35 | the initial state is "", "all", desc, grid |
| PostsStore.PostsUIStore.SetSearchTerm | src/store/postsStore.ts:38 | changes the search term only, and what is stored stays the same |
| PostsStore.PostsUIStore.SetSelectedUserId | src/store/postsStore.ts:39 | changes the author filter only, and what is stored stays the same |
| PostsStore.PostsUIStore.SetSortOrder | src/store/postsStore.ts:40 | changes the sort order only |
| PostsStore.PostsUIStore.SetViewMode | src/store/postsStore.ts:41 | changes the view mode only |
| PostsStore.PostsUIStore.ResetFilters | src/store/postsStore.ts:42-47 | the new state is the reset of the old one; of what is stored, only the sort order changes, back to desc |
| ThemeStore.Toggled | src/store/themeStore.ts:17-20 | toggling always changes the mode |
| ThemeStore.ToggleTwice | src/store/themeStore.ts:17-20 | toggling twice restores the mode |
| ThemeStore.ThemeState.constructor | src/store/themeStore.ts:16 | the initial mode is light |
| ThemeStore.ThemeState.ToggleTheme | src/store/themeStore.ts:17-20 | light becomes dark and dark becomes light |
| ThemeStore.ThemeState.SetTheme | src/store/themeStore.ts:21 | the mode becomes the given one whatever it was, so repeating it changes nothing |

## Left out

- Collation: `localeCompare` is replaced by lexicographic comparison of code points, which can order accented or mixed-case titles differently from a locale; only its consistency (zero for equal strings, antisymmetric, transitive) is relied on.
- Case folding: `toLowerCase` is modelled for the ASCII letters only; other letters keep their case.
- Numbers are unbounded integers: no IEEE-754 doubles, no fractional ids, no exponent notation in `toString`, no precision loss in `parseInt` beyond 2^53.
- Route matching models a plain `/edit/:id` or `/post/:id` segment; trailing slashes, percent-decoding and case-insensitive matching of the router are not modelled.
- The query cache's timing and background work: stale and garbage-collection times, the refetch that invalidation triggers for active queries, request deduplication and retries belong to the caching library; invalidation is modelled as a stale flag. Keys are matched exactly, since no key of these hooks extends another.
- The fetching query functions of `usePosts` and `usePost` (network I/O and their "Failed to fetch" notifications), the users list query and `usersApi`.
- How the mutation library calls `onSuccess` and `onError` and its pending flags: the handlers are modelled directly as methods.
- The axios transport, the ten-second timeout, the request-logging interceptor and console output.
- Storage I/O of the persisted stores and the devtools middleware; `Rehydrate` stands for the default shallow merge of stored preferences into the initial state.
- Notifications are a log of message and variant; their display, duration and position are not modelled.
- User records carry only `id` and `name`, the fields the modelled logic reads.
- All rendering, layout, animation, theming styles, navigation and timers.
