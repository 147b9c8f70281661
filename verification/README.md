# Telegram Mini App news feed: a Dafny model

This project models the core of a Telegram Mini App. In the app, users read published articles, react to them with emojis and comment on them. Editors write and publish articles. Admins assign roles. Everything is stored in a hosted Supabase (PostgREST) database.

The model has two parts:

- **The repository layer** (`src/lib/supabase.ts`). The four remote tables `user_profiles`, `articles`, `comments` and `reactions` are the fields of one `Store` object. Each exported repository function is a method on it.
- **The client logic of the views.** This covers:
  - the reaction bar, its counting loop and its switching protocol;
  - the bottom tab bar and the page guards;
  - the editor form and the admin search;
  - the comment list, the article feed and the sign-in hook.

  Each stateful view (the reaction bar, the editor form, the admin search, the comment list, the article feed and the sign-in hook) is a class. Its fields are the component's state and its methods are its handlers. `BottomNavigation` keeps no state of its own, so it is modelled by pure functions of the user and the chosen tab.

Each remote round trip is a parameter of type `Transport`. It is either `Delivered` or `Failed(thrown)`, where `thrown` is the value a `catch` would receive. So every error path of the source is a branch of the model.

Handlers that end with `void loadX()` or `void fetchX()` do not perform the reload. They return a flag that tells whether it would be triggered.

Files:

| file | module | models |
|---|---|---|
| common.dfy | Common | `Option`, `Result`, the thrown value, `err instanceof Error ? err.message : fallback`, JavaScript `\|\|` on strings |
| text.dfy | Text | `trim`, `/^\d+$/` with `parseInt`, decimal rendering of ids, `ilike '%q%'` |
| ordering.dfy | Ordering | the query operators `.eq` (filter), `.order`, `.range` and `.limit` |
| schema.dfy | Schema | the table rows and the Telegram user |
| supabase.dfy | Supabase | `src/lib/supabase.ts` |
| reaction_buttons.dfy | ReactionButtons | `src/components/ReactionButtons.tsx` |
| bottom_navigation.dfy | BottomNavigation | `src/components/BottomNavigation.tsx` |
| editor_page.dfy | EditorPage | `src/pages/EditorPage.tsx` |
| admin_page.dfy | AdminPage | `src/pages/AdminPage.tsx` |
| comment_section.dfy | CommentSection | `src/components/CommentSection.tsx` |
| article_list.dfy | ArticleList | `src/components/ArticleList.tsx` |
| use_auth.dfy | UseAuth | `src/hooks/useAuth.ts` |

Behaviour of the code that the model keeps on purpose:

- **`addComment` checks nothing.** The repository's `addComment` inserts whatever text it is given. The blank-input guard exists only in `CommentSection`'s handler. The model follows the code here.
- **`toggleReaction` lookup failures.** The lookup's error is never checked. A failed lookup, or a lookup that matches zero rows or more than one row, reads as "no row" and leads to an insert (`Supabase.Existing`).
- **`ArticleList` empty error messages.** `ArticleList` tests the error string for truthiness. A thrown `Error` with an empty message therefore shows no error view (`ArticleList.Render`).
- **`ReactionButtons` empty current emoji.** `ReactionButtons` tests `if (userReaction)`, so an empty-string current emoji is not retracted before adding (`ReactionButtons.Truthy`).

## Model

| member | source | states |
|---|---|---|
| Common.MessageOf | src/hooks/useAuth.ts:28 | an `Error` yields its message; any other thrown value yields the fallback text |
| Common.OrElse | src/lib/supabase.ts:63-65 | `s \|\| fallback`: the string itself when present and non-empty, otherwise the fallback |
| Common.OrNull | src/lib/supabase.ts:66 | `s \|\| null`: present exactly when the input is present and non-empty |
| Text.TrimStart | src/pages/EditorPage.tsx:44 | the result is a suffix of the input; what was removed is all whitespace; the result does not start with whitespace |
| Text.TrimEnd | src/pages/EditorPage.tsx:44 | the result is a prefix of the input; what was removed is all whitespace; the result does not end with whitespace |
| Text.TrimEmptyIffBlank | src/components/CommentSection.tsx:72 | `!s.trim()` holds exactly when every character is ECMAScript whitespace, in both directions. This justifies stating the blank-input guards of the views with `IsBlank` |
| Text.DigitChar | src/lib/supabase.ts:63 | a digit below ten is rendered as a character with that digit value |
| Text.DecimalString | src/lib/supabase.ts:63 | the decimal rendering of a number is a non-empty string of digits |
| Text.ParseDecimalString | src/lib/supabase.ts:266-271 | `parseInt` of the decimal rendering of `n` gives back `n` |
| Text.Lower | src/lib/supabase.ts:273 | lower-casing keeps the length and maps each character on its own |
| Text.ContainsIffOccurs | src/lib/supabase.ts:273 | the substring test holds exactly when the needle occurs at some position |
| Text.ILikeOccurs | src/lib/supabase.ts:273 | `username ilike '%q%'` holds exactly when the lower-cased query occurs at some position of the lower-cased username |
| Ordering.Filter | src/lib/supabase.ts:92 | the rows kept are exactly the input rows that satisfy the predicate, in their original order (a subsequence) |
| Ordering.FilterAppend | src/lib/supabase.ts:92 | filtering after appending a row only adds that row, when it qualifies |
| Ordering.FilterAll | src/lib/supabase.ts:92 | a predicate every row satisfies keeps the table unchanged |
| Ordering.FilterNone | src/lib/supabase.ts:92 | a predicate no row satisfies leaves nothing |
| Ordering.FilterDrops | src/lib/supabase.ts:211-214 | a delete by id whose row exists removes at least one row |
| Ordering.FilterNested | src/lib/supabase.ts:204-206 | chained `.eq` filters equal one filter by their conjunction |
| Ordering.FindByKey | src/lib/supabase.ts:50-54 | `.eq(key, id).single()` on a key column finds a stored row with that key, and finds none exactly when no row has it. Profiles, articles and comments are looked up this way |
| Ordering.FindAppended | src/lib/supabase.ts:57-74 | a row appended under a key no row had is the one found under that key, e.g. a lookup after the first-sign-in insert |
| Ordering.Column | src/lib/supabase.ts:90 | a nested `comments(id)` or `reactions(id, emoji)` list has one entry per related row, carrying its id |
| Ordering.FilterKeepsDistinctKeys | src/lib/supabase.ts:214 | deleting rows keeps primary keys unique |
| Ordering.SortedCons | src/lib/supabase.ts:93 | a row whose key does not exceed the head of a sorted list can be put in front of it |
| Ordering.Insert | src/lib/supabase.ts:93 | inserting adds exactly that row: one more element, same multiset plus the row |
| Ordering.InsertSorted | src/lib/supabase.ts:93 | inserting into a sorted list keeps it sorted, and the head is the new row or the old head |
| Ordering.SortBy | src/lib/supabase.ts:93 | `.order`: a permutation of the rows (same multiset) that is sorted by the key |
| Ordering.SortByMembers | src/lib/supabase.ts:93 | ordering neither adds nor loses a row |
| Ordering.Range | src/lib/supabase.ts:94 | `.range(offset, offset+limit-1)`: at most `limit` rows, exactly the rows at positions offset.. in order, and as many as exist |
| Ordering.Take | src/lib/supabase.ts:276 | `.limit(n)`: the first `min(n, size)` rows |
| Supabase.NewProfile | src/lib/supabase.ts:60-68 | the inserted profile has role 'user' and the Telegram id. Its username is the Telegram one or `user_<id>`, never empty. Missing names become ''. The photo is stored exactly when Telegram supplies a non-empty one, and then it is that photo; otherwise it is null |
| Supabase.DecimalStringInjective | src/lib/supabase.ts:63 | different natural numbers have different decimal renderings |
| Supabase.IntStringInjective | src/lib/supabase.ts:63 | different integers have different renderings, a leading '-' included |
| Supabase.PlaceholderInjective | src/lib/supabase.ts:63 | different ids never get the same `user_<id>` username |
| Supabase.SetRole | src/lib/supabase.ts:253-258 | the role write keeps the number of rows and every id |
| Supabase.RoleReadAfterWrite | src/lib/supabase.ts:237-262 | after `setUserRole(id, r)`, the profile of id is the old one with role r, and `getUserRole(id)` reads r |
| Supabase.SetRoleOnlyTouchesId | src/lib/supabase.ts:253-258 | the role write leaves every other profile exactly as it was |
| Supabase.QueryMatcher | src/lib/supabase.ts:266-274 | an all-digit query compares only the id, against the query's `parseInt` value; any other query compares only the username, by `ilike` |
| Supabase.SearchByDecimalId | src/lib/supabase.ts:266-271 | with unique ids, searching for the decimal id of a stored profile returns exactly that profile |
| Supabase.ApplyPatch | src/lib/supabase.ts:151-154 | each supplied field (title, content, `is_published`) takes the patch's value, each absent one keeps the row's value, `updated_at` becomes `now`, and no other column changes |
| Supabase.PatchRows | src/lib/supabase.ts:149-157 | an update keeps the number of rows and every id |
| Supabase.PatchRowsAt | src/lib/supabase.ts:149-157 | the rows with another id are unchanged; the row with the id changes only in the supplied fields and `updated_at` |
| Supabase.PublishTwice | src/lib/supabase.ts:164-168 | publishing twice leaves the table as publishing once (at the later time) does |
| Supabase.PublishedListing | src/lib/supabase.ts:87-94 | the listing holds exactly the published rows, ordered by `created_at` descending |
| Supabase.DraftNotListed | src/lib/supabase.ts:127-138 | creating an article (a draft) leaves the public listing unchanged |
| Supabase.ListedAfterPublish | src/lib/supabase.ts:164-168 | after publishing an existing article, it appears in the public listing |
| Supabase.WithCounts | src/lib/supabase.ts:99-103 | the two counts are the lengths of the nested lists, 0 when absent; the article's columns are kept |
| Supabase.Listing | src/lib/supabase.ts:90-103 | `comments_count` and `reactions_count` are the numbers of comments and reactions on that article |
| Supabase.ArticlesPage | src/lib/supabase.ts:86-104 | at most `limit` published articles from the table, newest first, at positions offset.., each with its counts |
| Supabase.Existing | src/lib/supabase.ts:201-209 | a row is found only when the lookup was delivered and exactly one row matches (article, user, emoji) |
| Supabase.Toggle | src/lib/supabase.ts:195-234 | nothing is returned exactly when a matching row was found. Then the table keeps, in order, exactly the rows whose id differs from the found row's, is shorter, and no id is consumed. Otherwise one matching row with the next id is appended and returned |
| Supabase.ToggleTwiceFromAbsent | src/lib/supabase.ts:195-234 | toggling an absent reaction twice restores the table exactly |
| Supabase.ToggleTwiceFromPresent | src/lib/supabase.ts:195-234 | toggling a present reaction twice removes it, keeps the other rows and inserts one fresh matching row |
| Supabase.OnlyMatchHasItsId | src/lib/supabase.ts:211-214 | deleting the single matching row by id leaves no matching row |
| Supabase.SwitchLeavesOneRow | src/components/ReactionButtons.tsx:74-80 | retract-then-add from the user's only reaction leaves exactly one row for that user, with the new emoji |
| Supabase.Store.constructor | src/lib/supabase.ts:1-10 | an empty database satisfies the key invariant |
| Supabase.Store.GetOrCreateUserProfile | src/lib/supabase.ts:47-83 | a known id returns the stored profile and inserts nothing. An unknown id inserts exactly one `NewProfile`. A lookup or insert error is rethrown with the table unchanged |
| Supabase.Store.GetArticles | src/lib/supabase.ts:86-105 | returns exactly `ArticlesPage` of the tables, or rethrows the query error |
| Supabase.Store.GetArticleById | src/lib/supabase.ts:108-119 | returns the stored article with that id; a missing row or a failed query throws |
| Supabase.Store.CreateArticle | src/lib/supabase.ts:122-142 | appends one unpublished row with the given title, content and author, or throws with the table unchanged |
| Supabase.Store.UpdateArticle | src/lib/supabase.ts:145-161 | patches only the row with the id; a missing row or a failed query throws with the table unchanged |
| Supabase.Store.PublishArticle | src/lib/supabase.ts:164-168 | the update with `is_published = true`; the returned row is published |
| Supabase.Store.AddComment | src/lib/supabase.ts:171-192 | appends exactly the given comment, text unchecked, or throws with the table unchanged |
| Supabase.Store.ToggleReaction | src/lib/supabase.ts:195-234 | a delivered write performs exactly one `Toggle` step; a failed write throws and changes nothing; unique reaction ids are kept |
| Supabase.Store.GetUserRole | src/lib/supabase.ts:237-246 | returns the stored role, 'user' when the column is empty; a missing row throws |
| Supabase.Store.SetUserRole | src/lib/supabase.ts:249-262 | rewrites only that profile's role and returns the updated profile; a missing row throws |
| Supabase.Store.FindUserByUsernameOrId | src/lib/supabase.ts:265-280 | at most 10 stored profiles. An all-digit query matches on the exact id; any other query matches the username case-insensitively |
| ReactionButtons.EmojiOptionsDistinct | src/components/ReactionButtons.tsx:12 | six distinct emojis, the first being the toggle's default thumbs-up |
| ReactionButtons.EmojiCountAppend | src/components/ReactionButtons.tsx:58 | one more row adds one to its own emoji's count and leaves every other count alone |
| ReactionButtons.TallyCounts | src/components/ReactionButtons.tsx:54-58 | the dictionary `Tally` builds gives each emoji's counter as its number of rows; unseen emojis have no key and show 0 |
| ReactionButtons.TallyTotal | src/components/ReactionButtons.tsx:54-58 | the counters add up to the number of rows |
| ReactionButtons.LastEmojiOfSpec | src/components/ReactionButtons.tsx:55-61 | `LastEmojiOf`, the current emoji, is that of the user's last row in read order, and null exactly when the user has no row |
| ReactionButtons.Aggregate | src/components/ReactionButtons.tsx:54-62 | the loop computes the per-emoji counts (keys, values, sum) and the user's last emoji |
| ReactionButtons.TotalAt | src/components/ReactionButtons.tsx:58 | the sum of the counters splits at any key |
| ReactionButtons.TotalBump | src/components/ReactionButtons.tsx:58 | counting one more row adds one to the sum |
| ReactionButtons.ReactionBar.constructor | src/components/ReactionButtons.tsx:18-19 | no counts and no current emoji |
| ReactionButtons.ReactionBar.FetchReactions | src/components/ReactionButtons.tsx:46-66 | a failed fetch changes nothing; otherwise the state is the aggregation of the article's rows |
| ReactionButtons.ReactionBar.HandleReaction | src/components/ReactionButtons.tsx:68-87 | the same emoji is one toggle and clears the current emoji; a different one is a retract toggle then an add toggle (a single toggle when none is set). Any throw leaves `userReaction` and refetch untouched, even after a first successful toggle |
| EditorPage.Admits | src/pages/EditorPage.tsx:74-76 | the page admits exactly signed-in users whose effective role is editor or admin; a profile without a role is refused |
| EditorPage.MyArticlesSpec | src/pages/EditorPage.tsx:32-36 | the list holds exactly the user's own rows, newest first |
| EditorPage.Actions | src/pages/EditorPage.tsx:126-141 | publish is offered exactly for drafts; edit always; nothing else |
| EditorPage.EditorForm.constructor | src/pages/EditorPage.tsx:17-21 | empty form, closed, editing nothing |
| EditorPage.EditorForm.LoadMyArticles | src/pages/EditorPage.tsx:29-41 | the author's articles newest first, or no change without a user or on an error |
| EditorPage.EditorForm.SaveRequest | src/pages/EditorPage.tsx:47-53 | while editing, only that article is patched with the form's title and content, and no id is consumed; otherwise one draft by the user is appended; a failure leaves the table |
| EditorPage.EditorForm.FinishSave | src/pages/EditorPage.tsx:55-62 | a successful save closes, unbinds and empties the form; otherwise the form is kept |
| EditorPage.EditorForm.HandleSaveArticle | src/pages/EditorPage.tsx:43-63 | blank title or content, or no user: no call and no change. While editing it updates that article (the user's own) and creates nothing; otherwise it creates a draft by the user. Success clears the form; an error leaves it |
| EditorPage.EditorForm.HandlePublish | src/pages/EditorPage.tsx:65-72 | publishes that article; a reload follows exactly on success |
| EditorPage.EditorForm.ClickNew | src/pages/EditorPage.tsx:82-87 | opens an empty form bound to no article |
| EditorPage.EditorForm.ClickCancel | src/pages/EditorPage.tsx:104-109 | closes and empties the form |
| EditorPage.EditorForm.ClickEdit | src/pages/EditorPage.tsx:132-137 | opens the form on a copy of the article's title and content, editing it |
| EditorPage.EditorForm.SetTitle | src/pages/EditorPage.tsx:98 | the title becomes the input's value |
| EditorPage.EditorForm.SetContent | src/pages/EditorPage.tsx:100 | the content becomes the editor's value |
| EditorPage.SaveUnchangedEdit | src/pages/EditorPage.tsx:49 | saving an unmodified edit changes only `updated_at` |
| AdminPage.Admits | src/pages/AdminPage.tsx:40-42 | the page admits exactly signed-in users whose effective role is admin; a profile without a role is refused |
| AdminPage.RoleButtons | src/pages/AdminPage.tsx:74-82 | one button per role, each for the selected user's id; none without a selection |
| AdminPage.AdminSearch.constructor | src/pages/AdminPage.tsx:14-16 | empty query, no results, no selection |
| AdminPage.AdminSearch.SetQuery | src/pages/AdminPage.tsx:50 | the query becomes the input's value |
| AdminPage.AdminSearch.HandleSearch | src/pages/AdminPage.tsx:18-27 | a blank query or an error changes nothing; otherwise the results are the search's answer for the untrimmed query |
| AdminPage.AdminSearch.SelectResult | src/pages/AdminPage.tsx:94 | the clicked result becomes the selection |
| AdminPage.AdminSearch.HandleSetRole | src/pages/AdminPage.tsx:29-38 | success writes the role and clears the selection, the query and the results; an error changes none of them |
| AdminPage.FindThenSetRole | src/pages/AdminPage.tsx:18-38 | searching a user's decimal id returns that user alone, and the role written for it is read back |
| BottomNavigation.Tabs | src/components/BottomNavigation.tsx:23-28 | home always first; editor iff role editor or admin; admin iff role admin; strictly ordered, so no duplicates |
| BottomNavigation.TabsByRole | src/components/BottomNavigation.tsx:24-28 | user: [home]; editor: [home, editor]; admin: [home, editor, admin] |
| BottomNavigation.Render | src/components/BottomNavigation.tsx:19-21 | nothing without a user, the tab bar otherwise |
| BottomNavigation.Route | src/components/BottomNavigation.tsx:40-46 | every tab has one of the three routes |
| BottomNavigation.RouteInjective | src/components/BottomNavigation.tsx:40-46 | different tabs lead to different routes |
| BottomNavigation.HandleChange | src/components/BottomNavigation.tsx:36-47 | reports `tabs[i]`; navigates home to '/', editor to '/editor' and admin to '/admin', and back |
| BottomNavigation.TabsMatchGuards | src/components/BottomNavigation.tsx:23-28 | every tab leads to a page whose guard admits the user; a guarded page admits the user exactly when its tab is shown |
| BottomNavigation.NewcomerSeesHomeOnly | src/components/BottomNavigation.tsx:23-28 | a freshly created profile sees only home and is refused by both guarded pages |
| CommentSection.ArticleCommentsSpec | src/components/CommentSection.tsx:55-62 | the fetched list holds exactly the article's comments, oldest first |
| CommentSection.FindFreshComment | src/components/CommentSection.tsx:35-41 | the comment inserted under a fresh id is the one read back by that id |
| CommentSection.CommentList.constructor | src/components/CommentSection.tsx:16-18 | no comments, empty input, not loading |
| CommentSection.CommentList.SubmitDisabled | src/components/CommentSection.tsx:97 | the button is disabled exactly while a submission runs or while the input's `trim()` is empty |
| CommentSection.CommentList.SetText | src/components/CommentSection.tsx:92 | the input text becomes the typed value |
| CommentSection.CommentList.FetchComments | src/components/CommentSection.tsx:55-69 | the article's comments oldest first, or no change on an error |
| CommentSection.CommentList.BeginAddComment | src/components/CommentSection.tsx:72-75 | a blank input stops the handler with nothing changed; otherwise loading is raised during the call |
| CommentSection.CommentList.EndAddComment | src/components/CommentSection.tsx:76-83 | success appends the comment at the end (earlier ones kept in order) and clears the input; an error keeps both; loading drops either way |
| CommentSection.CommentList.HandleAddComment | src/components/CommentSection.tsx:71-84 | blank input: no call, no change. Success: the stored comment is appended locally and the input cleared, and one id is consumed. Error: list and input kept. Loading ends false |
| CommentSection.CommentList.OnRealtimeInsert | src/components/CommentSection.tsx:34-45 | the inserted row, read back by id, is appended without deduplication; a failed or empty read changes nothing |
| CommentSection.SubmitThenEcho | src/components/CommentSection.tsx:34-45 | a local submission followed by its realtime echo shows the comment twice at the end |
| ArticleList.VisibleArticles | src/components/ArticleList.tsx:40-43 | 'all' shows the loaded list; 'saved' shows the order-preserving subsequence whose `saved_by` contains the user (the `SavedBy` test), excluding rows without `saved_by` |
| ArticleList.Render | src/components/ArticleList.tsx:45-67 | spinner iff loading; then a non-empty error; then the empty state iff nothing is visible; then the list |
| ArticleList.ArticleFeed.constructor | src/components/ArticleList.tsx:18-20 | no articles, loading, no error |
| ArticleList.ArticleFeed.View | src/components/ArticleList.tsx:40-67 | a shown list contains only loaded articles |
| ArticleList.ArticleFeed.BeginLoad | src/components/ArticleList.tsx:25-26 | loading raised and error cleared before the call |
| ArticleList.ArticleFeed.EndLoad | src/components/ArticleList.tsx:27-34 | the answer replaces the list, or the thrown value's message (fallback text for non-errors) becomes the error; loading ends |
| ArticleList.ArticleFeed.Load | src/components/ArticleList.tsx:22-35 | the first page of 20 published articles, or the error with the list kept; loading ends false |
| UseAuth.LaunchUser | src/hooks/useAuth.ts:16-18 | a Telegram user exists exactly when the launch data and its user both do |
| UseAuth.SignInFailure | src/lib/supabase.ts:73-78 | the profile call fails exactly when the lookup fails, or when the id is unknown and the insert fails |
| UseAuth.AuthHook.constructor | src/hooks/useAuth.ts:9-11 | no user, loading, no error |
| UseAuth.AuthHook.InitAuth | src/hooks/useAuth.ts:14-33 | missing data sets the fixed message with no profile call. Success clears the error: a known id becomes the user from its stored row, with the table unchanged; an unknown id appends exactly one `NewProfile` and that profile becomes the user. A failure sets the message (or the fallback) and keeps the user. Loading is false after every path |

## Left out

- Client construction and the check for credentials in the environment (`src/lib/supabase.ts:1-10`). These are configuration. The database is the in-memory `Store`.
- Nested relation expansion in `select(...)`. The `author:user_profiles(...)` objects of articles and comments are not modelled, and rows carry only the author id. The nested comment and reaction lists of `getArticles` are modelled only through their counts. The nested lists of `getArticleById` are not modelled.
- PostgREST error codes. A `.single()` read is either a row or a thrown value. The not-found code PGRST116 is the `FindProfile` miss. Primary keys are unique, so a profile lookup cannot hit several rows.
- `ilike` is modelled as an ASCII case-insensitive substring match, assuming the query contains no `%` or `_` wildcard. Unicode case folding is not modelled.
- `parseInt` is exact. JavaScript numbers lose precision above 2^53, and the model does not.
- Ties in `.order(...)` keep table order. The database leaves their order unspecified.
- `.limit(10)` without an order takes the first matches in table order.
- `fetchReactions` reads the article's reactions without `.order(...)`. The model reads them in table order (insertion order), and that order decides which of a user's rows `LastEmojiOf` reports as the current emoji. The service promises no order for this read.
- Identifiers are natural numbers drawn from one counter. The source's article and comment ids are strings generated by the service, and reaction ids are whatever the service generates.
- Timestamps are opaque ordered integers passed in as `now`. Server defaults (`created_at`, `views_count`) take `now` and 0. ISO and locale date formatting are not modelled.
- Realtime subscription and teardown are not modelled. Only each handler's effect is, as a method. For reactions, the handler is `fetchReactions`.
- The reloads that handlers start with `void` are returned as flags (`refetch`, `reload`) and not performed.
- Concurrency is left out. Each handler is one sequential step, except that the comment submission and the article feed load are split at their `await` to expose the in-flight loading state. Concurrent toggles, races between a local append and its echo, and work after unmount are not modelled.
- `console.error` logging, JSX rendering, labels and styling are not modelled. This includes the highlighted tab of `BottomNavigation` and the highlighted emoji of `ReactionButtons`.
- `src/index.tsx`, `src/App.tsx`, `src/components/QuillEditor.tsx`, `src/components/ShareButton.tsx`, `src/pages/HomePage.tsx` and `src/pages/ArticleDetailPage.tsx` are not part of this model.
- The Telegram launch-data signal and the hook re-running when it changes: `InitAuth` models a single run.
- Article content is the HTML the rich-text editor produces. It is treated as a plain string, and the blank test is `trim` on that string.
