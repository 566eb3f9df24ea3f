# Anime social app: library, editors, search and feed logic

This project models the state-changing and list-shaping logic of a React Native
social app for anime, manga and book readers. The app runs on in-memory mock data;
what is modelled are the component handlers and the derived views:

- the shelf library (create, edit and delete shelves, remove and rate items, the
  filtered and sorted item view), the shelf editor (adding catalogue content with
  duplicate suppression, saving with a trimmed name) and the shelf dropdown filter;
- the poll editor (two to four options, fixed durations), the feed's like, bookmark,
  refresh and load-more steps, the star-rating input and the rate-and-review modal;
- the content detail screen (status cycle, library flag, tabs, type label, the
  grouping of episodes by season and chapters by volume) and the chapter/episode
  selector (sections in `Object.keys` order);
- the search screen (users before content, case-insensitive substring match), the
  discovery lists resolved against the catalogue, the content selector (catalogue
  search capped at 6, custom titles) and the post card's timestamp, count, star
  and image-layout rules.

Each component is one module. Component state becomes a class whose methods state
the whole new state; derived views are functions with named results; the loops
that build dictionaries or result arrays are methods proved equal to a
specification function. Shared records and helpers live in `Types`, `Text`,
`Seqs`, `Catalogue`, `Shelves`, `ItemOrder`, `Grouping` and `ContentDetails`.

JavaScript behaviour is written out: `trim` strips the ECMAScript white-space and
line-terminator characters; `toLowerCase` is modelled as ASCII lowering and
`localeCompare` as code-point lexicographic order; `||` and `&&` follow
truthiness (a rating or season of 0 counts as absent); `/` with `Math.floor` on a
positive divisor is Dafny's `/`; `Object.keys` lists array-index keys ascending
before the other keys in creation order. Clock readings (`Date.now()`, parsed ISO
dates), generated ids and the mock data files are parameters: a `now` integer (one
reading per `Date.now()` call, so the load-more copies take one each), a `freshId` string, and input sequences for catalogue, users, shelves,
posts and content details.

## Model

| member | source | states |
|---|---|---|
| Types.TypeName | anime-social-app-clean/anime-social-app/src/types/index.ts:1 | each content type has exactly one of the three names 'anime', 'manga', 'book' |
| Text.Trim | anime-social-app-clean/anime-social-app/src/components/CreateEditShelfModal.tsx:80 | the result is the infix left after stripping the leading and the trailing whitespace (ECMAScript white space and line terminators): what lies before and after it is all whitespace, and it neither starts nor ends with whitespace |
| Text.TrimStart | anime-social-app-clean/anime-social-app/src/components/CreateEditShelfModal.tsx:80 | the leading-whitespace half of `trim`: what it drops is whitespace, what it keeps is a suffix that starts with a non-whitespace character |
| Text.TrimEnd | anime-social-app-clean/anime-social-app/src/components/CreateEditShelfModal.tsx:80 | the trailing-whitespace half of `trim`: what it drops is whitespace, what it keeps is a prefix that ends with a non-whitespace character |
| Text.TrimSplit | anime-social-app-clean/anime-social-app/src/components/CreateEditShelfModal.tsx:80 | the two halves together leave an infix with all-whitespace text on both sides |
| Text.BlankIffAllWhitespace | anime-social-app-clean/anime-social-app/src/components/CreateEditShelfModal.tsx:80 | a query is blank after trimming exactly when every character is white space |
| Text.TrimIdempotent | anime-social-app-clean/anime-social-app/src/components/CreateEditShelfModal.tsx:112-116 | trimming an already trimmed name or description changes nothing |
| Text.ToLower | anime-social-app-clean/anime-social-app/src/components/CreateEditShelfModal.tsx:82 | lowering keeps the length and lowers each character on its own (ASCII letters only) |
| Text.NatToStringRoundTrip | anime-social-app-clean/anime-social-app/src/components/PostCard.tsx:67 | reading back the decimal digits of a count gives the count |
| Text.IntToStringInjective | anime-social-app-clean/anime-social-app/src/components/ChapterEpisodeSelector.tsx:56-59 | different integer keys give different decimal texts, so section titles of different keys differ |
| Seqs.Filter | anime-social-app-clean/anime-social-app/src/components/LibraryScreen.tsx:92 | `filter` keeps exactly the elements passing the test, in order, as a subsequence |
| Seqs.FilterCounts | anime-social-app-clean/anime-social-app/src/components/LibraryScreen.tsx:92 | `filter` keeps every copy of a passing element and no copy of a failing one |
| Seqs.FindFirst | anime-social-app-clean/anime-social-app/src/components/LibraryScreen.tsx:150 | `find` returns the first element passing the test, and nothing exactly when none passes |
| Seqs.FilterAppend | anime-social-app-clean/anime-social-app/src/screens/SearchScreen.tsx:32-45 | filtering a concatenation is concatenating the filtered parts |
| Catalogue.Find | anime-social-app-clean/anime-social-app/src/screens/SearchScreen.tsx:33 | the first catalogue entry with the id, and none exactly when no entry has it |
| Catalogue.ResolveIds | anime-social-app-clean/anime-social-app/src/screens/SearchScreen.tsx:32-45 | the trending, popular and recommended lists hold only catalogue entries of listed ids, one per id when all are found |
| Catalogue.ResolveOne | anime-social-app-clean/anime-social-app/src/screens/SearchScreen.tsx:32-45 | a single id resolves to its first catalogue entry or is dropped when not found |
| Catalogue.ResolveAppend | anime-social-app-clean/anime-social-app/src/screens/SearchScreen.tsx:32-45 | resolution works id by id in list order: resolving a concatenation concatenates the results |
| Catalogue.MatchingTitles | anime-social-app-clean/anime-social-app/src/components/CreateEditShelfModal.tsx:81-83 | exactly the catalogue entries whose lowered title contains the lowered query, in catalogue order |
| Catalogue.TitleSearch | anime-social-app-clean/anime-social-app/src/components/CreateEditShelfModal.tsx:80-84 | no results for a blank query; otherwise the first min(6, matches) matching entries in catalogue order |
| Catalogue.UntrimmedQueryMisses | anime-social-app-clean/anime-social-app/src/components/CreateEditShelfModal.tsx:80-82 | the blank test trims the query but the match does not: 'one' finds the title 'One' while ' one' finds nothing |
| Catalogue.PlainQueryFinds | anime-social-app-clean/anime-social-app/src/components/CreateEditShelfModal.tsx:80-84 | the query 'one' finds a single entry titled 'One' |
| Catalogue.PaddedQueryMisses | anime-social-app-clean/anime-social-app/src/components/CreateEditShelfModal.tsx:80-84 | the query ' one', not blank after trimming, misses the title 'One' because the untrimmed query is matched |
| Shelves.FindShelf | anime-social-app-clean/anime-social-app/src/components/LibraryScreen.tsx:150 | `find` by id: the first shelf in the list with that id, and none exactly when no shelf has it |
| Shelves.RemoveShelf | anime-social-app-clean/anime-social-app/src/components/LibraryScreen.tsx:147 | every shelf with the id goes, the others stay in order; nothing changes when no shelf has the id |
| Shelves.Retitled | anime-social-app-clean/anime-social-app/src/components/LibraryScreen.tsx:132 | the edited shelf takes the new name, description and items and keeps id, protection and creation time |
| Shelves.EditShelves | anime-social-app-clean/anime-social-app/src/components/LibraryScreen.tsx:130-134 | same length; each shelf with the edited id is retitled, every other shelf is unchanged at its position |
| Shelves.ReplaceShelf | anime-social-app-clean/anime-social-app/src/components/LibraryScreen.tsx:175 | same length; each shelf with the id becomes the updated shelf, the others are unchanged at their positions |
| Shelves.RemoveItems | anime-social-app-clean/anime-social-app/src/components/LibraryScreen.tsx:172 | exactly the items without the id remain, in order |
| Shelves.RateItems | anime-social-app-clean/anime-social-app/src/components/LibraryScreen.tsx:184-186 | same length; matching items get the new rating and review and keep all other fields, other items are unchanged |
| ItemOrder.LexLeTotal | anime-social-app-clean/anime-social-app/src/components/LibraryScreen.tsx:104 | the title order compares any two titles |
| ItemOrder.LexLeTransitive | anime-social-app-clean/anime-social-app/src/components/LibraryScreen.tsx:104 | the title order is transitive |
| ItemOrder.PrecedesTotal | anime-social-app-clean/anime-social-app/src/components/LibraryScreen.tsx:96-109 | each of the four comparators relates any two items one way or the other |
| ItemOrder.PrecedesTransitive | anime-social-app-clean/anime-social-app/src/components/LibraryScreen.tsx:96-109 | each of the four comparators is transitive (a null rating counts as 0) |
| ItemOrder.Insert | anime-social-app-clean/anime-social-app/src/components/LibraryScreen.tsx:96-109 | inserting into a sorted list adds exactly the one item and keeps the list sorted |
| ItemOrder.ConsSorted | anime-social-app-clean/anime-social-app/src/components/LibraryScreen.tsx:96-109 | an item preceding every element of a sorted list may be put in front of it |
| ItemOrder.SortItems | anime-social-app-clean/anime-social-app/src/components/LibraryScreen.tsx:96-109 | `sort` returns a permutation of its input ordered by the chosen comparator |
| LibraryScreen.FilterItems | anime-social-app-clean/anime-social-app/src/components/LibraryScreen.tsx:88-93 | 'all' keeps the items; a type keeps exactly the items of that type with their multiplicities |
| LibraryScreen.FilteredItems | anime-social-app-clean/anime-social-app/src/components/LibraryScreen.tsx:85-112 | empty without a shelf; otherwise a permutation of the (type-filtered) items, newest/oldest by addedAt, rating descending with null as 0, or titles ascending |
| LibraryScreen.LibraryState.constructor | anime-social-app-clean/anime-social-app/src/components/LibraryScreen.tsx:50-66 | starts with the given shelves, 'my-library' selected, all types, newest first, nothing edited, deleted or selected |
| LibraryScreen.LibraryState.SetTypeFilter | anime-social-app-clean/anime-social-app/src/components/LibraryScreen.tsx:250 | sets the chip filter and nothing else |
| LibraryScreen.LibraryState.SetSortOption | anime-social-app-clean/anime-social-app/src/components/LibraryScreen.tsx:303 | sets the sort option and nothing else |
| LibraryScreen.LibraryState.SelectShelf | anime-social-app-clean/anime-social-app/src/components/LibraryScreen.tsx:272 | the dropdown's shelf becomes the selection and nothing else changes |
| LibraryScreen.LibraryState.BeginEdit | anime-social-app-clean/anime-social-app/src/components/LibraryScreen.tsx:274 | remembers the shelf being edited and nothing else |
| LibraryScreen.LibraryState.CloseEditor | anime-social-app-clean/anime-social-app/src/components/LibraryScreen.tsx:371-374 | nothing is being edited any more |
| LibraryScreen.LibraryState.CreateShelf | anime-social-app-clean/anime-social-app/src/components/LibraryScreen.tsx:114-125 | appends exactly one unprotected shelf with the given data, keeps the earlier shelves, selects the new shelf |
| LibraryScreen.LibraryState.EditShelf | anime-social-app-clean/anime-social-app/src/components/LibraryScreen.tsx:127-142 | no-op without an edited shelf; otherwise only shelves with its id change, only in name, description and items; a matching selection follows; editing ends |
| LibraryScreen.LibraryState.SaveFromEditor | anime-social-app-clean/anime-social-app/src/components/LibraryScreen.tsx:368-376 | edits when a shelf is being edited (EditShelves list, selection retitled when it is the edited shelf) and otherwise appends and selects a new unprotected shelf; then editing ends, and the delete target, selected item, type filter and sort option stay |
| LibraryScreen.LibraryState.RequestDelete | anime-social-app-clean/anime-social-app/src/components/LibraryScreen.tsx:278 | remembers the shelf to delete and nothing else |
| LibraryScreen.LibraryState.CancelDelete | anime-social-app-clean/anime-social-app/src/components/LibraryScreen.tsx:386-389 | forgets the shelf to delete and nothing else |
| LibraryScreen.LibraryState.DeleteShelf | anime-social-app-clean/anime-social-app/src/components/LibraryScreen.tsx:144-155 | no-op without a target; otherwise every shelf with the target's id goes regardless of protection, and a deleted selection falls back to 'my-library' found in the list before deletion |
| LibraryScreen.LibraryState.ItemLongPress | anime-social-app-clean/anime-social-app/src/components/LibraryScreen.tsx:157-159 | a long press selects the item |
| LibraryScreen.LibraryState.ItemPress | anime-social-app-clean/anime-social-app/src/components/LibraryScreen.tsx:161-167 | pressing the selected item deselects it; otherwise its content id is reported when a callback exists |
| LibraryScreen.LibraryState.ClearItemSelection | anime-social-app-clean/anime-social-app/src/components/LibraryScreen.tsx:359 | drops the item selection and nothing else |
| LibraryScreen.LibraryState.DeleteItem | anime-social-app-clean/anime-social-app/src/components/LibraryScreen.tsx:169-179 | no-op without item or shelf; otherwise the item's id leaves the selected shelf in the list and in the selection, other shelves untouched, item selection cleared |
| LibraryScreen.LibraryState.SaveRateReview | anime-social-app-clean/anime-social-app/src/components/LibraryScreen.tsx:181-192 | no-op without item or shelf; otherwise only rating and review of the matching items change, in the list and in the selection, item selection cleared |
| CreateEditShelfModal.NewItem | anime-social-app-clean/anime-social-app/src/components/CreateEditShelfModal.tsx:90-99 | the new item copies the content's id, title, type and cover, is stamped now and has no rating or review |
| CreateEditShelfModal.AddContentItem | anime-social-app-clean/anime-social-app/src/components/CreateEditShelfModal.tsx:86-101 | an already present content id changes nothing; otherwise exactly one new item is appended; distinct content ids stay distinct |
| CreateEditShelfModal.RemovePreservesDistinct | anime-social-app-clean/anime-social-app/src/components/CreateEditShelfModal.tsx:106-108 | removing items keeps the content ids distinct |
| CreateEditShelfModal.SubsequenceDistinct | anime-social-app-clean/anime-social-app/src/components/CreateEditShelfModal.tsx:87-88 | any subsequence of a list with distinct content ids has distinct content ids |
| CreateEditShelfModal.ShelfEditor.constructor | anime-social-app-clean/anime-social-app/src/components/CreateEditShelfModal.tsx:53-57 | empty name, description, items and query with the search hidden |
| CreateEditShelfModal.ShelfEditor.Open | anime-social-app-clean/anime-social-app/src/components/CreateEditShelfModal.tsx:59-69 | edit mode loads the shelf's name, description and items; create mode resets all three to empty |
| CreateEditShelfModal.ShelfEditor.SetName | anime-social-app-clean/anime-social-app/src/components/CreateEditShelfModal.tsx:163 | sets the name and nothing else |
| CreateEditShelfModal.ShelfEditor.SetDescription | anime-social-app-clean/anime-social-app/src/components/CreateEditShelfModal.tsx:176 | sets the description and nothing else |
| CreateEditShelfModal.ShelfEditor.SetSearchQuery | anime-social-app-clean/anime-social-app/src/components/CreateEditShelfModal.tsx:205 | sets the search query and nothing else |
| CreateEditShelfModal.ShelfEditor.OpenSearch | anime-social-app-clean/anime-social-app/src/components/CreateEditShelfModal.tsx:189 | shows the search panel and nothing else |
| CreateEditShelfModal.ShelfEditor.CloseSearch | anime-social-app-clean/anime-social-app/src/components/CreateEditShelfModal.tsx:208 | hides the search panel and clears the query |
| CreateEditShelfModal.ShelfEditor.SearchResults | anime-social-app-clean/anime-social-app/src/components/CreateEditShelfModal.tsx:80-84 | empty for a blank query; otherwise the first min(6, matches) catalogue entries whose title contains the untrimmed query, in catalogue order |
| CreateEditShelfModal.ShelfEditor.AddContent | anime-social-app-clean/anime-social-app/src/components/CreateEditShelfModal.tsx:86-104 | items follow AddContentItem; after a successful add the query is empty and the search hidden; distinctness kept |
| CreateEditShelfModal.ShelfEditor.RemoveContent | anime-social-app-clean/anime-social-app/src/components/CreateEditShelfModal.tsx:106-108 | drops all items with the id, keeps the rest in order, distinctness kept |
| CreateEditShelfModal.ShelfEditor.Save | anime-social-app-clean/anime-social-app/src/components/CreateEditShelfModal.tsx:110-120 | saves exactly when canSave holds, i.e. when the name is not all white space; hands over trimmed name and description and the items |
| ShelfDropdown.FilteredShelves | anime-social-app-clean/anime-social-app/src/components/ShelfDropdown.tsx:43-60 | an order-preserving subsequence of exactly the listed shelves; all with 'all' and a blank query; with a type each has such an item; with a query each name matches |
| ShelfDropdown.ShelfItemCount | anime-social-app-clean/anime-social-app/src/components/ShelfDropdown.tsx:68-73 | the item count under 'all'; under a type, exactly the number of items of that type, positive exactly when the shelf has such an item |
| ShelfDropdown.ListedCountPositive | anime-social-app-clean/anime-social-app/src/components/ShelfDropdown.tsx:46-51 | every shelf listed under a type filter shows a positive count |
| ShelfDropdown.DropdownState.constructor | anime-social-app-clean/anime-social-app/src/components/ShelfDropdown.tsx:39-40 | closed with an empty query |
| ShelfDropdown.DropdownState.Open | anime-social-app-clean/anime-social-app/src/components/ShelfDropdown.tsx:80 | opens the list and keeps the query |
| ShelfDropdown.DropdownState.SetQuery | anime-social-app-clean/anime-social-app/src/components/ShelfDropdown.tsx:119 | sets the query and keeps the list state |
| ShelfDropdown.DropdownState.Close | anime-social-app-clean/anime-social-app/src/components/ShelfDropdown.tsx:94 | closes the list and keeps the query |
| ShelfDropdown.DropdownState.SelectShelf | anime-social-app-clean/anime-social-app/src/components/ShelfDropdown.tsx:62-66 | reports the shelf, closes the list and clears the query |
| ShelfDropdown.DropdownState.Shown | anime-social-app-clean/anime-social-app/src/components/ShelfDropdown.tsx:43-60 | exactly the shelves that pass the type test and, for a non-blank query, the name test, as an order-preserving subsequence; all of them under 'all' with a blank query |
| PollCreator.InitialOptions | anime-social-app-clean/anime-social-app/src/components/PollCreator.tsx:31-33 | no initial poll gives two empty options; a given poll's options are kept |
| PollCreator.InitialDuration | anime-social-app-clean/anime-social-app/src/components/PollCreator.tsx:34 | no initial poll, or a duration of 0, gives 1 day; otherwise the given duration |
| PollCreator.InitialWellFormed | anime-social-app-clean/anime-social-app/src/components/PollCreator.tsx:31-36 | the initial state has 2 to 4 options and a listed duration whenever the initial poll does |
| PollCreator.DropIndex | anime-social-app-clean/anime-social-app/src/components/PollCreator.tsx:52 | removes exactly the option at an index in range and nothing otherwise |
| PollCreator.AddedOption | anime-social-app-clean/anime-social-app/src/components/PollCreator.tsx:44-48 | appends one empty option below 4 options, otherwise nothing; keeps 2 to 4 |
| PollCreator.RemovedOption | anime-social-app-clean/anime-social-app/src/components/PollCreator.tsx:50-55 | removes the option at the index above 2 options, otherwise nothing; keeps 2 to 4 |
| PollCreator.FilledOptions | anime-social-app-clean/anime-social-app/src/components/PollCreator.tsx:58 | exactly the options not blank after trimming, in their order |
| PollCreator.FilledKeepsCounts | anime-social-app-clean/anime-social-app/src/components/PollCreator.tsx:58 | every non-blank option keeps all its copies |
| PollCreator.PollDraft.constructor | anime-social-app-clean/anime-social-app/src/components/PollCreator.tsx:31-34 | initial options and duration; a fresh poll has two empty options and 1 day |
| PollCreator.PollDraft.UpdateOption | anime-social-app-clean/anime-social-app/src/components/PollCreator.tsx:38-42 | replaces only the option at the index, same length, bounds kept |
| PollCreator.PollDraft.AddOption | anime-social-app-clean/anime-social-app/src/components/PollCreator.tsx:44-48 | options follow AddedOption; 2 to 4 options and a listed duration are preserved |
| PollCreator.PollDraft.RemoveOption | anime-social-app-clean/anime-social-app/src/components/PollCreator.tsx:50-55 | options follow RemovedOption; 2 to 4 options and a listed duration are preserved |
| PollCreator.PollDraft.SelectDuration | anime-social-app-clean/anime-social-app/src/components/PollCreator.tsx:36 | the duration becomes one of 1, 2, 3, 5, 7 days |
| PollCreator.PollDraft.Save | anime-social-app-clean/anime-social-app/src/components/PollCreator.tsx:57-65 | saves exactly when canSave holds; the saved options are the non-blank ones in order, at least 2, with the duration |
| HomeScreen.Liked | anime-social-app-clean/anime-social-app/src/screens/HomeScreen.tsx:53-58 | flips isLiked, moves likes by -1 when liked and +1 otherwise, nothing else changes |
| HomeScreen.LikePosts | anime-social-app-clean/anime-social-app/src/screens/HomeScreen.tsx:50-62 | same length and ids; the matching posts are liked, the others unchanged |
| HomeScreen.LikeTwice | anime-social-app-clean/anime-social-app/src/screens/HomeScreen.tsx:50-62 | liking the same post twice restores the list |
| HomeScreen.LikeKeepsBalance | anime-social-app-clean/anime-social-app/src/screens/HomeScreen.tsx:56-57 | likes minus (isLiked ? 1 : 0) is invariant for every post |
| HomeScreen.Bookmarked | anime-social-app-clean/anime-social-app/src/screens/HomeScreen.tsx:66-68 | flips only isBookmarked |
| HomeScreen.BookmarkPosts | anime-social-app-clean/anime-social-app/src/screens/HomeScreen.tsx:64-70 | same length; the matching posts flip isBookmarked, the others unchanged |
| HomeScreen.BookmarkTwice | anime-social-app-clean/anime-social-app/src/screens/HomeScreen.tsx:64-70 | bookmarking twice is the identity |
| HomeScreen.MoreId | anime-social-app-clean/anime-social-app/src/screens/HomeScreen.tsx:43 | the copy's id is the post id, '-more-', the stamp and the index |
| HomeScreen.MorePosts | anime-social-app-clean/anime-social-app/src/screens/HomeScreen.tsx:41-44 | one copy of each mock post, in order, differing only in its id, which carries that copy's own clock reading and its index |
| HomeScreen.DigitTailsAgree | anime-social-app-clean/anime-social-app/src/screens/HomeScreen.tsx:43 | two ids ending in '-' and digits that are equal end in the same digits |
| HomeScreen.MoreIdsDistinct | anime-social-app-clean/anime-social-app/src/screens/HomeScreen.tsx:43 | copies made by one load-more have pairwise different ids, whatever the clock readings |
| HomeScreen.Feed.constructor | anime-social-app-clean/anime-social-app/src/screens/HomeScreen.tsx:21-24 | starts with the mock posts, neither refreshing nor loading |
| HomeScreen.Feed.Like | anime-social-app-clean/anime-social-app/src/screens/HomeScreen.tsx:50-62 | posts follow LikePosts, flags unchanged |
| HomeScreen.Feed.Bookmark | anime-social-app-clean/anime-social-app/src/screens/HomeScreen.tsx:64-70 | posts follow BookmarkPosts, flags unchanged |
| HomeScreen.Feed.BeginRefresh | anime-social-app-clean/anime-social-app/src/screens/HomeScreen.tsx:27-28 | sets refreshing, posts unchanged |
| HomeScreen.Feed.CompleteRefresh | anime-social-app-clean/anime-social-app/src/screens/HomeScreen.tsx:29-32 | resets the posts to the mock list and clears refreshing |
| HomeScreen.Feed.BeginLoadMore | anime-social-app-clean/anime-social-app/src/screens/HomeScreen.tsx:35-38 | starts only when not already loading; posts unchanged |
| HomeScreen.Feed.CompleteLoadMore | anime-social-app-clean/anime-social-app/src/screens/HomeScreen.tsx:40-47 | appends one re-id'd copy of each mock post, each stamped with its own clock reading; the old posts stay an unchanged prefix, loading ends |
| StarRatingInput.PressStar | anime-social-app-clean/anime-social-app/src/components/StarRatingInput.tsx:16-22 | the current star reports null, any other star reports itself; a star in 1..5 reports null or 1..5 |
| StarRatingInput.ClearOffered | anime-social-app-clean/anime-social-app/src/components/StarRatingInput.tsx:42-43 | the clear control exists exactly when the rating is set (non-zero) and reports null |
| StarRatingInput.FilledIffAtMost | anime-social-app-clean/anime-social-app/src/components/StarRatingInput.tsx:36-37 | star k in 1..5 is filled iff the rating is set and k <= rating |
| StarRatingInput.FilledPrefix | anime-social-app-clean/anime-social-app/src/components/StarRatingInput.tsx:30-37 | the filled stars form a prefix of the row |
| StarRatingInput.PressThenFill | anime-social-app-clean/anime-social-app/src/components/StarRatingInput.tsx:16-37 | after pressing star k, star j is filled iff k was not the rating and j <= k |
| StarRatingInput.PressTwice | anime-social-app-clean/anime-social-app/src/components/StarRatingInput.tsx:16-22 | pressing a new star sets it, pressing it again clears it, a third press sets it again |
| RateReviewModal.SavedReview | anime-social-app-clean/anime-social-app/src/components/RateReviewModal.tsx:39-41 | null exactly when the review is all white space; otherwise the trimmed, non-empty text |
| RateReviewModal.SavedReviewStable | anime-social-app-clean/anime-social-app/src/components/RateReviewModal.tsx:39-41 | saving an already saved review gives it back |
| RateReviewModal.ReviewDraft.constructor | anime-social-app-clean/anime-social-app/src/components/RateReviewModal.tsx:32-33 | starts with the current rating and the current review or '' |
| RateReviewModal.ReviewDraft.PressStar | anime-social-app-clean/anime-social-app/src/components/RateReviewModal.tsx:35-37 | the current star clears the rating, another star sets it; the review is kept |
| RateReviewModal.ReviewDraft.ClearRating | anime-social-app-clean/anime-social-app/src/components/RateReviewModal.tsx:94 | clear rating sets the rating to null |
| RateReviewModal.ReviewDraft.SetReview | anime-social-app-clean/anime-social-app/src/components/RateReviewModal.tsx:119 | sets the review text and keeps the rating |
| RateReviewModal.ReviewDraft.Save | anime-social-app-clean/anime-social-app/src/components/RateReviewModal.tsx:39-42 | passes the rating unchanged and the trimmed review, or null when blank |
| Grouping.KeyOf | anime-social-app-clean/anime-social-app/src/screens/ContentDetailScreen.tsx:130 | the key is season (volume) when set and non-zero, 1 otherwise |
| Grouping.FirstSeen | anime-social-app-clean/anime-social-app/src/screens/ContentDetailScreen.tsx:129-134 | the keys in order of first appearance, each once, exactly the keys present |
| Grouping.InsertAscending | anime-social-app-clean/anime-social-app/src/components/ChapterEpisodeSelector.tsx:56 | inserting a new key keeps the keys strictly ascending and adds just that key |
| Grouping.SortAscending | anime-social-app-clean/anime-social-app/src/components/ChapterEpisodeSelector.tsx:56 | distinct keys sorted strictly ascending, same keys |
| Grouping.FilterDistinct | anime-social-app-clean/anime-social-app/src/components/ChapterEpisodeSelector.tsx:56 | filtering distinct keys leaves distinct keys |
| Grouping.ObjectKeyOrder | anime-social-app-clean/anime-social-app/src/components/ChapterEpisodeSelector.tsx:56-59 | `Object.keys` order: same distinct keys, array-index keys first and ascending, the others in creation order |
| Grouping.IndicesThenOthers | anime-social-app-clean/anime-social-app/src/components/ChapterEpisodeSelector.tsx:56-59 | ascending index keys followed by other keys put every index key before later ones, ascending |
| Grouping.OthersOfConcat | anime-social-app-clean/anime-social-app/src/components/ChapterEpisodeSelector.tsx:56-59 | the non-index keys of the combined order are the creation-order ones |
| Grouping.PartitionLength | anime-social-app-clean/anime-social-app/src/components/ChapterEpisodeSelector.tsx:56-59 | every key is either an array index or not |
| Grouping.Members | anime-social-app-clean/anime-social-app/src/screens/ContentDetailScreen.tsx:129-134 | the items of one key, in original order |
| Grouping.MembersSnoc | anime-social-app-clean/anime-social-app/src/screens/ContentDetailScreen.tsx:129-134 | pushing an item extends exactly its own key's group |
| Grouping.GroupSpec | anime-social-app-clean/anime-social-app/src/components/ChapterEpisodeSelector.tsx:49-59 | one non-empty section per key present, keys distinct and in `Object.keys` order, each holding exactly the items of its key in original order |
| Grouping.SectionsFor | anime-social-app-clean/anime-social-app/src/components/ChapterEpisodeSelector.tsx:56-59 | one section per key, in key order, with the key's members |
| Grouping.SectionKeys | anime-social-app-clean/anime-social-app/src/components/ChapterEpisodeSelector.tsx:56-59 | the section keys are exactly the given keys |
| Grouping.MembersNonEmpty | anime-social-app-clean/anime-social-app/src/screens/ContentDetailScreen.tsx:129-134 | a key that occurs has a non-empty group |
| Grouping.GroupCounts | anime-social-app-clean/anime-social-app/src/screens/ContentDetailScreen.tsx:127-146 | each group holds every copy of the items with its key and nothing else |
| Grouping.ExactlyOneGroup | anime-social-app-clean/anime-social-app/src/screens/ContentDetailScreen.tsx:127-146 | every item lies in exactly one group |
| Grouping.FirstSeenSnoc | anime-social-app-clean/anime-social-app/src/screens/ContentDetailScreen.tsx:129-134 | a push creates a new key only the first time the key is met |
| Grouping.MembersOfNewKey | anime-social-app-clean/anime-social-app/src/screens/ContentDetailScreen.tsx:129-134 | a key not yet met has no members |
| Grouping.GroupStep | anime-social-app-clean/anime-social-app/src/components/ChapterEpisodeSelector.tsx:49-54 | one `forEach` step keeps the dictionary equal to the groups of the items seen so far |
| Grouping.GroupItems | anime-social-app-clean/anime-social-app/src/components/ChapterEpisodeSelector.tsx:49-59 | the dictionary-filling loop yields GroupSpec |
| Grouping.ListGroups | anime-social-app-clean/anime-social-app/src/components/ChapterEpisodeSelector.tsx:56-59 | mapping the dictionary's keys yields GroupSpec |
| Grouping.ListedSections | anime-social-app-clean/anime-social-app/src/components/ChapterEpisodeSelector.tsx:56-59 | one section per listed key, in key order, holding the dictionary's array for that key |
| Grouping.ListedAreSpec | anime-social-app-clean/anime-social-app/src/components/ChapterEpisodeSelector.tsx:56-59 | a dictionary holding each key's members lists as the sections of those keys |
| ContentDetails.FindDetail | anime-social-app-clean/anime-social-app/src/screens/ContentDetailScreen.tsx:31-33 | the first detail record with the id, none exactly when no record has it |
| ContentDetailScreen.StatusOptions | anime-social-app-clean/anime-social-app/src/screens/ContentDetailScreen.tsx:69-74 | four distinct non-empty statuses: 'Watching', 'Completed', 'Plan to Watch', 'Dropped' for anime and 'Reading', 'Completed', 'Plan to Read', 'Dropped' otherwise |
| ContentDetailScreen.IndexOf | anime-social-app-clean/anime-social-app/src/screens/ContentDetailScreen.tsx:275 | `indexOf`: the first position of the status, -1 exactly when absent |
| ContentDetailScreen.NextStatus | anime-social-app-clean/anime-social-app/src/screens/ContentDetailScreen.tsx:273-278 | always an option; null, empty or unlisted status gives the first option |
| ContentDetailScreen.NextAfter | anime-social-app-clean/anime-social-app/src/screens/ContentDetailScreen.tsx:273-278 | a listed status moves to the next option |
| ContentDetailScreen.IndexOfDistinct | anime-social-app-clean/anime-social-app/src/screens/ContentDetailScreen.tsx:275 | in distinct options each option is found at its own position |
| ContentDetailScreen.LastWrapsToFirst | anime-social-app-clean/anime-social-app/src/screens/ContentDetailScreen.tsx:273-278 | the last option wraps to the first |
| ContentDetailScreen.NextStatusDiffers | anime-social-app-clean/anime-social-app/src/screens/ContentDetailScreen.tsx:273-278 | the next option always differs from the current status |
| ContentDetailScreen.StatusChange | anime-social-app-clean/anime-social-app/src/screens/ContentDetailScreen.tsx:118-123 | the current status clears, another is set; inLibrary becomes true for a non-empty status and otherwise is kept |
| ContentDetailScreen.PressAlwaysSets | anime-social-app-clean/anime-social-app/src/screens/ContentDetailScreen.tsx:119 | after a press of the status button the status is set and the content is in the library |
| ContentDetailScreen.Tabs | anime-social-app-clean/anime-social-app/src/screens/ContentDetailScreen.tsx:82-95 | three tabs: episodes for anime or chapters otherwise, then reviews and info |
| ContentDetailScreen.InitialTab | anime-social-app-clean/anime-social-app/src/screens/ContentDetailScreen.tsx:39 | the initial active tab is the first listed tab |
| ContentDetailScreen.TypeLabel | anime-social-app-clean/anime-social-app/src/screens/ContentDetailScreen.tsx:76-80 | the type name and a bullet, then the decimal count, then the unit: ' Season' or ' Seasons' (plural exactly when seasons is not 1) for anime, ' Volumes' for manga, ' Pages' otherwise |
| ContentDetailScreen.TypeLabelShowsCount | anime-social-app-clean/anime-social-app/src/screens/ContentDetailScreen.tsx:76-80 | two records of the same kind with the same label have the same count |
| ContentDetailScreen.InitialStanding | anime-social-app-clean/anime-social-app/src/screens/ContentDetailScreen.tsx:43-44 | status is the content's non-empty status or null; inLibrary is the content's flag, false without content |
| ContentDetailScreen.TabGroupsSpec | anime-social-app-clean/anime-social-app/src/screens/ContentDetailScreen.tsx:126-146 | anime groups its episodes by season, others their chapters by volume, nothing when absent |
| ContentDetailScreen.GroupLabel | anime-social-app-clean/anime-social-app/src/screens/ContentDetailScreen.tsx:148-154 | 'Season' for anime, 'Volume' for manga, 'Part' otherwise |
| ContentDetailScreen.DetailScreen.constructor | anime-social-app-clean/anime-social-app/src/screens/ContentDetailScreen.tsx:31-44 | finds the content, derives isAnime, the initial standing and the first tab |
| ContentDetailScreen.DetailScreen.PressStatusButton | anime-social-app-clean/anime-social-app/src/screens/ContentDetailScreen.tsx:271-279 | the status becomes the next option and the content is in the library |
| ContentDetailScreen.DetailScreen.ChangeStatus | anime-social-app-clean/anime-social-app/src/screens/ContentDetailScreen.tsx:118-123 | status and inLibrary follow StatusChange; the tab is kept |
| ContentDetailScreen.DetailScreen.AddToLibrary | anime-social-app-clean/anime-social-app/src/screens/ContentDetailScreen.tsx:113-116 | toggles inLibrary, so two presses restore it; status and tab kept |
| ContentDetailScreen.DetailScreen.SelectTab | anime-social-app-clean/anime-social-app/src/screens/ContentDetailScreen.tsx:302 | the pressed tab becomes active and stays a listed tab |
| ContentDetailScreen.TabGroups | anime-social-app-clean/anime-social-app/src/screens/ContentDetailScreen.tsx:126-154 | the `reduce` loops yield TabGroupsSpec with the kind's heading |
| ChapterEpisodeSelector.Titled | anime-social-app-clean/anime-social-app/src/components/ChapterEpisodeSelector.tsx:56-59 | each group becomes a section titled prefix plus its key, holding its items |
| ChapterEpisodeSelector.SectionsSpec | anime-social-app-clean/anime-social-app/src/components/ChapterEpisodeSelector.tsx:45-75 | unknown id: none; anime with episodes: season sections; otherwise chapters give volume sections; otherwise none |
| ChapterEpisodeSelector.Sections | anime-social-app-clean/anime-social-app/src/components/ChapterEpisodeSelector.tsx:45-75 | the `forEach` filling yields SectionsSpec |
| ChapterEpisodeSelector.SectionOfItem | anime-social-app-clean/anime-social-app/src/components/ChapterEpisodeSelector.tsx:49-54 | an item lies in a section exactly when the section's title carries the item's key |
| ChapterEpisodeSelector.Select | anime-social-app-clean/anime-social-app/src/components/ChapterEpisodeSelector.tsx:77-86 | reports id, number, title, season and volume unchanged |
| ChapterEpisodeSelector.SelectLosesNothing | anime-social-app-clean/anime-social-app/src/components/ChapterEpisodeSelector.tsx:77-86 | different items give different reports |
| SearchScreen.MatchedUsers | anime-social-app-clean/anime-social-app/src/screens/SearchScreen.tsx:55-59 | exactly the users whose username or display name contains the lowered query, in order |
| SearchScreen.AsUserResults | anime-social-app-clean/anime-social-app/src/screens/SearchScreen.tsx:60 | one user result per user, in order |
| SearchScreen.AsContentResults | anime-social-app-clean/anime-social-app/src/screens/SearchScreen.tsx:66 | one content result per entry, in order |
| SearchScreen.Combine | anime-social-app-clean/anime-social-app/src/screens/SearchScreen.tsx:52-66 | user results, then content results, each from its own list |
| SearchScreen.CombineShape | anime-social-app-clean/anime-social-app/src/screens/SearchScreen.tsx:52-66 | positions below the user count are the users, the rest the content |
| SearchScreen.SearchSpec | anime-social-app-clean/anime-social-app/src/screens/SearchScreen.tsx:48-69 | blank: nothing; otherwise as many results as matches, every result matching, users before content |
| SearchScreen.SearchOrder | anime-social-app-clean/anime-social-app/src/screens/SearchScreen.tsx:55-66 | for a non-blank query the results are the matching users in data order, then the matching entries in catalogue order, position by position |
| SearchScreen.UserResultCounts | anime-social-app-clean/anime-social-app/src/screens/SearchScreen.tsx:60 | each user occurs as often as a result as in its list |
| SearchScreen.ContentResultCounts | anime-social-app-clean/anime-social-app/src/screens/SearchScreen.tsx:66 | each entry occurs as often as a result as in its list |
| SearchScreen.NoUserAmongContent | anime-social-app-clean/anime-social-app/src/screens/SearchScreen.tsx:66 | content results hold no user |
| SearchScreen.NoContentAmongUsers | anime-social-app-clean/anime-social-app/src/screens/SearchScreen.tsx:60 | user results hold no content |
| SearchScreen.EveryMatchingUserOnce | anime-social-app-clean/anime-social-app/src/screens/SearchScreen.tsx:55-60 | every matching user appears as often as in the user data |
| SearchScreen.EveryMatchingContentOnce | anime-social-app-clean/anime-social-app/src/screens/SearchScreen.tsx:63-66 | every matching entry appears as often as in the catalogue |
| SearchScreen.UserResultsSnoc | anime-social-app-clean/anime-social-app/src/screens/SearchScreen.tsx:60 | a push adds one user result at the end |
| SearchScreen.ContentResultsSnoc | anime-social-app-clean/anime-social-app/src/screens/SearchScreen.tsx:66 | a push adds one content result at the end |
| SearchScreen.Search | anime-social-app-clean/anime-social-app/src/screens/SearchScreen.tsx:48-69 | the push loops yield SearchSpec |
| SearchScreen.PushUsers | anime-social-app-clean/anime-social-app/src/screens/SearchScreen.tsx:60 | the user loop appends the user results |
| SearchScreen.PushContent | anime-social-app-clean/anime-social-app/src/screens/SearchScreen.tsx:66 | the content loop appends the content results |
| SearchScreen.ResultPress | anime-social-app-clean/anime-social-app/src/screens/SearchScreen.tsx:75-82 | a content result reports its id when a callback exists; a user result reports nothing |
| ContentSelector.FaceOf | anime-social-app-clean/anime-social-app/src/components/ContentSelector.tsx:80-168 | the selected content if any, else the search panel when searching, else the select button |
| ContentSelector.Chosen | anime-social-app-clean/anime-social-app/src/components/ContentSelector.tsx:54-62 | reports the entry's id, title and type |
| ContentSelector.CustomEntry | anime-social-app-clean/anime-social-app/src/components/ContentSelector.tsx:64-74 | only for a non-blank query: the trimmed query as title, type 'book', id 'custom-' and the stamp |
| ContentSelector.CustomIdsDiffer | anime-social-app-clean/anime-social-app/src/components/ContentSelector.tsx:67 | custom entries made at different stamps have different ids |
| ContentSelector.ContentPicker.constructor | anime-social-app-clean/anime-social-app/src/components/ContentSelector.tsx:29-30 | not searching, empty query |
| ContentSelector.ContentPicker.OpenSearch | anime-social-app-clean/anime-social-app/src/components/ContentSelector.tsx:161 | enters searching mode |
| ContentSelector.ContentPicker.SetQuery | anime-social-app-clean/anime-social-app/src/components/ContentSelector.tsx:104 | sets the query |
| ContentSelector.ContentPicker.Cancel | anime-social-app-clean/anime-social-app/src/components/ContentSelector.tsx:107 | leaves searching mode and clears the query |
| ContentSelector.ContentPicker.Results | anime-social-app-clean/anime-social-app/src/components/ContentSelector.tsx:45-52 | empty for a blank query; otherwise the first min(6, matches) matching catalogue entries, in catalogue order |
| ContentSelector.ContentPicker.SelectResult | anime-social-app-clean/anime-social-app/src/components/ContentSelector.tsx:54-62 | reports the entry, leaves searching mode and clears the query |
| ContentSelector.ContentPicker.UseCustom | anime-social-app-clean/anime-social-app/src/components/ContentSelector.tsx:64-74 | reports a custom entry only for a non-blank query, then leaves searching mode; otherwise nothing changes |
| ContentSelector.ContentPicker.Clear | anime-social-app-clean/anime-social-app/src/components/ContentSelector.tsx:76-78 | clear reports null |
| PostCard.DaysFromHours | anime-social-app-clean/anime-social-app/src/components/PostCard.tsx:57-59 | floor(hours/24) equals floor(diff/day) |
| PostCard.HoursBounds | anime-social-app-clean/anime-social-app/src/components/PostCard.tsx:50-59 | the hour count is below 1 under an hour, at least 24 from a day |
| PostCard.FormatTimestamp | anime-social-app-clean/anime-social-app/src/components/PostCard.tsx:46-61 | under 1h: minutes + 'm ago'; 1h to 24h: hours 1..23 + 'h ago'; from 24h: floor(hours/24) + 'd ago' |
| PostCard.MinutesBelowSixty | anime-social-app-clean/anime-social-app/src/components/PostCard.tsx:49-54 | a non-negative gap under an hour shows at most 59 minutes |
| PostCard.FormatSmallCount | anime-social-app-clean/anime-social-app/src/components/PostCard.tsx:63-68 | a count below 1000 is its plain decimal form: for a non-negative count its shortest decimal text (no leading zero unless the count is 0), 1 to 3 digits reading back as the count, for a negative one '-' followed by the digits of its magnitude |
| PostCard.NatLength | anime-social-app-clean/anime-social-app/src/components/PostCard.tsx:67 | numbers below 1000 have at most three digits |
| PostCard.PostStarsAgree | anime-social-app-clean/anime-social-app/src/components/PostCard.tsx:101-113 | on a shown star row star k is filled iff k <= rating, as in the rating input |
| PostCard.LayoutOf | anime-social-app-clean/anime-social-app/src/components/PostCard.tsx:123-143 | a layout only for exactly 1, 2 or 3 images, holding exactly those images |
| PostCard.RenderedImages | anime-social-app-clean/anime-social-app/src/components/PostCard.tsx:123-143 | 1 to 3 images are all rendered; any other count renders none |

Helpers without a row: `PostCard.Hours` (the floor division of the timestamp gap by an hour), `PostCard.DayDivUnique` (uniqueness of Euclidean division) and `HomeScreen.LikeBalance` (the quantity `LikeKeepsBalance` keeps) serve the lemmas above and state nothing about the source on their own.

## Left out

- JSX rendering, style sheets, modal visibility flags and the dropdown's open/close presentation: no behaviour beyond the state fields modelled.
- Purely presentational components (library item card, feed header, bottom navigation, action, menu, confirmation, discard and shelf-picker modals, profile and create-post screens, recommendation, user-result, episode/chapter and content-result cards): nothing to state.
- App-level tab routing and theming (the theme context and colour palette): a constant lookup and context plumbing.
- The contentRef episode/chapter label text of a post and the episode-detail modal opened from the content detail screen: presentation only.
- PostCard.FormatSmallCount: covers only counts below 1000; the `k`/`M` branches use floating-point division and `toFixed(1)`, which are not modelled (likewise the review-count and follower formatters).
- Clock and randomness: `Date.now()`, `new Date(...)` parsing and `getTime()` become integer parameters; the random review counts of the discovery cards are not modelled.
- `Share.share`, `console.log` and navigation callbacks: a navigation callback is modelled as an optional reported id, the others are not modelled.
- The `setTimeout` delays of refresh and load-more: each is modelled as a begin step and an instantaneous completion step.
- Locale and Unicode rules of `toLowerCase` and `localeCompare`: modelled as ASCII lowering and code-point order; no locale behaviour is claimed.
- ItemOrder.SortItems: states a sorted permutation; the stability of the engine's `sort` for equal keys is not claimed.
- TextInput `maxLength` limits: enforced by the widget, not by the logic, so no length bound is claimed.
- PollCreator.PollDraft.UpdateOption: requires an index in range, because the handler is only reachable from a rendered option row.
- PollCreator.PollDraft.SelectDuration: requires a listed duration, because only the rendered duration chips call it.
- ContentDetailScreen.DetailScreen.PressStatusButton: requires the content to exist, because the screen renders its handlers only then (likewise ChangeStatus, AddToLibrary and SelectTab).
- The shelf dropdown's "more" button: it only closes the list, which Close models; the menu it would open is not part of this model.
- Fractional season or volume numbers: keys are integers; a fractional key would be an `Object.keys` string key and is not modelled.
