/**
 * The search screen: one result list with the matching users first and the
 * matching catalogue entries after them, and the discovery lists (trending,
 * popular, recommended) resolved from id lists.
 */
module SearchScreen {
  import opened Wrappers
  import opened Text
  import opened Seqs
  import opened Types
  import opened Catalogue

  datatype SearchResult = UserResult(user: User) | ContentResult(content: Content)

  /** Username or display name contains the query, both lowered; the query is not trimmed. */
  predicate UserMatches(u: User, query: string) {
    Contains(ToLower(u.username), ToLower(query)) || Contains(ToLower(u.displayName), ToLower(query))
  }

  function MatchedUsers(users: seq<User>, query: string): (r: seq<User>)
    ensures forall u :: u in r <==> u in users && UserMatches(u, query)
    ensures IsSubsequence(r, users)
  {
    Filter(users, (u: User) => UserMatches(u, query))
  }

  function AsUserResults(us: seq<User>): (r: seq<SearchResult>)
    ensures |r| == |us|
    ensures forall i :: 0 <= i < |r| ==> r[i] == UserResult(us[i])
  {
    seq(|us|, i requires 0 <= i < |us| => UserResult(us[i]))
  }

  function AsContentResults(cs: seq<Content>): (r: seq<SearchResult>)
    ensures |r| == |cs|
    ensures forall i :: 0 <= i < |r| ==> r[i] == ContentResult(cs[i])
  {
    seq(|cs|, i requires 0 <= i < |cs| => ContentResult(cs[i]))
  }

  /** The users' results, then the content results. */
  function Combine(us: seq<User>, cs: seq<Content>): (r: seq<SearchResult>)
    ensures |r| == |us| + |cs|
    ensures forall i :: 0 <= i < |r| && r[i].UserResult? ==> r[i].user in us
    ensures forall i :: 0 <= i < |r| && r[i].ContentResult? ==> r[i].content in cs
    ensures forall i, j :: 0 <= i < j < |r| && r[j].UserResult? ==> r[i].UserResult?
  {
    var r := AsUserResults(us) + AsContentResults(cs);
    CombineShape(us, cs);
    r
  }

  lemma CombineShape(us: seq<User>, cs: seq<Content>)
    ensures var r := AsUserResults(us) + AsContentResults(cs);
            (forall i :: 0 <= i < |us| ==> r[i] == UserResult(us[i])) &&
            (forall i :: |us| <= i < |r| ==> r[i] == ContentResult(cs[i - |us|]))
  {
  }

  /**
   * `searchResults`: nothing for a blank query; otherwise every matching user,
   * in data order, then every matching catalogue entry, in catalogue order.
   */
  function SearchSpec(users: seq<User>, catalogue: seq<Content>, query: string): (r: seq<SearchResult>)
    ensures IsBlank(query) ==> r == []
    ensures !IsBlank(query) ==> |r| == |MatchedUsers(users, query)| + |MatchingTitles(catalogue, query)|
    ensures forall i :: 0 <= i < |r| && r[i].UserResult? ==> r[i].user in users && UserMatches(r[i].user, query)
    ensures forall i :: 0 <= i < |r| && r[i].ContentResult? ==>
              r[i].content in catalogue && TitleMatches(r[i].content, query)
    ensures forall i, j :: 0 <= i < j < |r| && r[j].UserResult? ==> r[i].UserResult?
  {
    if IsBlank(query) then []
    else Combine(MatchedUsers(users, query), MatchingTitles(catalogue, query))
  }

  /**
   * For a non-blank query each group keeps its own order: the matching users in
   * data order, then the matching entries in catalogue order.
   */
  lemma SearchOrder(users: seq<User>, catalogue: seq<Content>, query: string)
    requires !IsBlank(query)
    ensures var r := SearchSpec(users, catalogue, query);
            var us := MatchedUsers(users, query);
            var cs := MatchingTitles(catalogue, query);
            (forall i :: 0 <= i < |us| ==> r[i] == UserResult(us[i])) &&
            (forall i :: 0 <= i < |cs| ==> r[|us| + i] == ContentResult(cs[i]))
  {
    CombineShape(MatchedUsers(users, query), MatchingTitles(catalogue, query));
  }

  lemma {:induction false} UserResultCounts(us: seq<User>, u: User)
    ensures multiset(AsUserResults(us))[UserResult(u)] == multiset(us)[u]
  {
    if us != [] {
      UserResultCounts(us[1..], u);
      UserResultsCons(us);
      CountStep(AsUserResults(us), AsUserResults(us[1..]), us, UserResult(u), u, UserResult(us[0]));
    }
  }

  /** Counting an element after putting one element in front of both lists. */
  lemma CountStep<A, B>(r: seq<B>, rt: seq<B>, s: seq<A>, y: B, x: A, h: B)
    requires s != [] && r == [h] + rt
    requires multiset(rt)[y] == multiset(s[1..])[x]
    requires h == y <==> s[0] == x
    ensures multiset(r)[y] == multiset(s)[x]
  {
    assert s == [s[0]] + s[1..];
  }

  lemma UserResultsCons(us: seq<User>)
    requires us != []
    ensures AsUserResults(us) == [UserResult(us[0])] + AsUserResults(us[1..])
  {
    assert forall i | 0 <= i < |us| :: ([UserResult(us[0])] + AsUserResults(us[1..]))[i] == UserResult(us[i]);
  }

  lemma {:induction false} ContentResultCounts(cs: seq<Content>, c: Content)
    ensures multiset(AsContentResults(cs))[ContentResult(c)] == multiset(cs)[c]
  {
    if cs != [] {
      ContentResultCounts(cs[1..], c);
      ContentResultsCons(cs);
      CountStep(AsContentResults(cs), AsContentResults(cs[1..]), cs, ContentResult(c), c, ContentResult(cs[0]));
    }
  }

  lemma ContentResultsCons(cs: seq<Content>)
    requires cs != []
    ensures AsContentResults(cs) == [ContentResult(cs[0])] + AsContentResults(cs[1..])
  {
    assert forall i | 0 <= i < |cs| :: ([ContentResult(cs[0])] + AsContentResults(cs[1..]))[i] == ContentResult(cs[i]);
  }

  lemma NoUserAmongContent(cs: seq<Content>, u: User)
    ensures multiset(AsContentResults(cs))[UserResult(u)] == 0
  {
    assert UserResult(u) !in AsContentResults(cs);
  }

  lemma NoContentAmongUsers(us: seq<User>, c: Content)
    ensures multiset(AsUserResults(us))[ContentResult(c)] == 0
  {
    assert ContentResult(c) !in AsUserResults(us);
  }

  /** For a non-blank query, each matching user is listed exactly as often as it occurs in the data. */
  lemma EveryMatchingUserOnce(users: seq<User>, catalogue: seq<Content>, query: string, u: User)
    requires !IsBlank(query) && UserMatches(u, query)
    ensures multiset(SearchSpec(users, catalogue, query))[UserResult(u)] == multiset(users)[u]
  {
    assert SearchSpec(users, catalogue, query) ==
           AsUserResults(MatchedUsers(users, query)) + AsContentResults(MatchingTitles(catalogue, query));
    var us := MatchedUsers(users, query);
    var cs := MatchingTitles(catalogue, query);
    UserResultCounts(us, u);
    NoUserAmongContent(cs, u);
    FilterCounts(users, (v: User) => UserMatches(v, query), u);
  }

  /** For a non-blank query, each matching catalogue entry is listed exactly as often as it occurs. */
  lemma EveryMatchingContentOnce(users: seq<User>, catalogue: seq<Content>, query: string, c: Content)
    requires !IsBlank(query) && TitleMatches(c, query)
    ensures multiset(SearchSpec(users, catalogue, query))[ContentResult(c)] == multiset(catalogue)[c]
  {
    assert SearchSpec(users, catalogue, query) ==
           AsUserResults(MatchedUsers(users, query)) + AsContentResults(MatchingTitles(catalogue, query));
    var us := MatchedUsers(users, query);
    var cs := MatchingTitles(catalogue, query);
    ContentResultCounts(cs, c);
    NoContentAmongUsers(us, c);
    FilterCounts(catalogue, (d: Content) => TitleMatches(d, query), c);
  }

  lemma UserResultsSnoc(us: seq<User>, i: nat)
    requires i < |us|
    ensures AsUserResults(us[..i + 1]) == AsUserResults(us[..i]) + [UserResult(us[i])]
  {
    assert forall k :: 0 <= k < i ==> us[..i + 1][k] == us[..i][k];
  }

  lemma ContentResultsSnoc(cs: seq<Content>, i: nat)
    requires i < |cs|
    ensures AsContentResults(cs[..i + 1]) == AsContentResults(cs[..i]) + [ContentResult(cs[i])]
  {
    assert forall k :: 0 <= k < i ==> cs[..i + 1][k] == cs[..i][k];
  }

  /** The `useMemo` body: filter, then push users and content onto one array. */
  method Search(users: seq<User>, catalogue: seq<Content>, query: string) returns (results: seq<SearchResult>)
    ensures results == SearchSpec(users, catalogue, query)
  {
    if IsBlank(query) {
      return [];
    }
    var matchedUsers := MatchedUsers(users, query);
    var matchedContent := MatchingTitles(catalogue, query);
    results := PushUsers([], matchedUsers);
    results := PushContent(results, matchedContent);
    assert [] + AsUserResults(matchedUsers) == AsUserResults(matchedUsers);
  }

  /** `matchedUsers.forEach((user) => results.push({ type: 'user', data: user }))` */
  method PushUsers(start: seq<SearchResult>, us: seq<User>) returns (results: seq<SearchResult>)
    ensures results == start + AsUserResults(us)
  {
    results := start;
    for i := 0 to |us|
      invariant results == start + AsUserResults(us[..i])
    {
      UserResultsSnoc(us, i);
      results := results + [UserResult(us[i])];
    }
    assert us[..|us|] == us;
  }

  /** `matchedContent.forEach((content) => results.push({ type: 'content', data: content }))` */
  method PushContent(start: seq<SearchResult>, cs: seq<Content>) returns (results: seq<SearchResult>)
    ensures results == start + AsContentResults(cs)
  {
    results := start;
    for i := 0 to |cs|
      invariant results == start + AsContentResults(cs[..i])
    {
      ContentResultsSnoc(cs, i);
      results := results + [ContentResult(cs[i])];
    }
    assert cs[..|cs|] == cs;
  }

  /** `handleResultPress`: a content result opens its details when the screen can navigate. */
  function ResultPress(result: SearchResult, hasContentPress: bool): (navigateTo: Option<string>)
    ensures navigateTo.Some? <==> result.ContentResult? && hasContentPress
    ensures navigateTo.Some? ==> navigateTo.value == result.content.id
  {
    if result.ContentResult? && hasContentPress then Some(result.content.id) else None
  }
}
