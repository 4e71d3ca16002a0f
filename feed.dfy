/**
 * The feed pipeline of client/src/pages/Home.jsx: the category toggle, the status
 * mapping, the three filters, the four sort orders and the trending ranking.
 * Everything here works on copies and returns new lists.
 */
module Feed {
  import opened Optional
  import opened JsText

  /**
   * A post as the page receives it: the stored fields the page reads, the live
   * counts, and the author's username (the populated `userId`). `createdAt` is an
   * integer clock reading.
   */
  datatype FeedPost = FeedPost(
    title: string,
    content: string,
    category: string,
    resolved: bool,
    createdAt: int,
    upvoteCount: nat,
    commentCount: nat,
    authorName: string)

  /* ---------- lists ---------- */

  /** `a` is `b` with some elements left out, the rest in their order. */
  predicate IsSubsequence<T(==)>(a: seq<T>, b: seq<T>)
    decreases |b|
  {
    || a == []
    || (b != [] && ((a[0] == b[0] && IsSubsequence(a[1..], b[1..])) || IsSubsequence(a, b[1..])))
  }

  lemma {:induction false} SubsequenceRefl<T>(a: seq<T>)
    ensures IsSubsequence(a, a)
    decreases |a|
  {
    if a != [] {
      SubsequenceRefl(a[1..]);
    }
  }

  lemma {:induction false} SubsequenceTrans<T>(a: seq<T>, b: seq<T>, c: seq<T>)
    requires IsSubsequence(a, b) && IsSubsequence(b, c)
    ensures IsSubsequence(a, c)
    decreases |c|
  {
    if a == [] {
    } else if b[0] == c[0] && IsSubsequence(b[1..], c[1..]) {
      if a[0] == b[0] && IsSubsequence(a[1..], b[1..]) {
        SubsequenceTrans(a[1..], b[1..], c[1..]);
      } else {
        SubsequenceTrans(a, b[1..], c[1..]);
      }
    } else {
      SubsequenceTrans(a, b, c[1..]);
    }
  }

  /** `s.filter(keep)`: the elements that pass, in order, each as often as in `s`. */
  function Filter<T(!new)>(s: seq<T>, keep: T -> bool): (r: seq<T>)
    ensures IsSubsequence(r, s)
    ensures forall x :: multiset(r)[x] == if keep(x) then multiset(s)[x] else 0
    ensures forall x :: x in r <==> x in s && keep(x)
  {
    if s == [] then []
    else
      assert s == [s[0]] + s[1..];
      if keep(s[0]) then [s[0]] + Filter(s[1..], keep) else Filter(s[1..], keep)
  }

  /* ---------- category selection ---------- */

  /** The test `cat !== value` that removes a category from the selection. */
  function Unselected(value: string): string -> bool {
    c => c != value
  }

  /**
   * `handleCategoryChange`: a selected category is removed (every copy of it), an
   * unselected one is appended.
   */
  function ToggleCategory(selected: seq<string>, value: string): (r: seq<string>)
    ensures value in r <==> value !in selected
    ensures forall c :: c != value ==> (c in r <==> c in selected)
    ensures value !in selected ==> r == selected + [value]
    ensures value in selected ==> r == Filter(selected, Unselected(value))
    ensures value in selected ==> IsSubsequence(r, selected) && |r| < |selected|
  {
    if value in selected then
      var r := Filter(selected, Unselected(value));
      assert multiset(r)[value] == 0 < multiset(selected)[value];
      assert |r| < |selected| by {
        assert multiset(r) <= multiset(selected);
        assert multiset(r) != multiset(selected);
        MultisetSubsetSize(multiset(r), multiset(selected));
      }
      r
    else selected + [value]
  }

  lemma MultisetSubsetSize<T>(a: multiset<T>, b: multiset<T>)
    requires a <= b && a != b
    ensures |a| < |b|
  {
    assert |b - a| > 0;
    assert b == a + (b - a);
  }

  /** Toggling the same category twice gives back the original selection, as a set. */
  lemma ToggleTwice(selected: seq<string>, value: string)
    ensures forall c :: c in ToggleCategory(ToggleCategory(selected, value), value) <==> c in selected
  {
  }

  /** A selection without repeats stays without repeats under toggling. */
  ghost predicate NoRepeats(s: seq<string>) {
    forall c :: multiset(s)[c] <= 1
  }

  lemma ToggleKeepsNoRepeats(selected: seq<string>, value: string)
    requires NoRepeats(selected)
    ensures NoRepeats(ToggleCategory(selected, value))
  {
    var r := ToggleCategory(selected, value);
    if value !in selected {
      assert multiset(r) == multiset(selected) + multiset{value};
    }
  }

  /* ---------- status ---------- */

  /**
   * `handleStatusChange`: "Pending" selects unresolved posts, "Resolved" resolved
   * ones, and anything else (the "All" button passes null) clears the filter.
   */
  function StatusFilterOf(status: Option<string>): (r: Option<bool>)
    ensures r == Some(false) <==> status == Some("Pending")
    ensures r == Some(true) <==> status == Some("Resolved")
    ensures r == None <==> status != Some("Pending") && status != Some("Resolved")
  {
    if status == Some("Pending") then Some(false)
    else if status == Some("Resolved") then Some(true)
    else None
  }

  /** What each status button passes to `handleStatusChange`, from the filter value it stands for. */
  function StatusButtonArgument(value: Option<bool>): Option<string> {
    match value
    case None => None
    case Some(resolved) => Some(if resolved then "Resolved" else "Pending")
  }

  /** Pressing a status button sets exactly the filter value that button stands for. */
  lemma StatusButtonRoundTrip(value: Option<bool>)
    ensures StatusFilterOf(StatusButtonArgument(value)) == value
  {
  }

  /* ---------- filters ---------- */

  /** The search test: the lower-cased query occurs in the lower-cased title, content, category or author name. */
  predicate MatchesQuery(query: string, p: FeedPost) {
    || Includes(Lower(p.title), query)
    || Includes(Lower(p.content), query)
    || Includes(Lower(p.category), query)
    || Includes(Lower(p.authorName), query)
  }

  /**
   * Whether a post survives the filters, stated per post: an empty category
   * selection or a whitespace-only query imposes nothing, and the search uses the
   * untrimmed query.
   */
  predicate Kept(selected: seq<string>, status: Option<bool>, searchQuery: string, p: FeedPost) {
    && (|selected| == 0 || p.category in selected)
    && (status.None? || p.resolved == status.value)
    && (IsBlank(searchQuery) || MatchesQuery(Lower(searchQuery), p))
  }

  /** The filter effect: by category, then by status, then by search term. */
  function FilterPosts(posts: seq<FeedPost>, selected: seq<string>, status: Option<bool>,
                       searchQuery: string): (r: seq<FeedPost>)
    ensures IsSubsequence(r, posts)
    ensures forall p :: multiset(r)[p] == if Kept(selected, status, searchQuery, p) then multiset(posts)[p] else 0
    ensures forall p :: p in r <==> p in posts && Kept(selected, status, searchQuery, p)
    ensures |selected| == 0 && status.None? && IsBlank(searchQuery) ==> r == posts
  {
    var byCategory := if |selected| > 0 then Filter(posts, (p: FeedPost) => p.category in selected) else posts;
    var byStatus := if status.Some? then Filter(byCategory, (p: FeedPost) => p.resolved == status.value) else byCategory;
    TrimEmptyIffBlank(searchQuery);
    var query := Lower(searchQuery);
    var bySearch := if Trim(searchQuery) != "" then Filter(byStatus, (p: FeedPost) => MatchesQuery(query, p)) else byStatus;
    SubsequenceRefl(posts);
    SubsequenceRefl(byCategory);
    SubsequenceRefl(byStatus);
    SubsequenceTrans(byStatus, byCategory, posts);
    SubsequenceTrans(bySearch, byStatus, posts);
    bySearch
  }

  /* ---------- sorting ---------- */

  /** Each element's key is at most the next one's. */
  predicate SortedBy<T>(s: seq<T>, key: T -> int) {
    forall i :: 0 <= i < |s| - 1 ==> key(s[i]) <= key(s[i + 1])
  }

  /** In a sorted list every earlier key is at most every later one. */
  lemma {:induction false} SortedByPairwise<T>(s: seq<T>, key: T -> int)
    requires SortedBy(s, key)
    ensures forall i, j :: 0 <= i < j < |s| ==> key(s[i]) <= key(s[j])
  {
    if |s| > 1 {
      SortedByPairwise(s[1..], key);
      forall i, j | 0 <= i < j < |s| ensures key(s[i]) <= key(s[j]) {
        if i > 0 {
          assert s[i] == s[1..][i - 1] && s[j] == s[1..][j - 1];
        } else if j > 1 {
          assert s[1] == s[1..][0] && s[j] == s[1..][j - 1];
        }
      }
    }
  }

  /** The elements whose key is `k`. */
  function KeyIs<T>(key: T -> int, k: int): T -> bool {
    y => key(y) == k
  }

  /** Insert `x` before the first element whose key is not smaller. */
  function InsertBy<T>(x: T, s: seq<T>, key: T -> int): (r: seq<T>)
    requires SortedBy(s, key)
    ensures SortedBy(r, key)
    ensures multiset(r) == multiset(s) + multiset{x}
    ensures |r| == |s| + 1 && (r[0] == x || (s != [] && r[0] == s[0]))
  {
    if s == [] || key(x) <= key(s[0]) then [x] + s
    else
      assert s == [s[0]] + s[1..];
      [s[0]] + InsertBy(x, s[1..], key)
  }

  /** Filtering a list that starts with `a` decides `a` first, then filters the rest. */
  lemma FilterCons<T(!new)>(a: T, t: seq<T>, keep: T -> bool)
    ensures Filter([a] + t, keep) == if keep(a) then [a] + Filter(t, keep) else Filter(t, keep)
  {
    assert ([a] + t)[1..] == t;
  }

  lemma SortedTail<T>(s: seq<T>, key: T -> int)
    requires SortedBy(s, key) && s != []
    ensures SortedBy(s[1..], key)
  {
  }

  /** Inserting `x` puts it ahead of every element with the same key. */
  lemma {:induction false} InsertByGroups<T(!new)>(x: T, s: seq<T>, key: T -> int, k: int)
    requires SortedBy(s, key)
    ensures Filter(InsertBy(x, s, key), KeyIs(key, k)) ==
      if key(x) == k then [x] + Filter(s, KeyIs(key, k)) else Filter(s, KeyIs(key, k))
  {
    var keep := KeyIs(key, k);
    if s == [] || key(x) <= key(s[0]) {
      FilterCons(x, s, keep);
    } else {
      var t := s[1..];
      SortedTail(s, key);
      InsertByGroups(x, t, key, k);
      assert s == [s[0]] + t;
      assert InsertBy(x, s, key) == [s[0]] + InsertBy(x, t, key);
      FilterCons(s[0], t, keep);
      FilterCons(s[0], InsertBy(x, t, key), keep);
    }
  }

  /**
   * `[...s].sort(cmp)` for the comparator `(a, b) => key(a) - key(b)`: ascending
   * by key, and stable as the engine's sort is: the elements sharing a key keep
   * their relative order.
   */
  function SortBy<T(!new)>(s: seq<T>, key: T -> int): (r: seq<T>)
    ensures SortedBy(r, key)
    ensures multiset(r) == multiset(s)
    ensures |r| == |s|
  {
    if s == [] then []
    else
      assert s == [s[0]] + s[1..];
      InsertBy(s[0], SortBy(s[1..], key), key)
  }

  /** The sort is stable: for each key, the elements with that key appear in their original order. */
  lemma {:induction false} SortByStable<T(!new)>(s: seq<T>, key: T -> int, k: int)
    ensures Filter(SortBy(s, key), KeyIs(key, k)) == Filter(s, KeyIs(key, k))
  {
    if s != [] {
      SortByStable(s[1..], key, k);
      InsertByGroups(s[0], SortBy(s[1..], key), key, k);
    }
  }

  function NewestFirst(p: FeedPost): int { -p.createdAt }
  function OldestFirst(p: FeedPost): int { p.createdAt }
  function MostUpvotedFirst(p: FeedPost): int { -(p.upvoteCount as int) }
  function MostCommentedFirst(p: FeedPost): int { -(p.commentCount as int) }

  /** `applySort`: four orders on a copy; any other option returns the list itself. */
  function ApplySort(option: string, posts: seq<FeedPost>): (r: seq<FeedPost>)
    ensures multiset(r) == multiset(posts) && |r| == |posts|
    ensures option == "newest" ==> forall i, j :: 0 <= i < j < |r| ==> r[i].createdAt >= r[j].createdAt
    ensures option == "oldest" ==> forall i, j :: 0 <= i < j < |r| ==> r[i].createdAt <= r[j].createdAt
    ensures option == "mostUpvoted" ==> forall i, j :: 0 <= i < j < |r| ==> r[i].upvoteCount >= r[j].upvoteCount
    ensures option == "mostCommented" ==> forall i, j :: 0 <= i < j < |r| ==> r[i].commentCount >= r[j].commentCount
    ensures option != "newest" && option != "oldest" && option != "mostUpvoted" && option != "mostCommented" ==>
      r == posts
  {
    match option
    case "newest" => SortedByPairwise(SortBy(posts, NewestFirst), NewestFirst); SortBy(posts, NewestFirst)
    case "oldest" => SortedByPairwise(SortBy(posts, OldestFirst), OldestFirst); SortBy(posts, OldestFirst)
    case "mostUpvoted" =>
      SortedByPairwise(SortBy(posts, MostUpvotedFirst), MostUpvotedFirst); SortBy(posts, MostUpvotedFirst)
    case "mostCommented" =>
      SortedByPairwise(SortBy(posts, MostCommentedFirst), MostCommentedFirst); SortBy(posts, MostCommentedFirst)
    case _ => posts
  }

  /** The sort key `applySort` orders by for each of its four options. */
  function SortKey(option: string): (key: FeedPost -> int)
    requires option in {"newest", "oldest", "mostUpvoted", "mostCommented"}
  {
    match option
    case "newest" => NewestFirst
    case "oldest" => OldestFirst
    case "mostUpvoted" => MostUpvotedFirst
    case _ => MostCommentedFirst
  }

  /**
   * `applySort` is stable: the posts that tie on the chosen key keep the order
   * they had in the filtered list.
   */
  lemma ApplySortStable(option: string, posts: seq<FeedPost>, k: int)
    requires option in {"newest", "oldest", "mostUpvoted", "mostCommented"}
    ensures Filter(ApplySort(option, posts), KeyIs(SortKey(option), k)) == Filter(posts, KeyIs(SortKey(option), k))
  {
    assert ApplySort(option, posts) == SortBy(posts, SortKey(option));
    SortByStable(posts, SortKey(option), k);
  }

  /* ---------- trending ---------- */

  const TrendingSize: nat := 10

  /**
   * Three times the source's weighted score `(2 * upvotes + comments) / 3`: the
   * same order, in integers.
   */
  function Score(p: FeedPost): int {
    2 * p.upvoteCount + p.commentCount
  }

  function HighestScoreFirst(p: FeedPost): int { -Score(p) }

  predicate IsOpen(p: FeedPost) { !p.resolved }

  /** The unresolved posts, highest score first. */
  function Ranked(posts: seq<FeedPost>): seq<FeedPost> {
    SortBy(Filter(posts, IsOpen), HighestScoreFirst)
  }

  /**
   * `trendingPosts`: the unresolved posts ranked by score, highest first, cut to
   * the first ten; `TrendingRanksByScore` states the ranking.
   */
  function Trending(posts: seq<FeedPost>): (r: seq<FeedPost>)
    ensures |r| == if |Filter(posts, IsOpen)| < TrendingSize then |Filter(posts, IsOpen)| else TrendingSize
    ensures multiset(r) <= multiset(posts)
    ensures forall p :: p in r ==> !p.resolved
  {
    var n := if |Ranked(posts)| < TrendingSize then |Ranked(posts)| else TrendingSize;
    TrendingIsTop(posts, Ranked(posts)[..n], n);
    Ranked(posts)[..n]
  }

  /**
   * The ranking is stable: unresolved posts that tie on score keep the order they
   * have in the fetched list, so the trending list keeps the first of them.
   */
  lemma RankedStable(posts: seq<FeedPost>, k: int)
    ensures Filter(Ranked(posts), KeyIs(HighestScoreFirst, k)) ==
            Filter(Filter(posts, IsOpen), KeyIs(HighestScoreFirst, k))
  {
    SortByStable(Filter(posts, IsOpen), HighestScoreFirst, k);
  }

  /**
   * The trending list is ordered by non-increasing score, and no unresolved post
   * left out of it scores higher than one kept.
   */
  lemma TrendingRanksByScore(posts: seq<FeedPost>)
    ensures var r := Trending(posts);
      && (forall i, j :: 0 <= i < j < |r| ==> Score(r[i]) >= Score(r[j]))
      && (forall q, i :: q in posts && !q.resolved && multiset(r)[q] < multiset(posts)[q] && 0 <= i < |r| ==>
            Score(q) <= Score(r[i]))
  {
    var n := if |Ranked(posts)| < TrendingSize then |Ranked(posts)| else TrendingSize;
    assert Trending(posts) == Ranked(posts)[..n];
    TrendingIsTop(posts, Trending(posts), n);
  }

  lemma TrendingIsTop(posts: seq<FeedPost>, r: seq<FeedPost>, n: nat)
    requires n <= |Ranked(posts)| && r == Ranked(posts)[..n]
    ensures |Ranked(posts)| == |Filter(posts, IsOpen)|
    ensures multiset(r) <= multiset(posts)
    ensures forall p :: p in r ==> !p.resolved
    ensures forall i, j :: 0 <= i < j < |r| ==> Score(r[i]) >= Score(r[j])
    ensures forall q, i :: q in posts && !q.resolved && multiset(r)[q] < multiset(posts)[q] && 0 <= i < |r| ==>
      Score(q) <= Score(r[i])
  {
    RankedDrawsFromOpen(posts);
    PrefixDrawsFromWhole(Ranked(posts), n);
    PrefixOfRankedOrdered(posts, r, n);
    PrefixOfRankedOutscores(posts, r, n);
  }

  /** A prefix of the ranking lists scores from highest to lowest. */
  lemma PrefixOfRankedOrdered(posts: seq<FeedPost>, r: seq<FeedPost>, n: nat)
    requires n <= |Ranked(posts)| && r == Ranked(posts)[..n]
    ensures forall i, j :: 0 <= i < j < |r| ==> Score(r[i]) >= Score(r[j])
  {
    var ranked := Ranked(posts);
    SortedByPairwise(ranked, HighestScoreFirst);
    forall i, j | 0 <= i < j < n ensures Score(r[i]) >= Score(r[j]) {
      assert HighestScoreFirst(ranked[i]) <= HighestScoreFirst(ranked[j]);
    }
  }

  /** An unresolved post left out of a prefix of the ranking scores no higher than any post in it. */
  lemma PrefixOfRankedOutscores(posts: seq<FeedPost>, r: seq<FeedPost>, n: nat)
    requires n <= |Ranked(posts)| && r == Ranked(posts)[..n]
    ensures forall q, i :: q in posts && !q.resolved && multiset(r)[q] < multiset(posts)[q] && 0 <= i < |r| ==>
      Score(q) <= Score(r[i])
  {
    var ranked := Ranked(posts);
    RankedDrawsFromOpen(posts);
    SortedByPairwise(ranked, HighestScoreFirst);
    PrefixOfSortedIsTop(ranked, n, HighestScoreFirst);
    forall q, i | q in posts && !q.resolved && multiset(r)[q] < multiset(posts)[q] && 0 <= i < n
      ensures Score(q) <= Score(r[i])
    {
      assert multiset(ranked)[q] == multiset(posts)[q];
      assert HighestScoreFirst(ranked[i]) <= HighestScoreFirst(q);
    }
  }

  /** The ranking holds each unresolved post as often as the input does, and nothing else. */
  lemma RankedDrawsFromOpen(posts: seq<FeedPost>)
    ensures forall q :: multiset(Ranked(posts))[q] == if IsOpen(q) then multiset(posts)[q] else 0
    ensures multiset(Ranked(posts)) <= multiset(posts)
    ensures forall p :: p in Ranked(posts) ==> !p.resolved
  {
    var open := Filter(posts, IsOpen);
    assert multiset(Ranked(posts)) == multiset(open);
    forall p | p in Ranked(posts) ensures !p.resolved {
      assert multiset(Ranked(posts))[p] > 0;
    }
  }

  lemma PrefixDrawsFromWhole<T>(s: seq<T>, n: nat)
    requires n <= |s|
    ensures multiset(s[..n]) <= multiset(s)
    ensures forall p :: p in s[..n] ==> p in s
  {
    assert s == s[..n] + s[n..];
  }

  /**
   * The first `n` elements of a sorted list come first: any element occurring
   * more often in the whole than in the prefix has a key no smaller than each
   * element of the prefix.
   */
  lemma {:induction false} PrefixOfSortedIsTop<T>(s: seq<T>, n: nat, key: T -> int)
    requires SortedBy(s, key) && n <= |s|
    ensures forall q, i :: multiset(s[..n])[q] < multiset(s)[q] && 0 <= i < n ==> key(s[i]) <= key(q)
  {
    assert s == s[..n] + s[n..];
    SortedByPairwise(s, key);
    forall q, i | multiset(s[..n])[q] < multiset(s)[q] && 0 <= i < n
      ensures key(s[i]) <= key(q)
    {
      assert multiset(s)[q] == multiset(s[..n])[q] + multiset(s[n..])[q];
      assert q in s[n..];
      var j :| 0 <= j < |s[n..]| && s[n..][j] == q;
      assert s[n + j] == q;
    }
  }
}
