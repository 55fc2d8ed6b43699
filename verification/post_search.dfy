/** The `filteredPosts` computed property of the posts page: it keeps, in order, each post whose
    tags and title contain the search text, ignoring letter case. Both versions of the page share it;
    they differ only in where the initial search text comes from. */
module PostSearch {
  import opened Wrappers
  import opened Strings

  /** One entry of the `posts` list rendered by the site generator. `tags` is the post's tags joined
      with ", ". */
  datatype Post = Post(title: string, url: string, cover: string, tags: string, date: string, description: string)

  /** The text a post is matched against: `lower("<tags> <title>")`. */
  function SearchText(p: Post): string {
    Lower(p.tags + " " + p.title)
  }

  /** The filter predicate: the post's text contains the lower-cased search. */
  predicate Matches(p: Post, search: string) {
    Contains(SearchText(p), Lower(search))
  }

  /** `a` is `b` with some elements left out, order kept. */
  predicate IsSubsequence<T(==)>(a: seq<T>, b: seq<T>)
    decreases |b|
  {
    if a == [] then true
    else if b == [] then false
    else if a[0] == b[0] then IsSubsequence(a[1..], b[1..])
    else IsSubsequence(a, b[1..])
  }

  /** The posts kept for `search`. */
  function FilteredPosts(posts: seq<Post>, search: string): (r: seq<Post>)
    ensures |r| <= |posts|
    ensures forall p :: p in r <==> p in posts && Matches(p, search)
  {
    if posts == [] then []
    else
      var rest := FilteredPosts(posts[1..], search);
      assert forall p :: p in posts <==> p == posts[0] || p in posts[1..];
      if Matches(posts[0], search) then [posts[0]] + rest else rest
  }

  /** The initial search of the current page: the first value of the `q` query parameter, or "" when
      there is none. `params` are the decoded query parameters in order. */
  function InitialSearch(params: seq<(string, string)>): (s: string)
    ensures (forall i :: 0 <= i < |params| ==> params[i].0 != "q") ==> s == ""
    ensures forall i :: 0 <= i < |params| && params[i].0 == "q" && (forall j :: 0 <= j < i ==> params[j].0 != "q") ==>
      s == params[i].1
  {
    if params == [] then ""
    else if params[0].0 == "q" then params[0].1
    else
      var s := InitialSearch(params[1..]);
      assert forall i :: 1 <= i < |params| ==> params[i] == params[1..][i - 1];
      s
  }

  /** The initial search of the older page. */
  const LegacyInitialSearch: string := ""

  /** The filter computed by a loop, as the page's array `filter` runs it, with `includes` checked by
      scanning. */
  method Filter(posts: seq<Post>, search: string) returns (r: seq<Post>)
    ensures r == FilteredPosts(posts, search)
  {
    var needle := Lower(search);
    r := [];
    var i := |posts|;
    while i > 0
      invariant 0 <= i <= |posts|
      invariant r == FilteredPosts(posts[i..], search)
    {
      i := i - 1;
      var keep := Includes(SearchText(posts[i]), needle);
      assert posts[i..][1..] == posts[i + 1..];
      if keep {
        r := [posts[i]] + r;
      }
    }
    assert posts[0..] == posts;
  }

  /** JavaScript's `String.prototype.includes`, by scanning every start position. */
  method Includes(text: string, pat: string) returns (b: bool)
    ensures b <==> Contains(text, pat)
  {
    if |pat| > |text| {
      return false;
    }
    var i := 0;
    while i <= |text| - |pat|
      invariant 0 <= i <= |text| - |pat| + 1
      invariant forall j :: 0 <= j < i ==> !OccursAt(text, pat, j)
    {
      if text[i..i + |pat|] == pat {
        assert OccursAt(text, pat, i);
        return true;
      }
      i := i + 1;
    }
    return false;
  }
}

/** Properties of the search filter. */
module PostSearchProofs {
  import opened Wrappers
  import opened Strings
  import opened PostSearch

  /** The kept posts are an order-preserving subsequence of the list. */
  lemma {:induction false} FilterIsSubsequence(posts: seq<Post>, search: string)
    ensures IsSubsequence(FilteredPosts(posts, search), posts)
  {
    if posts != [] {
      FilterIsSubsequence(posts[1..], search);
      var rest := FilteredPosts(posts[1..], search);
      if !Matches(posts[0], search) {
        SubsequenceOfTail(rest, posts);
      }
    }
  }

  /** Every matching post is kept as often as it occurs in the list, so duplicates are not merged;
      no other post is kept. */
  lemma {:induction false} FilterKeepsDuplicates(posts: seq<Post>, search: string)
    ensures forall p :: multiset(FilteredPosts(posts, search))[p] == if Matches(p, search) then multiset(posts)[p] else 0
  {
    if posts != [] {
      FilterKeepsDuplicates(posts[1..], search);
      assert posts == [posts[0]] + posts[1..];
      assert multiset(posts) == multiset([posts[0]]) + multiset(posts[1..]);
      var rest := FilteredPosts(posts[1..], search);
      if Matches(posts[0], search) {
        assert multiset([posts[0]] + rest) == multiset([posts[0]]) + multiset(rest);
      }
    }
  }

  /** A subsequence of the tail is a subsequence of the whole. */
  lemma {:induction false} SubsequenceOfTail<T>(a: seq<T>, b: seq<T>)
    requires b != [] && IsSubsequence(a, b[1..])
    ensures IsSubsequence(a, b)
    decreases |a| + |b|
  {
    if a != [] && a[0] == b[0] {
      SubsequenceDropHead(a, b[1..]);
    }
  }

  /** Dropping the head of a subsequence keeps it a subsequence. */
  lemma {:induction false} SubsequenceDropHead<T>(a: seq<T>, b: seq<T>)
    requires a != [] && IsSubsequence(a, b)
    ensures IsSubsequence(a[1..], b)
    decreases |a| + |b|
  {
    if a[0] == b[0] {
      if a[1..] != [] {
        SubsequenceOfTail(a[1..], b);
      }
    } else {
      SubsequenceDropHead(a, b[1..]);
      if a[1..] != [] {
        SubsequenceOfTail(a[1..], b);
      }
    }
  }

  /** The empty search keeps every post. */
  lemma {:induction false} EmptySearchKeepsAll(posts: seq<Post>)
    ensures FilteredPosts(posts, "") == posts
  {
    if posts != [] {
      EmptySearchKeepsAll(posts[1..]);
      ContainsEmpty(SearchText(posts[0]));
      assert Lower("") == "";
    }
  }

  /** Searches that differ only in letter case give the same result. */
  lemma {:induction false} SearchIgnoresCase(posts: seq<Post>, s: string, t: string)
    requires Lower(s) == Lower(t)
    ensures FilteredPosts(posts, s) == FilteredPosts(posts, t)
  {
    if posts != [] {
      SearchIgnoresCase(posts[1..], s, t);
    }
  }

  /** Upper-case letters in the search make no difference. */
  lemma SearchLowerCased(posts: seq<Post>, s: string)
    ensures FilteredPosts(posts, Lower(s)) == FilteredPosts(posts, s)
  {
    LowerIdempotent(s);
    SearchIgnoresCase(posts, Lower(s), s);
  }

  /** A post that matches a longer search also matches every part of it. */
  lemma MatchesNarrowing(p: Post, s: string, t: string)
    requires Contains(t, s) && Matches(p, t)
    ensures Matches(p, s)
  {
    LowerKeepsContains(t, s);
    ContainsTransitive(SearchText(p), Lower(t), Lower(s));
  }

  /** Narrowing: extending the search can only drop posts, and the results for the longer search are a
      subsequence of the results for the shorter one. */
  lemma {:induction false} SearchNarrows(posts: seq<Post>, s: string, t: string)
    requires Contains(t, s)
    ensures IsSubsequence(FilteredPosts(posts, t), FilteredPosts(posts, s))
    ensures forall p :: p in FilteredPosts(posts, t) ==> p in FilteredPosts(posts, s)
  {
    if posts != [] {
      SearchNarrows(posts[1..], s, t);
      var rt := FilteredPosts(posts[1..], t);
      var rs := FilteredPosts(posts[1..], s);
      if Matches(posts[0], t) {
        MatchesNarrowing(posts[0], s, t);
        assert ([posts[0]] + rt)[1..] == rt;
        assert ([posts[0]] + rs)[1..] == rs;
      } else if Matches(posts[0], s) {
        SubsequenceOfTail(rt, [posts[0]] + rs);
      }
    }
    forall p | p in FilteredPosts(posts, t)
      ensures p in FilteredPosts(posts, s)
    {
      MatchesNarrowing(p, s, t);
    }
  }

  /** The older page starts with the empty search, so every post is shown. */
  lemma LegacyShowsAllInitially(posts: seq<Post>)
    ensures FilteredPosts(posts, LegacyInitialSearch) == posts
  {
    EmptySearchKeepsAll(posts);
  }

  /** Without a `q` parameter the current page also shows every post. */
  lemma NoQueryShowsAll(posts: seq<Post>, params: seq<(string, string)>)
    requires forall i :: 0 <= i < |params| ==> params[i].0 != "q"
    ensures FilteredPosts(posts, InitialSearch(params)) == posts
  {
    EmptySearchKeepsAll(posts);
  }
}
