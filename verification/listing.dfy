/**
 The listing side of the registry client: following the `next` cursor of a
 paginated endpoint, and ordering a repository's tags newest first.
 */
module Listing {
  import opened Retention

  /** One response of a paginated endpoint; a `next` of "" means there is no further page. */
  datatype Page<T> = Page(results: seq<T>, next: string)

  const Api := "https://hub.docker.com/v2"

  function RepositoriesUrl(namespace: string): string
  {
    Api + "/repositories/" + namespace + "/?page_size=100"
  }

  function TagsUrl(namespace: string, repo: string): string
  {
    Api + "/repositories/" + namespace + "/" + repo + "/tags/?page_size=100"
  }

  /** Some response ends the cursor chain. */
  predicate Terminates<T>(pages: seq<Page<T>>)
  {
    exists k :: 0 <= k < |pages| && pages[k].next == ""
  }

  /**
   How many responses a listing consumes: up to and including the first one
   without a `next` cursor (all of them if none ends the chain).
   */
  function Served<T>(pages: seq<Page<T>>): (n: nat)
    ensures n <= |pages|
    ensures forall j :: 0 <= j < n - 1 ==> pages[j].next != ""
    ensures Terminates(pages) ==> 0 < n && pages[n - 1].next == ""
    decreases |pages|
  {
    if pages == [] then 0
    else if pages[0].next == "" then 1
    else
      var n := 1 + Served(pages[1..]);
      assert Terminates(pages) ==> Terminates(pages[1..]) by {
        if Terminates(pages) {
          var k :| 0 <= k < |pages| && pages[k].next == "";
          assert pages[1..][k - 1] == pages[k];
        }
      }
      n
  }

  /** The results of the given responses, in order. */
  function Flatten<T>(pages: seq<Page<T>>): seq<T>
  {
    if pages == [] then [] else Flatten(pages[..|pages| - 1]) + pages[|pages| - 1].results
  }

  /** Everything a listing yields: the results of every response up to the last one. */
  function Listed<T>(pages: seq<Page<T>>): seq<T>
  {
    Flatten(pages[..Served(pages)])
  }

  /**
   Fetches every page of a paginated endpoint, starting at `url`. `pages[i]` is
   the response to the i-th request. Returns the concatenated results and the
   URLs requested, one per page: the start URL, then each page's `next` cursor.
   */
  method Paginate<T>(url: string, pages: seq<Page<T>>) returns (results: seq<T>, requested: seq<string>)
    requires Terminates(pages)
    ensures url == "" ==> results == [] && requested == []
    ensures url != "" ==> results == Listed(pages)
    ensures url != "" ==> |requested| == Served(pages) && requested[0] == url
    ensures forall k :: 0 < k < |requested| ==> requested[k] == pages[k - 1].next
  {
    results, requested := [], [];
    var cursor := url;
    var i := 0;
    ghost var last := Served(pages) - 1;
    while cursor != ""
      invariant i == |requested| && i <= last + 1
      invariant url == "" ==> i == 0 && cursor == ""
      invariant url != "" ==> (cursor == "" <==> i == last + 1)
      invariant i == 0 ==> cursor == url
      invariant 0 < i ==> cursor == pages[i - 1].next && requested[0] == url
      invariant forall k :: 0 < k < i ==> requested[k] == pages[k - 1].next
      invariant results == Flatten(pages[..i])
      decreases last + 1 - i
    {
      var page := pages[i];
      assert pages[..i + 1][..i] == pages[..i];
      results := results + page.results;
      requested := requested + [cursor];
      cursor := page.next;
      i := i + 1;
    }
  }

  // ---------------------------------------------------------------------------
  // Newest-first ordering of tags
  // ---------------------------------------------------------------------------

  /** Code-point lexicographic order on strings, the order ISO timestamps are compared in. */
  predicate LexLe(a: string, b: string)
    decreases |a|
  {
    a == [] || (b != [] && (a[0] < b[0] || (a[0] == b[0] && LexLe(a[1..], b[1..]))))
  }

  lemma {:induction false} LexLeReflexive(a: string)
    ensures LexLe(a, a)
    decreases |a|
  {
    if a != [] { LexLeReflexive(a[1..]); }
  }

  lemma {:induction false} LexLeTotal(a: string, b: string)
    ensures LexLe(a, b) || LexLe(b, a)
    decreases |a|
  {
    if a != [] && b != [] && a[0] == b[0] { LexLeTotal(a[1..], b[1..]); }
  }

  lemma {:induction false} LexLeTransitive(a: string, b: string, c: string)
    requires LexLe(a, b) && LexLe(b, c)
    ensures LexLe(a, c)
    decreases |a|
  {
    if a != [] && a[0] == b[0] && b[0] == c[0] { LexLeTransitive(a[1..], b[1..], c[1..]); }
  }

  /** The sort key: the `last_updated` string, "" when absent. */
  function Key(tag: Tag): string
  {
    tag.lastUpdated
  }

  predicate NewestFirst(s: seq<Tag>)
  {
    forall i, j :: 0 <= i < j < |s| ==> LexLe(Key(s[j]), Key(s[i]))
  }

  /** The tags of `s` whose key is `k`, in the order of `s`. */
  function WithKey(s: seq<Tag>, k: string): seq<Tag>
  {
    if s == [] then [] else (if Key(s[0]) == k then [s[0]] else []) + WithKey(s[1..], k)
  }

  /** `a` and `b` hold the same tags for every timestamp, in the same order. */
  ghost predicate SameTies(a: seq<Tag>, b: seq<Tag>)
  {
    forall k :: WithKey(a, k) == WithKey(b, k)
  }

  /** Places `x` before the first tag not newer than it, so that `x` precedes its ties. */
  function Insert(x: Tag, s: seq<Tag>): seq<Tag>
  {
    if s == [] || LexLe(Key(s[0]), Key(x)) then [x] + s
    else [s[0]] + Insert(x, s[1..])
  }

  lemma {:induction false} InsertPermutes(x: Tag, s: seq<Tag>)
    ensures multiset(Insert(x, s)) == multiset(s) + multiset{x}
  {
    if s != [] && !LexLe(Key(s[0]), Key(x)) {
      InsertPermutes(x, s[1..]);
      assert s == [s[0]] + s[1..];
    }
  }

  /** No tag of `s` is newer than the timestamp `k`. */
  predicate AllAtMost(s: seq<Tag>, k: string)
  {
    forall m :: 0 <= m < |s| ==> LexLe(Key(s[m]), k)
  }

  lemma NewestFirstTail(s: seq<Tag>)
    requires NewestFirst(s) && s != []
    ensures NewestFirst(s[1..])
    ensures AllAtMost(s[1..], Key(s[0]))
  {
    var t := s[1..];
    forall i, j | 0 <= i < j < |t| ensures LexLe(Key(t[j]), Key(t[i])) {
      assert t[j] == s[j + 1] && t[i] == s[i + 1];
    }
    forall m | 0 <= m < |t| ensures LexLe(Key(t[m]), Key(s[0])) {
      assert t[m] == s[m + 1];
    }
  }

  /** A newest-first list stays newest first when a tag at least as new as all of it is put in front. */
  lemma ConsSorted(y: Tag, s: seq<Tag>)
    requires NewestFirst(s) && AllAtMost(s, Key(y))
    ensures NewestFirst([y] + s)
  {
    var r := [y] + s;
    forall i, j | 0 <= i < j < |r| ensures LexLe(Key(r[j]), Key(r[i])) {
      assert r[j] == s[j - 1];
      if i > 0 { assert r[i] == s[i - 1]; }
    }
  }

  lemma {:induction false} InsertAtMost(x: Tag, s: seq<Tag>, k: string)
    requires AllAtMost(s, k) && LexLe(Key(x), k)
    ensures AllAtMost(Insert(x, s), k)
  {
    if s != [] && !LexLe(Key(s[0]), Key(x)) {
      var t := s[1..];
      assert AllAtMost(t, k) by {
        forall m | 0 <= m < |t| ensures LexLe(Key(t[m]), k) { assert t[m] == s[m + 1]; }
      }
      InsertAtMost(x, t, k);
      var r := [s[0]] + Insert(x, t);
      forall m | 0 <= m < |r| ensures LexLe(Key(r[m]), k) {
        if m > 0 { assert r[m] == Insert(x, t)[m - 1]; }
      }
    } else {
      var r := [x] + s;
      forall m | 0 <= m < |r| ensures LexLe(Key(r[m]), k) {
        if m > 0 { assert r[m] == s[m - 1]; }
      }
    }
  }

  lemma {:induction false} InsertSorted(x: Tag, s: seq<Tag>)
    requires NewestFirst(s)
    ensures NewestFirst(Insert(x, s))
  {
    if s == [] {
      ConsSorted(x, s);
    } else {
      NewestFirstTail(s);
      var t := s[1..];
      if LexLe(Key(s[0]), Key(x)) {
        forall m | 0 <= m < |s| ensures LexLe(Key(s[m]), Key(x)) {
          if m > 0 {
            assert s[m] == t[m - 1];
            LexLeTransitive(Key(s[m]), Key(s[0]), Key(x));
          }
        }
        ConsSorted(x, s);
      } else {
        InsertSorted(x, t);
        LexLeTotal(Key(s[0]), Key(x));
        InsertAtMost(x, t, Key(s[0]));
        ConsSorted(s[0], Insert(x, t));
      }
    }
  }

  lemma {:induction false} InsertStable(x: Tag, s: seq<Tag>, k: string)
    ensures WithKey(Insert(x, s), k) == (if Key(x) == k then [x] else []) + WithKey(s, k)
  {
    if s == [] || LexLe(Key(s[0]), Key(x)) {
      assert ([x] + s)[1..] == s;
    } else {
      var t := s[1..];
      InsertStable(x, t, k);
      LexLeReflexive(Key(x));
      assert Key(s[0]) != Key(x);
      assert ([s[0]] + Insert(x, t))[1..] == Insert(x, t);
    }
  }

  /** Inserting the head of `tags` into a tie-preserving order of its tail gives a tie-preserving order of `tags`. */
  lemma InsertKeepsTies(tags: seq<Tag>, rest: seq<Tag>)
    requires tags != [] && SameTies(rest, tags[1..])
    ensures SameTies(Insert(tags[0], rest), tags)
  {
    assert tags == [tags[0]] + tags[1..];
    forall k ensures WithKey(Insert(tags[0], rest), k) == WithKey(tags, k) {
      InsertStable(tags[0], rest, k);
    }
  }

  /**
   The order `get_tags` returns: newest first by `last_updated` compared as
   strings, a stable sort, so tags with equal timestamps keep their listing order.
   */
  function SortNewestFirst(tags: seq<Tag>): (r: seq<Tag>)
    ensures multiset(r) == multiset(tags)
    ensures NewestFirst(r)
    ensures SameTies(r, tags)
    decreases |tags|
  {
    if tags == [] then []
    else
      var rest := SortNewestFirst(tags[1..]);
      InsertPermutes(tags[0], rest);
      InsertSorted(tags[0], rest);
      InsertKeepsTies(tags, rest);
      assert tags == [tags[0]] + tags[1..];
      Insert(tags[0], rest)
  }

  /**
   `get_repositories`: every repository name the namespace listing yields.
   `requested` are the URLs fetched, starting with the namespace's listing URL.
   */
  method GetRepositories(cfg: Config, pages: seq<Page<string>>) returns (repos: seq<string>, requested: seq<string>)
    requires Terminates(pages)
    ensures repos == Listed(pages)
    ensures |requested| == Served(pages) && requested[0] == RepositoriesUrl(cfg.namespace)
    ensures forall k :: 0 < k < |requested| ==> requested[k] == pages[k - 1].next
  {
    repos, requested := Paginate(RepositoriesUrl(cfg.namespace), pages);
  }

  /**
   `get_tags`: every tag of `repo`, newest first. `requested` are the URLs
   fetched, starting with the repository's tag listing URL.
   */
  method GetTags(cfg: Config, repo: string, pages: seq<Page<Tag>>) returns (tags: seq<Tag>, requested: seq<string>)
    requires Terminates(pages)
    ensures tags == SortNewestFirst(Listed(pages))
    ensures |requested| == Served(pages) && requested[0] == TagsUrl(cfg.namespace, repo)
    ensures forall k :: 0 < k < |requested| ==> requested[k] == pages[k - 1].next
  {
    var listed;
    listed, requested := Paginate(TagsUrl(cfg.namespace, repo), pages);
    tags := SortNewestFirst(listed);
  }
}
