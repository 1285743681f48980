/**
 * The news feed's state holder: the visible articles, the page cursor, the
 * loading and error flags, the read and bookmarked identifiers, and the
 * stored copy of the bookmarks.
 *
 * The fetch itself is not modelled. Each load is split at its suspension
 * point: a `Begin` step that runs up to the request and returns it, and a
 * `Finish` step that receives the request's outcome. The whole operation
 * (`LoadAllNews`, `LoadMoreNews`, `LoadLatestNews`) runs one after the
 * other; calling `Begin` steps of several loads before their `Finish`
 * steps shows how overlapping loads interleave.
 */
module NewsFeed {
  import opened Wrappers
  import opened NewsArticle

  /** Categories for filtering the feed. */
  datatype NewsCategory = All | Bitcoin | Ethereum {

    /** The raw value, which is also the category's identifier. */
    function RawValue(): (r: string)
      ensures this == All <==> r == "All"
      ensures this == Bitcoin <==> r == "Bitcoin"
      ensures this == Ethereum <==> r == "Ethereum"
    {
      match this
      case All => "All"
      case Bitcoin => "Bitcoin"
      case Ethereum => "Ethereum"
    }

    /** The query sent to the news service for this category. */
    function Query(): (q: string)
      ensures this == All <==> q == "crypto"
      ensures this == Bitcoin <==> q == "bitcoin"
      ensures this == Ethereum <==> q == "ethereum"
    {
      match this
      case All => "crypto"
      case Bitcoin => "bitcoin"
      case Ethereum => "ethereum"
    }
  }

  /** `NewsCategory(rawValue:)` */
  function CategoryFromRawValue(s: string): (c: Option<NewsCategory>)
    ensures c.Some? ==> c.value.RawValue() == s
    ensures c.None? ==> forall d: NewsCategory :: d.RawValue() != s
  {
    if s == "All" then Some(All)
    else if s == "Bitcoin" then Some(Bitcoin)
    else if s == "Ethereum" then Some(Ethereum)
    else None
  }

  /** Every category is recovered from its raw value. */
  lemma RawValueRoundTrip(c: NewsCategory)
    ensures CategoryFromRawValue(c.RawValue()) == Some(c)
  {
  }

  /** The queries of the three categories, each category with a query of its own. */
  lemma Queries(c: NewsCategory, d: NewsCategory)
    ensures All.Query() == "crypto" && Bitcoin.Query() == "bitcoin" && Ethereum.Query() == "ethereum"
    ensures c.Query() == d.Query() <==> c == d
  {
  }

  const NoNewsMessage: string := "No news available"

  /** A request to the news service. */
  datatype Request = Request(query: string, page: int)

  /** What a request to the news service gave back. */
  datatype FetchOutcome = Fetched(articles: seq<Article>) | Failed(localizedDescription: string)

  /** The set after flipping the membership of `id`. */
  function Toggled(s: set<string>, id: string): (r: set<string>)
    ensures id in r <==> id !in s
    ensures forall x :: x != id ==> (x in r <==> x in s)
  {
    if id in s then s - {id} else s + {id}
  }

  /** Toggling the same identifier twice gives back the original set. */
  lemma ToggledTwice(s: set<string>, id: string)
    ensures Toggled(Toggled(s, id), id) == s
  {
  }

  /** `Set(ids)` */
  function Elements(ids: seq<string>): set<string> {
    set x | x in ids
  }

  predicate NoDuplicates(ids: seq<string>) {
    forall i, j :: 0 <= i < j < |ids| ==> ids[i] != ids[j]
  }

  /** `Array(set)`: the members of `s`, each once, in an order the set chooses. */
  method ArrayFromSet(s: set<string>) returns (ids: seq<string>)
    ensures Elements(ids) == s
    ensures NoDuplicates(ids)
    ensures |ids| == |s|
  {
    ids := [];
    var rest := s;
    while rest != {}
      invariant Elements(ids) + rest == s
      invariant Elements(ids) !! rest
      invariant NoDuplicates(ids)
      invariant |ids| + |rest| == |s|
      decreases |rest|
    {
      var x :| x in rest;
      ids := ids + [x];
      rest := rest - {x};
    }
  }

  class FeedViewModel {
    var articles: seq<Article>
    var isLoading: bool
    var isLoadingPage: bool
    var currentPage: int
    var errorMessage: Option<string>
    var selectedCategory: NewsCategory
    var readArticleIDs: set<string>
    var bookmarkedArticleIDs: set<string>
    /** The value stored under the key "bookmarkedArticleIDs", when it is a list of strings. */
    var storedBookmarks: Option<seq<string>>

    /** The stored list, when there is one, holds exactly the bookmarked identifiers. */
    predicate BookmarksStored()
      reads this
    {
      storedBookmarks.Some? ==> Elements(storedBookmarks.value) == bookmarkedArticleIDs
    }

    ghost predicate Valid()
      reads this
    {
      currentPage >= 1 && BookmarksStored()
    }

    /**
     * A new feed, before its first load has run: the bookmarks are read
     * from `stored`, the store's value under "bookmarkedArticleIDs".
     */
    constructor (stored: Option<seq<string>>)
      ensures Valid()
      ensures articles == [] && !isLoading && !isLoadingPage && currentPage == 1 && errorMessage == None
      ensures selectedCategory == All && readArticleIDs == {}
      ensures storedBookmarks == stored
      ensures bookmarkedArticleIDs == if stored.Some? then Elements(stored.value) else {}
    {
      articles := [];
      isLoading := false;
      isLoadingPage := false;
      currentPage := 1;
      errorMessage := None;
      selectedCategory := All;
      readArticleIDs := {};
      bookmarkedArticleIDs := {};
      storedBookmarks := stored;
      new;
      LoadBookmarks();
    }

    // ----- loading -----

    /** The start of a full or latest load: the cursor goes back to the first page. */
    method BeginFirstPage() returns (request: Request)
      requires Valid()
      modifies this`isLoading, this`currentPage
      ensures Valid()
      ensures isLoading && currentPage == 1
      ensures request == Request(selectedCategory.Query(), 1)
    {
      isLoading := true;
      currentPage := 1;
      request := Request(selectedCategory.Query(), 1);
    }

    /** The end of a full load: the fetched page replaces the list. */
    method FinishLoadAll(outcome: FetchOutcome)
      requires Valid()
      modifies this`articles, this`errorMessage, this`isLoading
      ensures Valid()
      ensures !isLoading
      ensures outcome.Fetched? ==> articles == outcome.articles
      ensures outcome.Fetched? ==> (errorMessage.None? <==> outcome.articles != [])
      ensures outcome.Fetched? && errorMessage.Some? ==> errorMessage.value == NoNewsMessage
      ensures outcome.Failed? ==> articles == [] && errorMessage == Some(outcome.localizedDescription)
    {
      match outcome {
        case Fetched(fetched) =>
          articles := fetched;
          if fetched == [] {
            errorMessage := Some(NoNewsMessage);
          } else {
            errorMessage := None;
          }
        case Failed(description) =>
          articles := [];
          errorMessage := Some(description);
      }
      isLoading := false;
    }

    /** `loadAllNews`: reset to the first page of the selected category and replace the list. */
    method LoadAllNews(outcome: FetchOutcome) returns (request: Request)
      requires Valid()
      modifies this`isLoading, this`currentPage, this`articles, this`errorMessage
      ensures Valid()
      ensures request == Request(selectedCategory.Query(), 1)
      ensures currentPage == 1 && !isLoading
      ensures outcome.Fetched? ==> articles == outcome.articles
      ensures outcome.Fetched? ==> (errorMessage.None? <==> outcome.articles != [])
      ensures outcome.Fetched? && errorMessage.Some? ==> errorMessage.value == NoNewsMessage
      ensures outcome.Failed? ==> articles == [] && errorMessage == Some(outcome.localizedDescription)
    {
      request := BeginFirstPage();
      FinishLoadAll(outcome);
    }

    /**
     * The start of loading the next page: nothing happens while a page is
     * already loading; otherwise the cursor advances and the next page is
     * requested.
     */
    method BeginLoadMore() returns (request: Option<Request>)
      requires Valid()
      modifies this`isLoadingPage, this`currentPage
      ensures Valid()
      ensures isLoadingPage
      ensures old(isLoadingPage) ==> request == None && currentPage == old(currentPage)
      ensures !old(isLoadingPage) ==>
        currentPage == old(currentPage) + 1 && request == Some(Request(selectedCategory.Query(), currentPage))
    {
      if isLoadingPage {
        return None;
      }
      isLoadingPage := true;
      currentPage := currentPage + 1;
      request := Some(Request(selectedCategory.Query(), currentPage));
    }

    /** The end of loading the next page: the page is appended as it came, or the error is shown. */
    method FinishLoadMore(outcome: FetchOutcome)
      requires Valid()
      modifies this`articles, this`errorMessage, this`isLoadingPage
      ensures Valid()
      ensures !isLoadingPage
      ensures outcome.Fetched? ==> articles == old(articles) + outcome.articles && errorMessage == old(errorMessage)
      ensures outcome.Failed? ==> articles == old(articles) && errorMessage == Some(outcome.localizedDescription)
    {
      match outcome {
        case Fetched(fetched) =>
          articles := articles + fetched;
        case Failed(description) =>
          errorMessage := Some(description);
      }
      isLoadingPage := false;
    }

    /**
     * `loadMoreNews`: a no-op while a page is loading; otherwise the cursor
     * advances whatever the outcome, and the fetched page is appended.
     */
    method LoadMoreNews(outcome: FetchOutcome) returns (request: Option<Request>)
      requires Valid()
      modifies this`isLoadingPage, this`currentPage, this`articles, this`errorMessage
      ensures Valid()
      ensures old(isLoadingPage) ==> request == None && unchanged(this)
      ensures !old(isLoadingPage) ==>
        && request == Some(Request(selectedCategory.Query(), currentPage))
        && currentPage == old(currentPage) + 1
        && !isLoadingPage
        && (outcome.Fetched? ==>
              articles == old(articles) + outcome.articles && errorMessage == old(errorMessage))
        && (outcome.Failed? ==>
              articles == old(articles) && errorMessage == Some(outcome.localizedDescription))
    {
      request := BeginLoadMore();
      if request.Some? {
        FinishLoadMore(outcome);
      }
    }

    /**
     * A second request for the next page, made while the first is still
     * pending, issues nothing: at most one page request is outstanding.
     */
    method LoadMoreWhilePending() returns (first: Option<Request>, second: Option<Request>)
      requires Valid() && !isLoadingPage
      modifies this`isLoadingPage, this`currentPage
      ensures Valid()
      ensures first == Some(Request(selectedCategory.Query(), old(currentPage) + 1))
      ensures second == None && currentPage == old(currentPage) + 1 && isLoadingPage
    {
      first := BeginLoadMore();
      second := BeginLoadMore();
    }

    /** The end of a latest-news load: at most the first five fetched articles are kept. */
    method FinishLoadLatest(outcome: FetchOutcome)
      requires Valid()
      modifies this`articles, this`errorMessage, this`isLoading
      ensures Valid()
      ensures !isLoading
      ensures outcome.Fetched? ==>
        articles <= outcome.articles && |articles| == if |outcome.articles| < 5 then |outcome.articles| else 5
      ensures outcome.Fetched? ==> (errorMessage.None? <==> outcome.articles != [])
      ensures outcome.Fetched? && errorMessage.Some? ==> errorMessage.value == NoNewsMessage
      ensures outcome.Failed? ==> articles == [] && errorMessage == Some(outcome.localizedDescription)
    {
      match outcome {
        case Fetched(fetched) =>
          articles := if |fetched| <= 5 then fetched else fetched[..5];
          errorMessage := if fetched == [] then Some(NoNewsMessage) else None;
        case Failed(description) =>
          articles := [];
          errorMessage := Some(description);
      }
      isLoading := false;
    }

    /** `loadLatestNews`: the first page of the selected category, cut to five articles. */
    method LoadLatestNews(outcome: FetchOutcome) returns (request: Request)
      requires Valid()
      modifies this`isLoading, this`currentPage, this`articles, this`errorMessage
      ensures Valid()
      ensures request == Request(selectedCategory.Query(), 1)
      ensures currentPage == 1 && !isLoading
      ensures outcome.Fetched? ==>
        articles <= outcome.articles && |articles| == if |outcome.articles| < 5 then |outcome.articles| else 5
      ensures outcome.Fetched? ==> (errorMessage.None? <==> outcome.articles != [])
      ensures outcome.Fetched? && errorMessage.Some? ==> errorMessage.value == NoNewsMessage
      ensures outcome.Failed? ==> articles == [] && errorMessage == Some(outcome.localizedDescription)
    {
      request := BeginFirstPage();
      FinishLoadLatest(outcome);
    }

    /** Choosing a category reloads the feed for it from the first page. */
    method SelectCategory(category: NewsCategory, outcome: FetchOutcome) returns (request: Request)
      requires Valid()
      modifies this`selectedCategory, this`isLoading, this`currentPage, this`articles, this`errorMessage
      ensures Valid()
      ensures selectedCategory == category
      ensures request == Request(category.Query(), 1)
      ensures currentPage == 1 && !isLoading
      ensures outcome.Fetched? ==> articles == outcome.articles
      ensures outcome.Fetched? ==> (errorMessage.None? <==> outcome.articles != [])
      ensures outcome.Fetched? && errorMessage.Some? ==> errorMessage.value == NoNewsMessage
      ensures outcome.Failed? ==> articles == [] && errorMessage == Some(outcome.localizedDescription)
    {
      selectedCategory := category;
      request := LoadAllNews(outcome);
    }

    // ----- read and bookmarked articles -----

    /** An article is read when its identifier is among the read identifiers. */
    predicate IsRead(a: Article)
      reads this
    {
      a.Id() in readArticleIDs
    }

    /** Flips whether `a` is read; articles with another identifier keep their state. */
    method ToggleRead(a: Article)
      modifies this`readArticleIDs
      ensures readArticleIDs == Toggled(old(readArticleIDs), a.Id())
      ensures IsRead(a) == !old(IsRead(a))
      ensures forall b: Article :: b.Id() != a.Id() ==> IsRead(b) == old(IsRead(b))
    {
      if IsRead(a) {
        readArticleIDs := readArticleIDs - {a.Id()};
      } else {
        readArticleIDs := readArticleIDs + {a.Id()};
      }
    }

    /** An article is bookmarked when its identifier is among the bookmarked identifiers. */
    predicate IsBookmarked(a: Article)
      reads this
    {
      a.Id() in bookmarkedArticleIDs
    }

    /** Flips whether `a` is bookmarked and stores the new set at once. */
    method ToggleBookmark(a: Article)
      requires Valid()
      modifies this`bookmarkedArticleIDs, this`storedBookmarks
      ensures Valid()
      ensures bookmarkedArticleIDs == Toggled(old(bookmarkedArticleIDs), a.Id())
      ensures IsBookmarked(a) == !old(IsBookmarked(a))
      ensures forall b: Article :: b.Id() != a.Id() ==> IsBookmarked(b) == old(IsBookmarked(b))
      ensures storedBookmarks.Some? && Elements(storedBookmarks.value) == bookmarkedArticleIDs
      ensures NoDuplicates(storedBookmarks.value)
    {
      if IsBookmarked(a) {
        bookmarkedArticleIDs := bookmarkedArticleIDs - {a.Id()};
      } else {
        bookmarkedArticleIDs := bookmarkedArticleIDs + {a.Id()};
      }
      SaveBookmarks();
    }

    /** Replaces the bookmarked set with the stored list, when one is stored. */
    method LoadBookmarks()
      modifies this`bookmarkedArticleIDs
      ensures BookmarksStored()
      ensures old(storedBookmarks).Some? ==> bookmarkedArticleIDs == Elements(storedBookmarks.value)
      ensures old(storedBookmarks).None? ==> bookmarkedArticleIDs == old(bookmarkedArticleIDs)
      ensures old(BookmarksStored()) ==> bookmarkedArticleIDs == old(bookmarkedArticleIDs)
    {
      match storedBookmarks
      case Some(saved) =>
        bookmarkedArticleIDs := Elements(saved);
      case None =>
    }

    /** Stores the bookmarked set as a list. */
    method SaveBookmarks()
      modifies this`storedBookmarks
      ensures storedBookmarks.Some? && Elements(storedBookmarks.value) == bookmarkedArticleIDs
      ensures NoDuplicates(storedBookmarks.value)
    {
      var ids := ArrayFromSet(bookmarkedArticleIDs);
      storedBookmarks := Some(ids);
    }
  }
}
