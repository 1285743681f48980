# Crypto news feed: article model and feed state, in Dafny

This project models the two non-presentation parts of a SwiftUI crypto-news screen:

- **The news article** (`article.dfy`, module `NewsArticle`). An article is a value whose identity is its URL's string form. It is decoded from a keyed record with Swift's `Decodable` rules, as `JSONDecoder` applies them (a URL is decoded as a string that `URL(string:)` accepts):
  - `title`, `url` and `publishedAt` are required.
  - `description`, `urlToImage` and `sourceName` are optional; a missing source name becomes "Unknown Source".
  - The timestamp goes through an ordered cascade of parsers: fractional ISO 8601, then internet date-time, then three explicit `DateFormatter` patterns. The first parser that accepts it wins. When none accepts it, the article is dated "now".

  The module also covers the memberwise initialiser with its defaults, and the "time ago" label: "Just now", "Nm ago", "Nh ago", "Yesterday" or "Nd ago".
- **The feed view-model** (`feed.dfy`, module `NewsFeed`). A class `FeedViewModel` holds:
  - the article list, the page cursor, the two loading flags and the error message;
  - the selected category;
  - the read and bookmarked identifier sets;
  - the stored copy of the bookmarks.

  Loading all news replaces the list and goes back to page 1. Loading more advances the cursor and appends, and does nothing while a page is already loading. Loading the latest news keeps at most five articles. Toggling a bookmark stores the whole set at once.

`decimal.dfy` (module `Decimal`) renders a non-negative `Int` as Swift's string interpolation does and reads it back. `wrappers.dfy` holds `Option` and `Result`.

Each asynchronous load is split at its `await`:
- a `Begin` method runs up to the request and returns the request it would send (query and page);
- a `Finish` method takes the request's outcome, a list of articles or a failure with its description.

`LoadAllNews`, `LoadMoreNews` and `LoadLatestNews` run both steps in sequence.

The project stands in for these outside parts with parameters and fields:
- Foundation's `URL(string:)`, `ISO8601DateFormatter` and `DateFormatter` are the function-typed fields of `Foundation`.
- The clock (`Date()`) is the `now` parameter.
- `Calendar.isDateInYesterday` is a boolean parameter.
- The news service's fetch is the `FetchOutcome` parameter.
- `UserDefaults` is the `storedBookmarks` field.

Notes on the code's behaviour:
- Article equality is Swift's synthesized memberwise `Equatable`: two articles with the same URL but different titles are unequal (`SameIdDifferentArticles`).
- `publishedAt` is a required key as well as `title` and `url`. An unparsable timestamp is not an error, but a missing one is.
- A `urlToImage` string that is not a URL makes the whole record fail to decode.
- `loadLatestNews` resets the feed's one page cursor to 1, the same cursor `loadMoreNews` advances.

## Model

| member | source | states |
|---|---|---|
| `NewsArticle.IdentityIsUrl` | CryptoNewsArticle.swift:37 | two articles have the same identity if and only if they have the same URL |
| `NewsArticle.SameIdDifferentArticles` | CryptoNewsArticle.swift:16 | equality is memberwise: two articles can share an identity and still be unequal |
| `NewsArticle.Memberwise` | CryptoNewsArticle.swift:111-125 | the memberwise initialiser stores every given argument (title, description, URL, image URL, source name, date), so its identity is the given URL's string |
| `NewsArticle.MemberwiseDefaults` | CryptoNewsArticle.swift:111-118 | omitted arguments give no description, no image URL and the source name "Unknown Source" |
| `NewsArticle.DecodeString` | CryptoNewsArticle.swift:50 | a required string decodes exactly when the key is present with a string; otherwise the error names that key |
| `NewsArticle.DecodeStringIfPresent` | CryptoNewsArticle.swift:51 | an optional string is absent for a missing key or null, present for a string, and a type mismatch for anything else |
| `NewsArticle.DecodeUrl` | CryptoNewsArticle.swift:52 | a required URL decodes exactly when the key holds a string that the URL parser accepts |
| `NewsArticle.DecodeUrlIfPresent` | CryptoNewsArticle.swift:53 | an optional URL is absent for a missing key or null; a string the URL parser rejects is an error |
| `NewsArticle.Decode` | CryptoNewsArticle.swift:48-107 | decoding succeeds exactly when every key meets its rule. On failure, the reported key is the first failing key in reading order. On success, the title, description, URL, image URL and source name (default "Unknown Source") come from the record, and the date is the cascade's result or `now` |
| `NewsArticle.RequiredKeys` | CryptoNewsArticle.swift:50-55 | a record without title, URL or timestamp never decodes |
| `NewsArticle.DateNeverFailsDecoding` | CryptoNewsArticle.swift:59-107 | whether a record decodes does not depend on the date parsers or the clock |
| `NewsArticle.UnparsableDateIsNow` | CryptoNewsArticle.swift:101-107 | when every strategy rejects the timestamp, the decoded article is dated `now` |
| `NewsArticle.DecodeDefaultsAgreeWithMemberwise` | CryptoNewsArticle.swift:111-125 | a record with only title, URL and timestamp decodes to the memberwise initialiser's article with its default description, image and source name |
| `NewsArticle.FirstSuccess` | CryptoNewsArticle.swift:59-99 | the cascade yields nothing if and only if every parser fails. Otherwise it yields the value of a parser that succeeds while every earlier parser fails |
| `NewsArticle.PatternParsers` | CryptoNewsArticle.swift:84-98 | one formatter per fallback pattern, in the patterns' order |
| `NewsArticle.FirstSuccessAppend` | CryptoNewsArticle.swift:72-99 | later parsers are consulted only when every earlier parser fails |
| `NewsArticle.CascadeStages` | CryptoNewsArticle.swift:61-99 | the cascade tries fractional ISO 8601 first, then internet date-time, then the fallback patterns |
| `NewsArticle.ParseDate` | CryptoNewsArticle.swift:59-99 | the staged parse with its pattern loop and `break` computes the cascade's result; it gives nothing exactly when every strategy fails |
| `NewsArticle.Article.RelativeTime` | CryptoNewsArticle.swift:128-144 | under 60 s (future dates included): "Just now". Below one hour: "Nm ago" with N the whole minutes, 1..59. Below one day: "Nh ago" with N the whole hours, 1..23. From one day on: "Yesterday" when the calendar says so, otherwise "Nd ago" with N ≥ 1 the whole days |
| `NewsArticle.YesterdayOnlyAfterADay` | CryptoNewsArticle.swift:135-143 | the label is "Yesterday" if and only if at least 86400 s have passed and the calendar says yesterday |
| `NewsArticle.MinuteLabelsDistinct` | CryptoNewsArticle.swift:132-134 | two minute labels are equal if and only if the elapsed times fall in the same whole minute |
| `NewsArticle.RelativeTimeExamples` | CryptoNewsArticle.swift:127-144 | for sample elapsed times: 30 s is "Just now", 150 s "2m ago", 7200 s "2h ago", 90000 s on yesterday's date "Yesterday", 200000 s otherwise "2d ago" |
| `Decimal.Render` | CryptoNewsArticle.swift:133-134 | an interpolated count is a non-empty string of digits with no leading zero (except "0") |
| `Decimal.RenderInjective` | CryptoNewsArticle.swift:133-134 | different counts are rendered as different strings |
| `NewsFeed.NewsCategory.RawValue` | CryptoNewsFeedViewModel.swift:5-11 | the raw value, also the identifier: all → "All", bitcoin → "Bitcoin", ethereum → "Ethereum", each in both directions |
| `NewsFeed.NewsCategory.Query` | CryptoNewsFeedViewModel.swift:14-20 | the service query: all → "crypto", bitcoin → "bitcoin", ethereum → "ethereum", each in both directions |
| `NewsFeed.CategoryFromRawValue` | CryptoNewsFeedViewModel.swift:5-8 | a raw value gives the category with that raw value, or nothing when no category has it |
| `NewsFeed.RawValueRoundTrip` | CryptoNewsFeedViewModel.swift:5-11 | every category is recovered from its raw value (its identifier) |
| `NewsFeed.Queries` | CryptoNewsFeedViewModel.swift:14-20 | all → "crypto", bitcoin → "bitcoin", ethereum → "ethereum"; distinct categories have distinct queries |
| `NewsFeed.Toggled` | CryptoNewsFeedViewModel.swift:106-111 | toggling flips the identifier's membership and keeps every other identifier's |
| `NewsFeed.ToggledTwice` | CryptoNewsFeedViewModel.swift:106-111 | toggling the same identifier twice restores the set |
| `NewsFeed.ArrayFromSet` | CryptoNewsFeedViewModel.swift:141 | the list made from a set holds exactly its members, each once |
| `NewsFeed.FeedViewModel.constructor` | CryptoNewsFeedViewModel.swift:40-44 | a new feed starts empty, on page 1, with no error, and with the stored bookmarks (or none) |
| `NewsFeed.FeedViewModel.BeginFirstPage` | CryptoNewsFeedViewModel.swift:47-53 | a full or latest load marks loading, resets the cursor to 1 and requests page 1 of the selected category |
| `NewsFeed.FeedViewModel.FinishLoadAll` | CryptoNewsFeedViewModel.swift:52-63 | on success the list is the fetched page, and the error is cleared if and only if the page is non-empty (else "No news available"). On failure the list is emptied and the error is the failure's description. Loading ends either way |
| `NewsFeed.FeedViewModel.LoadAllNews` | CryptoNewsFeedViewModel.swift:47-64 | the whole full load: page 1 requested, cursor 1, not loading, list and error as for the finishing step; read and bookmark sets untouched |
| `NewsFeed.FeedViewModel.BeginLoadMore` | CryptoNewsFeedViewModel.swift:67-75 | while a page is loading nothing is requested and the cursor stays. Otherwise the cursor advances by one and that page is requested |
| `NewsFeed.FeedViewModel.FinishLoadMore` | CryptoNewsFeedViewModel.swift:70-80 | on success the fetched page is appended to the old list unchanged and the error is left alone. On failure the list is kept and the error set. Page loading ends |
| `NewsFeed.FeedViewModel.LoadMoreNews` | CryptoNewsFeedViewModel.swift:67-80 | a no-op (nothing at all changes) while a page is loading. Otherwise the cursor advances by one whatever the outcome, the old list is extended by the page without deduplication, and a failure sets the error |
| `NewsFeed.FeedViewModel.LoadMoreWhilePending` | CryptoNewsFeedViewModel.swift:68-72 | a second request for more while the first is pending issues nothing: one page request at a time |
| `NewsFeed.FeedViewModel.FinishLoadLatest` | CryptoNewsFeedViewModel.swift:87-94 | on success the list is a prefix of the fetched page of length min(5, page length), and the error is cleared if and only if the page is non-empty. On failure the list is emptied and the error set |
| `NewsFeed.FeedViewModel.LoadLatestNews` | CryptoNewsFeedViewModel.swift:83-95 | the whole latest load: page 1 requested, cursor 1, not loading, at most five articles from the front of the page |
| `NewsFeed.FeedViewModel.SelectCategory` | CryptoNewsFeedViewModel.swift:32-36 | choosing a category reloads page 1 of that category's query, with the list and error a full load gives |
| `NewsFeed.FeedViewModel.ToggleRead` | CryptoNewsFeedViewModel.swift:106-116 | stated through `IsRead`, membership of the article's identifier (its URL's string) in the read set: the read set becomes the old set with that identifier toggled, so the article's read state flips and every article with another identity keeps its read state |
| `NewsFeed.FeedViewModel.ToggleBookmark` | CryptoNewsFeedViewModel.swift:118-130 | stated through `IsBookmarked`, membership of the article's identifier (its URL's string) in the bookmarked set: the article's bookmark flips, others keep theirs, and the stored list then holds exactly the bookmarked set; read state untouched |
| `NewsFeed.FeedViewModel.LoadBookmarks` | CryptoNewsFeedViewModel.swift:133-137 | with a stored list, the bookmarked set becomes the list's set; without one it is unchanged; loading right after a save changes nothing |
| `NewsFeed.FeedViewModel.SaveBookmarks` | CryptoNewsFeedViewModel.swift:140-143 | the stored list holds exactly the bookmarked identifiers, each once |

The invariant `FeedViewModel.Valid` is kept by every loading and bookmark method. It says the cursor is at least 1, and that a stored bookmark list, when there is one, holds exactly the bookmarked set.

## Left out

- The SwiftUI screen (`AllCryptoNewsView.swift`): layout, images, navigation, scroll position and refresh gestures. It has no logic to state.
- What Foundation's URL parser, ISO 8601 formatters and pattern formatters accept. Each is an arbitrary partial function; only the cascade's order and its fallback to `now` are modelled.
- The calendar's notion of "yesterday". It is an arbitrary boolean, so the label's disagreement with the day count near midnight is allowed for but not characterised.
- Sub-second precision of `TimeInterval`. Time is whole seconds; for non-negative whole seconds, `Int(interval / 60)` is floor division.
- Network I/O of the news service, and the service itself, which is not part of this model. Each load takes its outcome as a parameter.
- `async`/`await`, `Task`, main-actor scheduling and `@Published` observation. Suspension is modelled by the `Begin`/`Finish` split; the ordering of overlapping full loads (last writer wins) is left to the caller of those steps.
- NewsFeed.FeedViewModel.constructor: the constructor does not start the initial `loadAllNews` task that `init` schedules. The first load is a separate call to `LoadAllNews`.
- NewsFeed.FeedViewModel.SelectCategory: the category's `didSet` starts the reload as a separate task. Here the reload runs at once.
- `UserDefaults`: the store is one field holding the value under the bookmarks key. A stored value that is not a list of strings reads as absent.
- URL equality is reduced to equality of the absolute string. Swift's `URL ==` also compares how a URL splits into base and relative parts, so a relative URL and the absolute URL with the same string share an id but are unequal. Every URL in the modelled code comes from `URL(string:)` without a base, where the two notions agree.
- Integer width: `currentPage += 1` and `Int(interval / 60)` (and the hour and day counts) trap on overflow in Swift. The model's integers are unbounded, so it does not capture those traps.
- The debug `print` calls in the decoder.
- The synthesized `encode(to:)`: it is not customised by the source and not used by the feed.
