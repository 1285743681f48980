/**
 * A news article as a value: its identity, the decoder that builds it from a
 * keyed record (with the ordered cascade of timestamp parsers), the
 * memberwise initialiser with its defaults, and the "time ago" label.
 *
 * Time is counted in whole seconds. Foundation's URL parser and date
 * formatters are not modelled: they are passed in as partial functions
 * (`Foundation`), and so are the clock (`now`) and the calendar's
 * "is this date in yesterday" test.
 */
module NewsArticle {
  import opened Wrappers
  import Decimal

  /** A point in time, in whole seconds since a fixed reference date. */
  type Instant = int

  /** A parsed URL, known here only by its absolute string. */
  datatype Url = Url(absoluteString: string)

  const UnknownSource: string := "Unknown Source"

  datatype Article = Article(
    title: string,
    description: Option<string>,
    url: Url,
    urlToImage: Option<Url>,
    sourceName: string,
    publishedAt: Instant)
  {
    /** The identity used by lists and by the read and bookmark sets: the URL's string form. */
    function Id(): string {
      url.absoluteString
    }

    /**
     * The "time ago" label, given the current time and whether the
     * calendar places `publishedAt` in yesterday.
     */
    function RelativeTime(now: Instant, isDateInYesterday: bool): (r: string)
      ensures var elapsed := now - publishedAt;
        elapsed < 60 ==> r == "Just now"
      ensures var elapsed := now - publishedAt;
        60 <= elapsed < 3600 ==>
          exists minutes: nat :: 1 <= minutes < 60 && minutes * 60 <= elapsed < minutes * 60 + 60
            && r == Decimal.Render(minutes) + "m ago"
      ensures var elapsed := now - publishedAt;
        3600 <= elapsed < 86400 ==>
          exists hours: nat :: 1 <= hours < 24 && hours * 3600 <= elapsed < hours * 3600 + 3600
            && r == Decimal.Render(hours) + "h ago"
      ensures var elapsed := now - publishedAt;
        86400 <= elapsed && isDateInYesterday ==> r == "Yesterday"
      ensures var elapsed := now - publishedAt;
        86400 <= elapsed && !isDateInYesterday ==>
          exists days: nat :: 1 <= days && days * 86400 <= elapsed < days * 86400 + 86400
            && r == Decimal.Render(days) + "d ago"
    {
      var interval := now - publishedAt;
      if interval < 60 then
        "Just now"
      else if interval < 3600 then
        var minutes := interval / 60;
        Decimal.Render(minutes) + "m ago"
      else if interval < 86400 then
        var hours := interval / 3600;
        Decimal.Render(hours) + "h ago"
      else if isDateInYesterday then
        "Yesterday"
      else
        var days := interval / 86400;
        Decimal.Render(days) + "d ago"
    }
  }

  /** The memberwise initialiser, with its default arguments. */
  function Memberwise(
    title: string,
    url: Url,
    publishedAt: Instant,
    description: Option<string> := None,
    urlToImage: Option<Url> := None,
    sourceName: string := UnknownSource): (a: Article)
    ensures a.title == title && a.url == url && a.publishedAt == publishedAt
    ensures a.description == description && a.urlToImage == urlToImage && a.sourceName == sourceName
    ensures a.Id() == url.absoluteString
  {
    Article(title, description, url, urlToImage, sourceName, publishedAt)
  }

  /** Omitted arguments give no description, no image and the unknown source. */
  lemma MemberwiseDefaults(title: string, url: Url, publishedAt: Instant)
    ensures Memberwise(title, url, publishedAt).description == None
    ensures Memberwise(title, url, publishedAt).urlToImage == None
    ensures Memberwise(title, url, publishedAt).sourceName == "Unknown Source"
  {
  }

  /** Two articles have the same identity exactly when they have the same URL. */
  lemma IdentityIsUrl(a: Article, b: Article)
    ensures a.Id() == b.Id() <==> a.url == b.url
  {
  }

  /**
   * Equality of articles is memberwise, not by identity: two articles may
   * share an id and still differ.
   */
  lemma SameIdDifferentArticles()
    ensures exists a: Article, b: Article :: a.Id() == b.Id() && a != b
  {
    var a := Memberwise("A", Url("https://example.com/x"), 0);
    var b := Memberwise("B", Url("https://example.com/x"), 0);
    assert a.Id() == b.Id() && a.title != b.title;
  }

  // ----- decoding -----

  datatype CodingKey = TitleKey | DescriptionKey | UrlKey | UrlToImageKey | PublishedAtKey | SourceNameKey

  /** Where a key comes in the order the decoder reads the keys. */
  function Position(k: CodingKey): nat {
    match k
    case TitleKey => 0
    case DescriptionKey => 1
    case UrlKey => 2
    case UrlToImageKey => 3
    case SourceNameKey => 4
    case PublishedAtKey => 5
  }

  /** A JSON value, as far as decoding a string cares: a string, null, or anything else. */
  datatype Json = JString(s: string) | JNull | JOther

  /** A keyed decoding container: the keys the record holds and their values. */
  type Container = map<CodingKey, Json>

  datatype DecodeError =
    | KeyNotFound(key: CodingKey)
    | ValueNotFound(key: CodingKey)
    | TypeMismatch(key: CodingKey)
    | DataCorrupted(key: CodingKey)

  type Parser = string -> Option<Instant>

  /** The library services the decoder relies on, as partial functions. */
  datatype Foundation = Foundation(
    /** `URL(string:)` */
    urlFromString: string -> Option<Url>,
    /** ISO 8601 with full date, full time, fractional seconds and colon separators */
    isoFractional: Parser,
    /** ISO 8601 internet date-time with a colon in the zone offset */
    isoInternet: Parser,
    /** a POSIX-locale, UTC `DateFormatter` set to the given pattern */
    patterned: string -> Parser)

  /** The explicit patterns tried, in this order, after both ISO 8601 parsers. */
  const FallbackPatterns: seq<string> := [
    "yyyy-MM-dd'T'HH:mm:ssXXXXX",
    "yyyy-MM-dd'T'HH:mm:ss.SSSXXXXX",
    "yyyy-MM-dd'T'HH:mm:ssZ"
  ]

  /** `decode(String.self, forKey:)` */
  function DecodeString(c: Container, k: CodingKey): (r: Result<string, DecodeError>)
    ensures r.Success? <==> k in c && c[k].JString?
    ensures r.Success? ==> r.value == c[k].s
    ensures r.Failure? ==> r.error.key == k
  {
    if k !in c then Failure(KeyNotFound(k))
    else match c[k]
      case JString(s) => Success(s)
      case JNull => Failure(ValueNotFound(k))
      case JOther => Failure(TypeMismatch(k))
  }

  /** `decodeIfPresent(String.self, forKey:)`: absent and null both give no value. */
  function DecodeStringIfPresent(c: Container, k: CodingKey): (r: Result<Option<string>, DecodeError>)
    ensures r.Success? <==> k !in c || !c[k].JOther?
    ensures r.Success? ==> r.value == if k in c && c[k].JString? then Some(c[k].s) else None
    ensures r.Failure? ==> r.error == TypeMismatch(k)
  {
    if k !in c then Success(None)
    else match c[k]
      case JString(s) => Success(Some(s))
      case JNull => Success(None)
      case JOther => Failure(TypeMismatch(k))
  }

  /** `decode(URL.self, forKey:)`: a string that `URL(string:)` accepts. */
  function DecodeUrl(c: Container, k: CodingKey, f: Foundation): (r: Result<Url, DecodeError>)
    ensures r.Success? <==> k in c && c[k].JString? && f.urlFromString(c[k].s).Some?
    ensures r.Success? ==> r.value == f.urlFromString(c[k].s).value
    ensures r.Failure? ==> r.error.key == k
  {
    var s :- DecodeString(c, k);
    match f.urlFromString(s)
    case Some(u) => Success(u)
    case None => Failure(DataCorrupted(k))
  }

  /** `decodeIfPresent(URL.self, forKey:)`: a present string that is not a URL is an error. */
  function DecodeUrlIfPresent(c: Container, k: CodingKey, f: Foundation): (r: Result<Option<Url>, DecodeError>)
    ensures r.Success? <==> k !in c || c[k].JNull? || (c[k].JString? && f.urlFromString(c[k].s).Some?)
    ensures r.Success? ==> r.value == if k in c && c[k].JString? then f.urlFromString(c[k].s) else None
    ensures r.Failure? ==> r.error.key == k
  {
    var s :- DecodeStringIfPresent(c, k);
    match s
    case None => Success(None)
    case Some(text) =>
      match f.urlFromString(text)
      case Some(u) => Success(Some(u))
      case None => Failure(DataCorrupted(k))
  }

  /** The rule each key must satisfy for the whole record to decode. */
  predicate KeyDecodes(c: Container, f: Foundation, k: CodingKey) {
    match k
    case TitleKey => k in c && c[k].JString?
    case PublishedAtKey => k in c && c[k].JString?
    case DescriptionKey => k !in c || !c[k].JOther?
    case SourceNameKey => k !in c || !c[k].JOther?
    case UrlKey => k in c && c[k].JString? && f.urlFromString(c[k].s).Some?
    case UrlToImageKey => k !in c || c[k].JNull? || (c[k].JString? && f.urlFromString(c[k].s).Some?)
  }

  /** The value of an optional string key: present only when it holds a string. */
  function OptionalString(c: Container, k: CodingKey): Option<string> {
    if k in c && c[k].JString? then Some(c[k].s) else None
  }

  /** The URL an optional key holds: present only when it holds a string that `URL(string:)` accepts. */
  function UrlAt(c: Container, k: CodingKey, f: Foundation): Option<Url> {
    match OptionalString(c, k)
    case Some(s) => f.urlFromString(s)
    case None => None
  }

  /**
   * Tries each parser on `s` in turn; the first that succeeds gives the
   * result and the parsers after it are not consulted.
   */
  function FirstSuccess(parsers: seq<Parser>, s: string): (r: Option<Instant>)
    ensures r.None? <==> forall i :: 0 <= i < |parsers| ==> parsers[i](s).None?
    ensures r.Some? ==>
      exists i :: 0 <= i < |parsers| && parsers[i](s) == r && forall j :: 0 <= j < i ==> parsers[j](s).None?
    decreases |parsers|
  {
    if parsers == [] then None
    else match parsers[0](s)
      case Some(d) => Some(d)
      case None =>
        var rest := FirstSuccess(parsers[1..], s);
        assert forall i :: 1 <= i < |parsers| ==> parsers[i] == parsers[1..][i - 1];
        rest
  }

  /** One `DateFormatter` parser per pattern, in the patterns' order. */
  function PatternParsers(f: Foundation, patterns: seq<string>): (ps: seq<Parser>)
    ensures |ps| == |patterns|
    ensures forall i :: 0 <= i < |patterns| ==> ps[i] == f.patterned(patterns[i])
    decreases |patterns|
  {
    if patterns == [] then [] else [f.patterned(patterns[0])] + PatternParsers(f, patterns[1..])
  }

  /** The whole cascade, in the order it is tried. */
  function Strategies(f: Foundation): seq<Parser> {
    [f.isoFractional, f.isoInternet] + PatternParsers(f, FallbackPatterns)
  }

  /** The timestamp the cascade recovers from `s`, if any strategy accepts it. */
  function ParsedDate(f: Foundation, s: string): Option<Instant> {
    FirstSuccess(Strategies(f), s)
  }

  /** Later parsers only matter when every earlier one fails. */
  lemma {:induction false} FirstSuccessAppend(p: seq<Parser>, q: seq<Parser>, s: string)
    ensures FirstSuccess(p + q, s) == if FirstSuccess(p, s).Some? then FirstSuccess(p, s) else FirstSuccess(q, s)
    decreases |p|
  {
    if p != [] {
      assert (p + q)[0] == p[0];
      if p[0](s).None? {
        assert (p + q)[1..] == p[1..] + q;
        FirstSuccessAppend(p[1..], q, s);
      }
    } else {
      assert p + q == q;
    }
  }

  /**
   * The cascade in stages: fractional ISO 8601 first, then internet
   * date-time, then the fallback patterns in list order.
   */
  lemma CascadeStages(f: Foundation, s: string)
    ensures ParsedDate(f, s) ==
      if f.isoFractional(s).Some? then f.isoFractional(s)
      else if f.isoInternet(s).Some? then f.isoInternet(s)
      else FirstSuccess(PatternParsers(f, FallbackPatterns), s)
  {
    FirstSuccessAppend([f.isoFractional, f.isoInternet], PatternParsers(f, FallbackPatterns), s);
    assert [f.isoFractional, f.isoInternet][1..] == [f.isoInternet];
  }

  /**
   * The timestamp stage of the decoder, step by step: each stage runs only
   * while nothing has parsed yet, and the pattern loop stops at the first
   * pattern that parses.
   */
  method ParseDate(f: Foundation, dateString: string) returns (parsedDate: Option<Instant>)
    ensures parsedDate == ParsedDate(f, dateString)
    ensures parsedDate.None? <==> forall i :: 0 <= i < |Strategies(f)| ==> Strategies(f)[i](dateString).None?
  {
    CascadeStages(f, dateString);
    parsedDate := f.isoFractional(dateString);
    if parsedDate == None {
      parsedDate := f.isoInternet(dateString);
    }
    if parsedDate == None {
      var patterns := FallbackPatterns;
      var i := 0;
      while i < |patterns|
        invariant 0 <= i <= |patterns|
        invariant parsedDate == None
        invariant ParsedDate(f, dateString) == FirstSuccess(PatternParsers(f, patterns[i..]), dateString)
      {
        var d := f.patterned(patterns[i])(dateString);
        assert patterns[i..][1..] == patterns[i + 1..];
        if d.Some? {
          parsedDate := d;
          break;
        }
        i := i + 1;
      }
    }
  }

  /**
   * `init(from:)`: keys are read in `Position` order and the first failing
   * key is reported; a timestamp no strategy accepts falls back to `now`.
   */
  function Decode(c: Container, f: Foundation, now: Instant): (r: Result<Article, DecodeError>)
    ensures r.Success? ==> forall k :: KeyDecodes(c, f, k)
    ensures r.Failure? ==>
      !KeyDecodes(c, f, r.error.key) && forall k :: Position(k) < Position(r.error.key) ==> KeyDecodes(c, f, k)
    ensures r.Success? ==>
      && OptionalString(c, TitleKey) == Some(r.value.title)
      && r.value.description == OptionalString(c, DescriptionKey)
      && UrlAt(c, UrlKey, f) == Some(r.value.url)
      && r.value.urlToImage == UrlAt(c, UrlToImageKey, f)
      && r.value.sourceName == OptionalString(c, SourceNameKey).GetOr(UnknownSource)
      && OptionalString(c, PublishedAtKey).Some?
      && r.value.publishedAt == ParsedDate(f, OptionalString(c, PublishedAtKey).value).GetOr(now)
  {
    var title :- DecodeString(c, TitleKey);
    var description :- DecodeStringIfPresent(c, DescriptionKey);
    var url :- DecodeUrl(c, UrlKey, f);
    var urlToImage :- DecodeUrlIfPresent(c, UrlToImageKey, f);
    var sourceName :- DecodeStringIfPresent(c, SourceNameKey);
    var dateString :- DecodeString(c, PublishedAtKey);
    var publishedAt := match ParsedDate(f, dateString)
      case Some(d) => d
      case None => now;
    EveryKeyDecodes(c, f);
    Success(Article(title, description, url, urlToImage, sourceName.GetOr(UnknownSource), publishedAt))
  }

  lemma EveryKeyDecodes(c: Container, f: Foundation)
    requires KeyDecodes(c, f, TitleKey) && KeyDecodes(c, f, DescriptionKey) && KeyDecodes(c, f, UrlKey)
    requires KeyDecodes(c, f, UrlToImageKey) && KeyDecodes(c, f, SourceNameKey) && KeyDecodes(c, f, PublishedAtKey)
    ensures forall k :: KeyDecodes(c, f, k)
  {
    forall k ensures KeyDecodes(c, f, k) {
      match k
      case TitleKey =>
      case DescriptionKey =>
      case UrlKey =>
      case UrlToImageKey =>
      case SourceNameKey =>
      case PublishedAtKey =>
    }
  }

  /** A record missing its title, URL or timestamp never decodes. */
  lemma RequiredKeys(c: Container, f: Foundation, now: Instant)
    requires TitleKey !in c || UrlKey !in c || PublishedAtKey !in c
    ensures Decode(c, f, now).Failure?
  {
  }

  /**
   * Whether a record decodes never depends on its timestamp's format, nor
   * on the clock: an unparsable timestamp is not an error.
   */
  lemma DateNeverFailsDecoding(c: Container, f: Foundation, g: Foundation, now: Instant, later: Instant)
    requires f.urlFromString == g.urlFromString
    ensures Decode(c, f, now).Success? == Decode(c, g, later).Success?
  {
    assert forall k :: KeyDecodes(c, f, k) == KeyDecodes(c, g, k);
  }

  /** When no strategy accepts the timestamp, the article is dated `now`. */
  lemma UnparsableDateIsNow(c: Container, f: Foundation, now: Instant)
    requires Decode(c, f, now).Success?
    requires forall i :: 0 <= i < |Strategies(f)| ==> Strategies(f)[i](c[PublishedAtKey].s).None?
    ensures Decode(c, f, now).value.publishedAt == now
  {
  }

  /**
   * The decoder and the memberwise initialiser agree on the defaults: a
   * record without description, image or source name decodes to the
   * article the initialiser builds when those arguments are omitted.
   */
  lemma DecodeDefaultsAgreeWithMemberwise(title: string, link: string, date: string, f: Foundation, now: Instant)
    requires f.urlFromString(link).Some?
    ensures Decode(map[TitleKey := JString(title), UrlKey := JString(link), PublishedAtKey := JString(date)], f, now)
      == Success(Memberwise(title, f.urlFromString(link).value, ParsedDate(f, date).GetOr(now)))
  {
  }

  /** "Yesterday" is shown exactly when a full day has passed and the calendar says yesterday. */
  lemma {:induction false} YesterdayOnlyAfterADay(a: Article, now: Instant, isDateInYesterday: bool)
    ensures a.RelativeTime(now, isDateInYesterday) == "Yesterday" <==> 86400 <= now - a.publishedAt && isDateInYesterday
  {
    var r := a.RelativeTime(now, isDateInYesterday);
    var elapsed := now - a.publishedAt;
    if 60 <= elapsed && !(86400 <= elapsed && isDateInYesterday) {
      var n: nat, unit: char :| r == Decimal.Render(n) + [unit, ' ', 'a', 'g', 'o'];
      assert r[|r| - 1] == 'o';
    }
  }

  /** Minute labels determine the minute: two elapsed times share a label exactly when they share a whole minute. */
  lemma MinuteLabelsDistinct(a: Article, now1: Instant, now2: Instant, y1: bool, y2: bool)
    requires 60 <= now1 - a.publishedAt < 3600 && 60 <= now2 - a.publishedAt < 3600
    ensures a.RelativeTime(now1, y1) == a.RelativeTime(now2, y2) <==>
      (now1 - a.publishedAt) / 60 == (now2 - a.publishedAt) / 60
  {
    var m1 := (now1 - a.publishedAt) / 60;
    var m2 := (now2 - a.publishedAt) / 60;
    var r1, r2 := Decimal.Render(m1), Decimal.Render(m2);
    if r1 + "m ago" == r2 + "m ago" {
      assert r1 == (r1 + "m ago")[..|r1 + "m ago"| - 5];
      assert r2 == (r2 + "m ago")[..|r2 + "m ago"| - 5];
      Decimal.RenderInjective(m1, m2);
    }
  }

  /** The labels for some sample elapsed times. */
  lemma RelativeTimeExamples(a: Article)
    ensures a.RelativeTime(a.publishedAt + 30, false) == "Just now"
    ensures a.RelativeTime(a.publishedAt + 150, false) == "2m ago"
    ensures a.RelativeTime(a.publishedAt + 7200, false) == "2h ago"
    ensures a.RelativeTime(a.publishedAt + 90000, true) == "Yesterday"
    ensures a.RelativeTime(a.publishedAt + 200000, false) == "2d ago"
  {
  }
}
