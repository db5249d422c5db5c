/** The Google Books search (`src/lib/googleBooks.ts`): the cover URL
    reconstruction, the ISBN query detection and the extraction of a result
    from each returned volume. The HTTP call and the `URL` parser are
    parameters of the model. */
module GoogleBooks {
  import opened Wrappers
  import opened Text
  import Seqs

  // ----- getBestImage -----

  /** The `imageLinks` object of a volume; each size may be absent. */
  datatype ImageLinks = ImageLinks(
    extraLarge: Option<string>,
    large: Option<string>,
    medium: Option<string>,
    thumbnail: Option<string>,
    smallThumbnail: Option<string>)

  /** What `new URL(url)` gives: an exception, or the `id` search parameter
      (`null` when absent). */
  datatype UrlParse = Unparsable | Parsed(idParam: Option<string>)

  /** A string is truthy when present and non-empty. */
  predicate Truthy(s: Option<string>) {
    s.Some? && s.value != ""
  }

  /** The cover that Google serves for a volume id when no link is given. */
  function GenericCover(id: string): string {
    "https://books.google.com/books/content?id=" + id + "&printsec=frontcover&img=1&fife=w600&source=gbs_api"
  }

  /** The rebuilt 600-pixel cover link for an `id` parameter. */
  function CleanCover(idParam: string): string {
    "https://books.google.com/books/content?id=" + idParam + "&printsec=frontcover&img=1&fife=w600"
  }

  /** The link sizes in order of preference. */
  function Candidates(links: ImageLinks): seq<Option<string>> {
    [links.extraLarge, links.large, links.medium, links.thumbnail, links.smallThumbnail]
  }

  /** `a || b || ... || ""` over optional strings. */
  function FirstTruthy(cands: seq<Option<string>>): (r: string)
    ensures r == "" <==> forall i :: 0 <= i < |cands| ==> !Truthy(cands[i])
    ensures r != "" ==> exists i :: 0 <= i < |cands| && Truthy(cands[i]) && r == cands[i].value
                                    && forall j :: 0 <= j < i ==> !Truthy(cands[j])
  {
    if cands == [] then ""
    else if Truthy(cands[0]) then cands[0].value
    else
      var r := FirstTruthy(cands[1..]);
      assert r != "" ==> exists i :: 1 <= i < |cands| && Truthy(cands[i]) && r == cands[i].value
                                     && forall j :: 0 <= j < i ==> !Truthy(cands[j]) by {
        if r != "" {
          var i :| 0 <= i < |cands| - 1 && Truthy(cands[1..][i]) && r == cands[1..][i].value
                   && forall j :: 0 <= j < i ==> !Truthy(cands[1..][j]);
          assert forall j :: 0 <= j < i + 1 ==> !Truthy(cands[j]) by {
            forall j | 0 <= j < i + 1 ensures !Truthy(cands[j]) {
              if j > 0 { assert cands[j] == cands[1..][j - 1]; }
            }
          }
        }
      }
      r
  }

  /** `/&zoom=\d/` matches at `k`: `&zoom=` followed by one ASCII digit. */
  predicate ZoomAt(s: string, k: nat) {
    OccursAt(s, "&zoom=", k) && k + 6 < |s| && IsDigit(s[k + 6])
  }

  /** The leftmost match of `/&zoom=\d/` at or after `k`. */
  function FirstZoomFrom(s: string, k: nat): (r: Option<nat>)
    requires k <= |s|
    ensures r.Some? ==> k <= r.value && ZoomAt(s, r.value)
    ensures r.Some? ==> forall j :: k <= j < r.value ==> !ZoomAt(s, j)
    ensures r.None? ==> forall j :: k <= j ==> !ZoomAt(s, j)
    decreases |s| - k
  {
    if k == |s| then None
    else if ZoomAt(s, k) then Some(k)
    else FirstZoomFrom(s, k + 1)
  }

  /** `s.replace(/&zoom=\d/, '&fife=w600')`: the first match only. */
  function ReplaceZoom(s: string): (r: string)
    ensures FirstZoomFrom(s, 0).None? ==> r == s
    ensures FirstZoomFrom(s, 0).Some? ==> |r| == |s| + 3 && Contains(r, "&fife=w600")
    ensures FirstZoomFrom(s, 0).Some? ==>
      var k := FirstZoomFrom(s, 0).value;
      k + 7 <= |s| && r == s[..k] + "&fife=w600" + s[k + 7..]
  {
    match FirstZoomFrom(s, 0)
    case None => s
    case Some(k) =>
      var r := s[..k] + "&fife=w600" + s[k + 7..];
      assert OccursAt(r, "&fife=w600", k) by {
        assert r[k..k + 10] == "&fife=w600";
      }
      OccurrenceContains(r, "&fife=w600", k);
      r
  }

  /** Steps 5 of `getBestImage`: the page curl removed, then the zoom turned
      into the 600-pixel width, or the width appended. */
  function Fallback(url: string): string {
    var u := ReplaceFirst(url, "&edge=curl", "");
    if Contains(u, "&zoom=") then ReplaceZoom(u) else u + "&fife=w600"
  }

  /** `getBestImage(id, imageLinks)`. */
  function BestImage(id: string, imageLinks: Option<ImageLinks>, parse: string -> UrlParse): string {
    match imageLinks
    case None => GenericCover(id)
    case Some(links) =>
      var url := FirstTruthy(Candidates(links));
      if url == "" then ""
      else
        var secure := ReplaceFirst(url, "http://", "https://");
        match parse(secure)
        case Parsed(Some(p)) => if p != "" then CleanCover(p) else Fallback(secure)
        case _ => Fallback(secure)
  }

  /** `getBestImage`, rebinding its local `url` step by step. */
  method GetBestImage(id: string, imageLinks: Option<ImageLinks>, parse: string -> UrlParse) returns (result: string)
    ensures result == BestImage(id, imageLinks, parse)
  {
    if imageLinks.None? {
      return GenericCover(id);
    }
    var url := FirstTruthy(Candidates(imageLinks.value));
    if url == "" {
      return "";
    }
    url := ReplaceFirst(url, "http://", "https://");
    var parsed := parse(url);
    if parsed.Parsed? && Truthy(parsed.idParam) {
      return CleanCover(parsed.idParam.value);
    }
    url := ReplaceFirst(url, "&edge=curl", "");
    if Contains(url, "&zoom=") {
      url := ReplaceZoom(url);
    } else {
      url := url + "&fife=w600";
    }
    return url;
  }

  /** Without `imageLinks` the cover is the generic one for the volume id. */
  lemma NoLinksGivesGenericCover(id: string, parse: string -> UrlParse)
    ensures BestImage(id, None, parse) == GenericCover(id)
  {
  }

  /** With `imageLinks` but no usable size the cover is empty, not the
      generic one. */
  lemma NoSizeGivesEmpty(id: string, links: ImageLinks, parse: string -> UrlParse)
    requires forall i :: 0 <= i < 5 ==> !Truthy(Candidates(links)[i])
    ensures BestImage(id, Some(links), parse) == ""
  {
  }

  /** The largest available size is the one used, with its first `http://`
      made `https://`; when it carries an `id` parameter the cover is
      rebuilt from that id alone. */
  lemma LargestSizeRebuilt(id: string, links: ImageLinks, parse: string -> UrlParse, k: nat)
    requires k < 5 && Truthy(Candidates(links)[k])
    requires forall j :: 0 <= j < k ==> !Truthy(Candidates(links)[j])
    requires var secure := ReplaceFirst(Candidates(links)[k].value, "http://", "https://");
      parse(secure).Parsed? && Truthy(parse(secure).idParam)
    ensures var secure := ReplaceFirst(Candidates(links)[k].value, "http://", "https://");
      BestImage(id, Some(links), parse) == CleanCover(parse(secure).idParam.value)
  {
    var cands := Candidates(links);
    var url := FirstTruthy(cands);
    var i :| 0 <= i < |cands| && Truthy(cands[i]) && url == cands[i].value
             && forall j :: 0 <= j < i ==> !Truthy(cands[j]);
    assert i == k;
  }

  /** When `&zoom=` is there but never followed by a digit, the fallback
      neither replaces nor appends anything. */
  lemma ZoomWithoutDigitUnchanged(url: string)
    requires var u := ReplaceFirst(url, "&edge=curl", "");
      Contains(u, "&zoom=") && forall j :: !ZoomAt(u, j)
    ensures Fallback(url) == ReplaceFirst(url, "&edge=curl", "")
  {
  }

  /** When `&zoom=` followed by a digit first occurs at `k`, those seven
      characters become `&fife=w600` and the rest is kept. */
  lemma ZoomWithDigitReplaced(url: string, k: nat)
    requires var u := ReplaceFirst(url, "&edge=curl", "");
      ZoomAt(u, k) && forall j :: 0 <= j < k ==> !ZoomAt(u, j)
    ensures var u := ReplaceFirst(url, "&edge=curl", "");
      k + 7 <= |u| && Fallback(url) == u[..k] + "&fife=w600" + u[k + 7..]
  {
    var u := ReplaceFirst(url, "&edge=curl", "");
    OccurrenceContains(u, "&zoom=", k);
    assert FirstZoomFrom(u, 0) == Some(k);
  }

  /** When the largest size's secure URL does not parse, or carries no
      non-empty `id`, the cover is that URL through the fallback. */
  lemma UnparsedFallsBack(id: string, links: ImageLinks, parse: string -> UrlParse, k: nat)
    requires k < 5 && Truthy(Candidates(links)[k])
    requires forall j :: 0 <= j < k ==> !Truthy(Candidates(links)[j])
    requires var secure := ReplaceFirst(Candidates(links)[k].value, "http://", "https://");
      !(parse(secure).Parsed? && Truthy(parse(secure).idParam))
    ensures var secure := ReplaceFirst(Candidates(links)[k].value, "http://", "https://");
      BestImage(id, Some(links), parse) == Fallback(secure)
  {
    var cands := Candidates(links);
    var url := FirstTruthy(cands);
    var i :| 0 <= i < |cands| && Truthy(cands[i]) && url == cands[i].value
             && forall j :: 0 <= j < i ==> !Truthy(cands[j]);
    assert i == k;
    var secure := ReplaceFirst(url, "http://", "https://");
    match parse(secure)
    case Unparsable =>
    case Parsed(None) =>
    case Parsed(Some(p)) => assert p == "";
  }

  /** Without `&zoom=` the fallback appends the width after removing the
      first page curl. */
  lemma NoZoomAppendsWidth(url: string)
    requires !Contains(ReplaceFirst(url, "&edge=curl", ""), "&zoom=")
    ensures Fallback(url) == ReplaceFirst(url, "&edge=curl", "") + "&fife=w600"
  {
  }

  // ----- searchGoogleBooks -----

  /** `/^\d{10,13}$/.test(query.trim())`. */
  predicate IsIsbnQuery(query: string) {
    var t := Trim(query);
    10 <= |t| <= 13 && AllDigits(t)
  }

  /** The query sent: `isbn:` and the untrimmed query for an ISBN. */
  function FinalQuery(query: string): (r: string)
    ensures IsIsbnQuery(query) ==> r == "isbn:" + query
    ensures !IsIsbnQuery(query) ==> r == query
  {
    if IsIsbnQuery(query) then "isbn:" + query else query
  }

  /** A query with a character that is neither a digit nor white space is
      never taken for an ISBN. */
  lemma TextQueryUnchanged(query: string, k: nat)
    requires k < |query| && !IsDigit(query[k]) && !IsSpace(query[k])
    ensures FinalQuery(query) == query
  {
    TrimKeepsInner(query, k);
  }

  /** An entry of `industryIdentifiers`. */
  datatype Identifier = Identifier(kind: string, identifier: string)

  predicate IsIsbn13(x: Identifier) { x.kind == "ISBN_13" }

  predicate IsIsbn10(x: Identifier) { x.kind == "ISBN_10" }

  /** The identifier kept: the first ISBN_13, else the first ISBN_10. */
  function IsbnOf(ids: Option<seq<Identifier>>): (r: Option<string>)
    ensures ids.None? ==> r.None?
    ensures ids.Some? ==>
      && (forall i :: Seqs.FirstWith(ids.value, IsIsbn13, i) ==> r == Some(ids.value[i].identifier))
      && ((forall i :: 0 <= i < |ids.value| ==> !IsIsbn13(ids.value[i])) ==>
            forall i :: Seqs.FirstWith(ids.value, IsIsbn10, i) ==> r == Some(ids.value[i].identifier))
      && ((forall i :: 0 <= i < |ids.value| ==> !IsIsbn13(ids.value[i]) && !IsIsbn10(ids.value[i])) ==> r.None?)
  {
    match ids
    case None => None
    case Some(list) =>
      match Seqs.FindIndex(list, IsIsbn13)
      case Some(i) => Some(list[i].identifier)
      case None =>
        match Seqs.FindIndex(list, IsIsbn10)
        case Some(i) => Some(list[i].identifier)
        case None => None
  }

  /** `saleInfo`: the `amount` of the list and retail prices, if any. */
  datatype SaleInfo = SaleInfo(listAmount: Option<real>, retailAmount: Option<real>)

  predicate TruthyAmount(a: Option<real>) {
    a.Some? && a.value != 0.0
  }

  /** The price kept: the list amount, else the retail amount, else 0. */
  function PriceOf(sale: Option<SaleInfo>): (r: real)
    ensures sale.Some? && TruthyAmount(sale.value.listAmount) ==> r == sale.value.listAmount.value
    ensures sale.Some? && !TruthyAmount(sale.value.listAmount) && TruthyAmount(sale.value.retailAmount) ==>
              r == sale.value.retailAmount.value
    ensures r == 0.0 <==> sale.None? || (!TruthyAmount(sale.value.listAmount) && !TruthyAmount(sale.value.retailAmount))
  {
    if sale.Some? && TruthyAmount(sale.value.listAmount) then sale.value.listAmount.value
    else if sale.Some? && TruthyAmount(sale.value.retailAmount) then sale.value.retailAmount.value
    else 0.0
  }

  /** `foundPrice`, reassigned through the `if`/`else if`. */
  method FoundPrice(sale: Option<SaleInfo>) returns (foundPrice: real)
    ensures foundPrice == PriceOf(sale)
  {
    foundPrice := 0.0;
    if sale.Some? && TruthyAmount(sale.value.listAmount) {
      foundPrice := sale.value.listAmount.value;
    } else if sale.Some? && TruthyAmount(sale.value.retailAmount) {
      foundPrice := sale.value.retailAmount.value;
    }
  }

  datatype VolumeInfo = VolumeInfo(
    title: Option<string>,
    authors: Option<seq<string>>,
    publisher: Option<string>,
    publishedDate: Option<string>,
    description: Option<string>,
    pageCount: Option<int>,
    categories: Option<seq<string>>,
    imageLinks: Option<ImageLinks>,
    industryIdentifiers: Option<seq<Identifier>>)

  datatype Volume = Volume(id: string, volumeInfo: VolumeInfo, saleInfo: Option<SaleInfo>)

  /** A `BookResult`; `thumbnail` is the only member of its `imageLinks`. */
  datatype BookResult = BookResult(
    id: string,
    title: Option<string>,
    authors: seq<string>,
    publisher: Option<string>,
    publishedDate: Option<string>,
    description: Option<string>,
    pageCount: Option<int>,
    categories: Option<seq<string>>,
    thumbnail: string,
    isbn: Option<string>,
    price: real)

  const UnknownAuthor := "Sconosciuto"

  /** The result built from one volume. */
  function ToBookResult(v: Volume, parse: string -> UrlParse): BookResult {
    var info := v.volumeInfo;
    BookResult(v.id, info.title, info.authors.GetOr([UnknownAuthor]), info.publisher,
               info.publishedDate, info.description, info.pageCount, info.categories,
               BestImage(v.id, info.imageLinks, parse), IsbnOf(info.industryIdentifiers),
               PriceOf(v.saleInfo))
  }

  /** The outcome of `fetch` and `response.json()`. */
  datatype Reply = Threw | Response(ok: bool, items: Option<seq<Volume>>)

  /** `searchGoogleBooks(query)`: the query sent and the results returned.
      Any failure and a reply without `items` give no results; otherwise one
      result per volume, in order. */
  function SearchGoogleBooks(query: string, send: string -> Reply, parse: string -> UrlParse)
    : (r: (string, seq<BookResult>))
    ensures r.0 == FinalQuery(query)
    ensures var reply := send(r.0);
      (reply.Threw? || !reply.ok || reply.items.None?) ==> r.1 == []
    ensures var reply := send(r.0);
      reply.Response? && reply.ok && reply.items.Some? ==>
        && |r.1| == |reply.items.value|
        && forall i :: 0 <= i < |r.1| ==> r.1[i] == ToBookResult(reply.items.value[i], parse)
  {
    var sent := FinalQuery(query);
    match send(sent)
    case Threw => (sent, [])
    case Response(ok, items) =>
      if !ok || items.None? then (sent, [])
      else (sent, seq(|items.value|, i requires 0 <= i < |items.value| => ToBookResult(items.value[i], parse)))
  }

  /** The authors of a result: the volume's own list whenever it is present
      (an empty array is truthy, so it stays empty), `Sconosciuto` when the
      list is missing. */
  lemma ResultAuthors(v: Volume, parse: string -> UrlParse)
    ensures v.volumeInfo.authors.None? ==> ToBookResult(v, parse).authors == [UnknownAuthor]
    ensures v.volumeInfo.authors.Some? ==> ToBookResult(v, parse).authors == v.volumeInfo.authors.value
  {
  }
}
