/** The Discogs release search (`src/lib/discogs.ts`): barcode detection and
    the query parameters sent. The HTTP call is a parameter of the model. */
module Discogs {
  import opened Wrappers
  import opened Text

  /** A query that is all digits and longer than 8 characters is a barcode;
      it is not trimmed first. */
  predicate IsBarcode(query: string) {
    AllDigits(query) && |query| > 8
  }

  /** A query with any non-digit is free text. */
  lemma NonDigitIsText(query: string, k: nat)
    requires k < |query| && !IsDigit(query[k])
    ensures !IsBarcode(query)
  {
  }

  /** A query of at most 8 characters is free text, digits or not. */
  lemma ShortIsText(query: string)
    requires |query| <= 8
    ensures !IsBarcode(query)
  {
  }

  type Param = (string, string)

  /** The `URLSearchParams` object the request is built in: its entries, in
      insertion order. */
  class SearchParams {
    var entries: seq<Param>

    /** `new URLSearchParams({ token, type: 'release', per_page: '10' })`. */
    constructor(token: string)
      ensures entries == BaseParams(token)
    {
      entries := BaseParams(token);
    }

    /** `params.append(name, value)`. */
    method Append(name: string, value: string)
      modifies this
      ensures entries == old(entries) + [(name, value)]
    {
      entries := entries + [(name, value)];
    }
  }

  function BaseParams(token: string): seq<Param> {
    [("token", token), ("type", "release"), ("per_page", "10")]
  }

  /** The parameters of the request for a non-empty query. */
  function RequestParams(query: string, token: string): seq<Param> {
    BaseParams(token) + [if IsBarcode(query) then ("barcode", query) else ("q", query)]
  }

  function Names(ps: seq<Param>): seq<string> {
    seq(|ps|, i requires 0 <= i < |ps| => ps[i].0)
  }

  /** Every request carries the token, `type=release` and `per_page=10`; a
      barcode sets only `barcode`, any other query only `q`, each with the
      query itself. */
  lemma RequestParamsShape(query: string, token: string)
    ensures var ps := RequestParams(query, token);
      && ps[..3] == [("token", token), ("type", "release"), ("per_page", "10")]
      && ("barcode" in Names(ps) <==> IsBarcode(query))
      && ("q" in Names(ps) <==> !IsBarcode(query))
      && ps[3].1 == query
  {
    var ps := RequestParams(query, token);
    var names := Names(ps);
    assert names == ["token", "type", "per_page", ps[3].0];
  }

  datatype DiscogsResult = DiscogsResult(
    id: int,
    title: string,
    year: Option<string>,
    coverImage: string,
    thumb: string,
    country: Option<string>,
    labels: Option<seq<string>>,
    genre: Option<seq<string>>,
    catno: Option<string>)

  /** The outcome of `fetch` and `response.json()`; `results` may be
      missing from the body. */
  datatype Reply = Threw | Response(ok: bool, results: Option<seq<DiscogsResult>>)

  /** `searchDiscogs(query)`: the parameters sent, if any, and the value
      returned (`None` standing for a missing `results`). */
  method SearchDiscogs(query: string, token: string, send: seq<Param> -> Reply)
    returns (sent: Option<seq<Param>>, results: Option<seq<DiscogsResult>>)
    ensures query == "" ==> sent.None? && results == Some([])
    ensures query != "" ==> sent == Some(RequestParams(query, token))
    ensures query != "" ==>
      var reply := send(sent.value);
      results == if reply.Response? && reply.ok then reply.results else Some([])
  {
    if query == "" {
      return None, Some([]);
    }
    var params := new SearchParams(token);
    if AllDigits(query) && |query| > 8 {
      params.Append("barcode", query);
    } else {
      params.Append("q", query);
    }
    sent := Some(params.entries);
    var reply := send(params.entries);
    if reply.Threw? || !reply.ok {
      results := Some([]);
    } else {
      results := reply.results;
    }
  }
}
