/** The Twitch API client of twitch_utils/twitch.py: the headers of the
    session, the request URL with its query string, and how a response is
    turned into a result. The HTTP exchange itself is the parameter
    `respond`, mapping a URL to the response received. */
module Twitch {
  import opened Results
  import opened Text

  const ApiRoot: string := "https://api.twitch.tv/"

  /** The Client-ID sent with every request. */
  const ClientId: string := "kimne78kx3ncx6brgo4mv6wki5h1ko"

  /** The media-type header's name, misspelled as in the source, so the
      v5 media type is never sent as the `Accept` header. */
  const AcceptName: string := "Acccept"
  const AcceptValue: string := "application/vnd.twitchtv.v5+json"

  // ---------------------------------------------------------------------
  // Session headers
  // ---------------------------------------------------------------------

  /** The headers set on the session, in the order they are set. */
  function Headers(token: string): seq<(string, string)> {
    [(AcceptName, AcceptValue), ("Client-ID", ClientId), ("Authorization", "Bearer " + token)]
  }

  /** The value a header dictionary holds under `name`: the last one set. */
  function HeaderValue(hs: seq<(string, string)>, name: string): Option<string>
    decreases |hs|
  {
    if |hs| == 0 then None
    else if hs[|hs| - 1].0 == name then Some(hs[|hs| - 1].1)
    else HeaderValue(hs[..|hs| - 1], name)
  }

  /** The headers the session sets: the fixed Client-ID, the token as a
      bearer credential (from which the token can be read back), and the
      v5 media type under the misspelled name. None of them is named
      `Accept`, so the v5 media type never reaches the server as one. */
  lemma SessionHeaders(token: string)
    ensures HeaderValue(Headers(token), "Client-ID") == Some(ClientId)
    ensures HeaderValue(Headers(token), "Authorization") == Some("Bearer " + token)
    ensures HeaderValue(Headers(token), "Authorization").value[7..] == token
    ensures HeaderValue(Headers(token), AcceptName) == Some(AcceptValue)
    ensures HeaderValue(Headers(token), "Accept") == None
  {
    var hs := Headers(token);
    var two := [(AcceptName, AcceptValue), ("Client-ID", ClientId)];
    var one := [(AcceptName, AcceptValue)];
    assert hs[..2] == two && two[..1] == one && one[..0] == [];
    assert |"Authorization"| != |"Client-ID"| && |"Authorization"| != |AcceptName|;
    assert |"Client-ID"| != |AcceptName| && |"Authorization"| != |"Accept"| && |"Client-ID"| != |"Accept"|;
    assert AcceptName[3] != "Accept"[3];
    assert HeaderValue(hs, AcceptName) == HeaderValue(two, AcceptName) == HeaderValue(one, AcceptName);
    assert HeaderValue(hs, "Accept") == HeaderValue(two, "Accept") == HeaderValue(one, "Accept");
    assert HeaderValue(one, "Accept") == HeaderValue([], "Accept");
  }

  // ---------------------------------------------------------------------
  // Request URLs
  // ---------------------------------------------------------------------

  /** The payload as `k=v` pairs joined by `&`, in order, unescaped. */
  function Query(payload: seq<(string, string)>): string {
    Join(Pieces(payload), '&')
  }

  /** The request URL: the API root, the namespace and the method, then
      `?` and the query when the payload is not empty. */
  function Url(namespace: string, endpoint: string, payload: seq<(string, string)>): (r: string)
    ensures StartsWith(r, ApiRoot + namespace + "/" + endpoint)
  {
    var path := ApiRoot + namespace + "/" + endpoint;
    if |payload| > 0 then path + "?" + Query(payload) else path
  }

  /** A name or value that needs no escaping in this URL scheme. */
  predicate Plain(s: string) {
    '?' !in s && '&' !in s && '=' !in s
  }

  /** Reads one `k=v` pair. */
  function ParsePair(kv: string): (string, string) {
    var parts := Split(kv, '=');
    (parts[0], if |parts| > 1 then parts[1] else "")
  }

  /** Reads a request URL back into its path and its payload. */
  function ParseUrl(url: string): (string, seq<(string, string)>) {
    var halves := Split(url, '?');
    if |halves| == 1 then (url, [])
    else
      var kvs := Split(halves[1], '&');
      (halves[0], seq(|kvs|, i requires 0 <= i < |kvs| => ParsePair(kvs[i])))
  }

  lemma ApiRootPlain()
    ensures '?' !in ApiRoot
  {
  }

  /** The `k=v` pieces of a query. */
  function Pieces(payload: seq<(string, string)>): (r: seq<string>)
    ensures |r| == |payload|
  {
    seq(|payload|, i requires 0 <= i < |payload| => payload[i].0 + "=" + payload[i].1)
  }

  /** Every pair of a plain payload can be read back from its query. */
  lemma QueryRoundTrip(payload: seq<(string, string)>)
    requires |payload| > 0
    requires forall i :: 0 <= i < |payload| ==> Plain(payload[i].0) && Plain(payload[i].1)
    ensures '?' !in Query(payload)
    ensures var kvs := Split(Query(payload), '&');
            |kvs| == |payload| && forall i :: 0 <= i < |kvs| ==> ParsePair(kvs[i]) == payload[i]
  {
    var kvs := Pieces(payload);
    assert Query(payload) == Join(kvs, '&');
    forall i | 0 <= i < |kvs|
      ensures '&' !in kvs[i] && '?' !in kvs[i]
      ensures ParsePair(kvs[i]) == payload[i]
    {
      SplitPair(payload[i].0, payload[i].1, '=');
      assert kvs[i] == payload[i].0 + ['='] + payload[i].1;
    }
    JoinNoChar(kvs, '&', '?');
    SplitJoin(kvs, '&');
  }

  /** With plain names and values, the path and every payload pair, in
      order, can be read back from the request URL: the query is appended
      exactly when the payload is not empty. */
  lemma UrlRoundTrip(namespace: string, endpoint: string, payload: seq<(string, string)>)
    requires '?' !in namespace && '?' !in endpoint
    requires forall i :: 0 <= i < |payload| ==> Plain(payload[i].0) && Plain(payload[i].1)
    ensures ParseUrl(Url(namespace, endpoint, payload)) == (ApiRoot + namespace + "/" + endpoint, payload)
  {
    var path := ApiRoot + namespace + "/" + endpoint;
    ApiRootPlain();
    assert '?' !in path;
    var url := Url(namespace, endpoint, payload);
    if |payload| == 0 {
      assert Split(url, '?') == [url];
    } else {
      QueryUrlParse(path, payload);
    }
  }

  /** A `?`-free path followed by the query of a plain, non-empty payload
      reads back as that path and payload. */
  lemma QueryUrlParse(path: string, payload: seq<(string, string)>)
    requires '?' !in path && |payload| > 0
    requires forall i :: 0 <= i < |payload| ==> Plain(payload[i].0) && Plain(payload[i].1)
    ensures ParseUrl(path + "?" + Query(payload)) == (path, payload)
  {
    var q := Query(payload);
    QueryRoundTrip(payload);
    SplitPair(path, q, '?');
    assert path + "?" + q == path + ['?'] + q;
    var kvs := Split(q, '&');
    assert ParseUrl(path + "?" + q) == (path, seq(|kvs|, i requires 0 <= i < |kvs| => ParsePair(kvs[i])));
    PairsBack(kvs, payload);
  }

  /** Pieces that each read back as the matching pair read back as the
      whole payload. */
  lemma PairsBack(kvs: seq<string>, payload: seq<(string, string)>)
    requires |kvs| == |payload|
    requires forall i :: 0 <= i < |kvs| ==> ParsePair(kvs[i]) == payload[i]
    ensures seq(|kvs|, i requires 0 <= i < |kvs| => ParsePair(kvs[i])) == payload
  {
  }

  /** Joining pieces free of `c` with another separator leaves no `c`. */
  lemma {:induction false} JoinNoChar(xs: seq<string>, sep: char, c: char)
    requires c != sep
    requires forall i :: 0 <= i < |xs| ==> c !in xs[i]
    ensures c !in Join(xs, sep)
    decreases |xs|
  {
    if |xs| > 1 {
      JoinNoChar(xs[1..], sep, c);
      assert Join(xs, sep) == xs[0] + [sep] + Join(xs[1..], sep);
    }
  }

  // ---------------------------------------------------------------------
  // Responses
  // ---------------------------------------------------------------------

  /** An HTTP response: its status, its raw text and its decoded body. */
  datatype Response<J> = Response(status: int, text: string, body: J)

  /** `get`: the decoded body of a 200 response, otherwise a failure
      carrying the response text. */
  function Get<J>(namespace: string, endpoint: string, payload: seq<(string, string)>,
                  respond: string -> Response<J>): (r: Result<J, string>)
    ensures r.Ok? <==> respond(Url(namespace, endpoint, payload)).status == 200
    ensures r.Ok? ==> r.value == respond(Url(namespace, endpoint, payload)).body
    ensures r.Err? ==> r.error == respond(Url(namespace, endpoint, payload)).text
  {
    var res := respond(Url(namespace, endpoint, payload));
    if res.status == 200 then Ok(res.body) else Err(res.text)
  }

  /** `helix`: a request under the `helix` namespace, so its URL is the
      API root followed by `helix/` and the method. */
  function Helix<J>(endpoint: string, payload: seq<(string, string)>,
                    respond: string -> Response<J>): (r: Result<J, string>)
    ensures var url := ApiRoot + "helix/" + endpoint + (if |payload| > 0 then "?" + Query(payload) else "");
            && (r.Ok? <==> respond(url).status == 200)
            && (r.Ok? ==> r.value == respond(url).body)
            && (r.Err? ==> r.error == respond(url).text)
  {
    var path := ApiRoot + "helix" + "/" + endpoint;
    assert path == ApiRoot + "helix/" + endpoint;
    assert Url("helix", endpoint, payload) ==
           path + (if |payload| > 0 then "?" + Query(payload) else "");
    Get("helix", endpoint, payload, respond)
  }
}
