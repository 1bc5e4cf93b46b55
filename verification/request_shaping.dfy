/** How `HuobiClient` shapes a request before it is sent
    (Huobi.Net/HuobiClient.cs): the URL of an endpoint (`GetUrl`) and where
    the parameters go (`ConstructRequest`), above all the split of a signed
    POST's parameters between the query string and the body. */
module RequestShaping {
  import opened Results

  // ---------------------------------------------------------------------
  // URLs
  // ---------------------------------------------------------------------

  /** The length of what `GetUrl` puts before the endpoint. */
  function PrefixLength(baseAddress: string, version: Option<string>): nat
  {
    match version
    case None => |baseAddress|
    case Some(v) => |baseAddress| + |v| + 2
  }

  /** `GetUrl`: the base address followed by the endpoint, with a
      `v<version>/` segment between them when a version is given. */
  function GetUrl(baseAddress: string, endpoint: string, version: Option<string>): (url: string)
    ensures |url| == PrefixLength(baseAddress, version) + |endpoint|
    ensures url[..|baseAddress|] == baseAddress
    ensures version.Some? ==>
      && url[|baseAddress|] == 'v'
      && url[|baseAddress| + 1..|baseAddress| + 1 + |version.value|] == version.value
      && url[|baseAddress| + 1 + |version.value|] == '/'
    ensures url[PrefixLength(baseAddress, version)..] == endpoint
  {
    match version
    case None => baseAddress + endpoint
    case Some(v) => baseAddress + "v" + v + "/" + endpoint
  }

  /** The endpoint read back from a URL built on a known base and version. */
  function EndpointOf(url: string, baseAddress: string, version: Option<string>): string
  {
    if PrefixLength(baseAddress, version) <= |url| then url[PrefixLength(baseAddress, version)..] else ""
  }

  /** The endpoint can be read back from its URL, so for a fixed base and
      version different endpoints give different URLs. */
  lemma GetUrlEndpointRoundTrip(baseAddress: string, endpoint: string, version: Option<string>)
    ensures EndpointOf(GetUrl(baseAddress, endpoint, version), baseAddress, version) == endpoint
  {
    var url := GetUrl(baseAddress, endpoint, version);
    assert |url| == PrefixLength(baseAddress, version) + |endpoint|;
  }

  lemma GetUrlInjective(baseAddress: string, e1: string, e2: string, version: Option<string>)
    requires GetUrl(baseAddress, e1, version) == GetUrl(baseAddress, e2, version)
    ensures e1 == e2
  {
    GetUrlEndpointRoundTrip(baseAddress, e1, version);
    GetUrlEndpointRoundTrip(baseAddress, e2, version);
  }

  // ---------------------------------------------------------------------
  // Parameter placement
  // ---------------------------------------------------------------------

  datatype HttpMethod = Get | Post | Put | Delete

  /** `HttpMethodParameterPosition`. */
  datatype ParameterPosition = InUri | InBody

  /** The keys the authentication provider adds that Huobi expects in the
      query string of a signed POST. */
  const AuthKeys: set<string> := {"AccessKeyId", "SignatureMethod", "SignatureVersion", "Timestamp", "Signature"}

  /** The request body: none (parameters in the URI), the empty JSON object
      `{}`, or the written parameters. */
  datatype Body<V> = NoBody | EmptyObject | Fields(fields: map<string, V>)

  /** A constructed request: the parameter maps appended to the URI, each
      after its own `?`, in order, and the body. */
  datatype Shape<V> = Shape(queries: seq<map<string, V>>, body: Body<V>)

  /** The signed-POST split: the authentication keys for the query string,
      everything else for the body. */
  function SplitSignedPost<V>(parameters: map<string, V>): (split: (map<string, V>, map<string, V>))
    ensures split.0.Keys == parameters.Keys * AuthKeys
    ensures split.1.Keys == parameters.Keys - AuthKeys
    ensures split.0.Keys !! split.1.Keys
    ensures split.0 + split.1 == parameters
  {
    var query := map k | k in parameters && k in AuthKeys :: parameters[k];
    var rest := map k | k in parameters && k !in AuthKeys :: parameters[k];
    assert query + rest == parameters;
    (query, rest)
  }

  /** `ConstructRequest`, parameter placement only. `parameters` is the
      map after a missing map has become the empty one and after the
      authentication provider has added its keys. */
  function ConstructRequest<V>(parameters: map<string, V>, httpMethod: HttpMethod, signed: bool, position: ParameterPosition): (s: Shape<V>)
    ensures httpMethod == Post && signed ==>
      s.queries == (if position == InUri && |parameters| > 0 then [parameters] else []) + [SplitSignedPost(parameters).0]
    ensures !(httpMethod == Post && signed) ==>
      s.queries == (if position == InUri && |parameters| > 0 then [parameters] else [])
    ensures s.body.NoBody? <==> position == InUri
    ensures var sent := if httpMethod == Post && signed then SplitSignedPost(parameters).1 else parameters;
      && (s.body.Fields? <==> position == InBody && |sent| > 0)
      && (s.body.Fields? ==> s.body.fields == sent)
  {
    if httpMethod == Post && signed then
      var split := SplitSignedPost(parameters);
      Shape(UriQueries(parameters, position) + [split.0], PlaceBody(split.1, position))
    else
      Shape(UriQueries(parameters, position), PlaceBody(parameters, position))
  }

  /** Parameters meant for the URI are appended after a `?` when there are
      any. */
  function UriQueries<V>(parameters: map<string, V>, position: ParameterPosition): seq<map<string, V>>
  {
    if position == InUri && |parameters| > 0 then [parameters] else []
  }

  /** Parameters meant for the body are written when there are any; an
      empty body is sent as `{}`. */
  function PlaceBody<V>(parameters: map<string, V>, position: ParameterPosition): Body<V>
  {
    if position == InUri then NoBody
    else if |parameters| > 0 then Fields(parameters)
    else EmptyObject
  }

  /** The parameters a request's body carries. */
  function BodyFields<V>(b: Body<V>): map<string, V>
  {
    if b.Fields? then b.fields else map[]
  }

  /** A signed POST with its parameters in the body sends exactly the
      authentication keys in its query string and exactly the other
      parameters in its body: nothing lost, nothing sent twice. */
  lemma SignedPostPartition<V>(parameters: map<string, V>)
    ensures var s := ConstructRequest(parameters, Post, true, InBody);
      && s.queries == [SplitSignedPost(parameters).0]
      && s.queries[0].Keys !! BodyFields(s.body).Keys
      && s.queries[0] + BodyFields(s.body) == parameters
      && (forall k :: k in BodyFields(s.body) ==> k !in AuthKeys)
  {
    var s := ConstructRequest(parameters, Post, true, InBody);
    var split := SplitSignedPost(parameters);
    assert BodyFields(s.body) == split.1 by {
      if |split.1| == 0 {
        assert split.1 == map[];
      }
    }
  }

  /** A signed POST with its parameters in the URI appends the whole map,
      authentication keys included, and then the authentication keys once
      more: each key the provider added is sent twice in the query string. */
  lemma SignedUriPostRepeatsAuthKeys<V>(parameters: map<string, V>, k: string)
    requires k in parameters && k in AuthKeys
    ensures var s := ConstructRequest(parameters, Post, true, InUri);
      && |s.queries| == 2
      && k in s.queries[0] && k in s.queries[1]
      && s.queries[0][k] == s.queries[1][k] == parameters[k]
      && s.body == NoBody
  {
  }

  /** Whatever the method and position, every parameter reaches the
      request, in a query string or in the body. */
  lemma NoParameterLost<V>(parameters: map<string, V>, httpMethod: HttpMethod, signed: bool, position: ParameterPosition, k: string)
    requires k in parameters
    ensures var s := ConstructRequest(parameters, httpMethod, signed, position);
      (exists i :: 0 <= i < |s.queries| && k in s.queries[i] && s.queries[i][k] == parameters[k])
      || (k in BodyFields(s.body) && BodyFields(s.body)[k] == parameters[k])
  {
    var s := ConstructRequest(parameters, httpMethod, signed, position);
    if position == InUri {
      assert s.queries[0] == parameters;
    } else if httpMethod == Post && signed {
      var split := SplitSignedPost(parameters);
      if k in AuthKeys {
        assert k in s.queries[|s.queries| - 1];
      } else {
        assert k in split.1;
        assert s.body == Fields(split.1);
      }
    } else {
      assert s.body == Fields(parameters);
    }
  }
}
