/**
  The loopback redirect listener of the OAuth 2.0 authorization-code flow
  (GoogleKeywordIdeas/get_refresh_token.py): the free-port scan, the parser of
  the captured request line, and the validation of the authorization response
  (section 4.1.2 of RFC 6749, its error response in section 4.1.2.1, and the
  `state` check against cross-site request forgery of section 10.12).

  The socket is replaced by its data: the text the browser sent is an input,
  the text sent back is an output, and "is this port taken" is a predicate.
 */
module RefreshToken {
  import opened Wrappers
  import opened Text

  /** The port the redirect listener starts its scan from. */
  const RedirectPort := 8008
  const YamlPath := "./google-ads.yaml"
  const YamlConfigHowto := "https://developers.google.com/google-ads/api/docs/client-libs/python/configuration"
  const YamlConfigBlank := "https://github.com/googleads/google-ads-python/blob/main/google-ads.yaml"

  // ================================================================ free-port scan

  /** The largest port the socket API accepts; probing a port outside 0..MaxPort raises OverflowError. */
  const MaxPort := 65535

  datatype PortError = PortOutOfRange(port: int)

  /** `p` is the first port at or after `start` that is not in use. */
  ghost predicate FirstFreeFrom(start: int, p: int, inUse: int -> bool) {
    start <= p && !inUse(p) && forall q :: start <= q < p ==> inUse(q)
  }

  /**
    Probes `port`, `port + 1`, ... until one is not in use. The probe of a
    number outside 0..MaxPort raises, which ends the scan with a failure.
   */
  method GetFreePortFrom(port: int, inUse: int -> bool) returns (r: Result<int, PortError>)
    ensures r.Success? ==> 0 <= r.value <= MaxPort && FirstFreeFrom(port, r.value, inUse)
    ensures r.Failure? <==> port < 0 || port > MaxPort || forall q :: port <= q <= MaxPort ==> inUse(q)
    ensures r.Failure? ==> r.error.port == if port < 0 || port > MaxPort then port else MaxPort + 1
    ensures 0 <= port <= MaxPort && !inUse(port) ==> r == Success(port)
  {
    var p := port;
    while 0 <= p <= MaxPort && inUse(p)
      invariant port <= p
      invariant 0 <= port <= MaxPort ==> p <= MaxPort + 1
      invariant !(0 <= port <= MaxPort) ==> p == port
      invariant forall q :: port <= q < p ==> inUse(q)
      decreases MaxPort + 1 - p
    {
      p := p + 1;
    }
    if p < 0 || p > MaxPort {
      r := Failure(PortOutOfRange(p));
    } else {
      r := Success(p);
    }
  }

  /**
    Line 49: on a loopback host the listener takes the first free port from
    `RedirectPort` on; any other host gets `RedirectPort` unprobed.
   */
  method ListenPort(host: string, inUse: int -> bool) returns (r: Result<int, PortError>)
    ensures host != "127.0.0.1" && host != "localhost" ==> r == Success(RedirectPort)
    ensures host == "127.0.0.1" || host == "localhost" ==>
              && (r.Success? ==> RedirectPort <= r.value <= MaxPort && FirstFreeFrom(RedirectPort, r.value, inUse))
              && (r.Failure? <==> forall q :: RedirectPort <= q <= MaxPort ==> inUse(q))
              && (!inUse(RedirectPort) ==> r == Success(RedirectPort))
  {
    if host == "127.0.0.1" || host == "localhost" {
      r := GetFreePortFrom(RedirectPort, inUse);
    } else {
      r := Success(RedirectPort);
    }
  }

  /** After a run of `n` occupied ports the scan stops on the next one, and no other port is the first free one. */
  lemma FirstFreeAfterOccupiedRun(start: int, n: nat, inUse: int -> bool)
    requires forall q :: start <= q < start + n ==> inUse(q)
    requires !inUse(start + n)
    ensures FirstFreeFrom(start, start + n, inUse)
    ensures forall p :: FirstFreeFrom(start, p, inUse) ==> p == start + n
  {
  }

  // ================================================================ the request line: GET\s\/\?(.*)<space>

  /** `GET`, one whitespace character and `/?` start at index `i`. */
  predicate RequestLineAt(s: string, i: nat) {
    && i + 6 <= |s|
    && s[i] == 'G' && s[i + 1] == 'E' && s[i + 2] == 'T'
    && IsSpace(s[i + 3]) && s[i + 4] == '/' && s[i + 5] == '?'
  }

  /**
    The pattern matches at start `i` with its group ending at `j`: the group
    s[i + 6..j] holds no newline (`.` does not match one) and s[j] is the
    literal space that closes the pattern.
   */
  ghost predicate PatternMatch(s: string, i: nat, j: nat) {
    RequestLineAt(s, i) && i + 6 <= j < |s| && s[j] == ' ' && forall k :: i + 6 <= k < j ==> s[k] != '\n'
  }

  /** The index of the first newline at or after `k`, or |s|. */
  function LineEnd(s: string, k: nat): (e: nat)
    requires k <= |s|
    ensures k <= e <= |s|
    ensures e < |s| ==> s[e] == '\n'
    ensures forall m :: k <= m < e ==> s[m] != '\n'
    decreases |s| - k
  {
    if k == |s| || s[k] == '\n' then k else LineEnd(s, k + 1)
  }

  /** The index of the last space in s[lo..hi], if there is one. */
  function LastSpace(s: string, lo: nat, hi: nat): (r: Option<nat>)
    requires lo <= hi <= |s|
    ensures r.Some? ==> lo <= r.value < hi && s[r.value] == ' '
    ensures r.Some? ==> forall m :: r.value < m < hi ==> s[m] != ' '
    ensures r.None? ==> forall m :: lo <= m < hi ==> s[m] != ' '
    decreases hi - lo
  {
    if lo == hi then None
    else if s[hi - 1] == ' ' then Some(hi - 1)
    else LastSpace(s, lo, hi - 1)
  }

  /** Where the group ends when the pattern is tried at `i`: the greedy `.*` backs off to the last space of the line. */
  function MatchAt(s: string, i: nat): (r: Option<nat>)
    ensures r.Some? ==> i + 6 <= r.value < |s|
  {
    if RequestLineAt(s, i) then LastSpace(s, i + 6, LineEnd(s, i + 6)) else None
  }

  /** `re.search` from index `i`: the first start at which the pattern matches, with the end of its group. */
  function SearchFrom(s: string, i: nat): (r: Option<(nat, nat)>)
    ensures r.Some? ==> i <= r.value.0 && r.value.0 + 6 <= r.value.1 < |s|
    decreases |s| - i
  {
    if |s| < i + 6 then None
    else match MatchAt(s, i)
      case Some(j) => Some((i, j))
      case None => SearchFrom(s, i + 1)
  }

  /** `match.group(1)`, or None when `re.search` finds nothing. */
  function CapturedQuery(s: string): Option<string> {
    match SearchFrom(s, 0)
    case Some((i, j)) => Some(s[i + 6..j])
    case None => None
  }

  /** Tried at one start, the pattern captures up to the last possible space, and fails only when no end fits. */
  lemma MatchAtIsGreedy(s: string, i: nat)
    ensures MatchAt(s, i).Some? ==> PatternMatch(s, i, MatchAt(s, i).value)
    ensures MatchAt(s, i).Some? ==> forall j :: MatchAt(s, i).value < j ==> !PatternMatch(s, i, j)
    ensures MatchAt(s, i).None? ==> forall j :: !PatternMatch(s, i, j)
  {
    if RequestLineAt(s, i) {
      var e := LineEnd(s, i + 6);
      forall j: nat | PatternMatch(s, i, j)
        ensures j < e && MatchAt(s, i).Some? && j <= MatchAt(s, i).value
      {
      }
    }
  }

  /** `re.search` returns the leftmost start with a match, and there the greedy (longest) group. */
  lemma {:induction false} SearchFromIsLeftmost(s: string, i: nat)
    ensures var r := SearchFrom(s, i);
            r.Some? ==> && PatternMatch(s, r.value.0, r.value.1)
                        && (forall a, j :: i <= a < r.value.0 ==> !PatternMatch(s, a, j))
                        && (forall j :: r.value.1 < j ==> !PatternMatch(s, r.value.0, j))
    ensures SearchFrom(s, i).None? ==> forall a, j :: i <= a ==> !PatternMatch(s, a, j)
    decreases |s| - i
  {
    if |s| >= i + 6 {
      MatchAtIsGreedy(s, i);
      if MatchAt(s, i).None? {
        SearchFromIsLeftmost(s, i + 1);
      }
    }
  }

  /** A request whose first line is `GET /?q <rest of line without spaces>` captures exactly `q`. */
  lemma CapturedQueryOfRequestLine(q: string, tail: string)
    requires '\n' !in q
    requires ' ' !in tail[..LineEnd(tail, 0)]
    ensures CapturedQuery("GET /?" + q + " " + tail) == Some(q)
  {
    var s := "GET /?" + q + " " + tail;
    RequestLineMatches(q, tail);
    NoSpaceAfterQuery(q, tail);
    SearchFromIsLeftmost(s, 0);
    assert s[6..6 + |q|] == q;
  }

  lemma RequestLineMatches(q: string, tail: string)
    requires '\n' !in q
    ensures PatternMatch("GET /?" + q + " " + tail, 0, 6 + |q|)
  {
    var s := "GET /?" + q + " " + tail;
    assert s[6..6 + |q|] == q;
  }

  /** After the space that follows the query, the first line of the request has no space. */
  lemma NoSpaceAfterQuery(q: string, tail: string)
    requires ' ' !in tail[..LineEnd(tail, 0)]
    ensures var s := "GET /?" + q + " " + tail; var j := 6 + |q|;
            forall j': nat :: j < j' < |s| && (forall k :: j < k < j' ==> s[k] != '\n') ==> s[j'] != ' '
  {
    var s := "GET /?" + q + " " + tail;
    var j := 6 + |q|;
    var e := LineEnd(tail, 0);
    forall j': nat | j < j' < |s| && (forall k :: j < k < j' ==> s[k] != '\n')
      ensures s[j'] != ' '
    {
      var k := j' - j - 1;
      assert s[j'] == tail[k];
      if tail[k] != '\n' {
        forall m | 0 <= m <= k ensures tail[m] != '\n' {
          assert tail[m] == s[j + 1 + m];
        }
        LineEndBeyond(tail, k);
        assert tail[..e][k] == tail[k];
      }
    }
  }

  lemma LineEndBeyond(t: string, k: nat)
    requires k < |t|
    requires forall m :: 0 <= m <= k ==> t[m] != '\n'
    ensures k < LineEnd(t, 0)
  {
  }

  // ================================================================ key=value pairs

  datatype QueryError =
    | NoRequestLine           // re.search found nothing: `match.group` raises AttributeError
    | MalformedPair(pair: string)  // a piece not of the form key=value: unpacking raises ValueError

  /** Unpacks each `key=value` piece in order; the first piece that does not split into exactly two parts raises. */
  function ToPairs(pieces: seq<string>): (r: Result<seq<(string, string)>, QueryError>)
    ensures r.Success? ==> |r.value| == |pieces|
  {
    if pieces == [] then Success([])
    else
      var parts := Split(pieces[0], '=');
      if |parts| != 2 then Failure(MalformedPair(pieces[0]))
      else match ToPairs(pieces[1..])
        case Failure(e) => Failure(e)
        case Success(rest) => Success([(parts[0], parts[1])] + rest)
  }

  /** One piece unpacks into two parts exactly when it holds exactly one `=`: the text before it and after it. */
  lemma PieceSplit(piece: string)
    ensures |Split(piece, '=')| == 2 <==> multiset(piece)['='] == 1
    ensures |Split(piece, '=')| == 2 ==> piece == Split(piece, '=')[0] + "=" + Split(piece, '=')[1]
  {
    SplitCount(piece, '=');
    JoinSplit(piece, '=');
  }

  /** Unpacking succeeds exactly when every piece holds exactly one `=`. */
  lemma {:induction false} ToPairsSucceedsIff(pieces: seq<string>)
    ensures ToPairs(pieces).Success? <==> forall k :: 0 <= k < |pieces| ==> multiset(pieces[k])['='] == 1
  {
    if pieces != [] {
      PieceSplit(pieces[0]);
      ToPairsSucceedsIff(pieces[1..]);
      assert forall k :: 1 <= k < |pieces| ==> pieces[k] == pieces[1..][k - 1];
    }
  }

  /** Each unpacked pair is the text before and after the piece's only `=`, undecoded. */
  lemma {:induction false} ToPairsSplitsAtEquals(pieces: seq<string>, k: nat)
    requires ToPairs(pieces).Success? && k < |pieces|
    ensures var (key, val) := ToPairs(pieces).value[k];
            pieces[k] == key + "=" + val && '=' !in key && '=' !in val
  {
    PieceSplit(pieces[0]);
    if k > 0 {
      ToPairsSplitsAtEquals(pieces[1..], k - 1);
    }
  }

  /** A failed unpacking names the first piece that does not hold exactly one `=`. */
  lemma {:induction false} ToPairsReportsFirstMalformed(pieces: seq<string>)
    requires ToPairs(pieces).Failure?
    ensures exists k :: (&& 0 <= k < |pieces| && multiset(pieces[k])['='] != 1
                         && ToPairs(pieces).error == MalformedPair(pieces[k])
                         && forall m :: 0 <= m < k ==> multiset(pieces[m])['='] == 1)
  {
    PieceSplit(pieces[0]);
    if |Split(pieces[0], '=')| == 2 {
      var rest := pieces[1..];
      ToPairsReportsFirstMalformed(rest);
      var k' :| && 0 <= k' < |rest| && multiset(rest[k'])['='] != 1
                && ToPairs(rest).error == MalformedPair(rest[k'])
                && forall m :: 0 <= m < k' ==> multiset(rest[m])['='] == 1;
      assert forall m :: 1 <= m < |pieces| ==> pieces[m] == rest[m - 1];
      assert multiset(pieces[k' + 1])['='] != 1;
    } else {
      assert multiset(pieces[0])['='] != 1;
    }
  }

  /** The dict comprehension: pairs are inserted in order, so a repeated key keeps its last value. */
  function PairsToMap(pairs: seq<(string, string)>): map<string, string> {
    if pairs == [] then map[]
    else PairsToMap(pairs[..|pairs| - 1])[pairs[|pairs| - 1].0 := pairs[|pairs| - 1].1]
  }

  /** The keys are exactly the keys of the pairs, and each maps to the value of its last occurrence. */
  lemma PairsToMapLastWins(pairs: seq<(string, string)>)
    ensures forall key :: key in PairsToMap(pairs) <==> exists i :: 0 <= i < |pairs| && pairs[i].0 == key
    ensures forall i :: 0 <= i < |pairs| && (forall j :: i < j < |pairs| ==> pairs[j].0 != pairs[i].0) ==>
              pairs[i].0 in PairsToMap(pairs) && PairsToMap(pairs)[pairs[i].0] == pairs[i].1
  {
    PairsToMapKeys(pairs);
    PairsToMapLastValue(pairs);
    forall i | 0 <= i < |pairs| && (forall j :: i < j < |pairs| ==> pairs[j].0 != pairs[i].0)
      ensures pairs[i].0 in PairsToMap(pairs) && PairsToMap(pairs)[pairs[i].0] == pairs[i].1
    {
      assert LastOccurrence(pairs, i);
    }
  }

  lemma {:induction false} PairsToMapKeys(pairs: seq<(string, string)>)
    ensures forall key :: key in PairsToMap(pairs) <==> exists i :: 0 <= i < |pairs| && pairs[i].0 == key
  {
    if pairs != [] {
      var init := pairs[..|pairs| - 1];
      var last := pairs[|pairs| - 1];
      PairsToMapKeys(init);
      assert PairsToMap(pairs) == PairsToMap(init)[last.0 := last.1];
      forall i | 0 <= i < |init|
        ensures pairs[i] == init[i]
      {
      }
      forall key | key in PairsToMap(pairs)
        ensures exists i :: 0 <= i < |pairs| && pairs[i].0 == key
      {
        if key == last.0 {
          assert pairs[|pairs| - 1].0 == key;
        } else {
          assert key in PairsToMap(init);
          var i :| 0 <= i < |init| && init[i].0 == key;
          assert pairs[i].0 == key;
        }
      }
    }
  }

  /** No pair after the `i`-th has the same key. */
  predicate LastOccurrence(pairs: seq<(string, string)>, i: nat) {
    i < |pairs| && forall j :: i < j < |pairs| ==> pairs[j].0 != pairs[i].0
  }

  lemma {:induction false} PairsToMapLastValue(pairs: seq<(string, string)>)
    ensures forall i: nat :: LastOccurrence(pairs, i) ==> pairs[i].0 in PairsToMap(pairs) && PairsToMap(pairs)[pairs[i].0] == pairs[i].1
  {
    if pairs != [] {
      var init := pairs[..|pairs| - 1];
      var last := pairs[|pairs| - 1];
      PairsToMapLastValue(init);
      assert PairsToMap(pairs) == PairsToMap(init)[last.0 := last.1];
      forall i: nat | LastOccurrence(pairs, i)
        ensures pairs[i].0 in PairsToMap(pairs) && PairsToMap(pairs)[pairs[i].0] == pairs[i].1
      {
        if i < |init| {
          forall j | i < j < |init| ensures init[j].0 != init[i].0 {
            assert init[j] == pairs[j];
          }
          assert LastOccurrence(init, i);
          assert pairs[i] == init[i];
          assert last.0 != pairs[i].0;
        }
      }
    }
  }

  /** `__parse_raw_query_params__`: capture the query of the request line, split it on `&`, unpack on `=`. */
  function ParseRawQueryParams(request: string): Result<map<string, string>, QueryError> {
    match CapturedQuery(request)
    case None => Failure(NoRequestLine)
    case Some(q) =>
      match ToPairs(Split(q, '&'))
      case Failure(e) => Failure(e)
      case Success(pairs) => Success(PairsToMap(pairs))
  }

  /** A value that survives the trip through a query string unchanged: no separator and no line break. */
  predicate PlainParam(x: string) {
    '&' !in x && '=' !in x && '\n' !in x
  }

  function PairText(p: (string, string)): string {
    p.0 + "=" + p.1
  }

  /** The query string `k1=v1&k2=v2&...`, with nothing percent-encoded. */
  function EncodeQuery(pairs: seq<(string, string)>): string {
    Join(seq(|pairs|, i requires 0 <= i < |pairs| => PairText(pairs[i])), "&")
  }

  /** Parsing a request line built from plain pairs gives back their map, with every value verbatim. */
  lemma ParseRoundTrip(pairs: seq<(string, string)>, tail: string)
    requires |pairs| >= 1
    requires forall i :: 0 <= i < |pairs| ==> PlainParam(pairs[i].0) && PlainParam(pairs[i].1)
    requires ' ' !in tail[..LineEnd(tail, 0)]
    ensures ParseRawQueryParams("GET /?" + EncodeQuery(pairs) + " " + tail) == Success(PairsToMap(pairs))
  {
    var pieces := seq(|pairs|, i requires 0 <= i < |pairs| => PairText(pairs[i]));
    var q := EncodeQuery(pairs);
    JoinAvoids(pieces, "&", '\n');
    CapturedQueryOfRequestLine(q, tail);
    SplitJoin(pieces, '&');
    assert Split(q, '&') == pieces;
    forall k | 0 <= k < |pieces|
      ensures Split(pieces[k], '=') == [pairs[k].0, pairs[k].1]
    {
      SplitJoin([pairs[k].0, pairs[k].1], '=');
    }
    ToPairsOfPlainPieces(pairs, pieces);
  }

  lemma {:induction false} ToPairsOfPlainPieces(pairs: seq<(string, string)>, pieces: seq<string>)
    requires |pieces| == |pairs|
    requires forall k :: 0 <= k < |pieces| ==> Split(pieces[k], '=') == [pairs[k].0, pairs[k].1]
    ensures ToPairs(pieces) == Success(pairs)
  {
    if pieces != [] {
      ToPairsOfPlainPieces(pairs[1..], pieces[1..]);
      assert [pairs[0]] + pairs[1..] == pairs;
    }
  }

  /** The redirect the provider sends on consent: its `code` and `state` come back as sent. */
  lemma RedirectParamsRoundTrip(code: string, state: string, tail: string)
    requires PlainParam(code) && PlainParam(state)
    requires ' ' !in tail[..LineEnd(tail, 0)]
    ensures ParseRawQueryParams("GET /?code=" + code + "&state=" + state + " " + tail)
            == Success(map["code" := code, "state" := state])
  {
    var pairs := [("code", code), ("state", state)];
    RedirectRequestLine(code, state, tail);
    ParseRoundTrip(pairs, tail);
    PairsToMapOfTwo(pairs);
  }

  lemma RedirectRequestLine(code: string, state: string, tail: string)
    ensures "GET /?" + EncodeQuery([("code", code), ("state", state)]) + " " + tail
            == "GET /?code=" + code + "&state=" + state + " " + tail
  {
    EncodeCodeAndState(code, state);
  }

  lemma EncodeCodeAndState(code: string, state: string)
    ensures EncodeQuery([("code", code), ("state", state)]) == "code=" + code + "&state=" + state
  {
    var pairs := [("code", code), ("state", state)];
    var pieces := seq(|pairs|, i requires 0 <= i < |pairs| => PairText(pairs[i]));
    assert "code" + "=" == "code=" && "state" + "=" == "state=";
    assert pieces[0] == "code=" + code && pieces[1] == "state=" + state;
    assert pieces[1..] == ["state=" + state];
    assert Join(pieces, "&") == pieces[0] + "&" + pieces[1];
    assert "code=" + code + "&" + ("state=" + state) == "code=" + code + "&state=" + state;
  }

  lemma PairsToMapOfTwo(pairs: seq<(string, string)>)
    requires |pairs| == 2 && pairs[0].0 != pairs[1].0
    ensures PairsToMap(pairs) == map[pairs[0].0 := pairs[0].1, pairs[1].0 := pairs[1].1]
  {
    var first := pairs[..1];
    assert first[..0] == [];
    assert PairsToMap(first) == map[pairs[0].0 := pairs[0].1];
    assert pairs[..|pairs| - 1] == first;
  }

  // ================================================================ validation and the response

  datatype AuthError =
    | QueryFailed(cause: QueryError)  // the request could not be parsed, raised before the try block
    | MissingCode(error: string)      // no code: the provider's `error` value, or "None"
    | StateMismatch                   // the state token is not the one this session issued

  const ResponseHeader := "HTTP/1.1 200 OK\nContent-Type: text/html\n\n"

  /** The `error` parameter as an f-string renders `params.get("error")`. */
  function ErrorParam(params: map<string, string>): string {
    if "error" in params then params["error"] else "None"
  }

  function MissingCodeMessage(error: string): string {
    "<b>Failed to retrieve authorization code. Error: " + error + "</b>"
  }

  const StateMismatchMessage := "<b>State token does not match the expected state.</b>"

  const SuccessMessage :=
    "<b>Authorization code was successfully retrieved.</b><p>You can find out refresh token in <b>console</b> or <b>output log</b></p>"
    + "Add your refresh token to your client library configuration file `<b>" + YamlPath + "</b>` as described here: <br/>"
    + "<a target=\"_blank\" href=\"" + YamlConfigHowto + "\">" + YamlConfigHowto + "</a><br/><br/>"
    + "Blank file you can get here: <br/> <a target=\"_blank\" href=\"" + YamlConfigBlank + "\">" + YamlConfigBlank + "</a><br/>"

  /** `params.get("code")` is truthy: present and not empty. */
  predicate HasCode(params: map<string, string>) {
    "code" in params && params["code"] != ""
  }

  /** `params.get("state") == passthrough_val`: present and equal. */
  predicate StateMatches(params: map<string, string>, expected: string) {
    "state" in params && params["state"] == expected
  }

  /**
    `__get_authorization_code__` after the connection is accepted: parse the
    request, check the code, then the state, and send the response of the
    branch taken. A request that does not parse raises before the try block,
    so no response is sent then.
   */
  method GetAuthorizationCode(request: string, passthroughVal: string) returns (code: Result<string, AuthError>, response: Option<string>)
    ensures ParseRawQueryParams(request).Failure? ==>
              code == Failure(QueryFailed(ParseRawQueryParams(request).error)) && response == None
    ensures ParseRawQueryParams(request).Success? ==>
              var params := ParseRawQueryParams(request).value;
              && (!HasCode(params) ==>
                    code == Failure(MissingCode(ErrorParam(params)))
                    && response == Some(ResponseHeader + MissingCodeMessage(ErrorParam(params))))
              && (HasCode(params) && !StateMatches(params, passthroughVal) ==>
                    code == Failure(StateMismatch) && response == Some(ResponseHeader + StateMismatchMessage))
              && (HasCode(params) && StateMatches(params, passthroughVal) ==>
                    code == Success(params["code"]) && response == Some(ResponseHeader + SuccessMessage))
  {
    var parsed := ParseRawQueryParams(request);
    if parsed.Failure? {
      return Failure(QueryFailed(parsed.error)), None;
    }
    var params := parsed.value;
    var message: string;
    if !HasCode(params) {
      var error := ErrorParam(params);
      message := MissingCodeMessage(error);
      code := Failure(MissingCode(error));
    } else if !StateMatches(params, passthroughVal) {
      message := StateMismatchMessage;
      code := Failure(StateMismatch);
    } else {
      message := SuccessMessage;
      code := Success(params["code"]);
    }
    // the finally clause: every path through the try block sends the response
    response := Some(ResponseHeader + message);
  }
}
