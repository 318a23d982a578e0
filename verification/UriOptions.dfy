/** URI strings to CoAP options and back: the joining of Location-Path and Uri-Path options
    and the loops that cut a request path and query into options (RFC 7252, 5.10.1 and 5.10.7). */
module UriOptions {
  import opened MachineInts
  import opened Splitting

  const LOCATION_PATH: Uint16 := 8
  const URI_PATH: Uint16 := 11

  type CoapOption = (Uint16, string)

  // --- Joining -------------------------------------------------------------

  /** The values of one option, in order of appearance. */
  function Values(options: seq<CoapOption>, number: Uint16): seq<string> {
    if options == [] then []
    else (if options[0].0 == number then [options[0].1] else []) + Values(options[1..], number)
  }

  lemma {:induction false} ValuesAppend(options: seq<CoapOption>, o: CoapOption, number: Uint16)
    ensures Values(options + [o], number)
         == Values(options, number) + if o.0 == number then [o.1] else []
  {
    if options == [] {
      assert options + [o] == [o];
      assert [o][1..] == [];
    } else {
      assert (options + [o])[1..] == options[1..] + [o];
      ValuesAppend(options[1..], o, number);
    }
  }

  /** The joining loops add a slash only to a non-empty accumulator. */
  function Gather(values: seq<string>): string {
    if values == [] then ""
    else
      var last := values[|values| - 1];
      var before := Gather(values[..|values| - 1]);
      if before == "" then last else before + "/" + last
  }

  function JoinedPath(values: seq<string>): string {
    var g := Gather(values);
    if g == "" then "" else "/" + g
  }

  /** Both joining loops of the transport: Location-Path of a response, Uri-Path of a request. */
  method JoinOptions(options: seq<CoapOption>, number: Uint16) returns (path: string)
    ensures path == JoinedPath(Values(options, number))
  {
    var location := "";
    for i := 0 to |options|
      invariant location == Gather(Values(options[..i], number))
    {
      assert options[..i + 1] == options[..i] + [options[i]];
      ValuesAppend(options[..i], options[i], number);
      var (num, value) := options[i];
      ghost var seen := Values(options[..i], number);
      assert (seen + [value])[..|seen|] == seen;
      assert seen + [] == seen;
      if num == number {
        if location != "" {
          location := location + "/";
        }
        location := location + value;
      }
    }
    assert options[..|options|] == options;
    path := if location == "" then location else "/" + location;
  }

  /** When no value is empty this is ordinary joining with slashes. */
  lemma {:induction false} GatherIsJoin(values: seq<string>)
    requires values != [] && forall i :: 0 <= i < |values| ==> values[i] != ""
    ensures Gather(values) == Join(values, '/') && Gather(values) != ""
  {
    var n := |values|;
    if n > 1 {
      var front := values[..n - 1];
      GatherIsJoin(front);
      JoinSnoc(front, values[n - 1], '/');
      assert values == front + [values[n - 1]];
    } else {
      assert values[..0] == [];
    }
  }

  // --- Splitting -----------------------------------------------------------

  /** The path and query parts of a request URI: libcoap cuts at the first question mark. */
  function PathPart(uri: string): string {
    uri[..IndexOf(uri, '?')]
  }

  function QueryPart(uri: string): string {
    var i := IndexOf(uri, '?');
    if i == |uri| then "" else uri[i + 1..]
  }

  method UriPathOptions(path: string) returns (opts: seq<string>)
    ensures opts == Pieces(path, '/')
  {
    opts := [];
    var p, remaining := 0, |path|;
    assert path[0..] == path;
    while remaining > 0
      invariant 0 <= p <= |path| && remaining == |path| - p
      invariant opts + Pieces(path[p..], '/') == Pieces(path, '/')
      decreases remaining
    {
      if path[p] == '/' {
        SkipStep(opts, path, p, '/');
        p, remaining := p + 1, remaining - 1;
        continue;
      }
      var segLen := RunLength(path, p, '/');
      if segLen > 0 {
        TakeStep(opts, path, p, segLen, '/');
        opts := opts + [path[p..p + segLen]];
      }
      p, remaining := p + segLen, remaining - segLen;
    }
    assert path[p..] == "";
    NoPieces('/');
  }

  method UriQueryOptions(query: string) returns (opts: seq<string>)
    ensures opts == Pieces(query, '&')
  {
    opts := [];
    var q, remaining := 0, |query|;
    assert query[0..] == query;
    while remaining > 0
      invariant 0 <= q <= |query| && remaining == |query| - q
      invariant opts + Pieces(query[q..], '&') == Pieces(query, '&')
      decreases remaining
    {
      var paramLen := RunLength(query, q, '&');
      if paramLen > 0 {
        TakeStep(opts, query, q, paramLen, '&');
        opts := opts + [query[q..q + paramLen]];
      }
      q, remaining := q + paramLen, remaining - paramLen;
      if remaining > 0 && query[q] == '&' {
        SkipStep(opts, query, q, '&');
        q, remaining := q + 1, remaining - 1;
      }
    }
    assert query[q..] == "";
    NoPieces('&');
  }

  /** The inner scanning loop: how far the separator-free run starting at `from` reaches. */
  method RunLength(s: string, from: nat, c: char) returns (n: nat)
    requires from <= |s|
    ensures from + n <= |s| && c !in s[from..from + n]
    ensures from + n < |s| ==> s[from + n] == c
  {
    n := 0;
    while n < |s| - from && s[from + n] != c
      invariant from + n <= |s|
      invariant c !in s[from..from + n]
    {
      assert s[from..from + n + 1] == s[from..from + n] + [s[from + n]];
      n := n + 1;
    }
  }

  // --- Laws ----------------------------------------------------------------

  predicate Clean(value: string) {
    value != "" && '/' !in value && '?' !in value
  }

  /** Sending to the location a server named addresses exactly the path it named, if and only
      if none of its Location-Path values is empty or contains a slash or a question mark. */
  lemma LocationRoundTrip(values: seq<string>)
    ensures Pieces(PathPart(JoinedPath(values)), '/') == values
       <==> forall i :: 0 <= i < |values| ==> Clean(values[i])
  {
    if forall i :: 0 <= i < |values| ==> Clean(values[i]) {
      CleanRoundTrip(values);
    }
    if Pieces(PathPart(JoinedPath(values)), '/') == values {
      forall i | 0 <= i < |values|
        ensures Clean(values[i])
      {
        assert values[i] in values;
        PieceChars(PathPart(JoinedPath(values)), '/', values[i]);
      }
    }
  }

  lemma CleanRoundTrip(values: seq<string>)
    requires forall i :: 0 <= i < |values| ==> Clean(values[i])
    ensures Pieces(PathPart(JoinedPath(values)), '/') == values
  {
    var path := JoinedPath(values);
    if values == [] {
      assert PathPart(path) == "";
      NoPieces('/');
    } else {
      GatherIsJoin(values);
      JoinChars(values, '/', '?');
      IndexOfUnique(path, '?', |path|);
      assert PathPart(path) == path;
      PiecesSkip(Join(values, '/'), '/');
      SplitOfJoin(values, '/');
      NonEmptiesAll(values);
    }
  }

  lemma {:induction false} JoinChars(parts: seq<string>, c: char, d: char)
    requires parts != [] && c != d && AllFree(parts, d)
    ensures d !in Join(parts, c)
  {
    if |parts| > 1 {
      JoinChars(parts[1..], c, d);
    }
  }

  /** The registration request: the query arrives as its four parameters exactly when neither
      the endpoint name nor the binding contains an ampersand. */
  function RegisterUri(endpoint: string, lifetime: string, binding: string): string {
    "/rd?" + Join(RegisterQuery(endpoint, lifetime, binding), '&')
  }

  function RegisterQuery(endpoint: string, lifetime: string, binding: string): seq<string> {
    ["ep=" + endpoint, "lt=" + lifetime, "lwm2m=1.1", "b=" + binding]
  }

  lemma RegisterOptions(endpoint: string, lifetime: string, binding: string)
    requires '&' !in lifetime
    ensures Pieces(PathPart(RegisterUri(endpoint, lifetime, binding)), '/') == ["rd"]
    ensures Pieces(QueryPart(RegisterUri(endpoint, lifetime, binding)), '&')
              == ["ep=" + endpoint, "lt=" + lifetime, "lwm2m=1.1", "b=" + binding]
            <==> '&' !in endpoint && '&' !in binding
  {
    RegisterParts(endpoint, lifetime, binding);
    RdPieces();
    var query := RegisterQuery(endpoint, lifetime, binding);
    var arrived := Pieces(Join(query, '&'), '&');
    if '&' !in endpoint && '&' !in binding {
      assert AllFree(query, '&');
      SplitOfJoin(query, '&');
      NonEmptiesAll(query);
    }
    if arrived == query {
      ArrivedFree(Join(query, '&'), "ep=", endpoint);
      ArrivedFree(Join(query, '&'), "b=", binding);
    }
  }

  lemma ArrivedFree(s: string, prefix: string, value: string)
    requires prefix + value in Pieces(s, '&')
    ensures '&' !in value
  {
    PieceChars(s, '&', prefix + value);
    SuffixChars(prefix, value, '&');
  }

  lemma RdPieces()
    ensures Pieces("/rd", '/') == ["rd"]
  {
    PiecesSkip("rd", '/');
    assert "/" + "rd" == "/rd";
    OnePiece("rd");
    IndexOfUnique("rd", '/', 2);
  }

  lemma RegisterParts(endpoint: string, lifetime: string, binding: string)
    ensures PathPart(RegisterUri(endpoint, lifetime, binding)) == "/rd"
    ensures QueryPart(RegisterUri(endpoint, lifetime, binding))
         == Join(RegisterQuery(endpoint, lifetime, binding), '&')
  {
    var uri := RegisterUri(endpoint, lifetime, binding);
    assert uri[0] == '/' && uri[1] == 'r' && uri[2] == 'd' && uri[3] == '?';
    IndexOfUnique(uri, '?', 3);
    assert uri[..3] == "/rd";
  }

  lemma SuffixChars(prefix: string, s: string, c: char)
    requires c !in prefix + s
    ensures c !in s
  {
    forall i | 0 <= i < |s|
      ensures s[i] != c
    {
      assert (prefix + s)[|prefix| + i] == s[i];
    }
  }
}
