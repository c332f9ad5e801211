/** Agent URLs: `did:agent:<key>[/<protocol>/<resource>][?route=<origin>&...]`, parsed and formatted. */
module AgentUrl {
  import opened Common
  import opened Text
  import Base64Url

  const PREFIX: string := "did:agent:"
  const ROUTE: string := "route="
  const MAX_ROUTES: nat := 8

  datatype AgentUrl = AgentUrl(agentId: string, protocol: Option<string>, resource: Option<string>, routes: seq<string>)

  datatype Error = InvalidUrl | InvalidAgentId | InvalidOrigin

  predicate StartsWith(s: string, prefix: string) {
    |prefix| <= |s| && s[..|prefix|] == prefix
  }

  /** The prefix and a canonical encoding of a 32-byte key. */
  predicate AgentIdValid(id: string) {
    StartsWith(id, PREFIX)
    && var key := Base64Url.Decoded(id[|PREFIX|..]);
       key.Some? && |key.value| == 32
  }

  predicate Printable(c: char) {
    '!' <= c <= '~' && c != '#' && c != '%'
  }

  predicate AllPrintable(s: string) {
    forall i | 0 <= i < |s| :: Printable(s[i])
  }

  predicate ProtocolChar(c: char) {
    'a' <= c <= 'z'
  }

  predicate ResourceChar(c: char) {
    'a' <= c <= 'z' || 'A' <= c <= 'Z' || '0' <= c <= '9' || c == '-' || c == '_'
  }

  predicate PathValid(protocol: string, resource: string) {
    && protocol != "" && (forall i | 0 <= i < |protocol| :: ProtocolChar(protocol[i]))
    && resource != "" && (forall i | 0 <= i < |resource| :: ResourceChar(resource[i]))
  }

  function FirstIndex(s: string, c: char): (i: nat)
    ensures i <= |s| && c !in s[..i] && (i < |s| ==> s[i] == c)
  {
    if s == "" || s[0] == c then 0
    else
      var i := FirstIndex(s[1..], c);
      assert s[..i + 1] == [s[0]] + s[1..][..i];
      i + 1
  }

  // ---- Parsing ------------------------------------------------------------

  function HeadParsed(head: string): Result<AgentUrl, Error> {
    var segments := Split(head, '/');
    if !AgentIdValid(segments[0]) then Err(InvalidAgentId)
    else if |segments| == 1 then Ok(AgentUrl(segments[0], None, None, []))
    else if |segments| != 3 || !PathValid(segments[1], segments[2]) then Err(InvalidUrl)
    else Ok(AgentUrl(segments[0], Some(segments[1]), Some(segments[2]), []))
  }

  /** The routes of the remaining query items, each an origin not yet `known`. */
  function RoutesParsed(isOrigin: string -> bool, items: seq<string>, known: seq<string>): Result<seq<string>, Error>
    decreases |items|
  {
    if items == [] then Ok(known)
    else if !StartsWith(items[0], ROUTE) then Err(InvalidUrl)
    else
      var route := items[0][|ROUTE|..];
      if !isOrigin(route) then Err(InvalidOrigin)
      else if route in known then Err(InvalidUrl)
      else RoutesParsed(isOrigin, items[1..], known + [route])
  }

  function Parsed(isOrigin: string -> bool, value: string): Result<AgentUrl, Error> {
    var cut := FirstIndex(value, '?');
    if !AllPrintable(value) then Err(InvalidUrl)
    else
      var url := HeadParsed(value[..cut]);
      if url.Err? || cut == |value| then url
      else
        var items := Split(value[cut + 1..], '&');
        if |items| > MAX_ROUTES then Err(InvalidUrl)
        else
          var routes := RoutesParsed(isOrigin, items, []);
          if routes.Err? then Err(routes.error) else Ok(url.value.(routes := routes.value))
  }

  method ParseAgentUrl(isOrigin: string -> bool, value: string) returns (r: Result<AgentUrl, Error>)
    ensures r == Parsed(isOrigin, value)
  {
    if !AllPrintable(value) {
      return Err(InvalidUrl);
    }
    var cut := FirstIndex(value, '?');
    r := HeadParsed(value[..cut]);
    if r.Err? || cut == |value| {
      return;
    }
    var items := Split(value[cut + 1..], '&');
    if |items| > MAX_ROUTES {
      return Err(InvalidUrl);
    }
    var routes: seq<string> := [];
    ghost var all := RoutesParsed(isOrigin, items, []);
    for i := 0 to |items|
      invariant RoutesParsed(isOrigin, items[i..], routes) == all
    {
      assert items[i..][1..] == items[i + 1..];
      if !StartsWith(items[i], ROUTE) {
        return Err(InvalidUrl);
      }
      var route := items[i][|ROUTE|..];
      if !isOrigin(route) {
        return Err(InvalidOrigin);
      }
      if route in routes {
        return Err(InvalidUrl);
      }
      routes := routes + [route];
    }
    r := Ok(r.value.(routes := routes));
  }

  // ---- Formatting ---------------------------------------------------------

  predicate Distinct(routes: seq<string>) {
    forall i, j | 0 <= i < j < |routes| :: routes[i] != routes[j]
  }

  function Items(routes: seq<string>): seq<string> {
    seq(|routes|, i requires 0 <= i < |routes| => ROUTE + routes[i])
  }

  function Path(url: AgentUrl): Result<string, Error> {
    if url.protocol.None? && url.resource.None? then Ok("")
    else if url.protocol.Some? && url.resource.Some? && PathValid(url.protocol.value, url.resource.value)
    then Ok("/" + url.protocol.value + "/" + url.resource.value)
    else Err(InvalidUrl)
  }

  function Formatted(isOrigin: string -> bool, url: AgentUrl): Result<string, Error> {
    var path := Path(url);
    if path.Err? then path
    else if |url.routes| > MAX_ROUTES || !Distinct(url.routes) then Err(InvalidUrl)
    else if exists i | 0 <= i < |url.routes| :: !isOrigin(url.routes[i]) then Err(InvalidOrigin)
    else Ok(url.agentId + path.value + if url.routes == [] then "" else "?" + Join(Items(url.routes), '&'))
  }

  // ---- format(parse(s)) == s ----------------------------------------------

  lemma {:induction false} RoutesAreTheItems(isOrigin: string -> bool, items: seq<string>, known: seq<string>)
    requires RoutesParsed(isOrigin, items, known).Ok? && Distinct(known)
    requires forall i | 0 <= i < |known| :: isOrigin(known[i])
    ensures var routes := RoutesParsed(isOrigin, items, known).value;
      && |routes| == |known| + |items| && routes[..|known|] == known && Items(routes[|known|..]) == items
      && Distinct(routes) && forall i | 0 <= i < |routes| :: isOrigin(routes[i])
    decreases |items|
  {
    var routes := RoutesParsed(isOrigin, items, known).value;
    if items != [] {
      var route := items[0][|ROUTE|..];
      RoutesAreTheItems(isOrigin, items[1..], known + [route]);
      assert routes[..|known|] == routes[..|known| + 1][..|known|];
      assert routes[|known|..] == [route] + routes[|known| + 1..];
      assert items[0] == items[0][..|ROUTE|] + route;
      assert items == [ROUTE + route] + items[1..];
    }
  }

  lemma QueryIsItsRoutes(isOrigin: string -> bool, query: string)
    requires RoutesParsed(isOrigin, Split(query, '&'), []).Ok?
    ensures var routes := RoutesParsed(isOrigin, Split(query, '&'), []).value;
      && routes != [] && |routes| == |Split(query, '&')| && Distinct(routes)
      && (forall i | 0 <= i < |routes| :: isOrigin(routes[i]))
      && Items(routes) == Split(query, '&') && Join(Items(routes), '&') == query
  {
    var routes := RoutesParsed(isOrigin, Split(query, '&'), []).value;
    RoutesAreTheItems(isOrigin, Split(query, '&'), []);
    assert routes[0..] == routes;
    SplitParts(query, '&');
  }

  lemma HeadIsPrefix(head: string)
    requires HeadParsed(head).Ok?
    ensures var url := HeadParsed(head).value;
      url.routes == [] && Path(url).Ok? && head == url.agentId + Path(url).value
  {
    hide AgentIdValid, PathValid;
    var segments := Split(head, '/');
    SplitParts(head, '/');
    if |segments| == 3 {
      assert Join(segments[1..], '/') == segments[1] + "/" + Join(segments[1..][1..], '/');
      assert head == segments[0] + "/" + (segments[1] + "/" + segments[2]);
    }
  }

  /** Whatever is accepted is already in canonical form: formatting what was parsed gives it back. */
  lemma FormatUndoesParse(isOrigin: string -> bool, value: string)
    requires Parsed(isOrigin, value).Ok?
    ensures Formatted(isOrigin, Parsed(isOrigin, value).value) == Ok(value)
  {
    hide HeadParsed, AllPrintable, PathValid, Split, Join, RoutesParsed, Items, FirstIndex;
    var cut := FirstIndex(value, '?');
    var url := Parsed(isOrigin, value).value;
    HeadIsPrefix(value[..cut]);
    if cut < |value| {
      var query := value[cut + 1..];
      QueryIsItsRoutes(isOrigin, query);
      assert value == value[..cut] + ("?" + query);
    } else {
      assert value == value[..cut] + "";
    }
  }

  // ---- parse(format(u)) == u ----------------------------------------------

  /** A route the query can carry: printable, and free of the characters a URL gives another meaning. */
  predicate Carriable(route: string) {
    AllPrintable(route) && '&' !in route
  }

  lemma {:induction false} ItemsAreTheRoutes(isOrigin: string -> bool, routes: seq<string>, known: seq<string>)
    requires Distinct(known + routes) && forall i | 0 <= i < |routes| :: isOrigin(routes[i])
    ensures RoutesParsed(isOrigin, Items(routes), known) == Ok(known + routes)
    decreases |routes|
  {
    if routes == [] {
      assert known + routes == known;
    } else {
      assert Items(routes)[0][|ROUTE|..] == routes[0];
      assert Items(routes)[1..] == Items(routes[1..]);
      assert known + [routes[0]] + routes[1..] == known + routes;
      assert routes[0] !in known by {
        forall i | 0 <= i < |known|
          ensures known[i] != routes[0]
        {
          assert (known + routes)[i] == known[i] && (known + routes)[|known|] == routes[0];
        }
      }
      ItemsAreTheRoutes(isOrigin, routes[1..], known + [routes[0]]);
    }
  }

  lemma PathChars(protocol: string, resource: string)
    requires PathValid(protocol, resource)
    ensures '/' !in protocol && '/' !in resource
    ensures AllPrintable("/" + protocol + "/" + resource) && '?' !in "/" + protocol + "/" + resource
  {
  }

  lemma HeadChars(id: string)
    requires AgentIdValid(id)
    ensures '/' !in id && '?' !in id && AllPrintable(id)
  {
  }

  lemma HeadRoundTrip(url: AgentUrl)
    requires AgentIdValid(url.agentId) && Path(url).Ok?
    ensures var head := url.agentId + Path(url).value;
      && HeadParsed(head) == Ok(url.(routes := [])) && AllPrintable(head) && '?' !in head
  {
    hide AgentIdValid, Split, PathValid, AllPrintable;
    var head := url.agentId + Path(url).value;
    HeadChars(url.agentId);
    PrintableParts(url.agentId, Path(url).value);
    if url.protocol.None? {
      assert head == url.agentId;
      SplitWhole(head, '/');
    } else {
      var protocol, resource := url.protocol.value, url.resource.value;
      PathChars(protocol, resource);
      assert head == url.agentId + ['/'] + (protocol + ['/'] + resource);
      SplitFirst(url.agentId, protocol + ['/'] + resource, '/');
      SplitFirst(protocol, resource, '/');
      SplitWhole(resource, '/');
      assert Split(head, '/') == [url.agentId, protocol, resource];
    }
  }

  lemma {:induction false} JoinedItems(routes: seq<string>)
    requires routes != []
    ensures AllPrintable(Join(Items(routes), '&')) <==> forall i | 0 <= i < |routes| :: AllPrintable(routes[i])
    decreases |routes|
  {
    var joined := Join(Items(routes), '&');
    if |routes| == 1 {
      assert joined == ROUTE + routes[0];
      PrintableParts(ROUTE, routes[0]);
    } else {
      assert Items(routes)[1..] == Items(routes[1..]);
      JoinedItems(routes[1..]);
      assert joined == ROUTE + routes[0] + "&" + Join(Items(routes[1..]), '&');
      PrintableParts(ROUTE, routes[0]);
      PrintableParts(ROUTE + routes[0], "&");
      PrintableParts(ROUTE + routes[0] + "&", Join(Items(routes[1..]), '&'));
      hide AllPrintable;
      assert AllPrintable("&") && AllPrintable(ROUTE) by {
        ConstantsPrintable();
      }
      assert forall i | 0 <= i < |routes| :: routes[i] == if i == 0 then routes[0] else routes[1..][i - 1];
    }
  }

  lemma ConstantsPrintable()
    ensures AllPrintable("&") && AllPrintable("?") && AllPrintable(ROUTE)
  {
  }

  lemma PrintableParts(a: string, b: string)
    ensures AllPrintable(a + b) <==> AllPrintable(a) && AllPrintable(b)
  {
    assert forall i | 0 <= i < |a| :: (a + b)[i] == a[i];
    assert forall i | 0 <= i < |b| :: (a + b)[|a| + i] == b[i];
  }

  /** Parsing undoes formatting exactly when every route can be carried in a query. */
  lemma ParseUndoesFormatIff(isOrigin: string -> bool, url: AgentUrl)
    requires AgentIdValid(url.agentId) && Formatted(isOrigin, url).Ok?
    ensures Parsed(isOrigin, Formatted(isOrigin, url).value) == Ok(url) <==>
              forall i | 0 <= i < |url.routes| :: Carriable(url.routes[i])
  {
    var value := Formatted(isOrigin, url).value;
    var head := url.agentId + Path(url).value;
    HeadRoundTrip(url);
    if url.routes == [] {
      assert value == head;
      CutAtMark(head, "");
    } else {
      var query := Join(Items(url.routes), '&');
      assert value == head + "?" + query;
      CutAtMark(head, query);
      QueryRoundTripIff(isOrigin, url, head, query);
    }
  }

  lemma CutAtMark(head: string, query: string)
    requires '?' !in head
    ensures FirstIndex(head, '?') == |head| && head[..|head|] == head
    ensures FirstIndex(head + "?" + query, '?') == |head|
  {
    var value := head + "?" + query;
    assert value[|head|] == '?';
    assert forall i | 0 <= i < |head| :: value[i] == head[i];
  }

  lemma QueryRoundTrip(isOrigin: string -> bool, routes: seq<string>)
    requires routes != [] && Distinct(routes)
              && forall i | 0 <= i < |routes| :: isOrigin(routes[i]) && '&' !in routes[i]
    ensures Split(Join(Items(routes), '&'), '&') == Items(routes)
    ensures RoutesParsed(isOrigin, Items(routes), []) == Ok(routes)
  {
    assert '&' !in ROUTE;
    SplitJoin(Items(routes), '&');
    assert [] + routes == routes;
    ItemsAreTheRoutes(isOrigin, routes, []);
  }

  lemma RoutesOfAQuery(isOrigin: string -> bool, query: string)
    requires RoutesParsed(isOrigin, Split(query, '&'), []).Ok?
    ensures var routes := RoutesParsed(isOrigin, Split(query, '&'), []).value;
      forall i | 0 <= i < |routes| :: '&' !in routes[i]
  {
    var items := Split(query, '&');
    var routes := RoutesParsed(isOrigin, items, []).value;
    QueryIsItsRoutes(isOrigin, query);
    SplitParts(query, '&');
    forall i | 0 <= i < |routes|
      ensures '&' !in routes[i]
    {
      assert items[i] == ROUTE + routes[i];
    }
  }

  lemma QueryRoundTripIff(isOrigin: string -> bool, url: AgentUrl, head: string, query: string)
    requires url.routes != [] && query == Join(Items(url.routes), '&')
    requires HeadParsed(head) == Ok(url.(routes := [])) && AllPrintable(head)
    requires FirstIndex(head + "?" + query, '?') == |head|
    requires |url.routes| <= MAX_ROUTES && Distinct(url.routes)
              && forall i | 0 <= i < |url.routes| :: isOrigin(url.routes[i])
    ensures Parsed(isOrigin, head + "?" + query) == Ok(url) <==>
              forall i | 0 <= i < |url.routes| :: Carriable(url.routes[i])
  {
    hide AllPrintable, HeadParsed, Split, Join, RoutesParsed, FirstIndex;
    var value := head + "?" + query;
    JoinedItems(url.routes);
    ConstantsPrintable();
    PrintableParts(head, "?");
    PrintableParts(head + "?", query);
    assert value[..|head|] == head && value[|head| + 1..] == query;
    if forall i | 0 <= i < |url.routes| :: Carriable(url.routes[i]) {
      QueryRoundTrip(isOrigin, url.routes);
    } else if Parsed(isOrigin, value) == Ok(url) {
      RoutesOfAQuery(isOrigin, query);
    }
  }

  // ---- What is accepted ---------------------------------------------------

  /** Both or neither: a protocol of lower-case letters and a resource of base64url characters. */
  ghost predicate PathSound(protocol: Option<string>, resource: Option<string>) {
    && (protocol.Some? <==> resource.Some?)
    && (protocol.Some? ==> protocol.value != "" && forall c | c in protocol.value :: 'a' <= c <= 'z')
    && (resource.Some? ==>
          && resource.value != ""
          && forall c | c in resource.value ::
               'a' <= c <= 'z' || 'A' <= c <= 'Z' || '0' <= c <= '9' || c == '-' || c == '_')
  }

  /** An Agent URL as the protocol describes it, member by member. */
  ghost predicate UrlSound(isOrigin: string -> bool, url: AgentUrl) {
    && |url.agentId| > 10 && url.agentId[..10] == "did:agent:"
    && (exists key :: |key| == 32 && Base64Url.Decoded(url.agentId[10..]) == Some(key))
    && PathSound(url.protocol, url.resource)
    && |url.routes| <= 8 && Distinct(url.routes)
    && forall r | r in url.routes ::
         isOrigin(r) && forall c | c in r :: '!' <= c <= '~' && c != '#' && c != '%' && c != '&'
  }

  /** The one text of an Agent URL. */
  function Spelling(url: AgentUrl): string {
    url.agentId
    + (if url.protocol.Some? && url.resource.Some? then "/" + url.protocol.value + "/" + url.resource.value else "")
    + if url.routes == [] then "" else "?" + Join(Items(url.routes), '&')
  }

  lemma PathIff(url: AgentUrl)
    ensures Path(url).Ok? <==> PathSound(url.protocol, url.resource)
  {
    if url.protocol.Some? && url.resource.Some? {
      assert forall i | 0 <= i < |url.protocol.value| :: url.protocol.value[i] in url.protocol.value;
      assert forall i | 0 <= i < |url.resource.value| :: url.resource.value[i] in url.resource.value;
    }
  }

  lemma AgentIdIff(id: string)
    ensures AgentIdValid(id) <==>
              && |id| > 10 && id[..10] == "did:agent:"
              && exists key :: |key| == 32 && Base64Url.Decoded(id[10..]) == Some(key)
  {
    assert |PREFIX| == 10;
  }

  lemma CarriableIff(route: string)
    ensures Carriable(route) <==> forall c | c in route :: '!' <= c <= '~' && c != '#' && c != '%' && c != '&'
  {
    assert forall i | 0 <= i < |route| :: route[i] in route;
  }

  lemma UrlSoundIff(isOrigin: string -> bool, url: AgentUrl)
    ensures UrlSound(isOrigin, url) <==>
              && AgentIdValid(url.agentId) && Formatted(isOrigin, url).Ok?
              && forall i | 0 <= i < |url.routes| :: Carriable(url.routes[i])
    ensures UrlSound(isOrigin, url) ==> Formatted(isOrigin, url).value == Spelling(url)
  {
    hide AgentIdValid, Carriable, Join, Items;
    AgentIdIff(url.agentId);
    PathIff(url);
    assert forall i | 0 <= i < |url.routes| :: url.routes[i] in url.routes;
    forall r: string
      ensures Carriable(r) <==> forall c | c in r :: '!' <= c <= '~' && c != '#' && c != '%' && c != '&'
    {
      CarriableIff(r);
    }
  }

  lemma ParsedIsSound(isOrigin: string -> bool, value: string)
    requires Parsed(isOrigin, value).Ok?
    ensures UrlSound(isOrigin, Parsed(isOrigin, value).value) && value == Spelling(Parsed(isOrigin, value).value)
  {
    var url := Parsed(isOrigin, value).value;
    FormatUndoesParse(isOrigin, value);
    ParsedAgent(isOrigin, value);
    hide Parsed, Formatted, UrlSound, Spelling, Carriable, AgentIdValid;
    ParseUndoesFormatIff(isOrigin, url);
    UrlSoundIff(isOrigin, url);
  }

  lemma ParsedAgent(isOrigin: string -> bool, value: string)
    requires Parsed(isOrigin, value).Ok?
    ensures AgentIdValid(Parsed(isOrigin, value).value.agentId)
  {
    hide AgentIdValid, PathValid, AllPrintable, RoutesParsed;
  }

  /** The parser accepts exactly the texts of sound Agent URLs, and reads each back as the URL it spells. */
  lemma ParsesIff(isOrigin: string -> bool, value: string, url: AgentUrl)
    ensures Parsed(isOrigin, value) == Ok(url) <==> UrlSound(isOrigin, url) && value == Spelling(url)
  {
    hide Parsed, Formatted, UrlSound, Spelling, Carriable, AgentIdValid;
    if Parsed(isOrigin, value) == Ok(url) {
      ParsedIsSound(isOrigin, value);
    }
    if UrlSound(isOrigin, url) && value == Spelling(url) {
      UrlSoundIff(isOrigin, url);
      ParseUndoesFormatIff(isOrigin, url);
    }
  }
}
