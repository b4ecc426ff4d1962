/** The routing index and the routes it answers with.
    router.go: loadRules, validateRules, Route, routeBodyless, handleProtocolMapping, joinPath, isV2Version. */
module Router {
  import opened Text
  import opened Json

  // ----- Rules -----

  const URL := "url"
  const PUBLISHER := "publisher"
  const BPP := "bpp"
  const BAP := "bap"
  const RECEIVER := "receiver"
  const SENDER := "sender"

  const ANY_DOMAIN := "*"

  datatype Rule = Rule(domain: string, version: string, targetType: string, url: string, publisherID: string,
                       excludeAction: bool, endpoints: seq<string>)

  /** A parsed URL: its path, its query, and all the rest. */
  datatype UrlValue = UrlValue(rest: string, path: string, rawQuery: string)

  datatype RouteValue = RouteValue(targetType: string, publisherID: string, url: Option<UrlValue>)

  /** `url.Parse` and `path.Join`. */
  datatype Env = Env(parse: string -> Option<UrlValue>, join: (string, string) -> string)

  predicate IsV2(version: string) {
    HasPrefix(version, "2.")
  }

  predicate ToReceiver(targetType: string) {
    targetType == BPP || targetType == RECEIVER
  }

  predicate ToSender(targetType: string) {
    targetType == BAP || targetType == SENDER
  }

  function JoinPath(env: Env, u: UrlValue, endpoint: string): string {
    env.join(if u.path == "" then "/" else u.path, endpoint)
  }

  /** `validateRules` on one rule. */
  predicate ValidRule(env: Env, r: Rule) {
    && r.version != "" && r.targetType != ""
    && (IsV2(r.version) || r.domain != "")
    && if r.targetType == URL then r.url != "" && env.parse(r.url).Some?
       else if r.targetType == PUBLISHER then r.publisherID != ""
       else (ToReceiver(r.targetType) || ToSender(r.targetType)) && (r.url != "" ==> env.parse(r.url).Some?)
  }

  /** One rule listing one endpoint, under the domain it is filed by. */
  datatype Listing = Listing(domain: string, version: string, endpoint: string, rule: Rule)

  function DomainOf(r: Rule): string {
    if IsV2(r.version) then ANY_DOMAIN else r.domain
  }

  function ListingsOfRule(r: Rule, n: nat): (ls: seq<Listing>)
    requires n <= |r.endpoints|
    ensures |ls| == n
    ensures forall i :: 0 <= i < n ==> ls[i] == Listing(DomainOf(r), r.version, r.endpoints[i], r)
  {
    seq(n, i requires 0 <= i < n => Listing(DomainOf(r), r.version, r.endpoints[i], r))
  }

  function Listings(rules: seq<Rule>): seq<Listing> {
    if rules == [] then []
    else
      var last := rules[|rules| - 1];
      Listings(rules[..|rules| - 1]) + ListingsOfRule(last, |last.endpoints|)
  }

  /** The last listing of an endpoint for a domain and version. */
  function LastListing(ls: seq<Listing>, domain: string, version: string, endpoint: string): Option<Rule> {
    if ls == [] then None
    else
      var last := ls[|ls| - 1];
      if last.domain == domain && last.version == version && last.endpoint == endpoint then Some(last.rule)
      else LastListing(ls[..|ls| - 1], domain, version, endpoint)
  }

  /** A version 2 endpoint is listed once per version. */
  ghost predicate NoDuplicates(ls: seq<Listing>) {
    forall i, j :: 0 <= i < j < |ls| && IsV2(ls[i].version) ==>
        ls[i].version != ls[j].version || ls[i].endpoint != ls[j].endpoint
  }

  /** The route a rule gives an endpoint. */
  function Built(env: Env, r: Rule, endpoint: string): RouteValue
    requires ValidRule(env, r)
  {
    if r.targetType == PUBLISHER then RouteValue(r.targetType, r.publisherID, None)
    else if r.url == "" then RouteValue(r.targetType, "", None)
    else
      var u := env.parse(r.url).value;
      var joined := if r.targetType == URL && r.excludeAction then u else u.(path := JoinPath(env, u, endpoint));
      RouteValue(r.targetType, "", Some(joined))
  }

  // ----- The index -----

  class Url {
    const rest: string
    var path: string
    var rawQuery: string

    function Value(): UrlValue
      reads this
    {
      UrlValue(rest, path, rawQuery)
    }

    constructor (u: UrlValue)
      ensures Value() == u && fresh(this)
    {
      rest, path, rawQuery := u.rest, u.path, u.rawQuery;
    }
  }

  class Route {
    const targetType: string
    const publisherID: string
    const url: Url?

    function Value(): RouteValue
      reads url
    {
      RouteValue(targetType, publisherID, if url == null then None else Some(url.Value()))
    }

    constructor (targetType: string, publisherID: string, url: Url?)
      ensures this.targetType == targetType && this.publisherID == publisherID && this.url == url
    {
      this.targetType, this.publisherID, this.url := targetType, publisherID, url;
    }
  }

  /** domain, then version, then endpoint */
  type Index = map<string, map<string, map<string, Route>>>

  function Find(rules: Index, domain: string, version: string, endpoint: string): Option<Route> {
    if domain in rules && version in rules[domain] && endpoint in rules[domain][version]
    then Some(rules[domain][version][endpoint]) else None
  }

  /** The indexed route is the one built from the last listing; there is none exactly when nothing lists it. */
  ghost predicate Agrees(env: Env, rules: Index, ls: seq<Listing>, urls: set<Url>, domain: string, version: string,
                         endpoint: string)
    reads urls
  {
    var found, rule := Find(rules, domain, version, endpoint), LastListing(ls, domain, version, endpoint);
    && (found.Some? <==> rule.Some?)
    && (found.Some? ==>
          && (found.value.url == null || found.value.url in urls)
          && ValidRule(env, rule.value) && found.value.Value() == Built(env, rule.value, endpoint))
  }

  ghost predicate Indexes(env: Env, rules: Index, ls: seq<Listing>, urls: set<Url>)
    reads urls
  {
    forall domain, version, endpoint :: Agrees(env, rules, ls, urls, domain, version, endpoint)
  }

  function Filing(rules: Index, domain: string, version: string, endpoint: string, route: Route): Index
    requires domain in rules && version in rules[domain]
  {
    rules[domain := rules[domain][version := rules[domain][version][endpoint := route]]]
  }

  lemma {:induction false} FindFiled(rules: Index, l: Listing, route: Route, d: string, v: string, e: string)
    requires l.domain in rules && l.version in rules[l.domain]
    ensures Find(Filing(rules, l.domain, l.version, l.endpoint, route), d, v, e) ==
            if d == l.domain && v == l.version && e == l.endpoint then Some(route) else Find(rules, d, v, e)
  {}

  lemma {:induction false} LastListingAppended(ls: seq<Listing>, l: Listing, d: string, v: string, e: string)
    ensures LastListing(ls + [l], d, v, e) ==
            if d == l.domain && v == l.version && e == l.endpoint then Some(l.rule) else LastListing(ls, d, v, e)
  {
    assert (ls + [l])[..|ls|] == ls;
  }

  lemma {:induction false} FiledAgrees(env: Env, rules: Index, ls: seq<Listing>, urls: set<Url>, l: Listing,
                                       route: Route)
    requires Indexes(env, rules, ls, urls) && l.domain in rules && l.version in rules[l.domain]
    requires (route.url == null || route.url in urls) && ValidRule(env, l.rule) &&
      route.Value() == Built(env, l.rule, l.endpoint)
    ensures Indexes(env, Filing(rules, l.domain, l.version, l.endpoint, route), ls + [l], urls)
  {
    forall d, v, e ensures Agrees(env, Filing(rules, l.domain, l.version, l.endpoint, route), ls + [l], urls, d, v, e) {
      assert Agrees(env, rules, ls, urls, d, v, e);
      FindFiled(rules, l, route, d, v, e);
      LastListingAppended(ls, l, d, v, e);
    }
  }

  /** More known URLs do no harm. */
  lemma {:induction false} MoreUrls(env: Env, rules: Index, ls: seq<Listing>, urls: set<Url>, more: set<Url>)
    requires Indexes(env, rules, ls, urls) && urls <= more
    ensures Indexes(env, rules, ls, more)
  {
    forall d, v, e ensures Agrees(env, rules, ls, more, d, v, e) {
      assert Agrees(env, rules, ls, urls, d, v, e);
    }
  }

  // ----- Listings -----

  lemma {:induction false} LastListingIff(ls: seq<Listing>, domain: string, version: string, endpoint: string)
    ensures LastListing(ls, domain, version, endpoint).Some? <==>
      exists i :: 0 <= i < |ls| && ls[i].domain == domain && ls[i].version == version && ls[i].endpoint == endpoint
  {
    if ls != [] {
      var front := ls[..|ls| - 1];
      LastListingIff(front, domain, version, endpoint);
      assert forall i :: 0 <= i < |front| ==> front[i] == ls[i];
    }
  }

  /** Version 2 listings are filed under any domain. */
  ghost predicate Filed(ls: seq<Listing>) {
    forall i :: 0 <= i < |ls| && IsV2(ls[i].version) ==> ls[i].domain == ANY_DOMAIN
  }

  lemma {:induction false} OneMoreListing(ls: seq<Listing>, l: Listing)
    requires Filed(ls) && NoDuplicates(ls) && (IsV2(l.version) ==> l.domain == ANY_DOMAIN)
    ensures Filed(ls + [l])
    ensures NoDuplicates(ls + [l]) <==> !(IsV2(l.version) && LastListing(ls, l.domain, l.version, l.endpoint).Some?)
  {
    var longer := ls + [l];
    LastListingIff(ls, l.domain, l.version, l.endpoint);
    assert forall i :: 0 <= i < |ls| ==> longer[i] == ls[i];
    assert longer[|ls|] == l;
    if IsV2(l.version) && LastListing(ls, l.domain, l.version, l.endpoint).Some? {
      var i :| 0 <= i < |ls| && ls[i].domain == l.domain && ls[i].version == l.version && ls[i].endpoint == l.endpoint;
      assert longer[i].version == longer[|ls|].version && longer[i].endpoint == longer[|ls|].endpoint;
    }
  }

  lemma {:induction false} PrefixKeepsNoDuplicates(ls: seq<Listing>, n: nat)
    requires n <= |ls| && NoDuplicates(ls)
    ensures NoDuplicates(ls[..n])
  {
    assert forall i :: 0 <= i < n ==> ls[..n][i] == ls[i];
  }

  /** The listings up to an endpoint of a rule begin all the listings. */
  lemma {:induction false} ListingsSoFar(rules: seq<Rule>, i: nat, j: nat)
    requires i < |rules| && j <= |rules[i].endpoints|
    ensures var soFar := Listings(rules[..i]) + ListingsOfRule(rules[i], j);
      |soFar| <= |Listings(rules)| && Listings(rules)[..|soFar|] == soFar
    decreases |rules|
  {
    var n := |rules| - 1;
    if i < n {
      ListingsSoFar(rules[..n], i, j);
      assert rules[..n][..i] == rules[..i];
    }
  }

  // ----- Answers -----

  datatype Answer = BadContext | NoRoute | NoDestination | BadUri | NotBodyless | To(route: RouteValue)

  function WithQuery(u: UrlValue, rawQuery: string): UrlValue {
    if rawQuery != "" then u.(rawQuery := rawQuery) else u
  }

  /** Where a receiver or sender target goes: the URI of the request's context, else the configured URL. */
  function Mapped(env: Env, route: RouteValue, npURI: string, endpoint: string, rawQuery: string): Answer {
    var target := TrimSpace(npURI);
    if target == "" then
      if route.url.None? then NoDestination
      else To(RouteValue(URL, "", Some(WithQuery(route.url.value, rawQuery))))
    else
      var u := env.parse(target);
      if u.None? then BadUri
      else To(RouteValue(URL, "", Some(WithQuery(u.value.(path := JoinPath(env, u.value, endpoint)), rawQuery))))
  }

  function Resolved(env: Env, route: RouteValue, receiverURI: string, senderURI: string, endpoint: string,
                    rawQuery: string): Answer {
    if ToReceiver(route.targetType) then Mapped(env, route, receiverURI, endpoint, rawQuery)
    else if ToSender(route.targetType) then Mapped(env, route, senderURI, endpoint, rawQuery)
    else if route.targetType == URL && rawQuery != "" && route.url.Some?
    then To(RouteValue(URL, "", Some(route.url.value.(rawQuery := rawQuery))))
    else To(route)
  }

  function ResolvedBodyless(route: RouteValue, rawQuery: string): Answer {
    if ToReceiver(route.targetType) || ToSender(route.targetType) then NotBodyless
    else if rawQuery != "" && route.targetType == URL && route.url.Some?
    then To(RouteValue(URL, "", Some(route.url.value.(rawQuery := rawQuery))))
    else To(route)
  }

  /** The first non-empty string under any of the keys. */
  function ContextString(context: map<string, Json>, keys: seq<string>): string {
    if keys == [] then ""
    else if keys[0] in context && context[keys[0]].Str? && context[keys[0]].s != "" then context[keys[0]].s
    else ContextString(context, keys[1..])
  }

  const RECEIVER_KEYS := ["bpp_uri", "bppUri", "receiverUri"]
  const SENDER_KEYS := ["bap_uri", "bapUri", "senderUri"]

  /** The answer the list of rules gives a request with a body. */
  function Expected(env: Env, ls: seq<Listing>, context: Option<map<string, Json>>, endpoint: string,
                    rawQuery: string): Answer
    requires forall d, v, e :: LastListing(ls, d, v, e).Some? ==> ValidRule(env, LastListing(ls, d, v, e).value)
  {
    if context.None? then BadContext
    else
      var version := ContextString(context.value, ["version"]);
      var domain := if IsV2(version) then ANY_DOMAIN else ContextString(context.value, ["domain"]);
      var rule := LastListing(ls, domain, version, endpoint);
      if rule.None? then NoRoute
      else Resolved(env, Built(env, rule.value, endpoint), ContextString(context.value, RECEIVER_KEYS),
                    ContextString(context.value, SENDER_KEYS), endpoint, rawQuery)
  }

  /** What a version under any domain answers to a bodyless request, if it lists the endpoint. */
  function BodylessAnswer(env: Env, ls: seq<Listing>, version: string, endpoint: string,
                          rawQuery: string): Option<Answer> {
    var rule := LastListing(ls, ANY_DOMAIN, version, endpoint);
    if rule.Some? && ValidRule(env, rule.value)
    then Some(ResolvedBodyless(Built(env, rule.value, endpoint), rawQuery))
    else None
  }

  /** The answer when the versions are visited in this order. */
  function BodylessInOrder(env: Env, ls: seq<Listing>, order: seq<string>, endpoint: string, rawQuery: string): Answer {
    if order == [] then NoRoute
    else
      var answer := BodylessAnswer(env, ls, order[0], endpoint, rawQuery);
      if answer.Some? then answer.value else BodylessInOrder(env, ls, order[1..], endpoint, rawQuery)
  }

  ghost predicate AnswersInOrder(answer: Answer, env: Env, ls: seq<Listing>, order: seq<string>, versions: set<string>,
                                 endpoint: string, rawQuery: string) {
    Orders(order, versions) && answer == BodylessInOrder(env, ls, order, endpoint, rawQuery)
  }

  ghost predicate Orders(order: seq<string>, versions: set<string>) {
    forall v :: v in order <==> v in versions
  }

  /** An answer as the caller gets it, a route object. */
  datatype Reply = Failed(problem: Answer) | Given(route: Route)

  ghost function ReplyValue(r: Reply): Answer
    reads if r.Given? && r.route.url != null then {r.route.url} else {}
  {
    if r.Given? then To(r.route.Value()) else r.problem
  }

  // ----- The router -----

  class Router {
    const env: Env
    var rules: Index
    ghost var listings: seq<Listing>
    ghost var urls: set<Url>

    ghost predicate Valid()
      reads this, urls
    {
      Indexes(env, rules, listings, urls)
    }

    constructor (env: Env)
      ensures Valid() && this.env == env && listings == [] && urls == {}
    {
      this.env, rules, listings, urls := env, map[], [], {};
    }

    method ValidateRules(config: seq<Rule>) returns (ok: bool)
      ensures ok <==> forall r :: r in config ==> ValidRule(env, r)
    {
      for i := 0 to |config|
        invariant forall k :: 0 <= k < i ==> ValidRule(env, config[k])
      {
        if !ValidRule(env, config[i]) {
          return false;
        }
      }
      return true;
    }

    method ParseUrl(text: string) returns (u: Url)
      requires env.parse(text).Some?
      ensures fresh(u) && u.Value() == env.parse(text).value
    {
      u := new Url(env.parse(text).value);
    }

    method BuildRoute(r: Rule, endpoint: string) returns (route: Route)
      requires ValidRule(env, r)
      ensures fresh(route) && (route.url != null ==> fresh(route.url)) && route.Value() == Built(env, r, endpoint)
    {
      if r.targetType == PUBLISHER {
        route := new Route(r.targetType, r.publisherID, null);
      } else if r.targetType == URL {
        var u := ParseUrl(r.url);
        if !r.excludeAction {
          u.path := JoinPath(env, u.Value(), endpoint);
        }
        route := new Route(r.targetType, "", u);
      } else {
        var u: Url? := null;
        if r.url != "" {
          u := ParseUrl(r.url);
          u.path := JoinPath(env, u.Value(), endpoint);
        }
        route := new Route(r.targetType, "", u);
      }
    }

    /** Files one endpoint of a rule; refuses a version 2 endpoint that is already there. */
    method AddEndpoint(r: Rule, endpoint: string) returns (added: bool)
      requires Valid() && ValidRule(env, r)
      requires DomainOf(r) in rules && r.version in rules[DomainOf(r)]
      modifies this
      ensures Valid() && fresh(urls - old(urls)) && DomainOf(r) in rules && r.version in rules[DomainOf(r)]
      ensures added <==> !(IsV2(r.version) && LastListing(old(listings), DomainOf(r), r.version, endpoint).Some?)
      ensures listings == if added then old(listings) + [Listing(DomainOf(r), r.version, endpoint, r)]
        else old(listings)
    {
      var domain := DomainOf(r);
      var route := BuildRoute(r, endpoint);
      assert Agrees(env, rules, listings, urls, domain, r.version, endpoint);
      if IsV2(r.version) && endpoint in rules[domain][r.version] {
        return false;
      }
      ghost var l := Listing(domain, r.version, endpoint, r);
      ghost var more := urls + if route.url == null then {} else {route.url};
      MoreUrls(env, rules, listings, urls, more);
      FiledAgrees(env, rules, listings, more, l, route);
      rules := Filing(rules, domain, r.version, endpoint, route);
      listings, urls := listings + [l], more;
      return true;
    }

    /** Makes room for a domain and version; nothing can be found that could not before. */
    method AddVersion(domain: string, version: string)
      requires Valid()
      modifies this`rules
      ensures Valid() && domain in rules && version in rules[domain]
    {
      ghost var before := rules;
      if domain !in rules {
        rules := rules[domain := map[]];
      }
      if version !in rules[domain] {
        rules := rules[domain := rules[domain][version := map[]]];
      }
      forall d, v, e ensures Agrees(env, rules, listings, urls, d, v, e) {
        assert Agrees(env, before, listings, urls, d, v, e);
      }
    }

    /** Succeeds exactly when every rule is valid and lists no version 2 endpoint twice, whatever its domain; the index
        then agrees with the list of rules. */
    method LoadRules(config: seq<Rule>) returns (ok: bool)
      requires Valid() && listings == []
      modifies this
      ensures ok <==> (forall r :: r in config ==> ValidRule(env, r)) && NoDuplicates(Listings(config))
      ensures ok ==> Valid() && listings == Listings(config)
    {
      var valid := ValidateRules(config);
      if !valid {
        return false;
      }
      for i := 0 to |config|
        invariant Valid() && fresh(urls - old(urls)) && listings == Listings(config[..i])
        invariant Filed(listings) && NoDuplicates(listings)
      {
        ok := AddRule(config, i, config[i]);
        if !ok {
          return false;
        }
        assert config[..i + 1][..i] == config[..i];
      }
      assert config[..|config|] == config;
      return true;
    }

    method AddRule(ghost config: seq<Rule>, ghost i: nat, r: Rule) returns (ok: bool)
      requires i < |config| && config[i] == r && ValidRule(env, r)
      requires Valid() && listings == Listings(config[..i]) && Filed(listings) && NoDuplicates(listings)
      modifies this
      ensures Valid() && fresh(urls - old(urls))
      ensures ok ==>
        listings == old(listings) + ListingsOfRule(r, |r.endpoints|) && Filed(listings) && NoDuplicates(listings)
      ensures !ok ==> !NoDuplicates(Listings(config))
    {
      AddVersion(DomainOf(r), r.version);
      for j := 0 to |r.endpoints|
        invariant Valid() && fresh(urls - old(urls)) && DomainOf(r) in rules && r.version in rules[DomainOf(r)]
        invariant listings == Listings(config[..i]) + ListingsOfRule(r, j) && Filed(listings) && NoDuplicates(listings)
      {
        ghost var l := Listing(DomainOf(r), r.version, r.endpoints[j], r);
        OneMoreListing(listings, l);
        ghost var was := listings;
        assert was + [l] == Listings(config[..i]) + ListingsOfRule(r, j + 1);
        var added := AddEndpoint(r, r.endpoints[j]);
        if !added {
          ListingsSoFar(config, i, j + 1);
          if NoDuplicates(Listings(config)) {
            PrefixKeepsNoDuplicates(Listings(config), |was + [l]|);
          }
          return false;
        }
      }
      return true;
    }

    /** A copy of a route's URL that carries the query. */
    method CloneWithQuery(u: Url, rawQuery: string) returns (clone: Url)
      ensures fresh(clone) && clone.Value() == u.Value().(rawQuery := rawQuery)
    {
      clone := new Url(u.Value());
      clone.rawQuery := rawQuery;
    }

    method HandleProtocolMapping(route: Route, npURI: string, endpoint: string, rawQuery: string) returns (reply: Reply)
      ensures ReplyValue(reply) == Mapped(env, old(route.Value()), npURI, endpoint, rawQuery)
    {
      var target := TrimSpace(npURI);
      if |target| == 0 {
        if route.url == null {
          return Failed(NoDestination);
        }
        var u: Url := route.url;
        if rawQuery != "" {
          u := CloneWithQuery(u, rawQuery);
        }
        var copy := new Route(URL, "", u);
        return Given(copy);
      }
      if env.parse(target).None? {
        return Failed(BadUri);
      }
      var u := ParseUrl(target);
      u.path := JoinPath(env, u.Value(), endpoint);
      if rawQuery != "" {
        u.rawQuery := rawQuery;
      }
      var mapped := new Route(URL, "", u);
      return Given(mapped);
    }

    /** Answers as the rules say, and modifies nothing: no stored route, URL or rule. */
    method RouteBody(context: Option<map<string, Json>>, endpoint: string, rawQuery: string) returns (reply: Reply)
      requires Valid()
      ensures Valid()
      ensures (forall d, v, e :: LastListing(listings, d, v, e).Some? ==>
               ValidRule(env, LastListing(listings, d, v, e).value))
              && ReplyValue(reply) == Expected(env, listings, context, endpoint, rawQuery)
    {
      forall d, v, e | LastListing(listings, d, v, e).Some?
          ensures ValidRule(env, LastListing(listings, d, v, e).value) {
        assert Agrees(env, rules, listings, urls, d, v, e);
      }
      if context.None? {
        return Failed(BadContext);
      }
      var version := ContextString(context.value, ["version"]);
      var domain := ContextString(context.value, ["domain"]);
      if IsV2(version) {
        domain := ANY_DOMAIN;
      }
      assert Agrees(env, rules, listings, urls, domain, version, endpoint);
      if domain !in rules || version !in rules[domain] || endpoint !in rules[domain][version] {
        return Failed(NoRoute);
      }
      var route := rules[domain][version][endpoint];
      if ToReceiver(route.targetType) {
        reply := HandleProtocolMapping(route, ContextString(context.value, RECEIVER_KEYS), endpoint, rawQuery);
      } else if ToSender(route.targetType) {
        reply := HandleProtocolMapping(route, ContextString(context.value, SENDER_KEYS), endpoint, rawQuery);
      } else if route.targetType == URL && rawQuery != "" && route.url != null {
        var clone := CloneWithQuery(route.url, rawQuery);
        var copy := new Route(URL, "", clone);
        reply := Given(copy);
      } else {
        reply := Given(route);
      }
    }

    ghost function Versions(): set<string>
      reads this
    {
      if ANY_DOMAIN in rules then rules[ANY_DOMAIN].Keys else {}
    }

    /** Answers from the first version visited, in an order of the map's own, that lists the endpoint; modifies
        nothing. */
    method RouteBodyless(endpoint: string, rawQuery: string) returns (reply: Reply)
      requires Valid()
      ensures exists order :: AnswersInOrder(ReplyValue(reply), env, listings, order, Versions(), endpoint, rawQuery)
    {
      ghost var order := [];
      if ANY_DOMAIN !in rules {
        reply := Failed(NoRoute);
        assert AnswersInOrder(ReplyValue(reply), env, listings, order, Versions(), endpoint, rawQuery);
        return;
      }
      var v2Rules := rules[ANY_DOMAIN];
      var todo := v2Rules.Keys;
      while todo != {}
        invariant todo <= v2Rules.Keys && Orders(order, v2Rules.Keys - todo)
        invariant forall v :: v in order ==> BodylessAnswer(env, listings, v, endpoint, rawQuery).None?
        decreases |todo|
      {
        var version :| version in todo;
        todo := todo - {version};
        assert Agrees(env, rules, listings, urls, ANY_DOMAIN, version, endpoint);
        if endpoint in v2Rules[version] {
          reply := AnswerBodyless(v2Rules[version][endpoint], rawQuery);
          ghost var rest := Enumerate(todo);
          PassOver(env, listings, order, [version] + rest, endpoint, rawQuery);
          order := order + ([version] + rest);
          assert AnswersInOrder(ReplyValue(reply), env, listings, order, Versions(), endpoint, rawQuery);
          return;
        }
        order := order + [version];
      }
      PassOver(env, listings, order, [], endpoint, rawQuery);
      assert order + [] == order;
      reply := Failed(NoRoute);
      assert AnswersInOrder(ReplyValue(reply), env, listings, order, Versions(), endpoint, rawQuery);
    }

    method AnswerBodyless(route: Route, rawQuery: string) returns (reply: Reply)
      ensures ReplyValue(reply) == ResolvedBodyless(old(route.Value()), rawQuery)
    {
      if ToReceiver(route.targetType) || ToSender(route.targetType) {
        return Failed(NotBodyless);
      }
      if rawQuery != "" && route.targetType == URL && route.url != null {
        var clone := CloneWithQuery(route.url, rawQuery);
        var copy := new Route(URL, "", clone);
        return Given(copy);
      }
      return Given(route);
    }
  }

  // ----- What the list of rules says -----

  /** Under version 2 there is at most one listing, so the last is the only one, whatever the order of the rules. */
  lemma {:induction false} V2ListingIsUnique(ls: seq<Listing>, i: nat)
    requires Filed(ls) && NoDuplicates(ls) && i < |ls| && IsV2(ls[i].version)
    ensures LastListing(ls, ANY_DOMAIN, ls[i].version, ls[i].endpoint) == Some(ls[i].rule)
  {
    var n := |ls| - 1;
    if i < n {
      assert Filed(ls[..n]) && NoDuplicates(ls[..n]);
      V2ListingIsUnique(ls[..n], i);
      assert ls[..n][i] == ls[i];
    }
  }

  lemma {:induction false} Enumerate(versions: set<string>) returns (order: seq<string>)
    ensures Orders(order, versions)
    decreases versions
  {
    order := [];
    if versions != {} {
      var v :| v in versions;
      var rest := Enumerate(versions - {v});
      order := [v] + rest;
    }
  }

  /** Versions that do not list the endpoint are passed over. */
  lemma {:induction false} PassOver(env: Env, ls: seq<Listing>, before: seq<string>, after: seq<string>,
                                    endpoint: string, rawQuery: string)
    requires forall v :: v in before ==> BodylessAnswer(env, ls, v, endpoint, rawQuery).None?
    ensures BodylessInOrder(env, ls, before + after, endpoint, rawQuery) ==
      BodylessInOrder(env, ls, after, endpoint, rawQuery)
  {
    if before == [] {
      assert before + after == after;
    } else {
      assert (before + after)[1..] == before[1..] + after;
      PassOver(env, ls, before[1..], after, endpoint, rawQuery);
    }
  }

  /** All versions that list the endpoint answer alike. */
  ghost predicate SameAnswers(env: Env, ls: seq<Listing>, versions: set<string>, endpoint: string, rawQuery: string) {
    forall v, w :: v in versions && w in versions ==>
      var a, b := BodylessAnswer(env, ls, v, endpoint, rawQuery), BodylessAnswer(env, ls, w, endpoint, rawQuery);
      a.Some? && b.Some? ==> a == b
  }

  ghost predicate OrderIrrelevant(env: Env, ls: seq<Listing>, versions: set<string>, endpoint: string,
                                  rawQuery: string) {
    forall p, q :: Orders(p, versions) && Orders(q, versions) ==>
      BodylessInOrder(env, ls, p, endpoint, rawQuery) == BodylessInOrder(env, ls, q, endpoint, rawQuery)
  }

  /** Every order gives the answer of a version that lists the endpoint, and NoRoute only when none does. */
  lemma {:induction false} FirstListed(env: Env, ls: seq<Listing>, order: seq<string>, endpoint: string,
                                       rawQuery: string)
    returns (v: Option<string>)
    ensures v.None? ==> forall w :: w in order ==> BodylessAnswer(env, ls, w, endpoint, rawQuery).None?
    ensures v.None? ==> BodylessInOrder(env, ls, order, endpoint, rawQuery) == NoRoute
    ensures v.Some? ==> v.value in order
    ensures v.Some? ==>
      BodylessAnswer(env, ls, v.value, endpoint, rawQuery) == Some(BodylessInOrder(env, ls, order, endpoint, rawQuery))
  {
    if order == [] {
      v := None;
    } else if BodylessAnswer(env, ls, order[0], endpoint, rawQuery).Some? {
      v := Some(order[0]);
    } else {
      v := FirstListed(env, ls, order[1..], endpoint, rawQuery);
      assert order == [order[0]] + order[1..];
    }
  }

  lemma {:induction false} SameThenIrrelevant(env: Env, ls: seq<Listing>, versions: set<string>, endpoint: string,
                                              rawQuery: string)
    requires SameAnswers(env, ls, versions, endpoint, rawQuery)
    ensures OrderIrrelevant(env, ls, versions, endpoint, rawQuery)
  {
    forall p, q | Orders(p, versions) && Orders(q, versions)
      ensures BodylessInOrder(env, ls, p, endpoint, rawQuery) == BodylessInOrder(env, ls, q, endpoint, rawQuery)
    {
      var v := FirstListed(env, ls, p, endpoint, rawQuery);
      var w := FirstListed(env, ls, q, endpoint, rawQuery);
      assert v.Some? ==> v.value in versions && v.value in q;
      assert w.Some? ==> w.value in versions && w.value in p;
    }
  }

  lemma {:induction false} DifferentThenRelevant(env: Env, ls: seq<Listing>, versions: set<string>, endpoint: string,
                                                 rawQuery: string, v: string, w: string)
    requires v in versions && w in versions
    requires var a, b := BodylessAnswer(env, ls, v, endpoint, rawQuery), BodylessAnswer(env, ls, w, endpoint, rawQuery);
      a.Some? && b.Some? && a != b
    ensures !OrderIrrelevant(env, ls, versions, endpoint, rawQuery)
  {
    var all := Enumerate(versions);
    assert Orders([v] + all, versions) && Orders([w] + all, versions);
    assert BodylessInOrder(env, ls, [v] + all, endpoint, rawQuery) !=
        BodylessInOrder(env, ls, [w] + all, endpoint, rawQuery);
  }

  /** The answer to a bodyless request is independent of the map's order exactly when all versions that list the
      endpoint resolve it alike; nothing in the rules makes them. */
  lemma {:induction false} OrderIrrelevantIff(env: Env, ls: seq<Listing>, versions: set<string>, endpoint: string,
                                              rawQuery: string)
    ensures OrderIrrelevant(env, ls, versions, endpoint, rawQuery) <==>
      SameAnswers(env, ls, versions, endpoint, rawQuery)
  {
    if SameAnswers(env, ls, versions, endpoint, rawQuery) {
      SameThenIrrelevant(env, ls, versions, endpoint, rawQuery);
    } else {
      var v, w :| v in versions && w in versions &&
        var a, b := BodylessAnswer(env, ls, v, endpoint, rawQuery), BodylessAnswer(env, ls, w, endpoint, rawQuery);
        a.Some? && b.Some? && a != b;
      DifferentThenRelevant(env, ls, versions, endpoint, rawQuery, v, w);
    }
  }

  /** A rule that sends one endpoint of a version to a URL as it stands. */
  function Plain(version: string, url: string, endpoint: string): Rule {
    Rule("", version, URL, url, "", true, [endpoint])
  }

  lemma {:induction false} PlainAnswer(env: Env, ls: seq<Listing>, version: string, url: string, endpoint: string,
                                       rawQuery: string)
    requires LastListing(ls, ANY_DOMAIN, version, endpoint) == Some(Plain(version, url, endpoint))
    requires ValidRule(env, Plain(version, url, endpoint))
    ensures var u := env.parse(url).value;
      BodylessAnswer(env, ls, version, endpoint, rawQuery) ==
        Some(To(RouteValue(URL, "", Some(if rawQuery != "" then u.(rawQuery := rawQuery) else u))))
  {
    assert URL[0] == 'u' && BPP[0] == BAP[0] == 'b' && RECEIVER[0] == 'r' && SENDER[0] == 's' && PUBLISHER[0] == 'p';
  }

  lemma {:induction false} TwoListings(r: Rule, s: Rule, endpoint: string)
    requires r.endpoints == s.endpoints == [endpoint]
    ensures Listings([r, s]) ==
      [Listing(DomainOf(r), r.version, endpoint, r), Listing(DomainOf(s), s.version, endpoint, s)]
  {
    assert [r, s][..1] == [r] && [r][..0] == [];
    assert Listings([r]) == [] + ListingsOfRule(r, 1);
  }

  lemma {:induction false} LastOfTwo(l: Listing, k: Listing)
    requires l.version != k.version
    ensures LastListing([l, k], l.domain, l.version, l.endpoint) == Some(l.rule)
    ensures LastListing([l, k], k.domain, k.version, k.endpoint) == Some(k.rule)
  {
    assert [l, k][..1] == [l];
  }

  /** It does happen: two valid rules, accepted together, that send one endpoint of two versions to different URLs. */
  lemma {:induction false} VersionsDisagree(env: Env, v: string, w: string, a: string, b: string, endpoint: string,
                                            rawQuery: string)
    requires IsV2(v) && IsV2(w) && v != w && a != "" && b != "" && env.parse(a).Some? && env.parse(b).Some?
    requires env.parse(a).value.(rawQuery := "") != env.parse(b).value.(rawQuery := "")
    ensures var rules := [Plain(v, a, endpoint), Plain(w, b, endpoint)];
      && (forall r :: r in rules ==> ValidRule(env, r)) && NoDuplicates(Listings(rules))
      && !OrderIrrelevant(env, Listings(rules), {v, w}, endpoint, rawQuery)
  {
    var r, s := Plain(v, a, endpoint), Plain(w, b, endpoint);
    var ls := Listings([r, s]);
    TwoListings(r, s, endpoint);
    LastOfTwo(ls[0], ls[1]);
    PlainAnswer(env, ls, v, a, endpoint, rawQuery);
    PlainAnswer(env, ls, w, b, endpoint, rawQuery);
    DifferentThenRelevant(env, ls, {v, w}, endpoint, rawQuery, v, w);
  }
}
