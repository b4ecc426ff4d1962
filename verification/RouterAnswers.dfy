/** Where a request goes, told from the rules as they are configured and the context as it is sent.
    router.go: loadRules, validateRules, Route, routeBodyless, handleProtocolMapping, joinPath, isV2Version. */
module RouterAnswers {
  import opened Text
  import opened Json
  import opened Router

  // ----- The rules -----

  predicate StartsWith2(version: string) {
    |version| >= 2 && version[0] == '2' && version[1] == '.'
  }

  lemma {:induction false} V2Iff(version: string)
    ensures IsV2(version) <==> StartsWith2(version)
  {
    if |version| >= 2 {
      assert version[..2] == [version[0], version[1]];
      assert "2." == ['2', '.'];
    }
  }

  /** A rule is accepted exactly when it has a version, a domain unless that is of version 2, a known target, and what
      its target needs. */
  lemma {:induction false} RuleIsValidIff(env: Env, r: Rule)
    ensures ValidRule(env, r) <==>
      && r.version != "" && (StartsWith2(r.version) || r.domain != "")
      && r.targetType in ["url", "publisher", "bpp", "bap", "receiver", "sender"]
      && (r.targetType == "url" ==> r.url != "") && (r.targetType == "publisher" ==> r.publisherID != "")
      && (r.targetType != "publisher" && r.url != "" ==> env.parse(r.url).Some?)
  {
    V2Iff(r.version);
    assert ["url", "publisher", "bpp", "bap", "receiver", "sender"] == [URL, PUBLISHER, BPP, BAP, RECEIVER, SENDER];
  }

  /** The rule answers for requests of this version and domain; under version 2 the domain does not matter. */
  predicate AnswersFor(r: Rule, domain: string, version: string, endpoint: string) {
    r.version == version && (StartsWith2(version) || r.domain == domain) && endpoint in r.endpoints
  }

  function FiledUnder(domain: string, version: string): string {
    if StartsWith2(version) then "*" else domain
  }

  lemma {:induction false} LastOfConcat(a: seq<Listing>, b: seq<Listing>, domain: string, version: string,
                                        endpoint: string)
    ensures LastListing(a + b, domain, version, endpoint) ==
      if LastListing(b, domain, version, endpoint).Some? then LastListing(b, domain, version, endpoint)
      else LastListing(a, domain, version, endpoint)
  {
    if b == [] {
      assert a + b == a;
    } else {
      var front, l := b[..|b| - 1], b[|b| - 1];
      LastOfConcat(a, front, domain, version, endpoint);
      LastListingAppended(a + front, l, domain, version, endpoint);
      assert a + b == (a + front) + [l];
    }
  }

  lemma {:induction false} LastOfRule(r: Rule, n: nat, domain: string, version: string, endpoint: string)
    requires n <= |r.endpoints|
    ensures LastListing(ListingsOfRule(r, n), FiledUnder(domain, version), version, endpoint) ==
      if AnswersFor(r.(endpoints := r.endpoints[..n]), domain, version, endpoint) then Some(r) else None
    decreases n
  {
    V2Iff(r.version);
    if n > 0 {
      LastOfRule(r, n - 1, domain, version, endpoint);
      assert ListingsOfRule(r, n)[..n - 1] == ListingsOfRule(r, n - 1);
      assert r.endpoints[..n] == r.endpoints[..n - 1] + [r.endpoints[n - 1]];
    }
  }

  /** A request is answered by the last rule that answers for its version, domain and endpoint. */
  ghost predicate LastAnswering(rules: seq<Rule>, domain: string, version: string, endpoint: string, i: nat) {
    && i < |rules| && AnswersFor(rules[i], domain, version, endpoint)
    && forall k :: i < k < |rules| ==> !AnswersFor(rules[k], domain, version, endpoint)
  }

  ghost predicate NoneAnswers(rules: seq<Rule>, domain: string, version: string, endpoint: string) {
    forall k :: 0 <= k < |rules| ==> !AnswersFor(rules[k], domain, version, endpoint)
  }

  lemma {:induction false} LastOfRules(rules: seq<Rule>, domain: string, version: string, endpoint: string)
    ensures var found := LastListing(Listings(rules), FiledUnder(domain, version), version, endpoint);
      && (NoneAnswers(rules, domain, version, endpoint) ==> found.None?)
      && forall i: nat :: LastAnswering(rules, domain, version, endpoint, i) ==> found == Some(rules[i])
  {
    if rules != [] {
      var n := |rules| - 1;
      var front, last := rules[..n], rules[n];
      LastOfRules(front, domain, version, endpoint);
      LastOfRule(last, |last.endpoints|, domain, version, endpoint);
      assert last.endpoints[..|last.endpoints|] == last.endpoints;
      LastOfConcat(Listings(front), ListingsOfRule(last, |last.endpoints|), FiledUnder(domain, version), version,
                   endpoint);
      forall i: nat | LastAnswering(rules, domain, version, endpoint, i) && i < n
        ensures LastAnswering(front, domain, version, endpoint, i) && front[i] == rules[i]
      {}
    }
  }

  // ----- The context -----

  predicate Given(context: map<string, Json>, key: string, text: string) {
    key in context && context[key] == Str(text) && text != ""
  }

  predicate Absent(context: map<string, Json>, key: string) {
    key in context && context[key].Str? ==> context[key].s == ""
  }

  /** The text under the first of three keys that has one, "" if none has. */
  predicate FirstGiven(context: map<string, Json>, a: string, b: string, c: string, text: string) {
    || Given(context, a, text)
    || (Absent(context, a) && Given(context, b, text))
    || (Absent(context, a) && Absent(context, b) && Given(context, c, text))
    || (Absent(context, a) && Absent(context, b) && Absent(context, c) && text == "")
  }

  lemma {:induction false} ContextStringOf(context: map<string, Json>, keys: seq<string>, text: string)
    requires keys != []
    ensures Given(context, keys[0], text) ==> ContextString(context, keys) == text
    ensures Absent(context, keys[0]) ==> ContextString(context, keys) == ContextString(context, keys[1..])
  {}

  lemma {:induction false} ContextStringOfThree(context: map<string, Json>, a: string, b: string, c: string,
                                                text: string)
    requires FirstGiven(context, a, b, c, text)
    ensures ContextString(context, [a, b, c]) == text
  {
    ContextStringOf(context, [a, b, c], text);
    ContextStringOf(context, [b, c], text);
    ContextStringOf(context, [c], text);
    assert [a, b, c][1..] == [b, c] && [b, c][1..] == [c] && [c][1..] == [];
  }

  /** The text under a key, "" if there is none. */
  predicate Says(context: map<string, Json>, key: string, text: string) {
    Given(context, key, text) || (Absent(context, key) && text == "")
  }

  lemma {:induction false} ContextStringOfOne(context: map<string, Json>, key: string, text: string)
    requires Says(context, key, text)
    ensures ContextString(context, [key]) == text
  {
    ContextStringOf(context, [key], text);
    assert [key][1..] == [];
  }

  /** The URI the request names for the participant that a rule sends to. */
  predicate NamesUri(context: map<string, Json>, targetType: string, uri: string) {
    && (targetType in ["bpp", "receiver"] ==> FirstGiven(context, "bpp_uri", "bppUri", "receiverUri", uri))
    && (targetType in ["bap", "sender"] ==> FirstGiven(context, "bap_uri", "bapUri", "senderUri", uri))
  }

  // ----- The answer -----

  /** The URL with the endpoint joined to its path, and the query of the request if it has one. */
  predicate IsJoined(env: Env, base: UrlValue, endpoint: string, rawQuery: string, u: UrlValue) {
    && u.rest == base.rest && u.path == env.join(if base.path == "" then "/" else base.path, endpoint)
    && u.rawQuery == (if rawQuery == "" then base.rawQuery else rawQuery)
  }

  /** The URL as it stands, with the query of the request if it has one. */
  predicate IsPlain(base: UrlValue, rawQuery: string, u: UrlValue) {
    u.rest == base.rest && u.path == base.path && u.rawQuery == (if rawQuery == "" then base.rawQuery else rawQuery)
  }

  /** To the URL of the rule: joined with the endpoint, unless the rule leaves that out. */
  ghost predicate GoesToUrl(env: Env, r: Rule, endpoint: string, rawQuery: string, answer: Answer) {
    && answer.To? && answer.route.targetType == "url" && answer.route.publisherID == "" && answer.route.url.Some?
    && env.parse(r.url).Some?
    && if r.excludeAction then IsPlain(env.parse(r.url).value, rawQuery, answer.route.url.value)
       else IsJoined(env, env.parse(r.url).value, endpoint, rawQuery, answer.route.url.value)
  }

  /** To the participant: at the URI the request names, else at the URL of the rule, always joined with the endpoint. */
  ghost predicate GoesToParticipant(env: Env, r: Rule, uri: string, endpoint: string, rawQuery: string,
                                    answer: Answer) {
    var base := if TrimSpace(uri) == "" then r.url else TrimSpace(uri);
    if base == "" then answer == NoDestination
    else if env.parse(base).None? then answer == BadUri
    else
      && answer.To? && answer.route.targetType == "url" && answer.route.publisherID == "" && answer.route.url.Some?
      && IsJoined(env, env.parse(base).value, endpoint, rawQuery, answer.route.url.value)
  }

  ghost predicate Goes(env: Env, r: Rule, uri: string, endpoint: string, rawQuery: string, answer: Answer) {
    if r.targetType == "url" then GoesToUrl(env, r, endpoint, rawQuery, answer)
    else if r.targetType == "publisher" then answer == To(RouteValue("publisher", r.publisherID, None))
    else GoesToParticipant(env, r, uri, endpoint, rawQuery, answer)
  }

  lemma {:induction false} TargetsDiffer()
    ensures URL == "url" && PUBLISHER == "publisher" && BPP == "bpp" && BAP == "bap"
    ensures RECEIVER == "receiver" && SENDER == "sender"
    ensures forall s, t :: s in [URL, PUBLISHER] && t in [BPP, BAP, RECEIVER, SENDER] ==> s != t
    ensures URL != PUBLISHER
    ensures forall s, t :: s in [BPP, RECEIVER] && t in [BAP, SENDER] ==> s != t
  {
    assert URL[0] == 'u' && BPP[0] == BAP[0] == 'b' && RECEIVER[0] == 'r' && SENDER[0] == 's' && PUBLISHER[0] == 'p';
    assert BPP[1] == 'p' && BAP[1] == 'a';
  }

  lemma {:induction false} MappedGoes(env: Env, r: Rule, uri: string, endpoint: string, rawQuery: string)
    requires ValidRule(env, r) && r.targetType != URL && r.targetType != PUBLISHER
    ensures GoesToParticipant(env, r, uri, endpoint, rawQuery,
                              Mapped(env, Built(env, r, endpoint), uri, endpoint, rawQuery))
  {}

  lemma {:induction false} UrlGoes(env: Env, r: Rule, receiverURI: string, senderURI: string, endpoint: string,
                                   rawQuery: string)
    requires ValidRule(env, r) && r.targetType == URL
    ensures GoesToUrl(env, r, endpoint, rawQuery,
                      Resolved(env, Built(env, r, endpoint), receiverURI, senderURI, endpoint, rawQuery))
    ensures GoesToUrl(env, r, endpoint, rawQuery, ResolvedBodyless(Built(env, r, endpoint), rawQuery))
  {
    TargetsDiffer();
  }

  lemma {:induction false} ResolvedGoes(env: Env, r: Rule, context: map<string, Json>, uri: string, endpoint: string,
                                        rawQuery: string)
    requires ValidRule(env, r) && NamesUri(context, r.targetType, uri)
    ensures Goes(env, r, uri, endpoint, rawQuery,
                 Resolved(env, Built(env, r, endpoint), ContextString(context, RECEIVER_KEYS),
                          ContextString(context, SENDER_KEYS), endpoint, rawQuery))
  {
    TargetsDiffer();
    if r.targetType == URL {
      UrlGoes(env, r, ContextString(context, RECEIVER_KEYS), ContextString(context, SENDER_KEYS), endpoint, rawQuery);
    } else if r.targetType != PUBLISHER {
      if r.targetType in ["bpp", "receiver"] {
        ContextStringOfThree(context, "bpp_uri", "bppUri", "receiverUri", uri);
      } else {
        ContextStringOfThree(context, "bap_uri", "bapUri", "senderUri", uri);
      }
      MappedGoes(env, r, uri, endpoint, rawQuery);
    }
  }

  ghost predicate AllValid(env: Env, rules: seq<Rule>) {
    forall i :: 0 <= i < |rules| ==> ValidRule(env, rules[i])
  }

  lemma {:induction false} ListedRulesAreValid(env: Env, rules: seq<Rule>, i: nat)
    requires AllValid(env, rules) && i < |Listings(rules)|
    ensures ValidRule(env, Listings(rules)[i].rule)
  {
    var front := rules[..|rules| - 1];
    assert forall k :: 0 <= k < |front| ==> front[k] == rules[k];
    if i < |Listings(front)| {
      ListedRulesAreValid(env, front, i);
    }
  }

  lemma {:induction false} LastListingIsListed(ls: seq<Listing>, domain: string, version: string, endpoint: string)
    ensures var found := LastListing(ls, domain, version, endpoint);
      found.Some? ==> exists i :: 0 <= i < |ls| && ls[i].rule == found.value
  {
    if ls != [] {
      var front := ls[..|ls| - 1];
      LastListingIsListed(front, domain, version, endpoint);
      var found := LastListing(front, domain, version, endpoint);
      if found.Some? {
        var i :| 0 <= i < |front| && front[i].rule == found.value;
        assert ls[i].rule == found.value;
      }
      assert ls[|ls| - 1].rule == ls[|ls| - 1].rule;
    }
  }

  lemma {:induction false} FoundRulesAreValid(env: Env, rules: seq<Rule>, domain: string, version: string,
                                              endpoint: string)
    requires AllValid(env, rules)
    ensures var found := LastListing(Listings(rules), domain, version, endpoint);
      found.Some? ==> ValidRule(env, found.value)
  {
    var ls, found := Listings(rules), LastListing(Listings(rules), domain, version, endpoint);
    LastListingIsListed(ls, domain, version, endpoint);
    if found.Some? {
      var i :| 0 <= i < |ls| && ls[i].rule == found.value;
      ListedRulesAreValid(env, rules, i);
    }
  }

  /** Of valid rules, a request with a body goes by the last that answers for it, and nowhere if none does. */
  lemma {:induction false} RequestGoesByItsRule(env: Env, rules: seq<Rule>, context: map<string, Json>, domain: string,
                                                version: string, endpoint: string, rawQuery: string)
    requires AllValid(env, rules) && Says(context, "version", version) && Says(context, "domain", domain)
    ensures forall d, v, e :: LastListing(Listings(rules), d, v, e).Some? ==>
      ValidRule(env, LastListing(Listings(rules), d, v, e).value)
    ensures var answer := Expected(env, Listings(rules), Some(context), endpoint, rawQuery);
      && (NoneAnswers(rules, domain, version, endpoint) ==> answer == NoRoute)
      && forall i: nat, uri ::
           LastAnswering(rules, domain, version, endpoint, i) && NamesUri(context, rules[i].targetType, uri) ==>
           Goes(env, rules[i], uri, endpoint, rawQuery, answer)
  {
    forall d, v, e | LastListing(Listings(rules), d, v, e).Some?
      ensures ValidRule(env, LastListing(Listings(rules), d, v, e).value)
    {
      FoundRulesAreValid(env, rules, d, v, e);
    }
    V2Iff(version);
    ContextStringOfOne(context, "version", version);
    ContextStringOfOne(context, "domain", domain);
    LastOfRules(rules, domain, version, endpoint);
    forall i: nat, uri
      | LastAnswering(rules, domain, version, endpoint, i) && NamesUri(context, rules[i].targetType, uri)
      ensures Goes(env, rules[i], uri, endpoint, rawQuery,
                   Expected(env, Listings(rules), Some(context), endpoint, rawQuery))
    {
      ResolvedGoes(env, rules[i], context, uri, endpoint, rawQuery);
    }
  }

  /** A version 2 rule answers a bodyless request with its URL or its publisher, and not for a participant, whose URI
      only a body could name. */
  lemma {:induction false} BodylessGoesByItsRule(env: Env, rules: seq<Rule>, version: string, endpoint: string,
                                                 rawQuery: string, i: nat)
    requires AllValid(env, rules) && StartsWith2(version) && LastAnswering(rules, "", version, endpoint, i)
    ensures var answer := BodylessAnswer(env, Listings(rules), version, endpoint, rawQuery);
      && answer.Some?
      && if rules[i].targetType in ["bpp", "bap", "receiver", "sender"] then answer.value == NotBodyless
         else Goes(env, rules[i], "", endpoint, rawQuery, answer.value)
  {
    LastOfRules(rules, "", version, endpoint);
    TargetsDiffer();
    if rules[i].targetType == URL {
      UrlGoes(env, rules[i], "", "", endpoint, rawQuery);
    }
  }
}
