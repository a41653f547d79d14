/** The scoring engine of server.js: `getHostname`, `extractMLFeatures` and
    `analyzeUrl` with its heuristic rules, the fusion with the classifier's risk
    and the verdict. */
module Server {
  import opened Wrappers
  import opened Text
  import opened Signals

  /** An integer percentage. */
  type Percent = r: int | 0 <= r <= 100

  /** `new URL(x).hostname.toLowerCase()`, or None where the constructor throws. */
  type UrlParser = string -> Option<string>

  /** `geoip.lookup(hostname).country`, or None where there is no record. */
  type GeoLookup = string -> Option<string>

  /** `Math.round(predict(normalize(raw)) * 100)` for a loaded model: the
      classifier's risk for a raw feature vector. */
  type Classifier = seq<int> -> Percent

  /** The facts the whois and TLS lookups resolve; None where a lookup failed. */
  datatype Facts = Facts(ageDays: Option<int>, sslValid: Option<bool>, sslDaysRemaining: Option<int>)

  /** One entry of the explanation list. */
  datatype Reason =
    | Listed
    | YoungDomain(days: int)
    | UnderOneYear(days: int)
    | SslInvalid
    | SslExpiring(days: int)
    | Typosquatting(lev: nat)
    | SimilarDomain(lev: nat)
    | MlRisk(risk: Percent)

  /** The text pushed onto `explanation` for each reason. */
  function Message(r: Reason): string
  {
    match r
    case Listed => "Hostname em lista de phishing conhecida."
    case YoungDomain(d) => "Domínio jovem (" + IntToString(d) + " dias)"
    case UnderOneYear(d) => "Domínio <1 ano (" + IntToString(d) + " dias)"
    case SslInvalid => "SSL inválido"
    case SslExpiring(d) => "SSL expira em " + IntToString(d) + " dias"
    case Typosquatting(l) => "Typosquatting (LEV=" + IntToString(l) + ")"
    case SimilarDomain(l) => "Domínio similar (LEV=" + IntToString(l) + ")"
    case MlRisk(m) => "ML risk: " + IntToString(m) + "%"
  }

  /** Characters 0 and 8 of each reason's message, which tell the reasons apart. */
  function MessageKey(r: Reason): (char, char)
  {
    match r
    case Listed => ('H', ' ')
    case YoungDomain(_) => ('D', 'j')
    case UnderOneYear(_) => ('D', '<')
    case SslInvalid => ('S', 'l')
    case SslExpiring(_) => ('S', 'r')
    case Typosquatting(_) => ('T', 't')
    case SimilarDomain(_) => ('D', 's')
    case MlRisk(_) => ('M', ' ')
  }

  lemma MessageKeyOf(r: Reason)
    ensures |Message(r)| > 8 && (Message(r)[0], Message(r)[8]) == MessageKey(r)
  {
    match r
    case Listed =>
    case SslInvalid =>
    case YoungDomain(d) => KeyOfPrefix("Domínio jovem (", IntToString(d), " dias)");
    case UnderOneYear(d) => KeyOfPrefix("Domínio <1 ano (", IntToString(d), " dias)");
    case SslExpiring(d) => KeyOfPrefix("SSL expira em ", IntToString(d), " dias");
    case Typosquatting(l) => KeyOfPrefix("Typosquatting (LEV=", IntToString(l), ")");
    case SimilarDomain(l) => KeyOfPrefix("Domínio similar (LEV=", IntToString(l), ")");
    case MlRisk(m) => KeyOfPrefix("ML risk: ", IntToString(m), "%");
  }

  lemma KeyOfPrefix(p: string, x: string, q: string)
    requires |p| > 8
    ensures |p + x + q| > 8 && (p + x + q)[0] == p[0] && (p + x + q)[8] == p[8]
  {
  }

  /** The explanation text determines the reason: no two reasons share a
      message, and a number printed in a message is the one reported. */
  lemma MessageInjective(a: Reason, b: Reason)
    ensures Message(a) == Message(b) ==> a == b
  {
    if Message(a) == Message(b) {
      MessageKeyOf(a);
      MessageKeyOf(b);
      match a
      case Listed =>
      case SslInvalid =>
      case YoungDomain(d) =>
        MiddleEqual("Domínio jovem (", IntToString(d), IntToString(b.days), " dias)");
        IntToStringInjective(d, b.days);
      case UnderOneYear(d) =>
        MiddleEqual("Domínio <1 ano (", IntToString(d), IntToString(b.days), " dias)");
        IntToStringInjective(d, b.days);
      case SslExpiring(d) =>
        MiddleEqual("SSL expira em ", IntToString(d), IntToString(b.days), " dias");
        IntToStringInjective(d, b.days);
      case Typosquatting(l) =>
        MiddleEqual("Typosquatting (LEV=", IntToString(l), IntToString(b.lev), ")");
        IntToStringInjective(l, b.lev);
      case SimilarDomain(l) =>
        MiddleEqual("Domínio similar (LEV=", IntToString(l), IntToString(b.lev), ")");
        IntToStringInjective(l, b.lev);
      case MlRisk(m) =>
        MiddleEqual("ML risk: ", IntToString(m), IntToString(b.risk), "%");
        IntToStringInjective(m, b.risk);
    }
  }

  datatype Heuristics = Heuristics(
    inList: bool, ageDays: Option<int>, sslValid: Option<bool>,
    sslDaysRemaining: Option<int>, minLevenshtein: nat)

  /** The `ml` part of the result; `mlProb` is a float and is not modelled. */
  datatype MlDetails = MlDetails(mlRisk: Option<Percent>, mlFeatures: Option<seq<int>>)

  datatype ScoreResult = ScoreResult(
    hostname: string, isPhishing: bool, riskScore: int,
    heuristics: Heuristics, ml: MlDetails, reasons: seq<Reason>)
  {
    /** The `explanation` array of the result. */
    function Explanation(): (e: seq<string>)
      ensures |e| == |reasons|
      ensures forall i :: 0 <= i < |reasons| ==> e[i] == Message(reasons[i])
    {
      seq(|reasons|, i requires 0 <= i < |reasons| => Message(reasons[i]))
    }
  }

  const InvalidUrl: string := "URL inválida"

  /** `getHostname`: the URL as given, else with `http://` in front, else null. */
  function GetHostname(parse: UrlParser, u: string): (h: Option<string>)
    ensures parse(u).Some? ==> h == parse(u)
    ensures h.None? <==> parse(u).None? && parse("http://" + u).None?
    ensures h.Some? ==> h == parse(u) || h == parse("http://" + u)
  {
    if parse(u).Some? then parse(u) else parse("http://" + u)
  }

  /** `getHostname(u) || ''`. */
  function HostOrEmpty(h: Option<string>): (s: string)
    ensures s == "" <==> h.None? || h == Some("")
    ensures h.Some? ==> s == h.value
  {
    if h.Some? then h.value else ""
  }

  /** `extractMLFeatures`. */
  method ExtractMLFeatures(parse: UrlParser, geo: GeoLookup, listed: set<string>, u: string)
    returns (v: seq<int>)
    ensures var host := HostOrEmpty(GetHostname(parse, u));
      v == FeatureVector(u, host, geo(host), MinBrandDistance(host), host in listed)
  {
    var hostname := HostOrEmpty(GetHostname(parse, u));
    var keywordCount := CountKeywords(Keywords, Lower(u));
    var countryNum := CountryNum(CountryCode(geo(hostname)));
    var minLev := MinBrandDistance(hostname);
    v := [ |u|, CountChar(hostname, '.'), CountNonAlnum(u), keywordCount, countryNum,
           if minLev <= 3 then 1 else 0, if hostname in listed then 1 else 0 ];
  }

  /** Points for domain age: only the first matching bucket applies. */
  function AgeBucket(age: Option<int>): nat
  {
    if age.None? then 0 else if age.value < 30 then 20 else if age.value < 365 then 10 else 0
  }

  function AgeReasons(age: Option<int>): seq<Reason>
  {
    if age.None? then [] else if age.value < 30 then [YoungDomain(age.value)]
    else if age.value < 365 then [UnderOneYear(age.value)] else []
  }

  /** Points for the certificate: invalid, else expiring within 30 days. */
  function TlsBucket(valid: Option<bool>, remaining: Option<int>): nat
  {
    if valid == Some(false) then 20
    else if remaining.Some? && remaining.value < 30 then 10 else 0
  }

  function TlsReasons(valid: Option<bool>, remaining: Option<int>): seq<Reason>
  {
    if valid == Some(false) then [SslInvalid]
    else if remaining.Some? && remaining.value < 30 then [SslExpiring(remaining.value)] else []
  }

  /** Points for similarity to a brand domain. */
  function TypoBucket(minLev: nat): nat
  {
    if minLev <= 3 then 15 else if minLev <= 5 then 5 else 0
  }

  function TypoReasons(minLev: nat): seq<Reason>
  {
    if minLev <= 3 then [Typosquatting(minLev)] else if minLev <= 5 then [SimilarDomain(minLev)] else []
  }

  /** The heuristic score: 100 for a listed host, else the three buckets added up. */
  function HeuristicScore(inList: bool, f: Facts, minLev: nat): (score: nat)
    ensures score <= 100
    ensures inList <==> score == 100
    ensures !inList ==> score <= 55
  {
    if inList then 100
    else AgeBucket(f.ageDays) + TlsBucket(f.sslValid, f.sslDaysRemaining) + TypoBucket(minLev)
  }

  /** The heuristic explanations, one per rule that fired, in rule order. */
  function HeuristicReasons(inList: bool, f: Facts, minLev: nat): (rs: seq<Reason>)
    ensures inList ==> rs == [Listed]
    ensures Listed in rs <==> inList
    ensures |rs| <= 3
    ensures forall i :: 0 <= i < |rs| ==> !rs[i].MlRisk?
  {
    if inList then [Listed]
    else AgeReasons(f.ageDays) + TlsReasons(f.sslValid, f.sslDaysRemaining) + TypoReasons(minLev)
  }

  /** `Math.round(h * 0.6 + m * 0.4)` when the model is loaded, else `h`. */
  function Fuse(h: int, ml: Option<Percent>): (r: int)
    ensures ml.None? ==> r == h
    ensures ml.Some? ==> r == ((h as real) * 0.6 + (ml.value as real) * 0.4 + 0.5).Floor
    ensures ml.Some? && h <= ml.value ==> h <= r <= ml.value
    ensures ml.Some? && ml.value <= h ==> ml.value <= r <= h
    ensures 0 <= h <= 100 ==> 0 <= r <= 100
  {
    if ml.None? then h
    else
      FusionIsRounding(h, ml.value);
      (3 * h + 2 * ml.value + 2) / 5
  }

  /** The classifier's risk, when a model is loaded. */
  function ModelRisk(model: Option<Classifier>, features: seq<int>): Option<Percent>
  {
    if model.Some? then Some(model.value(features)) else None
  }

  /** The domain-age rule: `score +=` and `explanation.push` for the first
      bucket that matches. */
  method AgeRule(score: int, explanation: seq<Reason>, ageDays: Option<int>)
    returns (score': int, explanation': seq<Reason>)
    ensures score' == score + AgeBucket(ageDays)
    ensures explanation' == explanation + AgeReasons(ageDays)
  {
    score', explanation' := score, explanation;
    if ageDays.Some? {
      var days := ageDays.value;
      if days < 30 {
        score' := score' + 20;
        explanation' := explanation' + [YoungDomain(days)];
      } else if days < 365 {
        score' := score' + 10;
        explanation' := explanation' + [UnderOneYear(days)];
      }
    }
  }

  /** The certificate rule. */
  method TlsRule(score: int, explanation: seq<Reason>, sslValid: Option<bool>, sslDaysRemaining: Option<int>)
    returns (score': int, explanation': seq<Reason>)
    ensures score' == score + TlsBucket(sslValid, sslDaysRemaining)
    ensures explanation' == explanation + TlsReasons(sslValid, sslDaysRemaining)
  {
    score', explanation' := score, explanation;
    if sslValid == Some(false) {
      score' := score' + 20;
      explanation' := explanation' + [SslInvalid];
    } else if sslDaysRemaining.Some? && sslDaysRemaining.value < 30 {
      score' := score' + 10;
      explanation' := explanation' + [SslExpiring(sslDaysRemaining.value)];
    }
  }

  /** The brand-similarity rule. */
  method TypoRule(score: int, explanation: seq<Reason>, minLev: nat)
    returns (score': int, explanation': seq<Reason>)
    ensures score' == score + TypoBucket(minLev)
    ensures explanation' == explanation + TypoReasons(minLev)
  {
    score', explanation' := score, explanation;
    if minLev <= 3 {
      score' := score' + 15;
      explanation' := explanation' + [Typosquatting(minLev)];
    } else if minLev <= 5 {
      score' := score' + 5;
      explanation' := explanation' + [SimilarDomain(minLev)];
    }
  }

  /** The rule block of `analyzeUrl`: `score` and `explanation` before the clamp. */
  method ScoreHeuristics(inList: bool, facts: Facts, minLev: nat)
    returns (score: int, explanation: seq<Reason>)
    ensures score == HeuristicScore(inList, facts, minLev)
    ensures explanation == HeuristicReasons(inList, facts, minLev)
  {
    score, explanation := 0, [];
    if inList {
      score := 100;
      explanation := explanation + [Listed];
    } else {
      score, explanation := AgeRule(score, explanation, facts.ageDays);
      score, explanation := TlsRule(score, explanation, facts.sslValid, facts.sslDaysRemaining);
      score, explanation := TypoRule(score, explanation, minLev);
      assert explanation == [] + AgeReasons(facts.ageDays) + TlsReasons(facts.sslValid, facts.sslDaysRemaining)
                               + TypoReasons(minLev);
    }
  }

  /** The model step: the risk it predicts joins the explanation and is mixed
      into the score. */
  method ApplyModel(model: Classifier, raw: seq<int>, score: int, explanation: seq<Reason>)
    returns (score': int, explanation': seq<Reason>, risk: Percent)
    ensures risk == model(raw)
    ensures score' == Fuse(score, Some(risk))
    ensures explanation' == explanation + [MlRisk(risk)]
  {
    risk := model(raw);
    explanation' := explanation + [MlRisk(risk)];
    score' := (3 * score + 2 * (risk as int) + 2) / 5;
  }

  /** `analyzeUrl`, given the lookups' facts and the model (None while `mlModel`
      is null). */
  method AnalyzeUrl(parse: UrlParser, geo: GeoLookup, listed: set<string>, facts: Facts,
                    model: Option<Classifier>, targetUrl: string)
    returns (res: Result<ScoreResult, string>)
    ensures var h := GetHostname(parse, targetUrl);
      res.Failure? <==> h.None? || h.value == ""
    ensures res.Failure? ==> res.error == InvalidUrl
    ensures res.Success? ==>
      var host := GetHostname(parse, targetUrl).value;
      var inList := host in listed;
      var minLev := MinBrandDistance(host);
      var features := FeatureVector(targetUrl, host, geo(host), minLev, inList);
      var ml := ModelRisk(model, features);
      var r := res.value;
      && r.hostname == host
      && r.heuristics == Heuristics(inList, facts.ageDays, facts.sslValid, facts.sslDaysRemaining, minLev)
      && r.riskScore == Fuse(HeuristicScore(inList, facts, minLev), ml)
      && 0 <= r.riskScore <= 100
      && r.isPhishing == (inList || r.riskScore > 50)
      && r.ml == MlDetails(ml, if model.Some? then Some(features) else None)
      && r.reasons == HeuristicReasons(inList, facts, minLev) + (if ml.Some? then [MlRisk(ml.value)] else [])
  {
    var hostname := GetHostname(parse, targetUrl);
    if hostname.None? || hostname.value == "" {
      return Failure(InvalidUrl);
    }
    var host := hostname.value;
    var inList := host in listed;
    var minLev := MinBrandDistance(host);

    var score, explanation := ScoreHeuristics(inList, facts, minLev);
    if !inList { UnlistedScoreRange(facts, minLev); }
    assert score <= 100;
    score := if score < 100 then score else 100;

    ghost var heuristic := score;
    var mlRisk: Option<Percent> := None;
    var mlFeatures: Option<seq<int>> := None;
    if model.Some? {
      var raw := ExtractMLFeatures(parse, geo, listed, targetUrl);
      assert HostOrEmpty(hostname) == host;
      mlFeatures := Some(raw);
      var risk;
      score, explanation, risk := ApplyModel(model.value, raw, score, explanation);
      mlRisk := Some(risk);
    }
    assert score == Fuse(heuristic, mlRisk);

    var heuristics := Heuristics(inList, facts.ageDays, facts.sslValid, facts.sslDaysRemaining, minLev);
    return Success(ScoreResult(host, inList || score > 50, score, heuristics,
                               MlDetails(mlRisk, mlFeatures), explanation));
  }

  /** A listed host scores exactly 100 with the list explanation alone, whatever
      the other facts are. */
  lemma ListedShortCircuit(f: Facts, minLev: nat)
    ensures HeuristicScore(true, f, minLev) == 100
    ensures HeuristicReasons(true, f, minLev) == [Listed]
  {
  }

  /** An unlisted host scores at most 20 + 20 + 15, so the clamp at 100 never
      bites, and the score is zero exactly when no rule fired. */
  lemma UnlistedScoreRange(f: Facts, minLev: nat)
    ensures HeuristicScore(false, f, minLev) <= 55
    ensures HeuristicScore(false, f, minLev) == 0 <==> HeuristicReasons(false, f, minLev) == []
  {
  }

  /** Each bucket contributes exactly when it adds a reason, and each adds at
      most one. */
  lemma {:induction false} ReasonPerRule(f: Facts, minLev: nat)
    ensures |AgeReasons(f.ageDays)| == (if AgeBucket(f.ageDays) > 0 then 1 else 0)
    ensures |TlsReasons(f.sslValid, f.sslDaysRemaining)| == (if TlsBucket(f.sslValid, f.sslDaysRemaining) > 0 then 1 else 0)
    ensures |TypoReasons(minLev)| == (if TypoBucket(minLev) > 0 then 1 else 0)
    ensures |HeuristicReasons(false, f, minLev)| <= 3
  {
  }

  /** No heuristic reason is an ML entry, so with the model loaded the result
      holds exactly one ML entry, the last. */
  lemma MlEntryLast(inList: bool, f: Facts, minLev: nat, m: Percent)
    ensures var rs := HeuristicReasons(inList, f, minLev) + [MlRisk(m)];
      && rs[|rs| - 1] == MlRisk(m)
      && forall i :: 0 <= i < |rs| - 1 ==> !rs[i].MlRisk?
  {
  }

  /** An unavailable fact adds nothing: a failed certificate lookup (None) is
      scored like a valid certificate, and unlike an invalid one. */
  lemma MissingFactsScoreZero(minLev: nat)
    ensures AgeBucket(None) == 0 && TlsBucket(None, None) == 0
    ensures TlsBucket(Some(false), None) == 20
    ensures HeuristicScore(false, Facts(None, None, None), minLev) == TypoBucket(minLev)
  {
  }

  /** `Math.round(x)` is `floor(x + 0.5)`; over exact arithmetic the blend
      `h * 0.6 + m * 0.4` is `(3h + 2m) / 5`, whose fractional part is a multiple
      of 0.2 and never one half, so the rounding is the integer formula. */
  lemma {:induction false} FusionIsRounding(h: int, m: int)
    ensures ((h as real) * 0.6 + (m as real) * 0.4 + 0.5).Floor == (3 * h + 2 * m + 2) / 5
  {
    var k := 3 * h + 2 * m;
    var q, r := k / 5, k % 5;
    assert k == 5 * q + r && 0 <= r < 5;
    var x := (h as real) * 0.6 + (m as real) * 0.4 + 0.5;
    assert x == (k as real) / 5.0 + 0.5;
    assert x == (q as real) + (r as real) / 5.0 + 0.5;
    if r < 3 {
      assert (q as real) <= x < (q as real) + 1.0;
      assert (k + 2) / 5 == q;
    } else {
      assert (q as real) + 1.0 <= x < (q as real) + 2.0;
      assert (k + 2) / 5 == q + 1;
    }
  }

  /** The fused score stays a percentage, and equals `h` without a model. */
  lemma FuseRange(h: int, ml: Option<Percent>)
    requires 0 <= h <= 100
    ensures 0 <= Fuse(h, ml) <= 100
    ensures ml.None? ==> Fuse(h, ml) == h
  {
  }

  /** The fusion also applies to a listed host: whatever the other facts, with a
      model loaded its risk is `round(60 + 0.4 * m)`, between 60 and 100, and 60
      when the model says 0. */
  lemma ListedFusedRisk(f: Facts, minLev: nat, m: Percent)
    ensures Fuse(HeuristicScore(true, f, minLev), Some(m)) == (302 + 2 * m) / 5
    ensures 60 <= Fuse(HeuristicScore(true, f, minLev), Some(m)) <= 100
    ensures m == 0 ==> Fuse(HeuristicScore(true, f, minLev), Some(m)) == 60
    ensures ((60 as real) + (m as real) * 0.4 + 0.5).Floor == (302 + 2 * m) / 5
  {
    FusionIsRounding(100, m);
  }

  /** A brand domain itself is at distance 0 from itself and earns the
      typosquatting points. */
  lemma BrandDomainIsFlagged(host: string, f: Facts)
    requires host in Brands
    ensures TypoBucket(MinBrandDistance(host)) == 15
    ensures Typosquatting(0) in HeuristicReasons(false, f, MinBrandDistance(host))
  {
    BrandIsNearest(host);
  }

  /** A young domain with an invalid certificate at distance 2 scores 55 without
      a model; an unlisted host with no age, a valid certificate, a distant name
      and a model risk of 5 scores 2. */
  lemma WorkedExamples()
    ensures HeuristicScore(false, Facts(Some(10), Some(false), None), 2) == 55
    ensures Fuse(55, None) == 55
    ensures HeuristicScore(false, Facts(None, Some(true), Some(200)), 9) == 0
    ensures Fuse(0, Some(5)) == 2
  {
  }
}
