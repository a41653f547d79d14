/** public/app.js: what the page does with the text field and with the
    answer of `/check`. */
module App {
  import opened Wrappers
  import opened Text
  import Server

  const PlaceholderNote: string := "Nenhuma evidência crítica encontrada."

  // ---------------------------------------------------------------------------
  // Input normalisation (app.js:29-36)

  /** `/^https?:\/\//i.test(s)`. */
  predicate HasScheme(s: string)
  {
    StartsWith(Lower(s), "http://") || StartsWith(Lower(s), "https://")
  }

  /** The scheme test ignores case: `HTTPS://x` has a scheme as `https://x`
      does; and a text with a scheme is at least as long as `http://`. */
  lemma HasSchemeIgnoresCase(s: string)
    ensures HasScheme(s) <==> HasScheme(Lower(s))
    ensures HasScheme(s) ==> |s| >= 7
  {
    assert Lower(Lower(s)) == Lower(s);
  }

  /** The URL sent to the server, or None when the trimmed field is empty and
      only the alert is shown. */
  function NormalizeInput(value: string): (url: Option<string>)
    ensures url.None? <==> Trim(value) == []
  {
    var raw := Trim(value);
    if raw == [] then None
    else if HasScheme(raw) then Some(raw)
    else Some("http://" + raw)
  }

  lemma SchemePrefixed(t: string)
    ensures HasScheme("http://" + t)
  {
    var s := "http://" + t;
    assert Lower(s)[..7] == "http://" by {
      forall i | 0 <= i < 7 ensures Lower(s)[i] == "http://"[i] {
        assert s[i] == "http://"[i];
      }
    }
  }

  /** The URL always carries a scheme; the trimmed text is kept as it is
      exactly when it already had one, and is otherwise prefixed with
      `http://`. */
  lemma NormalizeSpec(value: string)
    ensures NormalizeInput(value).Some? ==> HasScheme(NormalizeInput(value).value)
    ensures Trim(value) != [] ==> (NormalizeInput(value) == Some(Trim(value)) <==> HasScheme(Trim(value)))
    ensures Trim(value) != [] && !HasScheme(Trim(value)) ==> NormalizeInput(value) == Some("http://" + Trim(value))
  {
    var raw := Trim(value);
    if raw != [] && !HasScheme(raw) {
      SchemePrefixed(raw);
      assert |"http://" + raw| != |raw|;
    }
  }

  /** Normalising the URL again changes nothing. */
  lemma NormalizeIdempotent(value: string)
    requires NormalizeInput(value).Some?
    ensures NormalizeInput(NormalizeInput(value).value) == NormalizeInput(value)
  {
    NormalizeSpec(value);
    var raw := Trim(value);
    var url := NormalizeInput(value).value;
    assert url[|url| - 1] == raw[|raw| - 1];
    assert url[0] == raw[0] || url[0] == 'h';
    TrimFixed(url);
  }

  // ---------------------------------------------------------------------------
  // Risk tier and explanation box (app.js:51-82)

  datatype Level = High | Medium | Low

  /** The label's tier. */
  function TierOf(isPhishing: bool, riskScore: int): (l: Level)
    ensures l == High <==> isPhishing || riskScore >= 70
    ensures l == Medium <==> !isPhishing && 30 <= riskScore < 70
    ensures l == Low <==> !isPhishing && riskScore < 30
  {
    if isPhishing || riskScore >= 70 then High
    else if riskScore >= 30 then Medium
    else Low
  }

  function TierText(l: Level): string
  {
    match l
    case High => "Alto"
    case Medium => "Médio"
    case Low => "Baixo"
  }

  function TierClass(l: Level): string
  {
    match l
    case High => "risk-high"
    case Medium => "risk-medium"
    case Low => "risk-low"
  }

  /** The explanation box's tier, from the score alone. */
  function BoxOf(riskScore: int): (l: Level)
    ensures l == TierOf(false, riskScore)
    ensures l == High <==> riskScore >= 70
  {
    if riskScore >= 70 then High
    else if riskScore >= 30 then Medium
    else Low
  }

  function BoxClass(l: Level): string
  {
    match l
    case High => "risk-high-box"
    case Medium => "risk-medium-box"
    case Low => "risk-low-box"
  }

  /** The box disagrees with the label exactly for a flagged page scored
      below 70. */
  lemma BoxSpec(isPhishing: bool, riskScore: int)
    ensures BoxOf(riskScore) != TierOf(isPhishing, riskScore) <==> isPhishing && riskScore < 70
  {
  }

  // ---------------------------------------------------------------------------
  // Heuristic list (app.js:12-25, 85-95)

  /** A JSON value of the answer as the page sees it. */
  datatype JsValue = Null | Bool(b: bool) | Num(n: int) | Str(s: string)

  /** `fmt`. */
  function Fmt(v: JsValue): (r: JsValue)
    ensures r.Str? || r == v
    ensures r != v <==> v.Null? || v.Bool?
  {
    match v
    case Null => Str("Desconhecido")
    case Bool(b) => Str(if b then "Sim" else "Não")
    case _ => v
  }

  /** JavaScript truthiness; NaN is not a value of this model. */
  predicate Truthy(v: JsValue)
  {
    match v
    case Null => false
    case Bool(b) => b
    case Num(n) => n != 0
    case Str(s) => s != ""
  }

  /** The second class of a heuristic item. */
  function ItemClass(v: JsValue): (c: string)
    ensures c == "null" <==> v.Null?
    ensures c == "true" <==> Truthy(v)
    ensures c == "false" <==> !v.Null? && !Truthy(v)
  {
    if v.Null? then "null" else if Truthy(v) then "true" else "false"
  }

  /** String conversion inside a template literal. */
  function Display(v: JsValue): string
  {
    match v
    case Null => "null"
    case Bool(b) => if b then "true" else "false"
    case Num(n) => IntToString(n)
    case Str(s) => s
  }

  function OptNum(o: Option<int>): JsValue
  {
    if o.Some? then Num(o.value) else Null
  }

  function OptBool(o: Option<bool>): JsValue
  {
    if o.Some? then Bool(o.value) else Null
  }

  /** `Object.entries(data.heuristics)`, in the order the server builds the
      object. */
  function HeuristicEntries(h: Server.Heuristics): seq<(string, JsValue)>
  {
    [ ("inList", Bool(h.inList)), ("ageDays", OptNum(h.ageDays)), ("sslValid", OptBool(h.sslValid)),
      ("sslDaysRemaining", OptNum(h.sslDaysRemaining)), ("minLevenshtein", Num(h.minLevenshtein)) ]
  }

  /** The keys that `labelMap` names. */
  const LabelledKeys: set<string> := {"inList", "ageDays", "sslValid", "sslDaysRemaining", "minLevenshtein"}

  /** `labelMap[key] || key`: every label is non-empty, so a key falls back to
      itself exactly when the map does not name it. */
  function LabelFor(key: string): (caption: string)
    ensures key in LabelledKeys <==> caption != key
    ensures key in LabelledKeys ==> caption != ""
  {
    if key == "inList" then "Na lista de phishing"
    else if key == "ageDays" then "Idade do domínio (dias)"
    else if key == "sslValid" then "SSL válido"
    else if key == "sslDaysRemaining" then "Dias até expirar SSL"
    else if key == "minLevenshtein" then "Typosquatting (LEV)"
    else key
  }

  datatype Item = Item(cls: string, caption: string, value: string)

  function HeuristicItem(key: string, v: JsValue): Item
  {
    Item("heuristic-item " + ItemClass(v), LabelFor(key), Display(Fmt(v)))
  }

  /** One list item per heuristic, in order. */
  function HeuristicItems(h: Server.Heuristics): (items: seq<Item>)
    ensures |items| == |HeuristicEntries(h)| == 5
    ensures forall i :: 0 <= i < 5 ==>
      items[i] == HeuristicItem(HeuristicEntries(h)[i].0, HeuristicEntries(h)[i].1)
  {
    var es := HeuristicEntries(h);
    seq(|es|, i requires 0 <= i < |es| => HeuristicItem(es[i].0, es[i].1))
  }

  /** What the heuristic list shows: the listing as Sim/Não, an unknown age or
      certificate as unknown, and a distance of 0, the strongest typosquatting
      signal, with the falsy class. */
  lemma HeuristicItemsShow(h: Server.Heuristics)
    ensures var items := HeuristicItems(h);
      && items[0] == Item(if h.inList then "heuristic-item true" else "heuristic-item false",
                          "Na lista de phishing", if h.inList then "Sim" else "Não")
      && (h.ageDays.None? ==> items[1] == Item("heuristic-item null", "Idade do domínio (dias)", "Desconhecido"))
      && (h.sslValid.None? ==> items[2].cls == "heuristic-item null" && items[2].value == "Desconhecido")
      && (h.minLevenshtein == 0 ==> items[4].cls == "heuristic-item false" && items[4].value == "0")
  {
    var items := HeuristicItems(h);
    assert items[0] == HeuristicItem("inList", Bool(h.inList));
    assert items[1] == HeuristicItem("ageDays", OptNum(h.ageDays));
    assert items[2] == HeuristicItem("sslValid", OptBool(h.sslValid));
    assert items[4] == HeuristicItem("minLevenshtein", Num(h.minLevenshtein));
    ListedItem(h.inList);
    if h.ageDays.None? { UnknownItem("ageDays"); }
    if h.sslValid.None? { UnknownItem("sslValid"); }
    if h.minLevenshtein == 0 { ZeroItem(); }
  }

  lemma ListedItem(b: bool)
    ensures HeuristicItem("inList", Bool(b)) ==
      Item(if b then "heuristic-item true" else "heuristic-item false", "Na lista de phishing", if b then "Sim" else "Não")
  {
  }

  lemma UnknownItem(key: string)
    ensures HeuristicItem(key, Null) == Item("heuristic-item null", LabelFor(key), "Desconhecido")
  {
  }

  lemma ZeroItem()
    ensures HeuristicItem("minLevenshtein", Num(0)) == Item("heuristic-item false", "Typosquatting (LEV)", "0")
  {
    assert IntToString(0) == "0";
  }

  // ---------------------------------------------------------------------------
  // Explanation list (app.js:97-108)

  /** The notes listed from `data.explanation`: the messages, or the single
      placeholder when the list is missing or empty. */
  function ExplanationItems(explanation: Option<seq<string>>): (notes: seq<string>)
    ensures explanation.Some? && |explanation.value| > 0 ==> notes == explanation.value
    ensures !(explanation.Some? && |explanation.value| > 0) ==> notes == [PlaceholderNote]
  {
    if explanation.Some? && |explanation.value| > 0 then explanation.value else [PlaceholderNote]
  }

  lemma MessageNotPlaceholder(r: Server.Reason)
    ensures Server.Message(r) != PlaceholderNote
  {
    assert PlaceholderNote[0] == 'N';
    assert Server.Message(r)[0] != 'N';
  }

  /** For an answer of the server, the placeholder is shown exactly when there
      are no reasons; otherwise one note per reason, in order. */
  lemma NotesOfResult(r: Server.ScoreResult)
    ensures ExplanationItems(Some(r.Explanation())) == [PlaceholderNote] <==> r.reasons == []
    ensures r.reasons != [] ==> ExplanationItems(Some(r.Explanation())) == r.Explanation()
  {
    if r.reasons != [] && |r.reasons| == 1 {
      MessageNotPlaceholder(r.reasons[0]);
      assert r.Explanation()[0] == Server.Message(r.reasons[0]);
    }
  }

  // ---------------------------------------------------------------------------
  // Whole result card (app.js:50-129)

  /** The keys of `mlFeatures`, in the order the server sets them. */
  const FeatureKeys: seq<string> :=
    ["length", "subdomains", "specialChars", "keywordCount", "countryNum", "typoSquatting", "inListFlag"]

  /** The rows of the model table; a slot the vector lacks is `undefined`. */
  function MlRows(features: seq<int>): (rows: seq<(string, string)>)
    ensures |rows| == 7
    ensures forall i :: 0 <= i < 7 ==> rows[i].0 == FeatureKeys[i]
    ensures forall i :: 0 <= i < 7 && i < |features| ==> rows[i].1 == IntToString(features[i])
  {
    seq(7, i requires 0 <= i < 7 => (FeatureKeys[i], if i < |features| then IntToString(features[i]) else "undefined"))
  }

  datatype Card = Card(
    tierText: string, tierClass: string, score: int, boxClass: string,
    heuristics: seq<Item>, notes: seq<string>, mlRows: seq<(string, string)>, mlRisk: string)

  /** The card the page shows for an answer, or None when rendering throws:
      `Object.entries(data.ml.mlFeatures)` on `null` raises a TypeError, the
      handler only alerts, and the result section stays hidden. */
  function Render(r: Server.ScoreResult): (card: Option<Card>)
    ensures card.None? <==> r.ml.mlFeatures.None?
    ensures card.Some? ==>
      var tier := TierOf(r.isPhishing, r.riskScore);
      && card.value.tierText == TierText(tier)
      && card.value.tierClass == "risk-label " + TierClass(tier)
      && card.value.boxClass == BoxClass(BoxOf(r.riskScore))
      && card.value.score == r.riskScore
      && card.value.heuristics == HeuristicItems(r.heuristics)
      && card.value.notes == ExplanationItems(Some(r.Explanation()))
      && card.value.mlRows == MlRows(r.ml.mlFeatures.value)
      && card.value.mlRisk == (if r.ml.mlRisk.Some? then IntToString(r.ml.mlRisk.value) + "%" else "null%")
  {
    match r.ml.mlFeatures
    case None => None
    case Some(features) =>
      var tier := TierOf(r.isPhishing, r.riskScore);
      Some(Card(TierText(tier), "risk-label " + TierClass(tier), r.riskScore, BoxClass(BoxOf(r.riskScore)),
                HeuristicItems(r.heuristics), ExplanationItems(Some(r.Explanation())), MlRows(features),
                (if r.ml.mlRisk.Some? then IntToString(r.ml.mlRisk.value) else "null") + "%"))
  }

  /** Without a loaded model the server sends `mlFeatures: null`, so no card
      is ever shown. */
  lemma NoModelNoCard(r: Server.ScoreResult)
    requires r.ml == Server.MlDetails(None, None)
    ensures Render(r).None?
  {
  }

  /** A listed host that the model scores 0 gets risk 60: the label says
      `Alto`, while the box is the medium one. */
  lemma ListedHostMediumBox(r: Server.ScoreResult, f: Server.Facts, features: seq<int>)
    requires r.heuristics.inList && r.isPhishing
    requires r.riskScore == Server.Fuse(Server.HeuristicScore(true, f, r.heuristics.minLevenshtein), Some(0))
    requires r.ml.mlFeatures == Some(features)
    ensures r.riskScore == 60
    ensures Render(r).Some?
    ensures Render(r).value.tierText == "Alto"
    ensures Render(r).value.boxClass == "risk-medium-box"
  {
    Server.ListedFusedRisk(f, r.heuristics.minLevenshtein, 0);
  }
}
