/** scripts/checkSamples.js: a third copy of the feature extractor, with 9
    slots, whose vector is normalised with the 7-entry scaler of training. */
module CheckSamples {
  import opened Wrappers
  import opened Text
  import opened Signals
  import TrainModel

  /** `phishingKeywords.reduce((sum, kw) => sum + (lower.includes(kw) ? 1 : 0), sum)`. */
  function KeywordSum(sum: nat, kws: seq<string>, lower: string): nat
    decreases |kws|
  {
    if kws == [] then sum
    else KeywordSum(sum + (if Contains(lower, kws[0]) then 1 else 0), kws[1..], lower)
  }

  /** The fold counts what the server's `forEach` counts. */
  lemma {:induction false} KeywordSumIsHits(sum: nat, kws: seq<string>, lower: string)
    ensures KeywordSum(sum, kws, lower) == sum + KeywordHits(kws, lower)
    decreases |kws|
  {
    if kws != [] {
      KeywordSumIsHits(sum + (if Contains(lower, kws[0]) then 1 else 0), kws[1..], lower);
    }
  }

  /** One step of `.reduce((a, b) => Math.min(a, b), Infinity)`. */
  function MathMin(a: Extended, b: nat): Extended
  {
    if a.Finite? && a.n <= b then a else Finite(b)
  }

  function ReduceMathMin(acc: Extended, ds: seq<nat>): (r: Extended)
    ensures r == acc || (r.Finite? && r.n in ds)
    ensures acc.Finite? || ds != [] ==> r.Finite?
    ensures acc.Finite? && r.Finite? ==> r.n <= acc.n
    ensures r.Finite? ==> forall i :: 0 <= i < |ds| ==> r.n <= ds[i]
    decreases |ds|
  {
    if ds == [] then acc
    else
      var r := ReduceMathMin(MathMin(acc, ds[0]), ds[1..]);
      assert forall i :: 1 <= i < |ds| ==> ds[i] == ds[1..][i - 1];
      r
  }

  /** `Math.min` and `a < b ? a : b` fold to the same value. */
  lemma {:induction false} ReduceMathMinAgrees(acc: Extended, ds: seq<nat>)
    ensures ReduceMathMin(acc, ds) == TrainModel.ReduceLeast(acc, ds)
    decreases |ds|
  {
    if ds != [] {
      assert MathMin(acc, ds[0]) == TrainModel.Least(acc, ds[0]);
      ReduceMathMinAgrees(MathMin(acc, ds[0]), ds[1..]);
    }
  }

  /** `/\d/.test(u)`: without the `u` flag `\d` is `[0-9]`. */
  predicate HasDigit(u: string)
  {
    exists i :: 0 <= i < |u| && IsAsciiDigit(u[i])
  }

  /** The nine slots from the URL, its host and the nearest brand distance:
      length, dots, hasDigit, hasAt, specialChars, keywordCount, ageFlag,
      sslFlag, typoFlag. */
  function NineSlotVector(u: string, hostname: string, keywordCount: nat, minLev: Extended): seq<int>
  {
    [ |u|,
      CountChar(hostname, '.'),
      if HasDigit(u) then 1 else 0,
      if '@' in u then 1 else 0,
      CountNonAlnum(u),
      keywordCount,
      0,
      0,
      if minLev.Finite? && minLev.n <= 3 then 1 else 0 ]
  }

  /** `extractFeatures` of this script. */
  function ExtractFeatures(parse: string -> Option<string>, u: string): (v: seq<int>)
    ensures |v| == 9
    ensures v[0] == |u| && 0 <= v[4] <= v[0]
    ensures v[1] == CountChar(TrainModel.GetHostname(parse, u), '.') && v[4] == CountNonAlnum(u)
    ensures v[6] == 0 && v[7] == 0
    ensures v[8] == 1 <==> MinBrandDistance(TrainModel.GetHostname(parse, u)) <= 3
    ensures v[8] == 0 <==> MinBrandDistance(TrainModel.GetHostname(parse, u)) > 3
  {
    var hostname := TrainModel.GetHostname(parse, u);
    var keywordCount := KeywordSum(0, Keywords, Lower(u));
    var minLev := ReduceMathMin(Infinity, BrandDistances(hostname));
    NineSlotShape(u, hostname, keywordCount, minLev);
    NineSlotCounts(u, hostname, keywordCount, minLev);
    TypoSlot(hostname);
    NineSlotVector(u, hostname, keywordCount, minLev)
  }

  /** The shape of the nine slots: the string counters and the constant flags. */
  lemma NineSlotShape(u: string, hostname: string, keywordCount: nat, minLev: Extended)
    ensures var v := NineSlotVector(u, hostname, keywordCount, minLev);
      && |v| == 9
      && (v[2] == 1 <==> HasDigit(u)) && (v[2] == 0 <==> !HasDigit(u))
      && (v[3] == 1 <==> '@' in u) && (v[3] == 0 <==> '@' !in u)
      && 0 <= v[4] <= v[0] == |u|
      && v[4] == |NonAlnumPositions(u)|
      && v[1] == CountChar(hostname, '.')
      && v[6] == 0 && v[7] == 0
      && (hostname == "" ==> v[1] == 0)
  {
    CountNonAlnumIsMatches(u);
  }

  /** The keyword slot counts each keyword found at most once. */
  lemma KeywordSlot(u: string)
    ensures KeywordSum(0, Keywords, Lower(u)) == KeywordCount(u)
    ensures KeywordSum(0, Keywords, Lower(u)) == |KeywordsIn(Keywords, Lower(u))| <= 9
  {
    KeywordSumIsHits(0, Keywords, Lower(u));
    KeywordCountMeaning(u);
  }

  /** The `Math.min` fold gives the nearest brand distance. */
  lemma TypoSlot(host: string)
    ensures ReduceMathMin(Infinity, BrandDistances(host)) == Finite(MinBrandDistance(host))
  {
    ReduceMathMinAgrees(Infinity, BrandDistances(host));
    TrainModel.ReduceLeastIsMin(BrandDistances(host));
  }

  /** The same shape for the vector of a URL. */
  lemma NineSlots(parse: string -> Option<string>, u: string)
    ensures var v := ExtractFeatures(parse, u);
      && |v| == 9
      && (v[2] == 1 <==> HasDigit(u)) && (v[2] == 0 <==> !HasDigit(u))
      && (v[3] == 1 <==> '@' in u) && (v[3] == 0 <==> '@' !in u)
      && 0 <= v[4] <= v[0] == |u|
      && v[4] == |NonAlnumPositions(u)|
      && v[1] == CountChar(TrainModel.GetHostname(parse, u), '.')
      && v[6] == 0 && v[7] == 0
      && (TrainModel.GetHostname(parse, u) == "" ==> v[1] == 0)
  {
    var host := TrainModel.GetHostname(parse, u);
    NineSlotShape(u, host, KeywordSum(0, Keywords, Lower(u)), ReduceMathMin(Infinity, BrandDistances(host)));
  }

  lemma NineSlotCounts(u: string, hostname: string, keywordCount: nat, minLev: Extended)
    ensures var v := NineSlotVector(u, hostname, keywordCount, minLev);
      && v[5] == keywordCount
      && (v[8] == 1 <==> minLev.Finite? && minLev.n <= 3) && (v[8] == 0 <==> !(minLev.Finite? && minLev.n <= 3))
  {
  }

  /** The keyword slot counts the distinct keywords the URL contains. */
  lemma NineSlotKeywords(parse: string -> Option<string>, u: string)
    ensures var v := ExtractFeatures(parse, u);
      |v| == 9 && v[5] == |KeywordsIn(Keywords, Lower(u))| && 0 <= v[5] <= 9
  {
    var host := TrainModel.GetHostname(parse, u);
    NineSlotShape(u, host, KeywordSum(0, Keywords, Lower(u)), ReduceMathMin(Infinity, BrandDistances(host)));
    NineSlotCounts(u, host, KeywordSum(0, Keywords, Lower(u)), ReduceMathMin(Infinity, BrandDistances(host)));
    KeywordSlot(u);
  }

  /** The typo slot flags a host within edit distance 3 of a brand, as the
      server's does. */
  lemma NineSlotTypo(parse: string -> Option<string>, u: string)
    ensures var v := ExtractFeatures(parse, u);
      var host := TrainModel.GetHostname(parse, u);
      && |v| == 9
      && (v[8] == 1 <==> MinBrandDistance(host) <= 3) && (v[8] == 0 <==> MinBrandDistance(host) > 3)
  {
    var host := TrainModel.GetHostname(parse, u);
    NineSlotShape(u, host, KeywordSum(0, Keywords, Lower(u)), ReduceMathMin(Infinity, BrandDistances(host)));
    NineSlotCounts(u, host, KeywordSum(0, Keywords, Lower(u)), ReduceMathMin(Infinity, BrandDistances(host)));
    TypoSlot(host);
  }

  /** Of the five signals both extractors compute, length and dots keep slots
      0 and 1, but three move: specialChars, keywordCount and typoFlag sit in
      slots 4, 5 and 8 here and in slots 2, 3 and 5 of the training vector. */
  lemma SlotsMisaligned(parse: string -> Option<string>, geo: string -> Option<string>,
                        phishingList: seq<string>, u: string)
    ensures var nine := ExtractFeatures(parse, u);
      var seven := TrainModel.TrainingRow(parse, geo, phishingList, u);
      && nine[0] == seven[0] && nine[1] == seven[1] && nine[4] == seven[2]
      && nine[5] == seven[3] && nine[8] == seven[5]
  {
    NineSlots(parse, u);
    NineSlotKeywords(parse, u);
    NineSlotTypo(parse, u);
    var host := TrainModel.GetHostname(parse, u);
    FeatureVectorSlots(u, host, geo(host), MinBrandDistance(host), host in phishingList);
  }

  /** The pair `(mins[i], maxs[i])` that `normalize` reads for each slot of
      `raw`, or None where it reads past the scaler and computes NaN. */
  function ScalerReads(raw: seq<int>, mins: seq<TrainModel.Bound>, maxs: seq<TrainModel.Bound>)
    : (r: seq<Option<(TrainModel.Bound, TrainModel.Bound)>>)
    ensures |r| == |raw|
    ensures forall i :: 0 <= i < |raw| ==> (r[i].Some? <==> i < |mins| && i < |maxs|)
  {
    seq(|raw|, i requires 0 <= i < |raw| =>
      if i < |mins| && i < |maxs| then Some((mins[i], maxs[i])) else None)
  }

  /** Against the 7-entry scaler that training writes, slots 7 and 8 of every
      vector of this script are normalised with undefined bounds. */
  lemma NormalizeReadsPastScaler(parse: string -> Option<string>, u: string, d: TrainModel.Dataset)
    requires |d.mins| == 7 && |d.maxs| == 7
    ensures var lookups := ScalerReads(ExtractFeatures(parse, u), d.mins, d.maxs);
      && |lookups| == 9 && lookups[7].None? && lookups[8].None?
      && forall i :: 0 <= i < 7 ==> lookups[i] == Some((d.mins[i], d.maxs[i]))
  {
    NineSlots(parse, u);
  }
}
