/** The signals that server.js and scripts/trainModel.js both derive from a URL:
    the keyword and brand lists, the two counting loops, the brand distance and
    the 7-slot feature vector the classifier is trained on. */
module Signals {
  import opened Wrappers
  import opened Text
  import opened Seqs
  import opened Levenshtein

  const Keywords: seq<string> :=
    ["login", "secure", "account", "verify", "bank", "password", "update", "free", "click"]

  const Brands: seq<string> :=
    ["google.com", "facebook.com", "paypal.com", "amazon.com", "bankofamerica.com"]

  /** Country code used when the geolocation lookup finds nothing. */
  const UnknownCountry: string := "UN"

  /** How many of `kws` occur in `lower`, each counted at most once. */
  function KeywordHits(kws: seq<string>, lower: string): (n: nat)
    ensures n <= |kws|
  {
    if kws == [] then 0
    else (if Contains(lower, kws[0]) then 1 else 0) + KeywordHits(kws[1..], lower)
  }

  /** The keywords that occur in a string. */
  function KeywordsIn(kws: seq<string>, lower: string): set<string>
  {
    set k | k in kws && Contains(lower, k)
  }

  /** For a list without repetitions the count is the number of distinct
      keywords found, so a keyword repeated in the URL adds nothing. */
  lemma {:induction false} KeywordHitsIsCardinality(kws: seq<string>, lower: string)
    requires NoDuplicates(kws)
    ensures KeywordHits(kws, lower) == |KeywordsIn(kws, lower)|
  {
    if kws != [] {
      var rest := kws[1..];
      NoDuplicatesTail(kws);
      KeywordHitsIsCardinality(rest, lower);
      KeywordsInCons(kws, lower);
    }
  }

  lemma KeywordsInCons(kws: seq<string>, lower: string)
    requires kws != [] && kws[0] !in kws[1..]
    ensures |KeywordsIn(kws, lower)| ==
      (if Contains(lower, kws[0]) then 1 else 0) + |KeywordsIn(kws[1..], lower)|
  {
    var rest := kws[1..];
    assert kws == [kws[0]] + rest;
    var head := if Contains(lower, kws[0]) then {kws[0]} else {};
    assert KeywordsIn(kws, lower) == head + KeywordsIn(rest, lower);
    assert head !! KeywordsIn(rest, lower);
  }

  lemma KeywordsDistinct()
    ensures NoDuplicates(Keywords)
  {
  }

  /** The keyword feature of a URL: distinct keywords found in its lower-case form. */
  function KeywordCount(u: string): nat
  {
    KeywordHits(Keywords, Lower(u))
  }

  lemma KeywordCountMeaning(u: string)
    ensures KeywordCount(u) == |KeywordsIn(Keywords, Lower(u))|
    ensures KeywordCount(u) <= 9
  {
    KeywordsDistinct();
    KeywordHitsIsCardinality(Keywords, Lower(u));
  }

  /** The `forEach` over the keyword list that increments `keywordCount`. */
  method CountKeywords(kws: seq<string>, lower: string) returns (n: nat)
    ensures n == KeywordHits(kws, lower)
  {
    n := 0;
    for i := 0 to |kws|
      invariant n + KeywordHits(kws[i..], lower) == KeywordHits(kws, lower)
    {
      assert kws[i..][1..] == kws[i + 1..];
      if Contains(lower, kws[i]) {
        n := n + 1;
      }
    }
  }

  /** `lookup.country || 'UN'`: an absent or empty country becomes "UN". */
  function CountryCode(country: Option<string>): (cc: string)
    ensures cc != []
    ensures country.Some? && country.value != [] ==> cc == country.value
    ensures !(country.Some? && country.value != []) ==> cc == UnknownCountry
  {
    if country.Some? && country.value != [] then country.value else UnknownCountry
  }

  /** The `for` loop that adds up `cc.charCodeAt(i)`. */
  method CountryNum(cc: string) returns (n: int)
    ensures n == CharCodeSum(cc)
  {
    n := 0;
    for i := 0 to |cc|
      invariant n == CharCodeSum(cc[..i])
    {
      assert cc[..i + 1][..i] == cc[..i];
      n := n + cc[i] as int;
    }
    assert cc[..|cc|] == cc;
  }

  /** The sentinel "UN" encodes as 'U' + 'N' = 85 + 78. */
  lemma UnknownCountryCode(country: Option<string>)
    requires country.None? || country == Some("")
    ensures CharCodeSum(CountryCode(country)) == 163
  {
    assert UnknownCountry[..1] == "U";
  }

  /** The smallest element of a non-empty list: `Math.min(...ds)`. */
  function MinOf(ds: seq<nat>): (m: nat)
    requires |ds| > 0
    ensures m in ds
    ensures forall i :: 0 <= i < |ds| ==> m <= ds[i]
  {
    if |ds| == 1 then ds[0]
    else
      var m := MinOf(ds[1..]);
      assert forall i :: 1 <= i < |ds| ==> ds[i] == ds[1..][i - 1];
      if ds[0] <= m then ds[0] else m
  }

  /** `brandDomains.map(b => levenshtein.get(hostname, b))`. */
  function BrandDistances(host: string): (ds: seq<nat>)
    ensures |ds| == |Brands|
    ensures forall i :: 0 <= i < |Brands| ==> ds[i] == Distance(host, Brands[i])
  {
    seq(|Brands|, i requires 0 <= i < |Brands| => Distance(host, Brands[i]))
  }

  /** The distance from a host name to the nearest brand domain. */
  function MinBrandDistance(host: string): (m: nat)
    ensures forall i :: 0 <= i < |Brands| ==> m <= Distance(host, Brands[i])
    ensures exists i :: 0 <= i < |Brands| && m == Distance(host, Brands[i])
  {
    MinOf(BrandDistances(host))
  }

  /** A brand domain itself is at distance 0, so it is flagged as typosquatting. */
  lemma BrandIsNearest(host: string)
    requires host in Brands
    ensures MinBrandDistance(host) == 0
  {
    DistanceZeroIffEqual(host, host);
    ZeroIsMin(BrandDistances(host), host);
  }

  lemma ZeroIsMin(ds: seq<nat>, host: string)
    requires |ds| == |Brands| && host in Brands
    requires forall i :: 0 <= i < |Brands| && Brands[i] == host ==> ds[i] == 0
    ensures MinOf(ds) == 0
  {
    var i :| 0 <= i < |Brands| && Brands[i] == host;
    assert ds[i] == 0;
  }

  /** A number or JavaScript's `Infinity`, the seed of a `reduce` for a minimum. */
  datatype Extended = Finite(n: nat) | Infinity

  /** The 7-slot vector, in the order length, dots, specialChars, keywordCount,
      countryNum, typoFlag, inListFlag. */
  function FeatureVector(u: string, host: string, country: Option<string>, minLev: nat, listed: bool): (v: seq<int>)
    ensures |v| == 7
    ensures v[0] == |u| && 0 <= v[2] <= v[0]
    ensures 0 <= v[1] <= |host| && 0 <= v[3] <= |Keywords|
    ensures v[1] == CountChar(host, '.') && v[2] == CountNonAlnum(u)
    ensures v[4] == CharCodeSum(CountryCode(country))
    ensures v[5] == 1 <==> minLev <= 3
    ensures v[5] == 0 <==> minLev > 3
    ensures v[6] == 1 <==> listed
    ensures v[6] == 0 <==> !listed
  {
    [ |u|,
      CountChar(host, '.'),
      CountNonAlnum(u),
      KeywordCount(u),
      CharCodeSum(CountryCode(country)),
      if minLev <= 3 then 1 else 0,
      if listed then 1 else 0 ]
  }

  /** What each slot of the vector means. */
  lemma FeatureVectorSlots(u: string, host: string, country: Option<string>, minLev: nat, listed: bool)
    ensures var v := FeatureVector(u, host, country, minLev, listed);
      && |v| == 7
      && v[0] == |u|
      && v[1] == CountChar(host, '.') && (v[1] == 0 <==> '.' !in host)
      && v[2] == |NonAlnumPositions(u)| && 0 <= v[2] <= v[0]
      && v[3] == |KeywordsIn(Keywords, Lower(u))| && 0 <= v[3] <= 9
      && v[4] == CharCodeSum(CountryCode(country))
      && (country.None? ==> v[4] == 163)
      && (v[5] == 1 <==> minLev <= 3) && (v[5] == 0 <==> minLev > 3)
      && (v[6] == 1 <==> listed) && (v[6] == 0 <==> !listed)
  {
    KeywordCountMeaning(u);
    CountNonAlnumIsMatches(u);
    if country.None? { UnknownCountryCode(country); }
  }
}
