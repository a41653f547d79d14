/** The dataset side of scripts/trainModel.js: its own `getHostname` and
    `extractFeatures`, the undersampling and labels, the raw feature rows and
    the per-slot minimum and maximum written to the scaler. */
module TrainModel {
  import opened Wrappers
  import opened Text
  import opened Seqs
  import opened Signals
  import Server

  /** `getHostname` of this script: the empty string where server.js has null. */
  function GetHostname(parse: Server.UrlParser, u: string): (h: string)
    ensures h == Server.HostOrEmpty(Server.GetHostname(parse, u))
    ensures parse(u).None? && parse("http://" + u).None? ==> h == ""
  {
    if parse(u).Some? then parse(u).value
    else if parse("http://" + u).Some? then parse("http://" + u).value
    else ""
  }

  /** One step of `.reduce((a, b) => a < b ? a : b, Infinity)`. */
  function Least(a: Extended, b: nat): Extended
  {
    if a.Finite? && a.n < b then a else Finite(b)
  }

  function ReduceLeast(acc: Extended, ds: seq<nat>): (r: Extended)
    ensures r == acc || (r.Finite? && r.n in ds)
    ensures acc.Finite? || ds != [] ==> r.Finite?
    ensures acc.Finite? && r.Finite? ==> r.n <= acc.n
    ensures r.Finite? ==> forall i :: 0 <= i < |ds| ==> r.n <= ds[i]
    decreases |ds|
  {
    if ds == [] then acc
    else
      var r := ReduceLeast(Least(acc, ds[0]), ds[1..]);
      assert forall i :: 1 <= i < |ds| ==> ds[i] == ds[1..][i - 1];
      r
  }

  /** A member of a list that is at most every member is its minimum. */
  lemma MinOfUnique(ds: seq<nat>, m: nat)
    requires m in ds && forall i :: 0 <= i < |ds| ==> m <= ds[i]
    ensures MinOf(ds) == m
  {
  }

  /** Folding from a finite seed gives the minimum of the seed and the list. */
  lemma ReduceLeastFrom(a: nat, ds: seq<nat>)
    ensures ReduceLeast(Finite(a), ds) == Finite(MinOf([a] + ds))
  {
    var r := ReduceLeast(Finite(a), ds).n;
    var all := [a] + ds;
    forall i | 0 <= i < |all| ensures r <= all[i] {
      if i > 0 { assert all[i] == ds[i - 1]; }
    }
    assert r in all;
    MinOfUnique(all, r);
  }

  /** `minLev` with an `Infinity` seed is `Math.min` of the distances. */
  lemma ReduceLeastIsMin(ds: seq<nat>)
    requires |ds| > 0
    ensures ReduceLeast(Infinity, ds) == Finite(MinOf(ds))
  {
    ReduceLeastFrom(ds[0], ds[1..]);
    assert [ds[0]] + ds[1..] == ds;
  }

  /** `extractFeatures` of this script, with `phishingList.includes(hostname)`. */
  method ExtractFeatures(parse: Server.UrlParser, geo: Server.GeoLookup, phishingList: seq<string>, u: string)
    returns (v: seq<int>)
    ensures var host := GetHostname(parse, u);
      v == FeatureVector(u, host, geo(host), MinBrandDistance(host), host in phishingList)
  {
    var hostname := GetHostname(parse, u);
    var keywordCount := CountKeywords(Keywords, Lower(u));
    var countryNum := CountryNum(CountryCode(geo(hostname)));
    var minLev := ReduceLeast(Infinity, BrandDistances(hostname));
    ReduceLeastIsMin(BrandDistances(hostname));
    var typoFlag := if minLev.Finite? && minLev.n <= 3 then 1 else 0;
    v := [ |u|, CountChar(hostname, '.'), CountNonAlnum(u), keywordCount, countryNum,
           typoFlag, if hostname in phishingList then 1 else 0 ];
  }

  /** Given the same parser, lookup and phishing domains, this script and the
      server compute the same vector for every URL. */
  lemma SameVectorAsServer(parse: Server.UrlParser, geo: Server.GeoLookup,
                           listed: set<string>, phishingList: seq<string>, u: string)
    requires listed == set x | x in phishingList
    ensures var host := GetHostname(parse, u);
      var serverHost := Server.HostOrEmpty(Server.GetHostname(parse, u));
      FeatureVector(u, host, geo(host), MinBrandDistance(host), host in phishingList)
        == FeatureVector(u, serverHost, geo(serverHost), MinBrandDistance(serverHost), serverHost in listed)
  {
  }

  /** `phishingList.sort(random).slice(0, legitList.length)`, the shuffled list given. */
  function PhishSample(shuffled: seq<string>, legit: seq<string>): (s: seq<string>)
    ensures |s| == if |shuffled| <= |legit| then |shuffled| else |legit|
    ensures forall i :: 0 <= i < |s| ==> s[i] == shuffled[i]
  {
    if |shuffled| <= |legit| then shuffled else shuffled[..|legit|]
  }

  /** `phishSample.map(() => 1).concat(legitList.map(() => 0))`. */
  function Labels(sample: seq<string>, legit: seq<string>): (l: seq<int>)
    ensures |l| == |sample + legit|
    ensures forall i :: 0 <= i < |l| ==> (l[i] == 1 <==> i < |sample|) && (l[i] == 0 <==> i >= |sample|)
  {
    seq(|sample|, _ => 1) + seq(|legit|, _ => 0)
  }

  /** A bound of a feature slot, starting at `Infinity` or `-Infinity`. */
  datatype Bound = NegInf | Fin(v: int) | PosInf

  /** `a < b` on bounds. */
  predicate Below(a: Bound, b: Bound)
  {
    match (a, b)
    case (NegInf, NegInf) => false
    case (NegInf, _) => true
    case (Fin(x), Fin(y)) => x < y
    case (Fin(_), PosInf) => true
    case (_, _) => false
  }

  /** `if (v < mins[i]) mins[i] = v`. */
  function LowerTo(m: Bound, v: int): Bound { if Below(Fin(v), m) then Fin(v) else m }

  /** `if (v > maxs[i]) maxs[i] = v`. */
  function RaiseTo(m: Bound, v: int): Bound { if Below(m, Fin(v)) then Fin(v) else m }

  /** Slot `i`'s minimum over the rows that have a slot `i`, or `Infinity`. */
  function ColumnMin(rows: seq<seq<int>>, i: nat): Bound
  {
    if rows == [] then PosInf
    else
      var m := ColumnMin(rows[..|rows| - 1], i);
      var last := rows[|rows| - 1];
      if i < |last| then LowerTo(m, last[i]) else m
  }

  function ColumnMax(rows: seq<seq<int>>, i: nat): Bound
  {
    if rows == [] then NegInf
    else
      var m := ColumnMax(rows[..|rows| - 1], i);
      var last := rows[|rows| - 1];
      if i < |last| then RaiseTo(m, last[i]) else m
  }

  lemma ColumnStep(rows: seq<seq<int>>, k: nat, i: nat)
    requires k < |rows|
    ensures ColumnMin(rows[..k + 1], i) ==
      (if i < |rows[k]| then LowerTo(ColumnMin(rows[..k], i), rows[k][i]) else ColumnMin(rows[..k], i))
    ensures ColumnMax(rows[..k + 1], i) ==
      (if i < |rows[k]| then RaiseTo(ColumnMax(rows[..k], i), rows[k][i]) else ColumnMax(rows[..k], i))
  {
    assert rows[..k + 1][..k] == rows[..k];
  }

  /** A slot's minimum is at most every value in the slot and is one of them;
      it stays `Infinity` only when no row has the slot. */
  lemma {:induction false} ColumnMinSpec(rows: seq<seq<int>>, i: nat)
    ensures ColumnMin(rows, i) != NegInf
    ensures forall k :: 0 <= k < |rows| && i < |rows[k]| ==>
              ColumnMin(rows, i).Fin? && ColumnMin(rows, i).v <= rows[k][i]
    ensures ColumnMin(rows, i).Fin? ==>
              exists k :: 0 <= k < |rows| && i < |rows[k]| && rows[k][i] == ColumnMin(rows, i).v
  {
    if rows != [] {
      var n := |rows| - 1;
      var pre := rows[..n];
      ColumnMinSpec(pre, i);
      assert forall k :: 0 <= k < n ==> rows[k] == pre[k];
      var m := ColumnMin(pre, i);
      if m.Fin? && ColumnMin(rows, i) == m {
        var k :| 0 <= k < n && i < |pre[k]| && pre[k][i] == m.v;
        assert rows[k][i] == m.v;
      }
    }
  }

  lemma {:induction false} ColumnMaxSpec(rows: seq<seq<int>>, i: nat)
    ensures ColumnMax(rows, i) != PosInf
    ensures forall k :: 0 <= k < |rows| && i < |rows[k]| ==>
              ColumnMax(rows, i).Fin? && rows[k][i] <= ColumnMax(rows, i).v
    ensures ColumnMax(rows, i).Fin? ==>
              exists k :: 0 <= k < |rows| && i < |rows[k]| && rows[k][i] == ColumnMax(rows, i).v
  {
    if rows != [] {
      var n := |rows| - 1;
      var pre := rows[..n];
      ColumnMaxSpec(pre, i);
      assert forall k :: 0 <= k < n ==> rows[k] == pre[k];
      var m := ColumnMax(pre, i);
      if m.Fin? && ColumnMax(rows, i) == m {
        var k :| 0 <= k < n && i < |pre[k]| && pre[k][i] == m.v;
        assert rows[k][i] == m.v;
      }
    }
  }

  /** What `mins` and `maxs` hold once every row has been folded in: for every
      slot of the first row (`numFeat`), a finite least and greatest value,
      each taken by some row. Slots past `numFeat` are ignored, since
      `v < undefined` is false. */
  predicate FittedBounds(rows: seq<seq<int>>, mins: seq<Bound>, maxs: seq<Bound>)
    requires |rows| > 0
  {
    && |mins| == |rows[0]| && |maxs| == |rows[0]|
    && (forall i :: 0 <= i < |mins| ==> mins[i].Fin? && maxs[i].Fin?)
    && (forall k, i :: 0 <= k < |rows| && 0 <= i < |rows[k]| && i < |mins| ==>
          mins[i].v <= rows[k][i] <= maxs[i].v)
    && (forall i :: 0 <= i < |mins| ==>
          exists k :: 0 <= k < |rows| && i < |rows[k]| && rows[k][i] == mins[i].v)
    && (forall i :: 0 <= i < |maxs| ==>
          exists k :: 0 <= k < |rows| && i < |rows[k]| && rows[k][i] == maxs[i].v)
  }

  /** The min/max fitting loop over `dataRaw`, updating two arrays in place. */
  method FitScaler(rows: seq<seq<int>>) returns (mins: seq<Bound>, maxs: seq<Bound>)
    requires |rows| > 0
    ensures FittedBounds(rows, mins, maxs)
  {
    var numFeat := |rows[0]|;
    var lo := new Bound[numFeat](_ => PosInf);
    var hi := new Bound[numFeat](_ => NegInf);
    for k := 0 to |rows|
      invariant lo.Length == numFeat && hi.Length == numFeat
      invariant forall j :: 0 <= j < numFeat ==> lo[j] == ColumnMin(rows[..k], j) && hi[j] == ColumnMax(rows[..k], j)
    {
      var row := rows[k];
      forall j | 0 <= j < numFeat { ColumnStep(rows, k, j); }
      for i := 0 to |row|
        invariant forall j :: 0 <= j < numFeat ==>
          lo[j] == (if j < i then ColumnMin(rows[..k + 1], j) else ColumnMin(rows[..k], j)) &&
          hi[j] == (if j < i then ColumnMax(rows[..k + 1], j) else ColumnMax(rows[..k], j))
      {
        if i < numFeat {
          if Below(Fin(row[i]), lo[i]) { lo[i] := Fin(row[i]); }
          if Below(hi[i], Fin(row[i])) { hi[i] := Fin(row[i]); }
        }
      }
    }
    assert rows[..|rows|] == rows;
    mins, maxs := lo[..], hi[..];
    ColumnsFitted(rows, mins, maxs);
  }

  /** The slot-wise fold results are fitted bounds. */
  lemma ColumnsFitted(rows: seq<seq<int>>, mins: seq<Bound>, maxs: seq<Bound>)
    requires |rows| > 0 && |mins| == |rows[0]| && |maxs| == |rows[0]|
    requires forall j :: 0 <= j < |mins| ==> mins[j] == ColumnMin(rows, j) && maxs[j] == ColumnMax(rows, j)
    ensures FittedBounds(rows, mins, maxs)
  {
    forall i | 0 <= i < |mins|
      ensures mins[i].Fin? && maxs[i].Fin?
      ensures exists k :: 0 <= k < |rows| && i < |rows[k]| && rows[k][i] == mins[i].v
      ensures exists k :: 0 <= k < |rows| && i < |rows[k]| && rows[k][i] == maxs[i].v
    {
      ColumnMinSpec(rows, i);
      ColumnMaxSpec(rows, i);
    }
    forall k, i | 0 <= k < |rows| && 0 <= i < |rows[k]| && i < |mins|
      ensures mins[i].v <= rows[k][i] <= maxs[i].v
    {
      ColumnMinSpec(rows, i);
      ColumnMaxSpec(rows, i);
    }
  }

  /** The row `extractFeatures` gives for one URL. */
  function TrainingRow(parse: Server.UrlParser, geo: Server.GeoLookup, phishingList: seq<string>, u: string): seq<int>
  {
    var host := GetHostname(parse, u);
    FeatureVector(u, host, geo(host), MinBrandDistance(host), host in phishingList)
  }

  /** Reordering the phishing list does not change the row of any URL. */
  lemma RowOfPermutedList(parse: Server.UrlParser, geo: Server.GeoLookup, xs: seq<string>, ys: seq<string>, u: string)
    requires multiset(xs) == multiset(ys)
    ensures TrainingRow(parse, geo, xs, u) == TrainingRow(parse, geo, ys, u)
  {
    var host := GetHostname(parse, u);
    assert host in xs <==> host in multiset(xs);
    assert host in ys <==> host in multiset(ys);
  }

  datatype Dataset = Dataset(
    urls: seq<string>, labels: seq<int>, rows: seq<seq<int>>, mins: seq<Bound>, maxs: seq<Bound>)

  /** What reading `dataRaw[0].length` of an empty dataset throws. */
  const EmptyDatasetError: string := "Cannot read properties of undefined (reading 'length')"

  function RowFn(parse: Server.UrlParser, geo: Server.GeoLookup, phishingList: seq<string>): string -> seq<int>
  {
    u => TrainingRow(parse, geo, phishingList, u)
  }

  /** `dataRaw`: the row of every URL, in order. */
  method ExtractRows(parse: Server.UrlParser, geo: Server.GeoLookup,
                     phishingList: seq<string>, shuffled: seq<string>, urls: seq<string>)
    returns (rows: seq<seq<int>>)
    requires multiset(shuffled) == multiset(phishingList)
    ensures rows == Map(RowFn(parse, geo, phishingList), urls)
  {
    var f := RowFn(parse, geo, phishingList);
    rows := [];
    for k := 0 to |urls|
      invariant rows == Map(f, urls[..k])
    {
      var v := ExtractFeatures(parse, geo, shuffled, urls[k]);
      RowOfPermutedList(parse, geo, shuffled, phishingList, urls[k]);
      assert v == f(urls[k]);
      MapSnoc(f, urls[..k], urls[k]);
      TakeSnoc(urls, k);
      rows := rows + [v];
    }
    assert urls[..|urls|] == urls;
  }

  /** `buildDataset` up to the scaler: `shuffled` is `phishingList` after its
      random in-place sort, which `includes` then reads. */
  method BuildDataset(parse: Server.UrlParser, geo: Server.GeoLookup,
                      phishingList: seq<string>, shuffled: seq<string>, legit: seq<string>)
    returns (res: Result<Dataset, string>)
    requires multiset(shuffled) == multiset(phishingList)
    ensures res.Failure? <==> legit == []
    ensures res.Failure? ==> res.error == EmptyDatasetError
    ensures res.Success? ==>
      var d := res.value;
      && d.urls == PhishSample(shuffled, legit) + legit
      && d.labels == Labels(PhishSample(shuffled, legit), legit)
      && |d.rows| == |d.urls| > 0
      && (forall k :: 0 <= k < |d.rows| ==> d.rows[k] == TrainingRow(parse, geo, phishingList, d.urls[k]))
      && FittedBounds(d.rows, d.mins, d.maxs)
      && |d.mins| == 7 && |d.maxs| == 7
  {
    var sample := PhishSample(shuffled, legit);
    var urls := sample + legit;
    var labels := Labels(sample, legit);
    var rows := ExtractRows(parse, geo, phishingList, shuffled, urls);
    if |rows| == 0 {
      return Failure(EmptyDatasetError);
    }
    var mins, maxs := FitScaler(rows);
    assert |rows[0]| == 7;
    return Success(Dataset(urls, labels, rows, mins, maxs));
  }
}
