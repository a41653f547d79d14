# Phishing-risk scorer, modelled in Dafny

This project models the scoring core of a small phishing detector. A Node
server (`server.js`) takes a URL and scores it in these steps:

- It extracts the hostname, falling back to an `http://` prefix.
- It applies heuristic rules: the phishing-list short-circuit, domain age,
  certificate state and edit distance to five brand domains.
- It clamps the score to 100.
- If a classifier is loaded, it blends the score 0.6/0.4 with the classifier's
  risk, computed from a 7-slot feature vector.
- It returns a verdict, the heuristics and an ordered explanation list.

Around the server sit these scripts:

- `scripts/trainModel.js` builds the training set. It takes its own copy of
  the feature extractor, undersamples the phishing list, assigns labels and
  fits a per-slot minimum and maximum.
- `scripts/checkSamples.js` holds a third, 9-slot copy of the extractor.
- `scripts/updateFeeds.js` filters each feed's lines and merges all feeds into
  one duplicate-free list.
- `scripts/genLegitList.js` extracts the domain column of the first 10000 rows
  of a CSV.
- `public/app.js` is the page. It normalises the typed URL and chooses the risk
  label, the explanation box, the formatting and CSS class of each heuristic,
  and the notes list.

There is one module per source file:

| Module | Models |
|---|---|
| `Server` | `server.js` |
| `TrainModel` | `scripts/trainModel.js` |
| `CheckSamples` | `scripts/checkSamples.js` |
| `UpdateFeeds` | `scripts/updateFeeds.js` |
| `GenLegitList` | `scripts/genLegitList.js` |
| `App` | `public/app.js` |

Supporting modules:

- `Signals` holds the keyword and brand lists, the keyword counter, the country
  encoding, the nearest-brand distance and the 7-slot vector. `server.js` and
  `scripts/trainModel.js` share these.
- `Text` covers the string operations the JavaScript calls:
  - ASCII `toLowerCase`, `includes`, regex counters, `trim` and `split`;
  - integer formatting inside template literals.
- `Seqs` covers `filter`, `filter(Boolean)`, `map`, and a `Set` read back with
  `Array.from`.
- `Levenshtein` defines the edit distance.
- `Wrappers` holds `Option` and `Result`.

Code that changes state step by step is modelled as methods with loops, proved
against specification functions:

- the rule block of `analyzeUrl`, with `score +=` and `explanation.push`;
- the keyword `forEach` and the `charCodeAt` loop;
- the min/max fitting loop over two arrays updated in place;
- the loop that builds `dataRaw`;
- the `Set` union across feeds.

Pipelines that only compute are modelled as functions with lemmas:

- `parseLines`;
- the CSV pipeline;
- `getHostname`;
- the tier and box choices;
- `fmt`.

Collaborators the code calls but does not define are parameters:

- the WHATWG URL parser (`UrlParser`, a partial function to an already
  lower-cased hostname);
- `geoip-lite` (`GeoLookup`);
- the whois and TLS lookups (`Facts`, with None for a failed lookup);
- the loaded TensorFlow model, as a `Classifier` from the raw vector to the
  rounded percentage, or None while `mlModel` is null;
- the random order `sort` leaves `phishingList` in, as any permutation
  `shuffled` of it;
- each feed's download, as `Option<string>`, with None where axios throws.

The model follows the code as written, including these behaviours of it:

- **A listed host does not always score 100.** The fusion at `server.js:162`
  also runs in the listed branch. With a classifier loaded, a listed host's
  risk is `round(60 + 0.4 * mlRisk)`, between 60 and 100
  (`Server.ListedFusedRisk`). It is exactly 60 when the classifier says 0, and
  the page then shows the label "Alto" in a medium box
  (`App.ListedHostMediumBox`). The verdict is still phishing.
- **An unparseable URL is rejected.** `if (!hostname)` at `server.js:101` throws
  "URL inválida". It also throws when the parser succeeds with an empty
  hostname. The URL is never scored with an empty hostname
  (`Server.AnalyzeUrl`, the first two `ensures`).
- **An unavailable fact adds no explanation.** The server adds no "unknown"
  explanation for a failed lookup. The fact is only null in `heuristics`, which
  the page shows as "Desconhecido".
- **`checkSamples.js` does not share the vector.** Its vector has 9 slots in a
  different order. It is normalised with the 7-entry scaler that training
  writes. Length and dots keep positions 0 and 1, but three of the five shared
  signals move: specialChars, keywordCount and typoFlag sit at 4, 5 and 8
  instead of 2, 3 and 5 (`CheckSamples.SlotsMisaligned`). Slots 7 and 8 are divided by undefined
  bounds (`CheckSamples.NormalizeReadsPastScaler`).

## Model

| member | source | states |
|---|---|---|
| Text.Lower | server.js:66 | `toLowerCase` keeps the length, maps each upper-case ASCII letter to its lower-case letter and leaves every other character unchanged, so no upper-case ASCII letter remains |
| Text.CountChar | server.js:62 | the number of `.` matches is at most the length and is 0 exactly when the hostname has no `.` |
| Text.CountNonAlnum | server.js:63 | `[^a-zA-Z0-9]` matches are at most the length, and 0 exactly when every character is an ASCII letter or digit |
| Text.CountNonAlnumIsMatches | server.js:63 | the specialChars count is the number of positions holding a character outside `[a-zA-Z0-9]`, the matches of `/[^a-zA-Z0-9]/g` |
| Text.Trim | scripts/updateFeeds.js:20 | the result is the slice of the input left after removing whitespace only, before and after it; it has no whitespace at either end, and it is empty only when the input is all whitespace |
| Text.TrimIdempotent | public/app.js:29 | trimming twice is trimming once |
| Text.Split | scripts/updateFeeds.js:19 | `split` on one character gives at least one piece and no piece contains the separator |
| Text.JoinSplit | scripts/genLegitList.js:31 | joining the pieces of a split with the separator gives back the input |
| Text.SplitCount | scripts/genLegitList.js:31 | a split gives one more piece than there are separators |
| Text.SplitHead | scripts/genLegitList.js:35 | the first piece of a split is the text up to the first separator, or all of it when there is none |
| Text.IntToString | server.js:129 | the decimal text of an integer in a template literal, a minus sign before the digits of a negative |
| Text.NatToString | server.js:129 | the decimal text of a natural number is non-empty, all digits, `"0"` for zero and without a leading zero otherwise |
| Text.IntToStringInjective | server.js:129-137 | different integers are printed as different texts |
| Text.NatToStringRoundTrip | server.js:129 | reading back the digits printed for a number gives the number |
| Seqs.FilterCounts | scripts/updateFeeds.js:21 | `filter` keeps every occurrence of an element that passes, as often as in the input, and no occurrence of one that fails |
| Seqs.FilterIsSubsequence | scripts/updateFeeds.js:18-21 | `filter` keeps the input order |
| Seqs.Filter | scripts/updateFeeds.js:21 | `filter` returns no more elements than it gets; each kept element is in the input and passes; every input element that passes is kept |
| Seqs.PresentCounts | scripts/genLegitList.js:36 | `filter(Boolean)` over optional fields keeps each present value as often as it occurs, and nothing else |
| Seqs.PresentIsSubsequence | scripts/genLegitList.js:33-36 | the present values keep their order |
| Seqs.Present | scripts/genLegitList.js:36 | `filter(Boolean)` returns no more values than fields; each is a present field, and every present field is among them |
| Seqs.Map | scripts/trainModel.js:81 | `map` keeps the length and applies the function at every index |
| Seqs.Dedup | scripts/updateFeeds.js:25-39 | a `Set` read back is no longer than the list added, and is empty exactly when nothing was added |
| Seqs.DedupSpec | scripts/updateFeeds.js:25-39 | a `Set` read back has no duplicates, holds exactly the added elements, and lists them in first-occurrence order |
| Levenshtein.Distance | server.js:79-81 | the edit distance is bounded by the longer length and at least the length difference |
| Levenshtein.DistanceZeroIffEqual | server.js:79-82 | the distance is 0 exactly between equal strings |
| Signals.KeywordHits | server.js:66-70 | at most one hit per keyword, so at most the number of keywords |
| Signals.KeywordHitsIsCardinality | server.js:67-70 | for a list without repetitions the count is the number of distinct keywords the URL contains |
| Signals.KeywordCountMeaning | server.js:25 | `keywordCount` is the number of the nine keywords in the lower-cased URL, at most 9 |
| Signals.CountKeywords | server.js:67-70 | the `forEach` counter ends equal to the keyword count |
| Signals.CountryCode | server.js:73-74 | the code is the looked-up country when present and non-empty, else "UN"; never empty |
| Signals.CountryNum | server.js:75-76 | the `charCodeAt` loop ends with the sum of the character codes |
| Signals.UnknownCountryCode | server.js:74-76 | a missing or empty country encodes as 163 |
| Signals.MinOf | server.js:79-81 | `Math.min(...ds)` is an element of `ds` and at most every element |
| Signals.BrandDistances | server.js:80 | one distance per brand domain, in list order |
| Signals.MinBrandDistance | server.js:79-81 | `minLev` is at most the distance to every brand domain and equal to the distance to one of them |
| Signals.BrandIsNearest | server.js:79-82 | a brand domain's own minimum distance is 0 |
| Signals.FeatureVector | server.js:87-95 | the vector has 7 slots: the URL length; the number of dots in the host; the number of `[^a-zA-Z0-9]` characters of the URL, at most its length; keywordCount, at most the 9 keywords; the character-code sum of the country code; typoFlag, 1 exactly when the distance is at most 3 and 0 otherwise; inListFlag, 1 exactly when the host is listed and 0 otherwise |
| Signals.FeatureVectorSlots | server.js:87-95 | what each slot means: length; the dot count of the host, 0 exactly when it has no dot; specialChars, the number of positions matching `[^a-zA-Z0-9]`; keywordCount, the number of distinct keywords, at most 9; countryNum, the character-code sum of the country code, 163 for an unknown country; typoFlag, 1 exactly when the distance is at most 3; inListFlag, 1 exactly when the host is listed |
| Server.ExtractMLFeatures | server.js:59-96 | the vector built from `getHostname(u) \|\| ''` is the 7-slot vector of that host, its country, its nearest-brand distance and its list membership |
| Server.GetHostname | server.js:50-56 | the URL as given wins when it parses; the result is null exactly when both the URL and `http://` + URL fail to parse, and is otherwise one of the two parses |
| Server.HostOrEmpty | server.js:60 | `getHostname(u) \|\| ''` is `''` exactly for a null or empty hostname, and is the hostname otherwise |
| Server.MessageInjective | server.js:124-160 | no two explanation entries share a text: the message determines the rule that fired and the number printed in it |
| Server.HeuristicScore | server.js:122-139 | the rule score is at most 100, is 100 exactly for a listed host, and is at most 55 for any other host |
| Server.HeuristicReasons | server.js:122-138 | a listed host gets the list explanation alone; the list explanation appears exactly for a listed host; at most three entries, none of them an `ML risk` entry |
| Server.Fuse | server.js:162 | without a model the score is the heuristic score; with one it is `Math.round(h * 0.6 + m * 0.4)` over exact arithmetic, lies between `h` and `m`, and stays in [0,100] for a percentage `h` |
| Server.AgeRule | server.js:128-131 | adds 20 for an age under 30 days, else 10 under 365, else nothing, and explains the bucket that fired; a null age adds nothing |
| Server.TlsRule | server.js:132-135 | adds 20 for an invalid certificate, else 10 for fewer than 30 days remaining, and explains it; unknown facts add nothing |
| Server.TypoRule | server.js:136-137 | adds 15 for a distance of at most 3, else 5 for at most 5, and explains it |
| Server.ScoreHeuristics | server.js:122-138 | the accumulated score and explanations are the heuristic score and the reasons of the rules that fired: 100 and the list reason for a listed host, else the three buckets in the order age, TLS, typo |
| Server.ApplyModel | server.js:159-162 | the model's risk is pushed last as `ML risk` and the score becomes the rounded 0.6/0.4 blend |
| Server.AnalyzeUrl | server.js:99-172 | fails with "URL inválida" exactly when the hostname is null or empty; otherwise the result holds the hostname, the heuristics, a risk equal to the clamped heuristic score fused with the model risk and within [0,100], the verdict `inList \|\| risk > 50`, the ML details (features only when a model is loaded), and the ordered reasons |
| Server.ListedShortCircuit | server.js:124-126 | a listed host scores 100 with the list explanation alone, whatever the other facts |
| Server.UnlistedScoreRange | server.js:127-139 | an unlisted host scores at most 55, so the clamp never bites, and 0 exactly when no rule fired |
| Server.ReasonPerRule | server.js:128-137 | each rule adds one explanation exactly when it adds points, so at most three heuristic explanations |
| Server.MlEntryLast | server.js:123-161 | with a model the `ML risk` entry is last and is the only one |
| Server.MissingFactsScoreZero | server.js:128-135 | a null age or certificate contributes 0, and an unknown certificate is not scored like an invalid one |
| Server.FusionIsRounding | server.js:162 | `Math.round(h*0.6 + m*0.4)` equals `(3h + 2m + 2) div 5` for all integers |
| Server.FuseRange | server.js:142-163 | the fused score of a percentage stays in [0,100], and without a model it is the heuristic score |
| Server.ListedFusedRisk | server.js:124-162 | for every listed host, whatever its other facts, the fused risk with model risk `m` is `round(60 + 0.4 * m)` = `(302 + 2m) div 5`, lies in [60,100], and is 60 for `m` = 0 |
| Server.BrandDomainIsFlagged | server.js:118-137 | a brand domain itself earns the typosquatting points and the `LEV=0` explanation |
| Server.WorkedExamples | server.js:122-162 | a young domain with an invalid certificate at distance 2 scores 55; a clean host with model risk 5 scores 2 |
| TrainModel.GetHostname | scripts/trainModel.js:22-28 | the same host as the server's `getHostname(u) \|\| ''`, and `''` when both parses fail |
| TrainModel.ReduceLeast | scripts/trainModel.js:51-53 | folding `a < b ? a : b` ends on the seed or an element; it is finite when the seed is finite or the list non-empty, then at most the seed and at most every element |
| TrainModel.ReduceLeastFrom | scripts/trainModel.js:51-53 | that fold from a finite seed is the minimum of the seed and the list |
| TrainModel.ReduceLeastIsMin | scripts/trainModel.js:51-53 | with the `Infinity` seed, the fold over a non-empty list is the list's minimum |
| TrainModel.ExtractFeatures | scripts/trainModel.js:31-68 | the counters and flags build the same 7-slot vector as the server's, with `phishingList.includes` for the list flag |
| TrainModel.SameVectorAsServer | scripts/trainModel.js:31-67 | given the same parser, lookup and phishing domains, training and the server compute the same vector for every URL |
| TrainModel.PhishSample | scripts/trainModel.js:72-75 | the sample has `min(\|phishingList\|, \|legitList\|)` entries, the first ones of the shuffled list |
| TrainModel.Labels | scripts/trainModel.js:78 | one label per URL, 1 exactly for the sampled phishing URLs |
| TrainModel.ColumnMinSpec | scripts/trainModel.js:85-88 | a slot's running minimum is at most every value in the slot and is one of them; it stays `Infinity` only when no row has the slot |
| TrainModel.ColumnMaxSpec | scripts/trainModel.js:86-89 | a slot's running maximum is at least every value in the slot and is one of them |
| TrainModel.FitScaler | scripts/trainModel.js:84-90 | the loop over a non-empty dataset leaves `numFeat` finite bounds with `mins[i] <= row[i] <= maxs[i]` for every row, each bound taken by some row |
| TrainModel.ColumnsFitted | scripts/trainModel.js:84-90 | the slot-wise folds of the rows are fitted bounds |
| TrainModel.RowOfPermutedList | scripts/trainModel.js:74 | sorting the phishing list in place does not change any URL's row |
| TrainModel.ExtractRows | scripts/trainModel.js:81 | `dataRaw` is the row of every URL, in order, against the original list |
| TrainModel.BuildDataset | scripts/trainModel.js:70-90 | fails reading `dataRaw[0]` exactly when the legit list is empty; otherwise gives the URLs (sample, then legit), their labels, their rows, and 7 fitted bounds per side |
| CheckSamples.KeywordSumIsHits | scripts/checkSamples.js:51-53 | the `reduce` keyword sum counts what the server's `forEach` counts |
| CheckSamples.ReduceMathMinAgrees | scripts/checkSamples.js:57-59 | a `Math.min` fold and an `a < b ? a : b` fold give the same value |
| CheckSamples.ReduceMathMin | scripts/checkSamples.js:57-59 | folding `Math.min` ends on the seed or an element; it is finite when the seed is finite or the list non-empty, then at most the seed and at most every element |
| CheckSamples.NineSlotShape | scripts/checkSamples.js:62-66 | the vector has 9 slots: the dot count of the host; hasDigit and hasAt are 1 exactly when the URL has a digit or `@`; specialChars is the number of positions matching `[^a-zA-Z0-9]`, at most the length; ageFlag and sslFlag are 0; dots is 0 for an empty host |
| CheckSamples.NineSlotCounts | scripts/checkSamples.js:62-66 | slot 5 is the keyword count, and slot 8 is 1 exactly when the distance is finite and at most 3 |
| CheckSamples.KeywordSlot | scripts/checkSamples.js:51-53 | the keyword sum is the number of distinct keywords found, at most 9 |
| CheckSamples.TypoSlot | scripts/checkSamples.js:57-60 | the `Math.min` fold from `Infinity` is the nearest-brand distance |
| CheckSamples.NineSlots | scripts/checkSamples.js:43-67 | the shape above for the vector of a URL: the dot count of its hostname, its `[^a-zA-Z0-9]` matches, and dots 0 when the host is `''` |
| CheckSamples.ExtractFeatures | scripts/checkSamples.js:43-67 | the vector has 9 slots: the URL length, the dot count of the hostname, the non-alphanumeric count of the URL (at most the length), ageFlag and sslFlag 0, and typoFlag 1 exactly when the nearest brand is within distance 3 and 0 otherwise |
| CheckSamples.NineSlotKeywords | scripts/checkSamples.js:50-53 | keywordCount counts each keyword at most once and lies in [0,9] |
| CheckSamples.NineSlotTypo | scripts/checkSamples.js:57-60 | typoFlag is 1 exactly when the nearest brand is within distance 3 |
| CheckSamples.SlotsMisaligned | scripts/checkSamples.js:62-66 | length, dots, specialChars, keywordCount and typoFlag sit at positions 0, 1, 4, 5, 8, while training puts them at 0, 1, 2, 3, 5 |
| CheckSamples.ScalerReads | scripts/checkSamples.js:29-33 | `normalize` reads a bound pair for a slot exactly when the scaler has that slot |
| CheckSamples.NormalizeReadsPastScaler | scripts/checkSamples.js:29-33 | with the 7-entry scaler, slots 7 and 8 of every vector are read past its end |
| UpdateFeeds.DropCr | scripts/updateFeeds.js:19 | `\r?` removes exactly one carriage return when the piece ends with one, and nothing otherwise |
| UpdateFeeds.SplitLines | scripts/updateFeeds.js:19 | one line more than the line feeds, and no line contains a line feed |
| UpdateFeeds.SplitLinesJoin | scripts/updateFeeds.js:19 | joining the lines with line feeds gives the text with exactly the carriage returns that stand before a line feed deleted; with the line count and line-feed-free lines this fixes every line |
| UpdateFeeds.TrimAll | scripts/updateFeeds.js:20 | one trimmed line per line, at the same position |
| UpdateFeeds.Keep | scripts/updateFeeds.js:21 | a line passes exactly when it is non-empty and starts with an ASCII letter or digit; the `#` test never rejects a line the regular expression accepts |
| UpdateFeeds.ParseLines | scripts/updateFeeds.js:17-22 | at most one entry per line, and every entry passes the filter |
| UpdateFeeds.KeptLinesSound | scripts/updateFeeds.js:20-21 | each kept entry is the trim of some line, is non-empty, does not start with `#`, starts with an ASCII letter or digit, and the entries keep line order |
| UpdateFeeds.ParseLinesSound | scripts/updateFeeds.js:17-22 | the same properties for `parseLines` of a text |
| UpdateFeeds.ParseLinesComplete | scripts/updateFeeds.js:17-22 | every trimmed line that passes the filter is an entry |
| UpdateFeeds.EmptyFeed | scripts/updateFeeds.js:19-21 | the empty text is one empty line and yields no entry |
| UpdateFeeds.CrLfLines | scripts/updateFeeds.js:19 | `"a\r\nb"` splits into `"a"` and `"b"` |
| UpdateFeeds.GatherAppend | scripts/updateFeeds.js:27-37 | the entries of two runs of sources are the entries of each, concatenated |
| UpdateFeeds.FailedSourceSkipped | scripts/updateFeeds.js:27-37 | a source whose download fails contributes nothing and the sources after it still contribute |
| UpdateFeeds.AllItemsMembership | scripts/updateFeeds.js:27-37 | an entry is gathered exactly when some source that answered lists it |
| UpdateFeeds.AddAll | scripts/updateFeeds.js:32 | adding one source's entries to the set gives the set of everything added so far |
| UpdateFeeds.Combine | scripts/updateFeeds.js:24-39 | `Array.from(all)` is the duplicate-free list of every source's entries in first-occurrence order, holding exactly the entries some answering source lists |
| UpdateFeeds.CombinedSpec | scripts/updateFeeds.js:25-39 | that list has no duplicates, holds exactly the gathered entries, and keeps first-occurrence order |
| GenLegitList.SecondField | scripts/genLegitList.js:35 | `split(',')[1]` is undefined exactly when the line has no comma; otherwise it is the text after the first comma up to the next comma or the end of the line |
| GenLegitList.Domain | scripts/genLegitList.js:35-36 | a row is dropped exactly when it has no comma or an empty second field; otherwise its second field is kept |
| GenLegitList.DataRows | scripts/genLegitList.js:31-34 | `slice(1, 10001)` keeps at most 10000 rows |
| GenLegitList.RowDomains | scripts/genLegitList.js:35 | one optional domain per row, in row order |
| GenLegitList.Domains | scripts/genLegitList.js:33-36 | at most 10000 domains, each non-empty and without a comma |
| GenLegitList.DataRowsAfterHeader | scripts/genLegitList.js:31-34 | the rows are the lines after the header, at most 10000 of them |
| GenLegitList.HeaderIgnored | scripts/genLegitList.js:34 | the header line never contributes: any header gives the same list |
| GenLegitList.DomainsSound | scripts/genLegitList.js:33-36 | each domain is the non-empty second field of some line numbered 1 to 10000 |
| GenLegitList.DomainsComplete | scripts/genLegitList.js:33-36 | every line numbered 1 to 10000 with a non-empty second field contributes it |
| GenLegitList.DomainsInOrder | scripts/genLegitList.js:33-36 | the domains keep the order of their lines |
| GenLegitList.CarriageReturnKept | scripts/genLegitList.js:31-35 | nothing is trimmed: a Windows line ending leaves `\r` on the domain |
| App.NormalizeInput | public/app.js:29-36 | no URL is sent exactly when the trimmed input is empty |
| App.SchemePrefixed | public/app.js:34-35 | a prefixed URL matches `^https?://` case-insensitively |
| App.NormalizeSpec | public/app.js:29-36 | the URL sent always has a scheme; the trimmed text is kept exactly when it already had one, and is otherwise prefixed with `http://` |
| App.NormalizeIdempotent | public/app.js:29-36 | normalising the URL sent changes nothing |
| App.HasSchemeIgnoresCase | public/app.js:34 | `/^https?:\/\//i` ignores case: a text has a scheme exactly when its lower-case form has one; a text with a scheme has at least 7 characters |
| App.TierOf | public/app.js:51-61 | High exactly when flagged or at least 70; Medium exactly when not flagged and in [30,70); Low exactly when not flagged and below 30 |
| App.BoxOf | public/app.js:67-82 | the box is the tier of an unflagged page, High exactly from 70 |
| App.BoxSpec | public/app.js:51-82 | the box differs from the label exactly for a flagged page scored below 70 |
| App.Fmt | public/app.js:21-25 | null and booleans become text, and every other value is returned unchanged |
| App.ItemClass | public/app.js:87-89 | the class is `null` exactly for null, `true` exactly for a truthy value, `false` for any other falsy value |
| App.LabelFor | public/app.js:12-18 | a key is shown by a non-empty label different from the key exactly when `labelMap` names it, and by itself otherwise |
| App.HeuristicItems | public/app.js:85-95 | one item per heuristic in the server's order, with the label, class and formatted value |
| App.HeuristicItemsShow | public/app.js:85-95 | the listing shows as Sim/Não; an unknown age or certificate shows as "Desconhecido" with the `null` class; a distance of 0 gets the `false` class |
| App.ExplanationItems | public/app.js:98-108 | the notes are the messages when there are any, else the single placeholder when the list is missing or empty |
| App.MessageNotPlaceholder | public/app.js:106 | no server message is the placeholder text |
| App.NotesOfResult | public/app.js:98-108 | for a server answer the placeholder shows exactly when there are no reasons; otherwise the notes are the explanation |
| App.MlRows | public/app.js:117-119 | seven rows named after the feature keys, each showing its slot's value |
| App.Render | public/app.js:50-129 | the card is shown exactly when `mlFeatures` is not null, with the tier text and class, the score-only box, the risk score, the heuristic items, the explanation notes, the model rows of the features and the model risk text (`null%` without one) |
| App.NoModelNoCard | public/app.js:117 | without a loaded model `Object.entries(null)` throws and no card is shown |
| App.ListedHostMediumBox | public/app.js:51-82 | any listed host that the model scores 0 is fused to 60, labelled "Alto" and shown in the medium box |

## Left out

- HTTP: the HTTP server, routing and static files (`server.js:175-200`).
- Page I/O: the page's `fetch`, its DOM writes and `alert`.
- Error answers: the handling of an error answer (`public/app.js:46-48,130-132`).
  `App.Render` takes a successful answer.
- Lookups and time: the whois and TLS lookups and the `Date.now()` age
  computation (`server.js:106-117`). Their outcomes are the `Facts` input, so a
  NaN age from an unreadable creation date is not a value of the model.
- TensorFlow: model loading, `predict`, tensors and training.
- Floating point: min–max normalisation, `mlProb` and `Math.round(mlProb * 100)`.
  These are folded into the `Classifier` parameter. `mlProb` is not a field of
  `Server.MlDetails`, and the raw-probability row of the page is not modelled.
- Concurrency: the asynchronous loading of `mlModel` (`server.js:28-34`) is
  modelled only as present or absent.
- Foreign code: the WHATWG URL parser and `geoip-lite` are parameters.
  `fast-levenshtein` is not part of this model: `Levenshtein.Distance` is the
  textbook definition of the edit distance it computes.
- Randomness: the random comparator of the in-place `sort`
  (`scripts/trainModel.js:74`) is modelled as an arbitrary permutation
  `shuffled`.
- Scripts' I/O: the downloads (axios), ZIP decoding, JSON and `fs` reads and
  writes, and all console output.
- Writing the scaler: `dataNorm` and the scaler file (`scripts/trainModel.js:91-101`).
- Loading the phishing list: how `server.js` loads it (lines 1-21). It is the
  `listed` set parameter.
- `checkSamples.js` main: the sample loop (`scripts/checkSamples.js:79-88`),
  which is I/O around `extractFeatures`.
- Text.Lower: maps only ASCII letters. JavaScript's `toLowerCase` also lowers
  non-ASCII letters, some of which become ASCII (the Kelvin sign becomes `k`).
  A keyword hit that depends on such a character is not modelled.
- String length: strings are sequences of code points. JavaScript's `length`
  and `charCodeAt` count UTF-16 code units, so lengths differ for characters
  outside the Basic Multilingual Plane.
- TrainModel.FitScaler: requires a non-empty dataset, as the source does:
  `dataRaw[0].length` throws before the loop otherwise.
  `TrainModel.BuildDataset` models that throw as a `Failure`.
