/** scripts/updateFeeds.js: each feed's text is cut into lines and filtered,
    and the entries of all feeds are collected in one `Set`. */
module UpdateFeeds {
  import opened Wrappers
  import opened Text
  import opened Seqs

  /** One carriage return at the end of a piece, as `\r?` consumes it. */
  function DropCr(s: string): (r: string)
    ensures r == s || (s == r + "\r")
    ensures (s != [] && s[|s| - 1] == '\r') <==> s == r + "\r"
  {
    if s != [] && s[|s| - 1] == '\r' then s[..|s| - 1] else s
  }

  /** `text.split(/\r?\n/)`: cut at every line feed, and drop a carriage return
      standing just before one. */
  function SplitLines(text: string): (lines: seq<string>)
    ensures |lines| == CountChar(text, '\n') + 1
    ensures forall i :: 0 <= i < |lines| ==> '\n' !in lines[i]
  {
    SplitCount(text, '\n');
    DropCrs(Split(text, '\n'))
  }

  /** Each piece but the last loses the carriage return before its line feed. */
  function DropCrs(pieces: seq<string>): (lines: seq<string>)
    requires |pieces| >= 1
    requires forall k :: 0 <= k < |pieces| ==> '\n' !in pieces[k]
    ensures |lines| == |pieces|
    ensures forall i :: 0 <= i < |pieces| ==> lines[i] == if i < |pieces| - 1 then DropCr(pieces[i]) else pieces[i]
    ensures forall i :: 0 <= i < |lines| ==> '\n' !in lines[i]
  {
    seq(|pieces|, i requires 0 <= i < |pieces| => if i < |pieces| - 1 then DropCr(pieces[i]) else pieces[i])
  }

  /** A character-level reference for `/\r?\n/`: the text with every carriage
      return that stands just before a line feed deleted. */
  function DropCrBeforeLf(s: string): string
  {
    if s == [] then []
    else if s[0] == '\r' && |s| > 1 && s[1] == '\n' then DropCrBeforeLf(s[1..])
    else [s[0]] + DropCrBeforeLf(s[1..])
  }

  lemma {:induction false} DropCrBeforeLfNoLf(p: string)
    requires '\n' !in p
    ensures DropCrBeforeLf(p) == p
  {
    if p != [] {
      assert |p| > 1 ==> p[1] in p;
      DropCrBeforeLfNoLf(p[1..]);
      assert [p[0]] + p[1..] == p;
    }
  }

  /** Deleting before the first line feed is `DropCr` of the first line. */
  lemma {:induction false} DropCrBeforeLfLine(p: string, rest: string)
    requires '\n' !in p
    ensures DropCrBeforeLf(p + "\n" + rest) == DropCr(p) + "\n" + DropCrBeforeLf(rest)
  {
    var s := p + "\n" + rest;
    if p == [] {
      assert s == "\n" + rest;
      assert s[1..] == rest;
    } else if |p| == 1 {
      assert s[1..] == "\n" + rest;
      assert ("\n" + rest)[1..] == rest;
    } else {
      assert p[1] in p;
      assert s[1..] == p[1..] + "\n" + rest;
      DropCrBeforeLfLine(p[1..], rest);
      assert DropCr(p) == [p[0]] + DropCr(p[1..]) by {
        if p[|p| - 1] == '\r' {
          assert p[..|p| - 1] == [p[0]] + p[1..][..|p| - 2];
        } else {
          assert p == [p[0]] + p[1..];
        }
      }
    }
  }

  lemma {:induction false} JoinDropCrs(pieces: seq<string>)
    requires |pieces| >= 1
    requires forall k :: 0 <= k < |pieces| ==> '\n' !in pieces[k]
    ensures Join(DropCrs(pieces), '\n') == DropCrBeforeLf(Join(pieces, '\n'))
  {
    if |pieces| == 1 {
      DropCrBeforeLfNoLf(pieces[0]);
    } else {
      var tail := pieces[1..];
      JoinDropCrs(tail);
      DropCrBeforeLfLine(pieces[0], Join(tail, '\n'));
      var lines := DropCrs(pieces);
      assert lines[1..] == DropCrs(tail);
    }
  }

  /** The lines joined with line feeds are the text without the carriage
      returns that stand before a line feed; with the line count and the
      line-feed-free lines, this fixes every line. */
  lemma SplitLinesJoin(text: string)
    ensures Join(SplitLines(text), '\n') == DropCrBeforeLf(text)
  {
    JoinSplit(text, '\n');
    JoinDropCrs(Split(text, '\n'));
  }

  /** The filter: non-empty, not a `#` comment, and starting with `[a-z0-9]`
      under the `i` flag. */
  predicate Keep(l: string)
    ensures Keep(l) <==> l != [] && IsAsciiAlnum(l[0])
  {
    l != [] && !StartsWith(l, "#") && IsAsciiAlnum(l[0])
  }

  function TrimAll(lines: seq<string>): (r: seq<string>)
    ensures |r| == |lines|
    ensures forall i :: 0 <= i < |lines| ==> r[i] == Trim(lines[i])
  {
    seq(|lines|, i requires 0 <= i < |lines| => Trim(lines[i]))
  }

  /** The `map` and `filter` steps of `parseLines`. */
  function KeptLines(lines: seq<string>): seq<string>
  {
    Filter(Keep, TrimAll(lines))
  }

  /** `parseLines`. */
  function ParseLines(text: string): (entries: seq<string>)
    ensures |entries| <= CountChar(text, '\n') + 1
    ensures forall k :: 0 <= k < |entries| ==> Keep(entries[k])
  {
    KeptLines(SplitLines(text))
  }

  lemma KeptLinesSound(lines: seq<string>)
    ensures var out := KeptLines(lines);
      && (forall k :: 0 <= k < |out| ==> exists i :: 0 <= i < |lines| && out[k] == Trim(lines[i]))
      && (forall k :: 0 <= k < |out| ==> out[k] != [] && out[k][0] != '#' && IsAsciiAlnum(out[k][0]))
      && IsSubsequence(out, TrimAll(lines))
  {
    var trimmed := TrimAll(lines);
    var out := Filter(Keep, trimmed);
    FilterIsSubsequence(Keep, trimmed);
    forall k | 0 <= k < |out| ensures exists i :: 0 <= i < |lines| && out[k] == Trim(lines[i]) {
      TrimmedSource(lines, out[k]);
    }
    KeptEntriesShape(out);
  }

  /** Entries that pass the filter are non-empty and start with a letter or
      digit, so never with `#`. */
  lemma KeptEntriesShape(out: seq<string>)
    requires forall k :: 0 <= k < |out| ==> Keep(out[k])
    ensures forall k :: 0 <= k < |out| ==> out[k] != [] && out[k][0] != '#' && IsAsciiAlnum(out[k][0])
  {
  }

  lemma TrimmedSource(lines: seq<string>, x: string)
    requires x in TrimAll(lines)
    ensures exists i :: 0 <= i < |lines| && x == Trim(lines[i])
  {
    var trimmed := TrimAll(lines);
    var i :| 0 <= i < |trimmed| && trimmed[i] == x;
    assert x == Trim(lines[i]);
  }

  /** Every entry is the trim of one of the lines and passes the filter,
      and the entries keep the order of the lines. */
  lemma ParseLinesSound(text: string)
    ensures var out := ParseLines(text);
      var lines := SplitLines(text);
      && (forall k :: 0 <= k < |out| ==> exists i :: 0 <= i < |lines| && out[k] == Trim(lines[i]))
      && (forall k :: 0 <= k < |out| ==> out[k] != [] && out[k][0] != '#' && IsAsciiAlnum(out[k][0]))
      && IsSubsequence(out, TrimAll(lines))
  {
    KeptLinesSound(SplitLines(text));
  }

  /** Every trimmed line that passes the filter is an entry. */
  lemma ParseLinesComplete(text: string, i: int)
    requires 0 <= i < |SplitLines(text)|
    requires Keep(Trim(SplitLines(text)[i]))
    ensures Trim(SplitLines(text)[i]) in ParseLines(text)
  {
    var lines := SplitLines(text);
    var trimmed := TrimAll(lines);
    assert trimmed[i] == Trim(lines[i]);
  }

  /** An empty feed is a single empty line, which the filter drops. */
  lemma EmptyFeed()
    ensures SplitLines("") == [""]
    ensures ParseLines("") == []
  {
  }

  /** A carriage return before a line feed is not part of the line. */
  lemma CrLfLines()
    ensures SplitLines("a\r\nb") == ["a", "b"]
  {
    assert "a\r\nb" == "a\r" + ['\n'] + "b";
    SplitFirst("a\r", '\n', "b");
    SplitNoSeparator("b", '\n');
    assert "a\r"[..2 - 1] == "a";
  }

  /** The entries `parse` finds in the sources that answered, in source
      order; a source that failed (None) adds nothing. */
  function Gather(parse: string -> seq<string>, responses: seq<Option<string>>): seq<string>
  {
    if responses == [] then []
    else
      var last := responses[|responses| - 1];
      Gather(parse, responses[..|responses| - 1]) + (if last.Some? then parse(last.value) else [])
  }

  /** The entries of all sources that answered, in source order. */
  function AllItems(responses: seq<Option<string>>): seq<string>
  {
    Gather(ParseLines, responses)
  }

  lemma GatherSnoc(parse: string -> seq<string>, responses: seq<Option<string>>, r: Option<string>)
    ensures Gather(parse, responses + [r]) == Gather(parse, responses) + (if r.Some? then parse(r.value) else [])
  {
    assert (responses + [r])[..|responses|] == responses;
  }

  lemma {:induction false} GatherAppend(parse: string -> seq<string>, a: seq<Option<string>>, b: seq<Option<string>>)
    ensures Gather(parse, a + b) == Gather(parse, a) + Gather(parse, b)
    decreases |b|
  {
    if b != [] {
      var n := |b| - 1;
      FrontLast(b);
      GatherSnoc(parse, a + b[..n], b[n]);
      GatherSnoc(parse, b[..n], b[n]);
      assert a + b == (a + b[..n]) + [b[n]];
      GatherAppend(parse, a, b[..n]);
    } else {
      assert a + b == a;
    }
  }

  /** A failing source is skipped and the sources after it still contribute. */
  lemma FailedSourceSkipped(a: seq<Option<string>>, b: seq<Option<string>>)
    ensures AllItems(a + [None] + b) == AllItems(a + b)
  {
    GatherAppend(ParseLines, a + [None], b);
    GatherAppend(ParseLines, a, [None]);
    GatherAppend(ParseLines, a, b);
    var none: seq<Option<string>> := [None];
    assert Gather(ParseLines, none) == [];
  }

  lemma AllItemsSnoc(responses: seq<Option<string>>, r: Option<string>)
    ensures AllItems(responses + [r]) == AllItems(responses) + (if r.Some? then ParseLines(r.value) else [])
  {
    GatherSnoc(ParseLines, responses, r);
  }

  predicate FoundIn(parse: string -> seq<string>, responses: seq<Option<string>>, x: string)
  {
    exists k :: 0 <= k < |responses| && responses[k].Some? && x in parse(responses[k].value)
  }

  /** Some source that answered lists `x`. */
  predicate Contributes(responses: seq<Option<string>>, x: string)
  {
    exists k :: 0 <= k < |responses| && responses[k].Some? && x in ParseLines(responses[k].value)
  }

  lemma {:induction false} GatherMembership(parse: string -> seq<string>, responses: seq<Option<string>>, x: string)
    ensures x in Gather(parse, responses) <==> FoundIn(parse, responses, x)
  {
    if responses != [] {
      var n := |responses| - 1;
      var pre := responses[..n];
      var last := responses[n];
      FrontLast(responses);
      GatherSnoc(parse, pre, last);
      GatherMembership(parse, pre, x);
      if x in Gather(parse, responses) {
        if x in Gather(parse, pre) {
          var k :| 0 <= k < |pre| && pre[k].Some? && x in parse(pre[k].value);
          assert responses[k] == pre[k];
        } else {
          assert last.Some? && x in parse(last.value);
        }
      }
      if FoundIn(parse, responses, x) {
        var k :| 0 <= k < |responses| && responses[k].Some? && x in parse(responses[k].value);
        if k < n {
          assert pre[k] == responses[k];
        }
      }
    }
  }

  lemma AllItemsMembership(responses: seq<Option<string>>, x: string)
    ensures x in AllItems(responses) <==> Contributes(responses, x)
  {
    GatherMembership(ParseLines, responses, x);
    assert FoundIn(ParseLines, responses, x) <==> Contributes(responses, x);
  }

  /** The inner loop: `all.add(item)` for every entry of one source. */
  method AddAll(all: seq<string>, ghost before: seq<string>, items: seq<string>) returns (all': seq<string>)
    requires all == Dedup(before)
    ensures all' == Dedup(before + items)
  {
    all' := all;
    assert before + items[..0] == before;
    for j := 0 to |items|
      invariant all' == Dedup(before + items[..j])
    {
      assert before + items[..j + 1] == (before + items[..j]) + [items[j]];
      DedupSnoc(before + items[..j], items[j]);
      if items[j] !in all' {
        all' := all' + [items[j]];
      }
    }
    assert items[..|items|] == items;
  }

  /** `updateFeeds` from the sources' responses on: `all.add` for every entry of
      every source that answered, then `Array.from(all)`. */
  method Combine(responses: seq<Option<string>>) returns (combined: seq<string>)
    ensures combined == Dedup(AllItems(responses))
    ensures NoDuplicates(combined)
    ensures forall x :: x in combined <==> Contributes(responses, x)
    ensures forall x :: x in combined <==> x in AllItems(responses)
    ensures forall i, j :: 0 <= i < j < |combined| ==>
              FirstIndex(AllItems(responses), combined[i]) < FirstIndex(AllItems(responses), combined[j])
  {
    var all: seq<string> := [];
    for k := 0 to |responses|
      invariant all == Dedup(AllItems(responses[..k]))
    {
      var before := AllItems(responses[..k]);
      var step := AllItems(responses[..k + 1]);
      TakeSnoc(responses, k);
      AllItemsSnoc(responses[..k], responses[k]);
      if responses[k].Some? {
        assert step == before + ParseLines(responses[k].value);
        all := AddAll(all, before, ParseLines(responses[k].value));
      } else {
        assert step == before + [];
        assert step == before;
      }
    }
    assert responses[..|responses|] == responses;
    combined := all;
    CombinedSpec(responses);
  }

  lemma CombinedSpec(responses: seq<Option<string>>)
    ensures NoDuplicates(Dedup(AllItems(responses)))
    ensures forall x :: x in Dedup(AllItems(responses)) <==> Contributes(responses, x)
    ensures forall x :: x in Dedup(AllItems(responses)) <==> x in AllItems(responses)
    ensures var d := Dedup(AllItems(responses));
      forall i, j :: 0 <= i < j < |d| ==> FirstIndex(AllItems(responses), d[i]) < FirstIndex(AllItems(responses), d[j])
  {
    DedupSpec(AllItems(responses));
    forall x ensures x in AllItems(responses) <==> Contributes(responses, x) {
      AllItemsMembership(responses, x);
    }
  }
}
