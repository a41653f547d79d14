/** scripts/genLegitList.js: the domain column of the first 10000 data rows
    of the top-sites CSV. */
module GenLegitList {
  import opened Wrappers
  import opened Text
  import opened Seqs

  /** `slice(1, 10001)`: the header is row 0. */
  const FirstRow := 1
  const EndRow := 10001

  /** `l.split(',')[1]`: undefined when the line has no comma. */
  function SecondField(l: string): (f: Option<string>)
    ensures f.None? <==> ',' !in l
    ensures f.Some? ==> ',' !in f.value
    ensures f.Some? ==> var p := FirstIndex(l, ',');
      f.value <= l[p + 1..] && (p + 1 + |f.value| == |l| || l[p + 1 + |f.value|] == ',')
  {
    var parts := Split(l, ',');
    SplitCount(l, ',');
    if |parts| > 1 then
      var p := FirstIndex(l, ',');
      assert l == l[..p] + [','] + l[p + 1..];
      SplitFirst(l[..p], ',', l[p + 1..]);
      SplitHead(l[p + 1..], ',');
      Some(parts[1])
    else None
  }

  /** The second field as `filter(Boolean)` keeps it: neither undefined nor
      the empty string. */
  function Domain(l: string): (d: Option<string>)
    ensures d.None? <==> (',' !in l || SecondField(l) == Some(""))
    ensures d.Some? ==> SecondField(l) == d && d.value != ""
  {
    match SecondField(l)
    case Some(f) => if f == "" then None else Some(f)
    case None => None
  }

  /** The rows that `slice(1, 10001)` keeps. */
  function DataRows(csv: string): (rows: seq<string>)
    ensures |rows| <= EndRow - FirstRow
  {
    var lines := Split(csv, '\n');
    lines[FirstRow..if |lines| < EndRow then |lines| else EndRow]
  }

  function RowDomains(rows: seq<string>): (r: seq<Option<string>>)
    ensures |r| == |rows|
    ensures forall i :: 0 <= i < |rows| ==> r[i] == Domain(rows[i])
  {
    seq(|rows|, i requires 0 <= i < |rows| => Domain(rows[i]))
  }

  /** `domains` in `genLegit`. */
  function Domains(csv: string): (ds: seq<string>)
    ensures |ds| <= 10000
    ensures forall k :: 0 <= k < |ds| ==> ds[k] != "" && ',' !in ds[k]
  {
    Present(RowDomains(DataRows(csv)))
  }

  /** The rows after the header line, as `slice(1, 10001)` takes them. */
  lemma DataRowsAfterHeader(h: string, body: string)
    requires '\n' !in h
    ensures var rest := Split(body, '\n');
      DataRows(h + "\n" + body) == rest[..if |rest| < EndRow - 1 then |rest| else EndRow - 1]
  {
    assert h + "\n" + body == h + ['\n'] + body;
    SplitFirst(h, '\n', body);
    var rest := Split(body, '\n');
    var lines := [h] + rest;
    assert lines[1..] == rest;
  }

  /** The header line never contributes: any header gives the same list. */
  lemma HeaderIgnored(h1: string, h2: string, body: string)
    requires '\n' !in h1 && '\n' !in h2
    ensures Domains(h1 + "\n" + body) == Domains(h2 + "\n" + body)
  {
    DataRowsAfterHeader(h1, body);
    DataRowsAfterHeader(h2, body);
  }

  /** Each domain is the non-empty second field of some line numbered 1 to
      10000. */
  lemma DomainsSound(csv: string, k: int)
    requires 0 <= k < |Domains(csv)|
    ensures exists i :: (FirstRow <= i < |Split(csv, '\n')| && i < EndRow &&
      SecondField(Split(csv, '\n')[i]) == Some(Domains(csv)[k]))
    ensures Domains(csv)[k] != ""
  {
    var lines := Split(csv, '\n');
    var rows := DataRows(csv);
    var ds := RowDomains(rows);
    var d := Domains(csv)[k];
    assert Some(d) in ds;
    var j :| 0 <= j < |ds| && ds[j] == Some(d);
    assert rows[j] == lines[j + 1];
    assert SecondField(lines[j + 1]) == Some(d);
  }

  /** The domain column of every data row that has one is listed. */
  lemma DomainsComplete(csv: string, i: int)
    requires FirstRow <= i < |Split(csv, '\n')| && i < EndRow
    requires Domain(Split(csv, '\n')[i]).Some?
    ensures Domain(Split(csv, '\n')[i]).value in Domains(csv)
  {
    var ds := RowDomains(DataRows(csv));
    assert ds[i - 1] == Domain(Split(csv, '\n')[i]);
  }

  /** The domains keep the order of their rows. */
  lemma DomainsInOrder(csv: string)
    ensures IsSubsequence(Wrap(Domains(csv)), RowDomains(DataRows(csv)))
  {
    PresentIsSubsequence(RowDomains(DataRows(csv)));
  }

  /** Nothing is trimmed: a Windows line ending leaves its `\r` on the
      domain. */
  lemma CarriageReturnKept()
    ensures Domains("rank,domain\n1,a.com\r") == ["a.com\r"]
  {
    var row := "1,a.com\r";
    RowsOfExample();
    SecondFieldOfRow();
    var ds := RowDomains([row]);
    assert ds == [Some("a.com\r")];
    assert Present(ds[1..]) == [];
  }

  lemma RowsOfExample()
    ensures DataRows("rank,domain\n1,a.com\r") == ["1,a.com\r"]
  {
    var h, row := "rank,domain", "1,a.com\r";
    assert '\n' !in h;
    assert '\n' !in row;
    assert h + "\n" + row == "rank,domain\n1,a.com\r";
    DataRowsAfterHeader(h, row);
    SplitNoSeparator(row, '\n');
    assert Split(row, '\n')[..1] == [row];
  }

  lemma SecondFieldOfRow()
    ensures Domain("1,a.com\r") == Some("a.com\r")
  {
    var row, field := "1,a.com\r", "a.com\r";
    assert ',' !in "1" && ',' !in field;
    assert row == "1" + [','] + field;
    SplitFirst("1", ',', field);
    SplitNoSeparator(field, ',');
    assert Split(row, ',') == ["1", field];
  }
}
