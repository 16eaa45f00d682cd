/**
 * The CSV text `downloadResults` offers for download: a fixed header line,
 * then one line per matching record, in order, each field wrapped in double
 * quotes (quotes inside a value are not escaped) and preceded by the
 * record's 1-based index.
 */
module CsvExport {
  import opened Wrappers
  import opened Seqs
  import opened Text
  import opened LandRecords

  /** The column labels: index, taluka, village, holder name, year, survey number, type, link. */
  const HeaderLabels: seq<string> := ["अ.क्र.", "तालुका", "गाव", "रेखांकन धारकाचे नाव", "रेखांकन वर्ष", "सर्व्हे क्रमांक", "बिनशेती प्रकार", "डाउनलोड लिंक"]

  /** Labels separated by commas, unquoted. */
  function JoinCommas(labels: seq<string>): string
  {
    if labels == [] then "" else if |labels| == 1 then labels[0] else labels[0] + [','] + JoinCommas(labels[1..])
  }

  /** The header line of the file: the labels separated by commas. */
  const Header: string := JoinCommas(HeaderLabels)

  /** Export with no matching record produces no file. */
  datatype ExportError = NoResultsToDownload

  function Quote(s: string): string
  {
    ['"'] + s + ['"']
  }

  /** `"f1","f2",...,"fn"` */
  function JoinQuoted(fields: seq<string>): string
  {
    if fields == [] then ""
    else if |fields| == 1 then Quote(fields[0])
    else Quote(fields[0]) + [','] + JoinQuoted(fields[1..])
  }

  /** The eight values of the row for the record at 1-based position `index`. */
  function RowFields(index: nat, r: Record): seq<string>
  {
    [ShowNat(index), r.taluka, r.village, r.holderName, ShowInt(r.year), r.surveyNo, r.landType, r.downloadLink]
  }

  /** The row of the record at position `index`: its quoted values, starting with `"index",`. */
  function RowLine(index: nat, r: Record): (line: string)
    ensures StartsWith(line, Quote(ShowNat(index)) + [','])
  {
    var fields := RowFields(index, r);
    JoinQuotedCons(fields);
    JoinQuoted(fields)
  }

  /** One row per record, numbered from 1 in record order. */
  function RowLines(records: seq<Record>): seq<string>
  {
    seq(|records|, i requires 0 <= i < |records| => RowLine(i + 1, records[i]))
  }

  /** Each line followed by a line break. */
  function Unlines(lines: seq<string>): string
  {
    if lines == [] then "" else lines[0] + ['\n'] + Unlines(lines[1..])
  }

  /** The whole file: the header line, then one line per record, each ended by a line break. */
  function CsvText(records: seq<Record>): (text: string)
    ensures StartsWith(text, Header + ['\n'])
  {
    Header + ['\n'] + Unlines(RowLines(records))
  }

  /** What an export of `records` yields: an error when there is nothing to export, else the CSV text. */
  function Export(records: seq<Record>): (res: Result<string, ExportError>)
    ensures res.Failure? <==> records == []
    ensures res.Success? ==> StartsWith(res.value, Header + ['\n'])
  {
    if records == [] then Failure(NoResultsToDownload) else Success(CsvText(records))
  }

  /**
   * The CSV building step of `downloadResults`: refuse an empty result
   * list, else start from the header line and append one row and a line
   * break per record, in order.
   */
  method BuildCsv(filtered: seq<Record>) returns (res: Result<string, ExportError>)
    ensures res == Export(filtered)
    ensures res.Failure? <==> filtered == []
  {
    if |filtered| == 0 {
      return Failure(NoResultsToDownload);
    }
    var csvContent := Header + ['\n'];
    assert csvContent == CsvText(filtered[..0]) by {
      assert RowLines(filtered[..0]) == [];
    }
    var index := 0;
    while index < |filtered|
      invariant 0 <= index <= |filtered|
      invariant csvContent == CsvText(filtered[..index])
    {
      var line := RowLine(index + 1, filtered[index]);
      assert csvContent + line + ['\n'] == CsvText(filtered[..index + 1]) by {
        CsvTextSnoc(filtered, index);
      }
      csvContent := csvContent + line + ['\n'];
      index := index + 1;
    }
    assert filtered[..index] == filtered;
    res := Success(csvContent);
  }

  /** Adding a record adds its row and a line break at the end of the text. */
  lemma CsvTextSnoc(records: seq<Record>, index: nat)
    requires index < |records|
    ensures CsvText(records[..index + 1]) == CsvText(records[..index]) + RowLine(index + 1, records[index]) + ['\n']
  {
    RowLinesSnoc(records, index);
    UnlinesSnoc(RowLines(records[..index]), RowLine(index + 1, records[index]));
  }

  lemma RowLinesSnoc(records: seq<Record>, index: nat)
    requires index < |records|
    ensures RowLines(records[..index + 1]) == RowLines(records[..index]) + [RowLine(index + 1, records[index])]
  {
  }

  lemma {:induction false} UnlinesSnoc(lines: seq<string>, line: string)
    ensures Unlines(lines + [line]) == Unlines(lines) + line + "\n"
    decreases |lines|
  {
    if lines == [] {
      assert [] + [line] == [line];
    } else {
      assert (lines + [line])[1..] == lines[1..] + [line];
      UnlinesSnoc(lines[1..], line);
    }
  }

  /** `text.split('\n')`: the pieces between line breaks, the last one after the final break. */
  function SplitLines(text: string): seq<string>
    decreases |text|
  {
    var i := IndexOf(text, '\n');
    if i == |text| then [text] else [text[..i]] + SplitLines(text[i + 1..])
  }

  /** Splitting a line, a break and the rest gives the line, then the pieces of the rest. */
  lemma SplitStep(line: string, rest: string)
    requires '\n' !in line
    ensures SplitLines(line + ['\n'] + rest) == [line] + SplitLines(rest)
  {
    var text := line + ['\n'] + rest;
    IndexOfAfter(line, '\n', rest);
    assert text[..|line|] == line;
    assert text[|line| + 1..] == rest;
  }

  /** Splitting what `Unlines` joined gives the lines back, then the empty piece after the last break. */
  lemma {:induction false} SplitUnlines(lines: seq<string>)
    requires forall k :: 0 <= k < |lines| ==> '\n' !in lines[k]
    ensures SplitLines(Unlines(lines)) == lines + [""]
    decreases |lines|
  {
    if lines != [] {
      var rest := Unlines(lines[1..]);
      assert Unlines(lines) == lines[0] + ['\n'] + rest;
      assert SplitLines(Unlines(lines)) == [lines[0]] + SplitLines(rest) by {
        SplitStep(lines[0], rest);
      }
      assert SplitLines(rest) == lines[1..] + [""] by {
        SplitUnlines(lines[1..]);
      }
      assert lines == [lines[0]] + lines[1..];
    }
  }

  /** None of a record's text fields holds a line break. */
  predicate NoLineBreaks(r: Record)
  {
    '\n' !in r.taluka && '\n' !in r.village && '\n' !in r.holderName &&
    '\n' !in r.surveyNo && '\n' !in r.landType && '\n' !in r.downloadLink
  }

  /** None of a record's text fields holds a double quote. */
  predicate NoQuotes(r: Record)
  {
    '"' !in r.taluka && '"' !in r.village && '"' !in r.holderName &&
    '"' !in r.surveyNo && '"' !in r.landType && '"' !in r.downloadLink
  }

  lemma {:induction false} JoinQuotedAvoids(fields: seq<string>, c: char)
    requires c != '"' && c != ','
    requires forall k :: 0 <= k < |fields| ==> c !in fields[k]
    ensures c !in JoinQuoted(fields)
    decreases |fields|
  {
    if |fields| > 1 {
      JoinQuotedAvoids(fields[1..], c);
    }
  }

  lemma {:induction false} JoinCommasAvoids(labels: seq<string>, c: char)
    requires c != ','
    requires forall k :: 0 <= k < |labels| ==> c !in labels[k]
    ensures c !in JoinCommas(labels)
    decreases |labels|
  {
    if |labels| > 1 {
      JoinCommasAvoids(labels[1..], c);
    }
  }

  lemma HeaderHasNoLineBreak()
    ensures '\n' !in Header
  {
    JoinCommasAvoids(HeaderLabels, '\n');
  }

  lemma RowLineHasNoLineBreak(index: nat, r: Record)
    requires NoLineBreaks(r)
    ensures '\n' !in RowLine(index, r)
  {
    ShowIntPlain(r.year);
    JoinQuotedAvoids(RowFields(index, r), '\n');
  }

  /**
   * When no value holds a line break, the CSV text splits into the header,
   * then exactly one line per record, in record order, each starting with
   * its quoted 1-based index, then nothing after the final break.
   */
  lemma CsvLines(records: seq<Record>)
    requires forall k :: 0 <= k < |records| ==> NoLineBreaks(records[k])
    ensures SplitLines(CsvText(records)) == [Header] + RowLines(records) + [""]
    ensures forall k :: 0 <= k < |records| ==> StartsWith(RowLines(records)[k], Quote(ShowNat(k + 1)) + [','])
  {
    var rows := RowLines(records);
    var lines := [Header] + rows;
    assert CsvText(records) == Unlines(lines) by {
      assert lines[0] == Header && lines[1..] == rows;
    }
    assert SplitLines(Unlines(lines)) == lines + [""] by {
      forall k | 0 <= k < |lines|
        ensures '\n' !in lines[k]
      {
        if k == 0 {
          HeaderHasNoLineBreak();
        } else {
          RowLineHasNoLineBreak(k, records[k - 1]);
        }
      }
      SplitUnlines(lines);
    }
    forall k | 0 <= k < |records|
      ensures StartsWith(rows[k], Quote(ShowNat(k + 1)) + [','])
    {
      assert rows[k] == RowLine(k + 1, records[k]);
    }
  }

  /**
   * Reading a line of quoted fields back: each field starts with a quote
   * and ends at the next quote, and fields are separated by commas.
   */
  function UnquoteFields(line: string): Option<seq<string>>
    decreases |line|
  {
    if line == [] || line[0] != '"' then None
    else
      var body := line[1..];
      var close := IndexOf(body, '"');
      if close == |body| then None
      else
        var rest := body[close + 1..];
        if rest == [] then Some([body[..close]])
        else if rest[0] != ',' then None
        else
          match UnquoteFields(rest[1..])
          case None => None
          case Some(more) => Some([body[..close]] + more)
  }

  /** One step of the reader: a quoted value without quotes inside, then whatever follows it. */
  lemma UnquoteStep(field: string, tail: string)
    requires '"' !in field
    ensures UnquoteFields(Quote(field) + tail) ==
      if tail == [] then Some([field])
      else if tail[0] != ',' then None
      else match UnquoteFields(tail[1..])
        case None => None
        case Some(more) => Some([field] + more)
  {
    QuoteParts(field, tail);
    var body := field + ['"'] + tail;
    IndexOfAfter(field, '"', tail);
    assert body[..|field|] == field;
    assert body[|field| + 1..] == tail;
  }

  lemma QuoteParts(field: string, tail: string)
    ensures (Quote(field) + tail)[0] == '"'
    ensures (Quote(field) + tail)[1..] == field + ['"'] + tail
  {
  }

  /** Quoted fields without quotes inside read back as themselves. */
  lemma {:induction false} UnquoteJoinQuoted(fields: seq<string>)
    requires fields != []
    requires forall k :: 0 <= k < |fields| ==> '"' !in fields[k]
    ensures UnquoteFields(JoinQuoted(fields)) == Some(fields)
    decreases |fields|
  {
    if |fields| == 1 {
      assert JoinQuoted(fields) == Quote(fields[0]) + [];
      UnquoteStep(fields[0], []);
      assert fields == [fields[0]];
    } else {
      var tail := [','] + JoinQuoted(fields[1..]);
      assert JoinQuoted(fields) == Quote(fields[0]) + tail;
      assert tail[0] == ',' && tail[1..] == JoinQuoted(fields[1..]);
      UnquoteStep(fields[0], tail);
      UnquoteJoinQuoted(fields[1..]);
      assert [fields[0]] + fields[1..] == fields;
    }
  }

  /** Decode a CSV row into its index and the record it shows. */
  function ParseRow(line: string): Option<(nat, Record)>
  {
    match UnquoteFields(line)
    case None => None
    case Some(f) =>
      if |f| == 8 && AllDigits(f[0]) && ParseInt(f[4]).Some? then
        Some((DigitsValue(f[0]), Record(f[1], f[2], f[3], ParseInt(f[4]).value, f[5], f[6], f[7])))
      else None
  }

  /** A row of a record whose values hold no double quote decodes to its index and the record. */
  lemma ParseRowLine(index: nat, r: Record)
    requires NoQuotes(r)
    ensures ParseRow(RowLine(index, r)) == Some((index, r))
  {
    var f := RowFields(index, r);
    ShowIntPlain(r.year);
    assert '"' !in ShowNat(index);
    UnquoteJoinQuoted(f);
    ParseShowInt(r.year);
  }

  /**
   * When no value holds a quote or a line break, the text splits into the
   * header, one line per record and a final empty line, and line `k + 1`
   * reads back as number `k + 1` and the `k`-th record.
   */
  lemma CsvReadsBack(records: seq<Record>)
    requires forall k :: 0 <= k < |records| ==> NoLineBreaks(records[k]) && NoQuotes(records[k])
    ensures
      var lines := SplitLines(CsvText(records));
      |lines| == |records| + 2 && lines[0] == Header &&
      forall k :: 0 <= k < |records| ==> ParseRow(lines[k + 1]) == Some((k + 1, records[k]))
  {
    var lines := SplitLines(CsvText(records));
    var rows := RowLines(records);
    assert lines == [Header] + rows + [""] by {
      CsvLines(records);
    }
    RowsReadBack(records);
    assert forall k :: 0 <= k < |records| ==> lines[k + 1] == rows[k];
  }

  /** Row `k` of records whose values hold no double quote reads back as `k + 1` and the record. */
  lemma RowsReadBack(records: seq<Record>)
    requires forall k :: 0 <= k < |records| ==> NoQuotes(records[k])
    ensures forall k :: 0 <= k < |records| ==> ParseRow(RowLines(records)[k]) == Some((k + 1, records[k]))
  {
    forall k | 0 <= k < |records|
      ensures ParseRow(RowLines(records)[k]) == Some((k + 1, records[k]))
    {
      ParseRowLine(k + 1, records[k]);
    }
  }

  lemma JoinQuotedCons(fields: seq<string>)
    requires |fields| > 1
    ensures JoinQuoted(fields) == Quote(fields[0]) + ([','] + JoinQuoted(fields[1..]))
  {
  }

  /** A line whose later fields do not read back does not read back either. */
  lemma UnquoteNoneCons(field: string, rest: string)
    requires '"' !in field
    requires UnquoteFields(rest) == None
    ensures UnquoteFields(Quote(field) + ([','] + rest)) == None
  {
    var tail := [','] + rest;
    assert tail[0] == ',' && tail[1..] == rest;
    UnquoteStep(field, tail);
  }

  /**
   * Because quotes are not escaped, a holder name that is a lone double
   * quote produces a row that no longer reads back at all.
   */
  lemma QuoteInValueBreaksRow(index: nat, r: Record)
    requires '"' !in r.taluka && '"' !in r.village
    requires r.holderName == "\""
    ensures ParseRow(RowLine(index, r)) == None
  {
    var f := RowFields(index, r);
    assert '"' !in ShowNat(index);
    // the quoted holder name reads as an empty value followed by a stray quote
    var tail := ['"', ','] + JoinQuoted(f[4..]);
    JoinQuotedCons(f[3..]);
    assert f[3..][0] == ['"'] && f[3..][1..] == f[4..];
    assert JoinQuoted(f[3..]) == Quote("") + tail;
    UnquoteStep("", tail);
    assert UnquoteFields(JoinQuoted(f[3..])) == None;
    JoinQuotedCons(f[2..]);
    assert f[2..][1..] == f[3..];
    UnquoteNoneCons(f[2], JoinQuoted(f[3..]));
    JoinQuotedCons(f[1..]);
    assert f[1..][1..] == f[2..];
    UnquoteNoneCons(f[1], JoinQuoted(f[2..]));
    JoinQuotedCons(f);
    UnquoteNoneCons(f[0], JoinQuoted(f[1..]));
  }
}
