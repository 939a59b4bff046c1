/** Reading the scheduler's job listing: the table `squeue -u $USER` prints, one
    header line naming the columns and one line per job.  Columns are located by
    their header names, so any column order is understood. */
module Squeue {
  import opened Wrappers
  import opened Text
  import opened Elapsed

  /** A Slurm job id, exactly as the scheduler prints it. */
  type JobId = string

  /** A point in time, in whole seconds. */
  type Time = int

  /** One job of the listing: its id, when it started (absent when its elapsed
      time reads as 0) and its NODELIST(REASON) field (`""` when the row has no
      such column). */
  datatype Row = Row(id: JobId, start: Option<Time>, nodelist: string)

  const TimeColumn := "TIME"
  const JobIdColumn := "JOBID"
  const NodelistColumn := "NODELIST(REASON)"

  /** The positions of the three columns the tracker reads. */
  datatype Columns = Columns(time: nat, jobId: nat, nodelist: nat)

  // ---------------------------------------------------------------------------
  // is_slurm_reason
  // ---------------------------------------------------------------------------

  /** `is_slurm_reason`: a NODELIST(REASON) field names a pending reason rather
      than nodes when it is missing, empty, or wrapped in parentheses. */
  predicate IsReason(reason: Option<string>) {
    match reason
    case None => true
    case Some(r) => r == "" || (|r| > 0 && r[0] == '(' && r[|r| - 1] == ')')
  }

  /** Both directions of the rule: every parenthesised text is a reason, and a
      non-empty reason is a parenthesised text. */
  lemma IsReasonCharacterization(r: string)
    ensures forall inner :: IsReason(Some("(" + inner + ")"))
    ensures IsReason(Some(r)) && r != "" ==> |r| >= 2 && r == "(" + r[1..|r| - 1] + ")"
  {
    forall inner ensures IsReason(Some("(" + inner + ")")) {
      var w := "(" + inner + ")";
      assert w[0] == '(' && w[|w| - 1] == ')';
    }
    if IsReason(Some(r)) && r != "" {
      assert r == [r[0]] + r[1..|r| - 1] + [r[|r| - 1]];
    }
  }

  /** A pending job shows its reason, a running one its node; a lone opening
      parenthesis is no reason. */
  lemma IsReasonExamples()
    ensures IsReason(Some("(Resources)"))
    ensures !IsReason(Some("node03"))
    ensures !IsReason(Some("("))
    ensures IsReason(Some("")) && IsReason(None)
  {
  }

  // ---------------------------------------------------------------------------
  // The header
  // ---------------------------------------------------------------------------

  /** The columns named TIME, JOBID and NODELIST(REASON), each at the first
      position holding its name; `None` when one of the names is missing (the
      `ValueError` of `list.index`, which the tracker turns into an empty poll). */
  function LocateColumns(header: string): (r: Option<Columns>)
    ensures r.Some? <==> TimeColumn in SplitWs(header) && JobIdColumn in SplitWs(header)
                         && NodelistColumn in SplitWs(header)
    ensures r.Some? ==> FirstAt(SplitWs(header), TimeColumn, r.value.time)
    ensures r.Some? ==> FirstAt(SplitWs(header), JobIdColumn, r.value.jobId)
    ensures r.Some? ==> FirstAt(SplitWs(header), NodelistColumn, r.value.nodelist)
  {
    var names := SplitWs(header);
    match (IndexOf(names, TimeColumn), IndexOf(names, JobIdColumn), IndexOf(names, NodelistColumn))
    case (Some(t), Some(j), Some(n)) => Some(Columns(t, j, n))
    case _ => None
  }

  /** `i` is the first position of `x` in `xs`. */
  predicate FirstAt(xs: seq<string>, x: string, i: nat) {
    i < |xs| && xs[i] == x && x !in xs[..i]
  }

  // ---------------------------------------------------------------------------
  // One job line
  // ---------------------------------------------------------------------------

  /** The start of a job that has run for `elapsed` seconds at `now`; a job whose
      elapsed time reads as 0 has no start. */
  function ObservedStart(now: Time, elapsed: int): (r: Option<Time>)
    ensures r.Some? <==> elapsed > 0
    ensures r.Some? ==> r.value == now - elapsed && r.value < now
  {
    if elapsed > 0 then Some(now - elapsed) else None
  }

  /** A row as the parser can produce it: a token for the id, a token or nothing
      for the nodelist, and a start strictly before the poll. */
  predicate Plausible(row: Row, now: Time) {
    IsToken(row.id) && (row.nodelist == "" || IsToken(row.nodelist))
    && (row.start.Some? ==> row.start.value < now)
  }

  /** Too few columns to hold the JOBID field. */
  predicate Short(line: string, cols: Columns) {
    |SplitWs(line)| <= cols.jobId
  }

  /** One job line: the JOBID, TIME and NODELIST(REASON) fields taken by
      position.  A line without a TIME field is skipped (`None`); a missing
      nodelist reads as `""`.  A line too short to hold a JOBID is skipped as
      well, where the program as written raises (see `ParseRowAsWritten`). */
  function ParseRow(line: string, cols: Columns, now: Time): (r: Option<Row>)
    ensures r.None? <==> Short(line, cols) || |SplitWs(line)| <= cols.time
    ensures r.Some? ==> r.value.id == SplitWs(line)[cols.jobId]
    ensures r.Some? ==> r.value.start == ObservedStart(now, TimeToSeconds(SplitWs(line)[cols.time]))
    ensures r.Some? ==> r.value.nodelist == (if cols.nodelist < |SplitWs(line)| then SplitWs(line)[cols.nodelist] else "")
    ensures r.Some? ==> Plausible(r.value, now)
  {
    var fields := SplitWs(line);
    if |fields| <= cols.jobId then None
    // A missing TIME field reads as "", the only field whose strip is empty:
    // every field `split()` yields holds a non-space character.
    else if |fields| <= cols.time then None
    else
      var nodelist := if |fields| > cols.nodelist then fields[cols.nodelist] else "";
      Some(Row(fields[cols.jobId], ObservedStart(now, TimeToSeconds(fields[cols.time])), nodelist))
  }

  /** A line holding JOBID and TIME but not NODELIST(REASON) is kept, with an
      empty nodelist. */
  lemma ParseRowWithoutNodelist(line: string, cols: Columns, now: Time)
    requires cols.jobId < |SplitWs(line)| && cols.time < |SplitWs(line)| <= cols.nodelist
    ensures ParseRow(line, cols, now).Some? && ParseRow(line, cols, now).value.nodelist == ""
  {
  }

  /** The job lines, in order, each parsed or skipped. */
  function ParseRows(lines: seq<string>, cols: Columns, now: Time): (r: seq<Row>)
    ensures |r| <= |lines|
    ensures forall k :: 0 <= k < |r| ==> Plausible(r[k], now)
  {
    if |lines| == 0 then []
    else
      var first := match ParseRow(lines[0], cols, now) case None => [] case Some(row) => [row];
      assert forall k :: 1 <= k < |lines| ==> lines[1..][k - 1] == lines[k];
      first + ParseRows(lines[1..], cols, now)
  }

  /** Every line gives a row. */
  predicate AllParse(lines: seq<string>, cols: Columns, now: Time) {
    forall k :: 0 <= k < |lines| ==> ParseRow(lines[k], cols, now).Some?
  }

  /** When every line gives a row, the rows are exactly those of the lines, one
      per line and in the same order. */
  lemma {:induction false} ParseRowsAll(lines: seq<string>, cols: Columns, now: Time)
    requires AllParse(lines, cols, now)
    ensures |ParseRows(lines, cols, now)| == |lines|
    ensures forall k :: 0 <= k < |lines| ==> ParseRow(lines[k], cols, now) == Some(ParseRows(lines, cols, now)[k])
  {
    if |lines| > 0 {
      var tail := lines[1..];
      AllParseTail(lines, cols, now);
      ParseRowsAll(tail, cols, now);
      var rows := ParseRows(lines, cols, now);
      var rest := ParseRows(tail, cols, now);
      var first := ParseRow(lines[0], cols, now);
      assert rows == [first.value] + rest;
      forall k | 0 <= k < |lines| ensures ParseRow(lines[k], cols, now) == Some(rows[k]) {
        if k > 0 {
          assert lines[k] == tail[k - 1] && rows[k] == rest[k - 1];
        }
      }
    }
  }

  lemma AllParseTail(lines: seq<string>, cols: Columns, now: Time)
    requires |lines| > 0 && AllParse(lines, cols, now)
    ensures ParseRow(lines[0], cols, now).Some? && AllParse(lines[1..], cols, now)
  {
    assert forall k :: 0 <= k < |lines[1..]| ==> lines[1..][k] == lines[k + 1];
  }

  /** A line that gives no row adds nothing: it is skipped, wherever it stands. */
  lemma ParseRowsSkip(a: seq<string>, line: string, b: seq<string>, cols: Columns, now: Time)
    requires ParseRow(line, cols, now).None?
    ensures ParseRows(a + [line] + b, cols, now) == ParseRows(a + b, cols, now)
  {
    ParseRowsAround(a, line, b, cols, now);
    ParseRowsAppend(a, b, cols, now);
  }

  /** A line that gives a row adds exactly that row, in its place. */
  lemma ParseRowsKeep(a: seq<string>, line: string, b: seq<string>, cols: Columns, now: Time)
    requires ParseRow(line, cols, now).Some?
    ensures ParseRows(a + [line] + b, cols, now)
            == ParseRows(a, cols, now) + [ParseRow(line, cols, now).value] + ParseRows(b, cols, now)
  {
    ParseRowsAround(a, line, b, cols, now);
  }

  lemma ParseRowsAround(a: seq<string>, line: string, b: seq<string>, cols: Columns, now: Time)
    ensures ParseRows(a + [line] + b, cols, now)
            == ParseRows(a, cols, now) + ParseRows([line], cols, now) + ParseRows(b, cols, now)
  {
    ParseRowsAppend(a + [line], b, cols, now);
    ParseRowsAppend(a, [line], cols, now);
  }

  /** The rows of consecutive runs of lines follow one another: rows keep their
      lines' order. */
  lemma {:induction false} ParseRowsAppend(a: seq<string>, b: seq<string>, cols: Columns, now: Time)
    ensures ParseRows(a + b, cols, now) == ParseRows(a, cols, now) + ParseRows(b, cols, now)
  {
    if |a| > 0 {
      assert (a + b)[0] == a[0] && (a + b)[1..] == a[1..] + b;
      var first := match ParseRow(a[0], cols, now) case None => [] case Some(row) => [row];
      assert ParseRows(a + b, cols, now) == first + ParseRows(a[1..] + b, cols, now);
      assert ParseRows(a, cols, now) == first + ParseRows(a[1..], cols, now);
      ParseRowsAppend(a[1..], b, cols, now);
    } else {
      assert a + b == b;
    }
  }

  // ---------------------------------------------------------------------------
  // The whole listing
  // ---------------------------------------------------------------------------

  /** The header's columns and the job lines of a listing: `None` for a listing
      of fewer than two lines or a header without one of the three column names. */
  function Sections(text: string): (r: Option<(Columns, seq<string>)>)
    ensures r.Some? ==> r.value.1 == Split(Strip(text), '\n')[1..]
  {
    Divide(Split(Strip(text), '\n'))
  }

  /** The header's columns and the job lines, from the lines of the stripped
      output. */
  function Divide(lines: seq<string>): (r: Option<(Columns, seq<string>)>)
    ensures r.Some? ==> |lines| >= 2 && r.value.1 == lines[1..]
  {
    if |lines| < 2 then None
    else
      match LocateColumns(lines[0])
      case None => None
      case Some(cols) => Some((cols, lines[1..]))
  }

  /** The rows of `get_current_jobs`.  `output` is what `squeue` printed, `None`
      when it failed.  A failed poll, a listing of fewer than two lines, or a
      header without one of the three column names gives no rows. */
  function ParseSqueue(output: Option<string>, now: Time): (r: seq<Row>)
    ensures output.None? ==> r == []
    ensures output.Some? && Sections(output.value).None? ==> r == []
    ensures forall k :: 0 <= k < |r| ==> Plausible(r[k], now)
  {
    match output
    case None => []
    case Some(text) =>
      match Sections(text)
      case None => []
      case Some((cols, jobs)) => ParseRows(jobs, cols, now)
  }

  /** A listing whose header lacks one of the three column names gives no rows. */
  lemma ParseSqueueMissingColumn(text: string, now: Time)
    requires var names := SplitWs(Split(Strip(text), '\n')[0]);
             TimeColumn !in names || JobIdColumn !in names || NodelistColumn !in names
    ensures ParseSqueue(Some(text), now) == []
  {
  }

  /** A listing of one line (the header alone, or nothing) gives no rows. */
  lemma ParseSqueueSingleLine(text: string, now: Time)
    requires '\n' !in Strip(text)
    ensures ParseSqueue(Some(text), now) == []
  {
    SplitNoSeparator(Strip(text), '\n');
  }

  // ---------------------------------------------------------------------------
  // Printing a listing, and reading it back
  // ---------------------------------------------------------------------------

  /** Whitespace that stays within one line. */
  predicate Blank(w: string) {
    AllSpace(w) && '\n' !in w
  }

  /** One printed line: its fields, the runs of blanks between them, and the
      blanks before the first field and after the last, as `squeue` pads and
      right-aligns its columns. */
  datatype Layout = Layout(indent: string, fields: seq<string>, gaps: seq<string>, padding: string)

  /** A line of one or more fields separated by non-empty runs of blanks. */
  predicate WellLaid(l: Layout) {
    && |l.fields| > 0 && |l.gaps| == |l.fields| - 1
    && AllTokens(l.fields) && Separators(l.gaps)
    && Blank(l.indent) && Blank(l.padding)
    && forall k :: 0 <= k < |l.gaps| ==> '\n' !in l.gaps[k]
  }

  /** The text of a printed line: one line, whose `split()` is its fields. */
  function LineText(l: Layout): (r: string)
    requires WellLaid(l)
    ensures SplitWs(r) == l.fields && '\n' !in r
  {
    SplitWsSpaced(l.indent, l.fields, l.gaps, l.padding);
    assert forall k :: 0 <= k < |l.fields| ==> '\n' !in l.fields[k] by {
      forall k | 0 <= k < |l.fields| ensures '\n' !in l.fields[k] {
        assert IsToken(l.fields[k]) && IsSpace('\n');
      }
    }
    SpacedAvoids(l.fields, l.gaps, '\n');
    l.indent + Spaced(l.fields, l.gaps) + l.padding
  }

  function LineTexts(lines: seq<Layout>): (r: seq<string>)
    requires forall k :: 0 <= k < |lines| ==> WellLaid(lines[k])
    ensures |r| == |lines| && forall k :: 0 <= k < |r| ==> r[k] == LineText(lines[k])
  {
    if |lines| == 0 then [] else [LineText(lines[0])] + LineTexts(lines[1..])
  }

  /** A listing as `squeue` prints it: whitespace (the header's indentation, or
      blank lines), the lines joined by line breaks, and whitespace (the last
      line's padding and the final line break). */
  function Listing(before: string, lines: seq<Layout>, after: string): string
    requires forall k :: 0 <= k < |lines| ==> WellLaid(lines[k])
  {
    before + Join(LineTexts(lines), '\n') + after
  }

  /** A listing whose leading and trailing whitespace is all in `before` and
      `after`: the first line's indentation and the last line's padding are
      counted there. */
  predicate GoodListing(before: string, lines: seq<Layout>, after: string) {
    && AllSpace(before) && AllSpace(after) && |lines| > 0
    && (forall k :: 0 <= k < |lines| ==> WellLaid(lines[k]))
    && lines[0].indent == [] && lines[|lines| - 1].padding == []
  }

  /** A header that names the three columns. */
  predicate GoodHeader(header: seq<string>) {
    TimeColumn in header && JobIdColumn in header && NodelistColumn in header
  }

  /** The columns a good header names, each at the first position of its name. */
  function HeaderColumns(header: seq<string>): (r: Columns)
    requires GoodHeader(header)
    ensures FirstAt(header, TimeColumn, r.time) && FirstAt(header, JobIdColumn, r.jobId)
    ensures FirstAt(header, NodelistColumn, r.nodelist)
  {
    Columns(IndexOf(header, TimeColumn).value, IndexOf(header, JobIdColumn).value,
            IndexOf(header, NodelistColumn).value)
  }

  /** Stripping a printed listing and splitting it at its line breaks gives back
      its lines. */
  lemma ListingLines(before: string, lines: seq<Layout>, after: string)
    requires GoodListing(before, lines, after)
    ensures Split(Strip(Listing(before, lines, after)), '\n') == LineTexts(lines)
  {
    BodyEdges(lines);
    LineTextsOneLine(lines);
    ReadBack(before, LineTexts(lines), after);
  }

  /** Lines joined by line breaks, with their edges not blank, come back from
      stripping the surrounding whitespace and splitting at the breaks. */
  lemma ReadBack(before: string, texts: seq<string>, after: string)
    requires AllSpace(before) && AllSpace(after) && |texts| > 0
    requires forall k :: 0 <= k < |texts| ==> '\n' !in texts[k]
    requires var body := Join(texts, '\n'); |body| > 0 && !IsSpace(body[0]) && !IsSpace(body[|body| - 1])
    ensures Split(Strip(before + Join(texts, '\n') + after), '\n') == texts
  {
    StripAround(before, Join(texts, '\n'), after);
    SplitJoin(texts, '\n');
  }

  lemma LineTextsOneLine(lines: seq<Layout>)
    requires forall k :: 0 <= k < |lines| ==> WellLaid(lines[k])
    ensures forall k :: 0 <= k < |lines| ==> '\n' !in LineTexts(lines)[k]
  {
  }

  /** The lines of a good listing, joined, neither start nor end with whitespace. */
  lemma BodyEdges(lines: seq<Layout>)
    requires |lines| > 0 && forall k :: 0 <= k < |lines| ==> WellLaid(lines[k])
    requires lines[0].indent == [] && lines[|lines| - 1].padding == []
    ensures var body := Join(LineTexts(lines), '\n');
            |body| > 0 && !IsSpace(body[0]) && !IsSpace(body[|body| - 1])
  {
    LineTextsEdges(lines);
    JoinNotBlankAtEdges(LineTexts(lines));
  }

  /** The printed lines are not empty; the first starts and the last ends with a
      field. */
  lemma LineTextsEdges(lines: seq<Layout>)
    requires |lines| > 0 && forall k :: 0 <= k < |lines| ==> WellLaid(lines[k])
    requires lines[0].indent == [] && lines[|lines| - 1].padding == []
    ensures var texts := LineTexts(lines);
            && (forall k :: 0 <= k < |texts| ==> |texts[k]| > 0)
            && !IsSpace(texts[0][0])
            && var l := texts[|texts| - 1]; !IsSpace(l[|l| - 1])
  {
    LineTextsNonEmpty(lines);
    LineEdges(lines[0]);
    LineEdges(lines[|lines| - 1]);
  }

  lemma JoinNotBlankAtEdges(texts: seq<string>)
    requires |texts| > 0 && forall k :: 0 <= k < |texts| ==> |texts[k]| > 0
    requires !IsSpace(texts[0][0])
    requires var l := texts[|texts| - 1]; !IsSpace(l[|l| - 1])
    ensures var body := Join(texts, '\n');
            |body| > 0 && !IsSpace(body[0]) && !IsSpace(body[|body| - 1])
  {
    JoinEdges(texts, '\n');
  }

  lemma LineTextsNonEmpty(lines: seq<Layout>)
    requires forall k :: 0 <= k < |lines| ==> WellLaid(lines[k])
    ensures forall k :: 0 <= k < |lines| ==> |LineTexts(lines)[k]| > 0
  {
    forall k | 0 <= k < |lines| ensures |LineTexts(lines)[k]| > 0 {
      LineEdges(lines[k]);
    }
  }

  /** A printed line is not empty; without indentation it starts with its first
      field, and without padding it ends with its last. */
  lemma LineEdges(l: Layout)
    requires WellLaid(l)
    ensures var t := LineText(l);
            && |t| > 0
            && (l.indent == [] ==> !IsSpace(t[0]))
            && (l.padding == [] ==> !IsSpace(t[|t| - 1]))
  {
    var t := LineText(l);
    var core := Spaced(l.fields, l.gaps);
    SpacedEdges(l.fields, l.gaps);
    assert t == l.indent + core + l.padding;
    assert IsToken(l.fields[0]) && IsToken(l.fields[|l.fields| - 1]);
    if l.indent == [] {
      assert t[0] == core[0];
    }
    if l.padding == [] {
      assert t[|t| - 1] == core[|core| - 1];
    }
  }

  /** A printed listing splits into its header, which locates the columns, and
      its job lines; a listing of the header alone gives nothing. */
  lemma ListingSections(before: string, header: Layout, jobs: seq<Layout>, after: string)
    requires GoodListing(before, [header] + jobs, after) && GoodHeader(header.fields)
    ensures |jobs| == 0 ==> Sections(Listing(before, [header] + jobs, after)) == None
    ensures |jobs| > 0 ==> Sections(Listing(before, [header] + jobs, after))
                           == Some((HeaderColumns(header.fields), LineTexts(jobs)))
  {
    LineTextsCons(header, jobs);
    var text := Listing(before, [header] + jobs, after);
    ListingLines(before, [header] + jobs, after);
    var texts := [LineText(header)] + LineTexts(jobs);
    assert Sections(text) == Divide(texts);
    if |jobs| > 0 {
      LocateHeader(header);
      assert texts[1..] == LineTexts(jobs);
    }
  }

  lemma LineTextsCons(header: Layout, jobs: seq<Layout>)
    requires forall k :: 0 <= k < |[header] + jobs| ==> WellLaid(([header] + jobs)[k])
    ensures ([header] + jobs)[0] == header && WellLaid(header) && forall k :: 0 <= k < |jobs| ==> WellLaid(jobs[k])
    ensures LineTexts([header] + jobs) == [LineText(header)] + LineTexts(jobs)
  {
    assert ([header] + jobs)[1..] == jobs;
    assert forall k :: 0 <= k < |jobs| ==> jobs[k] == ([header] + jobs)[k + 1];
  }

  /** The header line locates the columns it names. */
  lemma LocateHeader(header: Layout)
    requires WellLaid(header) && GoodHeader(header.fields)
    ensures LocateColumns(LineText(header)) == Some(HeaderColumns(header.fields))
  {
    assert SplitWs(LineText(header)) == header.fields;
  }

  /** A job line with a field under each of the three headings. */
  predicate Full(l: Layout, cols: Columns) {
    cols.jobId < |l.fields| && cols.time < |l.fields| && cols.nodelist < |l.fields|
  }

  /** What a full job line means: its id, start and nodelist are the fields under
      the JOBID, TIME and NODELIST(REASON) headings. */
  function Expected(l: Layout, cols: Columns, now: Time): Row
    requires Full(l, cols)
  {
    Row(l.fields[cols.jobId], ObservedStart(now, TimeToSeconds(l.fields[cols.time])), l.fields[cols.nodelist])
  }

  /** A full job line, however it is padded, parses to the fields under its
      headings. */
  lemma ParseFullRow(l: Layout, cols: Columns, now: Time)
    requires WellLaid(l) && Full(l, cols)
    ensures ParseRow(LineText(l), cols, now) == Some(Expected(l, cols, now))
  {
  }

  /** The job lines, each as `Expected` reads it. */
  function ExpectedRows(jobs: seq<Layout>, cols: Columns, now: Time): (r: seq<Row>)
    requires forall k :: 0 <= k < |jobs| ==> Full(jobs[k], cols)
    ensures |r| == |jobs|
    ensures forall k :: 0 <= k < |r| ==> r[k] == Expected(jobs[k], cols, now)
  {
    if |jobs| == 0 then [] else [Expected(jobs[0], cols, now)] + ExpectedRows(jobs[1..], cols, now)
  }

  /** Full job lines give their rows, one per line and in order. */
  lemma ParseFullRows(jobs: seq<Layout>, cols: Columns, now: Time)
    requires forall k :: 0 <= k < |jobs| ==> WellLaid(jobs[k]) && Full(jobs[k], cols)
    ensures ParseRows(LineTexts(jobs), cols, now) == ExpectedRows(jobs, cols, now)
  {
    var lines := LineTexts(jobs);
    forall k | 0 <= k < |jobs| ensures ParseRow(lines[k], cols, now) == Some(Expected(jobs[k], cols, now)) {
      ParseFullRow(jobs[k], cols, now);
    }
    ParseRowsAll(lines, cols, now);
  }

  /** Reading back a printed listing in which every job line has a field under
      every heading gives one row per job line, in order, whatever the padding
      and whatever the column order: columns are found by their header names,
      never by a fixed offset. */
  lemma ParseSqueueRoundTrip(before: string, header: Layout, jobs: seq<Layout>, after: string, now: Time)
    requires GoodListing(before, [header] + jobs, after) && GoodHeader(header.fields)
    requires forall k :: 0 <= k < |jobs| ==> |jobs[k].fields| == |header.fields|
    ensures ParseSqueue(Some(Listing(before, [header] + jobs, after)), now)
            == ExpectedRows(jobs, HeaderColumns(header.fields), now)
  {
    if |jobs| == 0 {
      ListingSections(before, header, jobs, after);
    } else {
      ListingRows(before, header, jobs, after, now);
    }
  }

  /** The rows of a printed listing with job lines are those its job lines give. */
  lemma ListingRows(before: string, header: Layout, jobs: seq<Layout>, after: string, now: Time)
    requires GoodListing(before, [header] + jobs, after) && GoodHeader(header.fields) && |jobs| > 0
    requires forall k :: 0 <= k < |jobs| ==> |jobs[k].fields| == |header.fields|
    ensures forall k :: 0 <= k < |jobs| ==> WellLaid(jobs[k])
    ensures ParseSqueue(Some(Listing(before, [header] + jobs, after)), now)
            == ExpectedRows(jobs, HeaderColumns(header.fields), now)
  {
    LineTextsCons(header, jobs);
    var cols := HeaderColumns(header.fields);
    JobsFull(header, jobs);
    ParseFullRows(jobs, cols, now);
    ListingSections(before, header, jobs, after);
    ParseSqueueOfSections(Listing(before, [header] + jobs, after), HeaderColumns(header.fields),
                          LineTexts(jobs), now);
  }

  /** Job lines as wide as a good header have a field under every heading. */
  lemma JobsFull(header: Layout, jobs: seq<Layout>)
    requires GoodHeader(header.fields)
    requires forall k :: 0 <= k < |jobs| ==> |jobs[k].fields| == |header.fields|
    ensures forall k :: 0 <= k < |jobs| ==> Full(jobs[k], HeaderColumns(header.fields))
  {
  }

  /** Once the listing is divided, the rows are those of the job lines. */
  lemma ParseSqueueOfSections(text: string, cols: Columns, lines: seq<string>, now: Time)
    requires Sections(text) == Some((cols, lines))
    ensures ParseSqueue(Some(text), now) == ParseRows(lines, cols, now)
  {
  }

  // ---------------------------------------------------------------------------
  // As written: a short job line raises IndexError
  // ---------------------------------------------------------------------------

  /** The job line as the program writes it: `columns[job_id_index]` is read
      without a length check, so a line too short to hold a JOBID raises an
      `IndexError` that the surrounding handler does not catch. */
  function ParseRowAsWritten(line: string, cols: Columns, now: Time): (r: Call<Option<Row>>)
    ensures r.Raised? <==> Short(line, cols)
    ensures r.Returned? ==> r.value == ParseRow(line, cols, now)
  {
    if |SplitWs(line)| <= cols.jobId then Raised("IndexError")
    else Returned(ParseRow(line, cols, now))
  }

  function ParseRowsAsWritten(lines: seq<string>, cols: Columns, now: Time): (r: Call<seq<Row>>)
    ensures r.Raised? <==> !AllFit(lines, cols)
    ensures r.Returned? ==> r.value == ParseRows(lines, cols, now)
  {
    if |lines| == 0 then Returned([])
    else
      match ParseRowAsWritten(lines[0], cols, now)
      case Raised(e) => Raised(e)
      case Returned(first) =>
        match ParseRowsAsWritten(lines[1..], cols, now)
        case Raised(e) =>
          AllFitTail(lines, cols);
          Raised(e)
        case Returned(rest) =>
          AllFitTail(lines, cols);
          Returned((match first case None => [] case Some(row) => [row]) + rest)
  }

  /** Every job line is long enough to hold a JOBID. */
  predicate AllFit(lines: seq<string>, cols: Columns) {
    forall k :: 0 <= k < |lines| ==> !Short(lines[k], cols)
  }

  lemma AllFitTail(lines: seq<string>, cols: Columns)
    requires |lines| > 0
    ensures AllFit(lines, cols) <==> !Short(lines[0], cols) && AllFit(lines[1..], cols)
  {
    assert forall k :: 1 <= k < |lines| ==> lines[k] == lines[1..][k - 1];
  }

  /** `get_current_jobs` as written. */
  function ParseSqueueAsWritten(output: Option<string>, now: Time): (r: Call<seq<Row>>)
    ensures r.Returned? ==> r.value == ParseSqueue(output, now)
    ensures r.Raised? <==> output.Some? && HasShortLine(output.value)
  {
    match output
    case None => Returned([])
    case Some(text) => ListingAsWritten(text, now)
  }

  /** The listing has a header and a job line too short to hold a JOBID. */
  predicate HasShortLine(text: string) {
    Sections(text).Some? && !AllFit(Sections(text).value.1, Sections(text).value.0)
  }

  function ListingAsWritten(text: string, now: Time): (r: Call<seq<Row>>)
    ensures r.Returned? ==> r.value == ParseSqueue(Some(text), now)
    ensures r.Raised? <==> HasShortLine(text)
  {
    var sections := Sections(text);
    if sections.None? then Returned([])
    else ParseRowsAsWritten(sections.value.1, sections.value.0, now)
  }

  /** A job line with no field at JOBID's position makes the program raise,
      while the corrected reading skips it: a listing whose only job line is
      that short reports no jobs. */
  lemma ShortRowRaises(before: string, header: Layout, job: Layout, after: string, now: Time)
    requires GoodListing(before, [header, job], after) && GoodHeader(header.fields)
    requires |job.fields| <= HeaderColumns(header.fields).jobId
    ensures ParseSqueueAsWritten(Some(Listing(before, [header, job], after)), now).Raised?
    ensures ParseSqueue(Some(Listing(before, [header, job], after)), now) == []
  {
    assert [header, job] == [header] + [job];
    LineTextsCons(header, [job]);
    ListingSections(before, header, [job], after);
    var cols := HeaderColumns(header.fields);
    var lines := LineTexts([job]);
    assert lines[0] == LineText(job) && Short(lines[0], cols);
    assert !AllFit(lines, cols);
    assert lines[1..] == [];
  }

  /** The concrete case: the header `TIME JOBID NODELIST(REASON)`, then the job
      line `42`, then a line break. */
  lemma ShortRowExample(now: Time)
    ensures ParseSqueueAsWritten(Some(Listing("", [ExampleHeader(), ExampleJob()], "\n")), now).Raised?
    ensures ParseSqueue(Some(Listing("", [ExampleHeader(), ExampleJob()], "\n")), now) == []
  {
    assert AllSpace("\n");
    ShortRowRaises("", ExampleHeader(), ExampleJob(), "\n", now);
  }

  /** The header line `TIME JOBID NODELIST(REASON)`: JOBID is its second field. */
  function ExampleHeader(): (l: Layout)
    ensures WellLaid(l) && l.indent == [] && GoodHeader(l.fields) && HeaderColumns(l.fields).jobId == 1
  {
    var fields := [TimeColumn, JobIdColumn, NodelistColumn];
    ColumnNamesAreTokens();
    assert fields[0] == TimeColumn && fields[1] == JobIdColumn && fields[2] == NodelistColumn;
    assert AllTokens(fields);
    assert fields[..1] == [TimeColumn];
    assert Blank(" ") && Blank("");
    Layout("", fields, [" ", " "], "")
  }

  /** The job line `42`: a single field. */
  function ExampleJob(): (l: Layout)
    ensures WellLaid(l) && l.padding == [] && |l.fields| == 1
  {
    assert IsToken("42") && Blank("");
    Layout("", ["42"], [], "")
  }

  /** The three column names hold no whitespace. */
  lemma ColumnNamesAreTokens()
    ensures IsToken(TimeColumn) && IsToken(JobIdColumn) && IsToken(NodelistColumn)
  {
    assert IsToken(TimeColumn);
    assert IsToken(JobIdColumn);
    assert IsToken(NodelistColumn);
  }
}
