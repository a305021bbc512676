/**
  The output side of GoogleKeywordIdeas/get_keyword_ideas.py: how the
  response of the keyword-ideas service is reshaped into a table, a list of
  records, a compact list of records, plain text, or returned as it is.
  The response is input; pandas is modelled only as the rows and columns
  the data frame is built from.
 */
module KeywordIdeasOutput {
  import opened Wrappers
  import opened Text

  // ================================================================ the response

  /** One month of search history; `month` is the `MonthOfYear` enum value (January is 2). */
  datatype MonthlySearchVolume = MonthlySearchVolume(year: int, month: int, monthlySearches: int)

  /** A keyword annotation concept; the output uses the name of its group. */
  datatype Concept = Concept(name: string, groupName: string)

  /**
    One keyword idea with the metrics the output reads. `competition` is the
    competition level as `str()` and an f-string render it.
   */
  datatype Idea = Idea(
    text: string,
    avgMonthlySearches: int,
    competition: string,
    competitionIndex: int,
    monthlySearchVolumes: seq<MonthlySearchVolume>,
    concepts: seq<Concept>,
    lowTopOfPageBidMicros: int,
    highTopOfPageBidMicros: int)

  /** The response: its reported total size and the results it carries. */
  datatype IdeasResponse = IdeasResponse(totalSize: int, results: seq<Idea>)

  // ================================================================ the output shapes

  /** One row of the data frame, in its column order. */
  datatype TableRow = TableRow(
    keyword: string,
    avgMonthlySearches: int,
    competitionLevel: string,
    competitionIndex: int,
    searchesPastMonths: string,
    pastMonths: string,
    listAnnotations: string,
    pbmLoTop: int,
    pbmHiTop: int)

  datatype Table = Table(columns: seq<string>, rows: seq<TableRow>)

  /** `pd.DataFrame()`: no columns and no rows. */
  const EmptyTable := Table([], [])

  const TableColumns: seq<string> := [
    "Keyword", "Avg Monthly Searches", "Competition Level", "Competition Index",
    "Searches Past Months", "Past Months", "List Annotations", "PBM Lo Top", "PBM Hi Top"
  ]

  /** One mapping of the `dict`/`list` shape. */
  datatype IdeaRecord = IdeaRecord(
    keyword: string,
    avgMonthlySearches: int,
    compLevel: string,
    compIndex: int,
    searches: seq<int>,
    pastMonths: seq<string>,
    annotations: seq<string>,
    lowTopOfPageBidMicros: int,
    highTopOfPageBidMicros: int)

  /** One mapping of the `compact` shape. */
  datatype CompactRecord = CompactRecord(keyword: string, avgMonthlySearches: int, compLevel: string, compIndex: int)

  /** What `get_keyword_ideas` returns, by shape; `None` is the empty signal of the record shapes. */
  datatype Output =
    | TableOut(table: Table)
    | RecordsOut(records: Option<seq<IdeaRecord>>)
    | CompactOut(compact: Option<seq<CompactRecord>>)
    | TextOut(text: string)
    | RawOut(response: IdeasResponse)

  const DefaultIdeasOutAs := "dict"

  /** `kwargs.get('out_as', DEFAULT_IDEAS_OUT_AS)`: the shape asked for, else records. */
  function Shape(outAs: Option<string>): (r: string)
    ensures outAs.Some? ==> r == outAs.value
    ensures outAs.None? ==> r == "dict"
  {
    if outAs.Some? then outAs.value else DefaultIdeasOutAs
  }

  // ================================================================ per-idea specifications

  /** `f'{y.year}-{str(y.month-1).zfill(2)}'`. */
  function MonthLabel(v: MonthlySearchVolume): string {
    IntToString(v.year) + "-" + ZFill(IntToString(v.month - 1), 2)
  }

  /** `f` applied to every element, in order. */
  function MapSeq<A, B>(f: A -> B, xs: seq<A>): (r: seq<B>)
    ensures |r| == |xs|
    ensures forall k :: 0 <= k < |r| ==> r[k] == f(xs[k])
  {
    seq(|xs|, k requires 0 <= k < |xs| => f(xs[k]))
  }

  lemma MapSeqOfLonger<A, B>(f: A -> B, xs: seq<A>, i: nat)
    requires i < |xs|
    ensures MapSeq(f, xs[..i + 1]) == MapSeq(f, xs[..i]) + [f(xs[i])]
  {
    assert forall k :: 0 <= k <= i ==> xs[..i + 1][k] == xs[k];
  }

  function MonthLabels(vs: seq<MonthlySearchVolume>): (r: seq<string>)
    ensures |r| == |vs|
    ensures forall k :: 0 <= k < |r| ==> r[k] == MonthLabel(vs[k])
  {
    MapSeq(MonthLabel, vs)
  }

  function Searches(vs: seq<MonthlySearchVolume>): (r: seq<int>)
    ensures |r| == |vs|
    ensures forall k :: 0 <= k < |r| ==> r[k] == vs[k].monthlySearches
  {
    seq(|vs|, k requires 0 <= k < |vs| => vs[k].monthlySearches)
  }

  function GroupNames(cs: seq<Concept>): (r: seq<string>)
    ensures |r| == |cs|
    ensures forall k :: 0 <= k < |r| ==> r[k] == cs[k].groupName
  {
    seq(|cs|, k requires 0 <= k < |cs| => cs[k].groupName)
  }

  /** `str(i) for i in ...` over a list of counts. */
  function NumberStrings(ns: seq<int>): (r: seq<string>)
    ensures |r| == |ns|
    ensures forall k :: 0 <= k < |r| ==> r[k] == IntToString(ns[k])
  {
    seq(|ns|, k requires 0 <= k < |ns| => IntToString(ns[k]))
  }

  function RecordOf(idea: Idea): IdeaRecord {
    IdeaRecord(idea.text, idea.avgMonthlySearches, idea.competition, idea.competitionIndex,
               Searches(idea.monthlySearchVolumes), MonthLabels(idea.monthlySearchVolumes),
               GroupNames(idea.concepts), idea.lowTopOfPageBidMicros, idea.highTopOfPageBidMicros)
  }

  function RowOf(idea: Idea): TableRow {
    TableRow(idea.text, idea.avgMonthlySearches, idea.competition, idea.competitionIndex,
             Join(NumberStrings(Searches(idea.monthlySearchVolumes)), ", "),
             Join(MonthLabels(idea.monthlySearchVolumes), ", "),
             Join(GroupNames(idea.concepts), ", "),
             idea.lowTopOfPageBidMicros, idea.highTopOfPageBidMicros)
  }

  function CompactOf(idea: Idea): CompactRecord {
    CompactRecord(idea.text, idea.avgMonthlySearches, idea.competition, idea.competitionIndex)
  }

  /** The line of the `text` shape without its final newline. */
  function LineBody(idea: Idea): string {
    "- \"" + idea.text + "\" has \"" + IntToString(idea.avgMonthlySearches)
      + "\" avg monthly searches & \"" + idea.competition + "\" competition."
  }

  function TextLine(idea: Idea): string {
    LineBody(idea) + "\n"
  }

  function TextLines(ideas: seq<Idea>): (r: seq<string>)
    ensures |r| == |ideas|
    ensures forall k :: 0 <= k < |r| ==> r[k] == TextLine(ideas[k])
  {
    seq(|ideas|, k requires 0 <= k < |ideas| => TextLine(ideas[k]))
  }

  // ================================================================ the loops

  lemma SearchesOfLonger(vs: seq<MonthlySearchVolume>, i: nat)
    requires i < |vs|
    ensures Searches(vs[..i + 1]) == Searches(vs[..i]) + [vs[i].monthlySearches]
  {
    assert forall k :: 0 <= k <= i ==> vs[..i + 1][k] == vs[k];
  }

  /** The inner loop over the monthly volumes: the labels and the counts, in order. */
  method MonthlyColumns(vs: seq<MonthlySearchVolume>) returns (months: seq<string>, searches: seq<int>)
    ensures months == MonthLabels(vs)
    ensures searches == Searches(vs)
  {
    months := [];
    searches := [];
    for i := 0 to |vs|
      invariant months == MapSeq(MonthLabel, vs[..i])
      invariant searches == Searches(vs[..i])
    {
      MapSeqOfLonger(MonthLabel, vs, i);
      SearchesOfLonger(vs, i);
      months := months + [MonthLabel(vs[i])];
      searches := searches + [vs[i].monthlySearches];
    }
    assert vs[..|vs|] == vs;
  }

  /** The inner loop over the annotation concepts: their group names, in order. */
  method ConceptGroupNames(cs: seq<Concept>) returns (names: seq<string>)
    ensures names == GroupNames(cs)
  {
    names := [];
    for i := 0 to |cs|
      invariant |names| == i
      invariant forall k :: 0 <= k < i ==> names[k] == cs[k].groupName
    {
      names := names + [cs[i].groupName];
    }
  }

  /** The rows of the `table` shape, one per idea, in order. */
  method TableRows(results: seq<Idea>) returns (rows: seq<TableRow>)
    ensures |rows| == |results|
    ensures forall k :: 0 <= k < |results| ==> rows[k] == RowOf(results[k])
  {
    rows := [];
    for x := 0 to |results|
      invariant |rows| == x
      invariant forall k :: 0 <= k < x ==> rows[k] == RowOf(results[k])
    {
      var idea := results[x];
      var months, searches := MonthlyColumns(idea.monthlySearchVolumes);
      var annotations := ConceptGroupNames(idea.concepts);
      var row := TableRow(idea.text, idea.avgMonthlySearches, idea.competition, idea.competitionIndex,
                          Join(NumberStrings(searches), ", "), Join(months, ", "), Join(annotations, ", "),
                          idea.lowTopOfPageBidMicros, idea.highTopOfPageBidMicros);
      RowOfColumns(idea, months, searches, annotations);
      rows := rows + [row];
    }
  }

  lemma RowOfColumns(idea: Idea, months: seq<string>, searches: seq<int>, annotations: seq<string>)
    requires months == MonthLabels(idea.monthlySearchVolumes) && searches == Searches(idea.monthlySearchVolumes)
    requires annotations == GroupNames(idea.concepts)
    ensures RowOf(idea) == TableRow(idea.text, idea.avgMonthlySearches, idea.competition, idea.competitionIndex,
                                    Join(NumberStrings(searches), ", "), Join(months, ", "), Join(annotations, ", "),
                                    idea.lowTopOfPageBidMicros, idea.highTopOfPageBidMicros)
  {
  }

  /** The mappings of the `dict` and `list` shapes, one per idea, in order. */
  method IdeaRecords(results: seq<Idea>) returns (records: seq<IdeaRecord>)
    ensures |records| == |results|
    ensures forall k :: 0 <= k < |results| ==> records[k] == RecordOf(results[k])
  {
    records := [];
    for x := 0 to |results|
      invariant |records| == x
      invariant forall k :: 0 <= k < x ==> records[k] == RecordOf(results[k])
    {
      var idea := results[x];
      var months, searches := MonthlyColumns(idea.monthlySearchVolumes);
      var annotations := ConceptGroupNames(idea.concepts);
      var record := IdeaRecord(idea.text, idea.avgMonthlySearches, idea.competition, idea.competitionIndex,
                               searches, months, annotations,
                               idea.lowTopOfPageBidMicros, idea.highTopOfPageBidMicros);
      assert record == RecordOf(idea);
      records := records + [record];
    }
  }

  /** The mappings of the `compact` shape, one per idea, in order. */
  method CompactRecords(results: seq<Idea>) returns (compact: seq<CompactRecord>)
    ensures |compact| == |results|
    ensures forall k :: 0 <= k < |results| ==> compact[k] == CompactOf(results[k])
  {
    compact := [];
    for x := 0 to |results|
      invariant |compact| == x
      invariant forall k :: 0 <= k < x ==> compact[k] == CompactOf(results[k])
    {
      var idea := results[x];
      compact := compact + [CompactRecord(idea.text, idea.avgMonthlySearches, idea.competition, idea.competitionIndex)];
    }
  }

  /** The `text` shape: the lines of all ideas, concatenated in order. */
  method IdeasText(results: seq<Idea>) returns (text: string)
    ensures text == Concat(TextLines(results))
  {
    text := "";
    for x := 0 to |results|
      invariant text == Concat(TextLines(results[..x]))
    {
      TextLinesOfLonger(results, x);
      ConcatSnoc(TextLines(results[..x]), TextLine(results[x]));
      text := text + TextLine(results[x]);
    }
    assert results[..|results|] == results;
  }

  lemma TextLinesOfLonger(results: seq<Idea>, x: nat)
    requires x < |results|
    ensures TextLines(results[..x + 1]) == TextLines(results[..x]) + [TextLine(results[x])]
  {
    assert results[..x + 1][x] == results[x];
    assert forall k :: 0 <= k < x ==> results[..x + 1][k] == results[..x][k];
  }

  // ================================================================ choosing the shape

  /**
    Lines 213-294 after the call: the shape `out_as` names, the empty signal
    of that shape when the response reports a total size of zero, and the
    response itself for any other `out_as`.
   */
  method ShapeIdeas(response: IdeasResponse, outAs: Option<string>) returns (out: Output)
    ensures Shape(outAs) == "table" && response.totalSize == 0 ==> out == TableOut(EmptyTable)
    ensures Shape(outAs) == "table" && response.totalSize != 0 ==>
              && out.TableOut? && out.table.columns == TableColumns
              && |out.table.rows| == |response.results|
              && forall k :: 0 <= k < |response.results| ==> out.table.rows[k] == RowOf(response.results[k])
    ensures (Shape(outAs) == "dict" || Shape(outAs) == "list") && response.totalSize == 0 ==> out == RecordsOut(None)
    ensures (Shape(outAs) == "dict" || Shape(outAs) == "list") && response.totalSize != 0 ==>
              && out.RecordsOut? && out.records.Some?
              && |out.records.value| == |response.results|
              && forall k :: 0 <= k < |response.results| ==> out.records.value[k] == RecordOf(response.results[k])
    ensures Shape(outAs) == "compact" && response.totalSize == 0 ==> out == CompactOut(None)
    ensures Shape(outAs) == "compact" && response.totalSize != 0 ==>
              && out.CompactOut? && out.compact.Some?
              && |out.compact.value| == |response.results|
              && forall k :: 0 <= k < |response.results| ==> out.compact.value[k] == CompactOf(response.results[k])
    ensures Shape(outAs) == "text" && response.totalSize == 0 ==> out == TextOut("")
    ensures Shape(outAs) == "text" && response.totalSize != 0 ==> out == TextOut(Concat(TextLines(response.results)))
    ensures Shape(outAs) !in {"table", "dict", "list", "compact", "text"} ==> out == RawOut(response)
    ensures outAs.None? && response.totalSize != 0 ==> out.RecordsOut? && out.records.Some?
  {
    var shape := Shape(outAs);
    if shape == "table" {
      if response.totalSize == 0 {
        return TableOut(EmptyTable);
      }
      var rows := TableRows(response.results);
      return TableOut(Table(TableColumns, rows));
    }
    if shape == "dict" || shape == "list" {
      if response.totalSize == 0 {
        return RecordsOut(None);
      }
      var records := IdeaRecords(response.results);
      return RecordsOut(Some(records));
    }
    if shape == "compact" {
      if response.totalSize == 0 {
        return CompactOut(None);
      }
      var compact := CompactRecords(response.results);
      return CompactOut(Some(compact));
    }
    if shape == "text" {
      if response.totalSize == 0 {
        return TextOut("");
      }
      var text := IdeasText(response.results);
      return TextOut(text);
    }
    return RawOut(response);
  }

  // ================================================================ properties of the shapes

  /**
    The label of a real month (`MonthOfYear` JANUARY = 2 … DECEMBER = 13)
    is the year, a dash and the month number from 1 to 12 in two digits.
   */
  lemma MonthLabelOfRealMonth(v: MonthlySearchVolume)
    requires 2 <= v.month <= 13
    ensures var y := IntToString(v.year); var l := MonthLabel(v);
            && |l| == |y| + 3 && l[..|y|] == y && l[|y|] == '-'
            && ParseInt(l[|y| + 1..]) == v.month - 1
  {
    var y := IntToString(v.year);
    var m := ZFill(IntToString(v.month - 1), 2);
    TwoDigitString(v.month - 1);
    assert |m| == 2;
    var l := MonthLabel(v);
    assert l == y + "-" + m;
    assert l[|y| + 1..] == m;
    ZFillKeepsValue(v.month - 1, 2);
  }

  lemma TwoDigitString(n: nat)
    requires n < 100
    ensures |IntToString(n)| <= 2
  {
    if n >= 10 {
      assert NatToString(n) == NatToString(n / 10) + [DigitChar(n % 10)];
    }
  }

  /** The unspecified month (0) gives the label `<year>--1`. */
  lemma MonthLabelOfUnspecifiedMonth(v: MonthlySearchVolume)
    requires v.month == 0
    ensures MonthLabel(v) == IntToString(v.year) + "--1"
  {
    assert IntToString(-1) == "-1";
  }

  /** A month label never has a comma and never starts or ends with whitespace. */
  lemma MonthLabelIsPlain(v: MonthlySearchVolume)
    ensures ',' !in MonthLabel(v) && Stripped(MonthLabel(v))
  {
    var y := IntToString(v.year);
    var d := IntToString(v.month - 1);
    var m := ZFill(d, 2);
    ZFillChars(d, 2);
    assert ',' !in y && ',' !in d;
    assert ',' !in m;
    var l := MonthLabel(v);
    assert l == y + "-" + m;
    assert l[0] == y[0];
    assert l[|l| - 1] == m[|m| - 1] == d[|d| - 1];
  }

  lemma NumberStringIsPlain(n: int)
    ensures ',' !in IntToString(n) && Stripped(IntToString(n))
  {
  }

  /**
    The joined columns of a row split back into the lists of the record: the
    searches (as the strings `str()` gives) and the month labels, whenever
    the idea has any monthly volumes.
   */
  lemma RowColumnsSplitIntoRecordLists(idea: Idea)
    requires idea.monthlySearchVolumes != []
    ensures StripAll(Split(RowOf(idea).searchesPastMonths, ',')) == NumberStrings(RecordOf(idea).searches)
    ensures StripAll(Split(RowOf(idea).pastMonths, ',')) == RecordOf(idea).pastMonths
  {
    var vs := idea.monthlySearchVolumes;
    var numbers := NumberStrings(Searches(vs));
    forall k | 0 <= k < |numbers| ensures Stripped(numbers[k]) && ',' !in numbers[k] {
      NumberStringIsPlain(Searches(vs)[k]);
    }
    SplitStripCommaSpaceJoin(numbers);
    var labels := MonthLabels(vs);
    forall k | 0 <= k < |labels| ensures Stripped(labels[k]) && ',' !in labels[k] {
      MonthLabelIsPlain(vs[k]);
    }
    SplitStripCommaSpaceJoin(labels);
  }

  /** A row and a record of the same idea agree on every field that is not a list. */
  lemma RowAgreesWithRecord(idea: Idea)
    ensures var row := RowOf(idea); var rec := RecordOf(idea);
            && row.keyword == rec.keyword && row.avgMonthlySearches == rec.avgMonthlySearches
            && row.competitionLevel == rec.compLevel && row.competitionIndex == rec.compIndex
            && row.pbmLoTop == rec.lowTopOfPageBidMicros && row.pbmHiTop == rec.highTopOfPageBidMicros
            && row.listAnnotations == Join(rec.annotations, ", ")
  {
  }

  /** A compact mapping is the record of the same idea with the lists and bids left out. */
  lemma CompactIsProjectionOfRecord(idea: Idea)
    ensures var c := CompactOf(idea); var rec := RecordOf(idea);
            c == CompactRecord(rec.keyword, rec.avgMonthlySearches, rec.compLevel, rec.compIndex)
  {
  }

  /**
    The `text` shape has one line per idea: split on newlines it gives each
    idea's line, in order, and an empty piece after the final newline, as
    long as no keyword or competition text holds a newline.
   */
  lemma TextHasOneLinePerIdea(ideas: seq<Idea>)
    requires forall k :: 0 <= k < |ideas| ==> '\n' !in ideas[k].text && '\n' !in ideas[k].competition
    ensures Split(Concat(TextLines(ideas)), '\n') == seq(|ideas|, k requires 0 <= k < |ideas| => LineBody(ideas[k])) + [""]
  {
    var bodies := seq(|ideas|, k requires 0 <= k < |ideas| => LineBody(ideas[k]));
    forall k | 0 <= k < |ideas| ensures '\n' !in bodies[k] {
      LineBodyAvoidsNewline(ideas[k]);
    }
    assert TextLines(ideas) == Terminated(bodies, '\n');
    SplitTerminated(bodies, '\n');
  }

  lemma LineBodyAvoidsNewline(idea: Idea)
    requires '\n' !in idea.text && '\n' !in idea.competition
    ensures '\n' !in LineBody(idea)
  {
    var n := IntToString(idea.avgMonthlySearches);
    assert '\n' !in n;
    assert '\n' !in "- \"" && '\n' !in "\" has \"";
    assert '\n' !in "\" avg monthly searches & \"" && '\n' !in "\" competition.";
  }
}
