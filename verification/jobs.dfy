/** The job board: the two parsers that turn a published Google Sheet into
    jobs (its CSV export, and the rows of the Sheets API), the fall-back to
    the built-in sample jobs, and the category filter. A job is the object
    the parsers build, a map from header to field. */
module JobBoard {
  import opened Wrappers
  import opened Text
  import Sequences

  /** A job property: the text of a cell, or the '|'-separated list of the
      `requirements` and `responsibilities` columns. */
  datatype Field = Text(text: string) | List(items: seq<string>)

  type Job = map<string, Field>

  predicate IsListHeader(header: string) {
    header == "requirements" || header == "responsibilities"
  }

  /** `values[index] || ''`: a missing cell (or an empty one) is "". */
  function Cell(values: seq<string>, index: nat): (v: string)
    ensures index >= |values| ==> v == ""
    ensures index < |values| ==> v == values[index]
  {
    if index < |values| then values[index] else ""
  }

  /** The field a header gets from its cell. */
  function FieldFor(header: string, value: string): Field {
    if IsListHeader(header) then List(SplitTrim(value, '|')) else Text(value)
  }

  /** A list column holds one item per '|'-separated piece, each trimmed:
      one more item than there are '|', so an empty cell gives `[""]`. */
  lemma ListField(header: string, value: string)
    requires IsListHeader(header)
    ensures FieldFor(header, value).List?
    ensures |FieldFor(header, value).items| == Count('|', value) + 1
    ensures value == "" ==> FieldFor(header, value).items == [""]
  {
  }

  /** `headers.forEach((header, index) => job[header] = ...)` over the
      first `n` headers. */
  function BuildJob(headers: seq<string>, values: seq<string>, n: nat): Job
    requires n <= |headers|
  {
    if n == 0 then map[]
    else BuildJob(headers, values, n - 1)[headers[n - 1] := FieldFor(headers[n - 1], Cell(values, n - 1))]
  }

  /** Index of the last occurrence of `h` among the first `n` headers. */
  function LastIndex(headers: seq<string>, h: string, n: nat): (r: Option<nat>)
    requires n <= |headers|
    ensures r.Some? ==> r.value < n && headers[r.value] == h
    ensures r.Some? ==> forall j :: r.value < j < n ==> headers[j] != h
    ensures r.None? <==> h !in headers[..n]
  {
    if n == 0 then None
    else if headers[n - 1] == h then Some(n - 1)
    else
      var r := LastIndex(headers, h, n - 1);
      assert headers[..n] == headers[..n - 1] + [headers[n - 1]];
      r
  }

  /** The job has a property per header, and when a header repeats the
      last column with that header wins. */
  lemma {:induction false} BuildJobLookup(headers: seq<string>, values: seq<string>, n: nat, h: string)
    requires n <= |headers|
    ensures h in BuildJob(headers, values, n) <==> h in headers[..n]
    ensures h in BuildJob(headers, values, n) ==>
      BuildJob(headers, values, n)[h] == FieldFor(h, Cell(values, LastIndex(headers, h, n).value))
  {
    if n > 0 {
      BuildJobLookup(headers, values, n - 1, h);
      assert headers[..n] == headers[..n - 1] + [headers[n - 1]];
    }
  }

  function Row(headers: seq<string>, values: seq<string>): Job {
    BuildJob(headers, values, |headers|)
  }

  /** JavaScript truthiness of a property: a non-empty string, or any
      array. */
  predicate Truthy(job: Job, key: string) {
    key in job && (job[key].List? || job[key].text != "")
  }

  /** `job.title && job.company`. */
  predicate Complete(job: Job) {
    Truthy(job, "title") && Truthy(job, "company")
  }

  /** The shared loop body of both parsers: build the job of each row and
      push it when it is complete. */
  function Jobs(headers: seq<string>, rows: seq<seq<string>>): (jobs: seq<Job>)
    ensures |jobs| <= |rows|
    ensures forall i :: 0 <= i < |jobs| ==> Complete(jobs[i])
  {
    if rows == [] then []
    else
      var job := Row(headers, rows[0]);
      (if Complete(job) then [job] else []) + Jobs(headers, rows[1..])
  }

  /** The jobs are the complete ones among the rows' jobs, in row order. */
  lemma {:induction false} JobsAreCompleteRows(headers: seq<string>, rows: seq<seq<string>>)
    ensures Jobs(headers, rows)
         == Sequences.Filter(Complete, Sequences.Map((r: seq<string>) => Row(headers, r), rows))
  {
    if rows != [] {
      JobsAreCompleteRows(headers, rows[1..]);
      var built := Sequences.Map((r: seq<string>) => Row(headers, r), rows);
      assert built[1..] == Sequences.Map((r: seq<string>) => Row(headers, r), rows[1..]);
    }
  }

  // ---------------------------------------------------------------------
  // The CSV export.

  /** The cells of a CSV line: split on every ',' (no quoting) and
      trimmed. */
  function Cells(line: string): seq<string> {
    SplitTrim(line, ',')
  }

  predicate Blank(line: string) {
    Trim(line) == ""
  }

  /** The `for` loop over the lines after the header line. */
  function CsvRows(headers: seq<string>, lines: seq<string>): seq<Job> {
    if lines == [] then []
    else if Blank(lines[0]) then CsvRows(headers, lines[1..])
    else
      var job := Row(headers, Cells(lines[0]));
      (if Complete(job) then [job] else []) + CsvRows(headers, lines[1..])
  }

  /** `parseCSVToJobs`: the headers are the trimmed cells of line 0. */
  function ParseCsvToJobs(csv: string): (jobs: seq<Job>) {
    var lines := Split(csv, '\n');
    CsvRows(Cells(lines[0]), lines[1..])
  }

  /** The CSV loop skips the blank lines and treats the rest like the
      Sheets rows, after splitting and trimming their cells. */
  lemma {:induction false} CsvRowsSpec(headers: seq<string>, lines: seq<string>)
    ensures CsvRows(headers, lines)
         == Jobs(headers, Sequences.Map(Cells, Sequences.Filter((l: string) => !Blank(l), lines)))
  {
    if lines != [] {
      CsvRowsSpec(headers, lines[1..]);
      var rest := Sequences.Filter((l: string) => !Blank(l), lines[1..]);
      if !Blank(lines[0]) {
        var rows := Sequences.Map(Cells, [lines[0]] + rest);
        assert rows[0] == Cells(lines[0]);
        assert rows[1..] == Sequences.Map(Cells, rest);
      } else {
        assert [] + rest == rest;
      }
    }
  }

  /** The CSV text of a header line and data lines (none containing a line
      break) parses to the jobs of the non-blank data lines, in order, at
      most one per line, each with a title and a company. */
  lemma CsvDocument(header: string, lines: seq<string>)
    requires '\n' !in header && forall i :: 0 <= i < |lines| ==> '\n' !in lines[i]
    ensures ParseCsvToJobs(Join([header] + lines, '\n')) == CsvRows(Cells(header), lines)
    ensures |ParseCsvToJobs(Join([header] + lines, '\n'))| <= |lines|
    ensures forall j :: 0 <= j < |ParseCsvToJobs(Join([header] + lines, '\n'))| ==>
      Complete(ParseCsvToJobs(Join([header] + lines, '\n'))[j])
  {
    var parts := [header] + lines;
    forall i | 0 <= i < |parts| ensures '\n' !in parts[i] {
      if i > 0 { assert parts[i] == lines[i - 1]; }
    }
    JoinSplit(parts, '\n');
    assert parts[1..] == lines;
    CsvRowsSpec(Cells(header), lines);
  }

  // ---------------------------------------------------------------------
  // The Sheets API.

  /** The body of the Sheets API response: `values`, the rows of cells. */
  datatype SheetData = SheetData(values: Option<seq<seq<string>>>)

  /** `parseGoogleSheetsAPI`: no jobs without a header row and a data row;
      otherwise the headers are row 0 as they are (not trimmed), and so are
      the text cells. */
  function ParseGoogleSheets(data: SheetData): (jobs: seq<Job>)
    ensures data.values.None? || |data.values.value| < 2 ==> jobs == []
    ensures data.values.Some? && |data.values.value| >= 2 ==> |jobs| <= |data.values.value| - 1
  {
    if data.values.None? || |data.values.value| < 2 then []
    else Jobs(data.values.value[0], data.values.value[1..])
  }

  /** The job of a two-column title/company row. */
  lemma TitleCompanyRow(title: string, company: string)
    ensures Row(["title", "company"], [title, company]) == map["title" := Text(title), "company" := Text(company)]
  {
    var headers := ["title", "company"];
    assert BuildJob(headers, [title, company], 1) == map["title" := Text(title)];
  }

  /** The Sheets API keeps cells as they are: a row whose title cell is
      white space gives a job with that white space as its title... */
  lemma SheetsKeepBlankTitle(title: string, company: string)
    requires title != "" && company != ""
    ensures ParseGoogleSheets(SheetData(Some([["title", "company"], [title, company]])))
         == [map["title" := Text(title), "company" := Text(company)]]
  {
    TitleCompanyRow(title, company);
    var rows: seq<seq<string>> := [["title", "company"], [title, company]];
    assert rows[1..] == [[title, company]];
  }

  /** ... while the CSV export trims that title to nothing and drops the
      row. */
  lemma CsvDropsBlankTitle(title: string, company: string)
    requires AllSpace(title) && ',' !in title && ',' !in company
    ensures CsvRows(["title", "company"], [title + [','] + company]) == []
  {
    BlankTitleCells(title, company);
    TitleCompanyRow("", Trim(company));
    CsvSkipsIncomplete(["title", "company"], title + [','] + company);
  }

  /** A single non-blank line whose job lacks a title or company gives no
      job. */
  lemma CsvSkipsIncomplete(headers: seq<string>, line: string)
    requires !Blank(line) && !Complete(Row(headers, Cells(line)))
    ensures CsvRows(headers, [line]) == []
  {
    assert [line][1..] == [];
  }

  lemma BlankTitleCells(title: string, company: string)
    requires AllSpace(title) && ',' !in title && ',' !in company
    ensures Cells(title + [','] + company) == ["", Trim(company)]
    ensures !Blank(title + [','] + company)
  {
    var line := title + [','] + company;
    JoinSplitTwo(title, company, ',');
    assert line[|title|] == ',';
  }

  // ---------------------------------------------------------------------
  // Loading and filtering.

  /** A sample job: its text properties, and its application link when it
      has one. */
  function SampleJob(id: string, title: string, company: string, location: string, salary: string,
                     postedDate: string, category: string, applicationUrl: Option<string>): (job: Job)
    ensures "category" in job && job["category"] == Text(category)
    ensures "title" in job && job["title"] == Text(title)
    ensures "company" in job && job["company"] == Text(company)
    ensures "applicationUrl" in job <==> applicationUrl.Some?
  {
    var fields := map["id" := Text(id), "location" := Text(location), "type" := Text("Full-time"),
                      "salary" := Text(salary), "postedDate" := Text(postedDate)];
    var linked := if applicationUrl.Some? then fields["applicationUrl" := Text(applicationUrl.value)] else fields;
    linked["title" := Text(title)]["company" := Text(company)]["category" := Text(category)]
  }

  /** The built-in sample jobs, without their description, requirement and
      responsibility texts. */
  const SampleJobs: seq<Job> := [
    SampleJob("1", "Product Marketing Manager", "AAFT", "Noida, Uttar Pradesh, India",
              "₹8-12 LPA", "4 days ago", "Marketing", Some("https://www.linkedin.com/jobs")),
    SampleJob("2", "Senior UI/UX Designer", "Creative Studios India", "Mumbai, Maharashtra, India",
              "₹10-15 LPA", "1 week ago", "Design", None),
    SampleJob("3", "Full Stack Developer", "Tech Innovations Pvt Ltd", "Bangalore, Karnataka, India",
              "₹12-18 LPA", "2 days ago", "Technology", None),
    SampleJob("4", "Content Writer", "Media House Digital", "Delhi, India",
              "₹4-7 LPA", "3 days ago", "Content", None),
    SampleJob("5", "Sales Manager", "Enterprise Solutions Ltd", "Gurgaon, Haryana, India",
              "₹15-20 LPA", "5 days ago", "Sales", None),
    SampleJob("6", "Digital Marketing Specialist", "Growth Marketing Co", "Pune, Maharashtra, India",
              "₹6-10 LPA", "1 day ago", "Marketing", None)
  ]

  /** Where the jobs come from: no sheet URL configured, or the response of
      the Sheets API or of the CSV export (`Failure` when the request, the
      status check or the body parse throws). */
  datatype Source =
    | NotConfigured
    | SheetsApi(api: Result<SheetData, string>)
    | CsvExport(csv: Result<string, string>)

  /** The component state after `fetchJobs`. */
  datatype Board = Board(jobs: seq<Job>, selected: Job, error: Option<string>)

  const LoadError: string := "Failed to load jobs. Showing sample data."

  /** `fetchJobs`: the fetched jobs when there are any, the sample jobs
      otherwise (with an error message when the fetch threw); the selected
      job is the first of the list shown. */
  function LoadJobs(source: Source): (b: Board)
    ensures b.jobs != [] && b.selected == b.jobs[0]
    ensures b.error.Some? <==> (source.SheetsApi? && source.api.Failure?) || (source.CsvExport? && source.csv.Failure?)
    ensures b.error.Some? ==> b.error.value == LoadError && b.jobs == SampleJobs
  {
    var fetched :=
      match source
      case NotConfigured => Success([])
      case SheetsApi(Success(data)) => Success(ParseGoogleSheets(data))
      case SheetsApi(Failure(e)) => Failure(e)
      case CsvExport(Success(text)) => Success(ParseCsvToJobs(text))
      case CsvExport(Failure(e)) => Failure(e);
    match fetched
    case Failure(_) => Board(SampleJobs, SampleJobs[0], Some(LoadError))
    case Success(jobs) =>
      if |jobs| > 0 then Board(jobs, jobs[0], None)
      else Board(SampleJobs, SampleJobs[0], None)
  }

  /** What is shown is the fetched list exactly when it is non-empty. */
  lemma LoadJobsFallback(source: Source)
    ensures source.SheetsApi? && source.api.Success? && ParseGoogleSheets(source.api.value) != []
        ==> LoadJobs(source).jobs == ParseGoogleSheets(source.api.value)
    ensures source.CsvExport? && source.csv.Success? && ParseCsvToJobs(source.csv.value) != []
        ==> LoadJobs(source).jobs == ParseCsvToJobs(source.csv.value)
    ensures source.NotConfigured? ==> LoadJobs(source).jobs == SampleJobs
    ensures source.SheetsApi? && source.api.Success? && ParseGoogleSheets(source.api.value) == []
        ==> LoadJobs(source).jobs == SampleJobs
    ensures source.CsvExport? && source.csv.Success? && ParseCsvToJobs(source.csv.value) == []
        ==> LoadJobs(source).jobs == SampleJobs
  {
  }

  const AllJobs: string := "All Jobs"

  /** The category tabs. */
  const JobCategories: seq<string> := ["All Jobs", "Technology", "Marketing", "Sales", "Design", "Management", "Content"]

  /** `job.category === selected`; a job without a category matches none. */
  predicate InCategory(job: Job, selected: string) {
    "category" in job && job["category"] == Text(selected)
  }

  /** `filteredJobs`. */
  function FilterJobs(jobs: seq<Job>, selected: string): seq<Job> {
    Sequences.SelectCategory(jobs, InCategory, AllJobs, selected)
  }

  /** 'All Jobs' shows the list unchanged; any other tab shows exactly the
      jobs of that category, in their order. */
  lemma FilterJobsSpec(jobs: seq<Job>, selected: string)
    ensures selected == AllJobs ==> FilterJobs(jobs, selected) == jobs
    ensures selected != AllJobs ==> Sequences.IsSubsequence(FilterJobs(jobs, selected), jobs)
    ensures selected != AllJobs ==>
      forall j :: 0 <= j < |jobs| ==> (jobs[j] in FilterJobs(jobs, selected) <==> InCategory(jobs[j], selected))
  {
    if selected != AllJobs {
      var r := FilterJobs(jobs, selected);
      forall j | 0 <= j < |jobs| && jobs[j] in r ensures InCategory(jobs[j], selected) {
        var i :| 0 <= i < |r| && r[i] == jobs[j];
      }
    }
  }

  /** A tab shows the first job when it is in the category, then what it
      shows of the rest. */
  lemma FilterJobsCons(job: Job, rest: seq<Job>, selected: string)
    requires selected != AllJobs
    ensures FilterJobs([job] + rest, selected)
         == (if InCategory(job, selected) then [job] else []) + FilterJobs(rest, selected)
  {
    assert ([job] + rest)[0] == job;
    assert ([job] + rest)[1..] == rest;
  }

  /** The tab of category `c` over six jobs of which exactly the first
      and the last are in `c`, or none is. */
  lemma SixJobsTab(js: seq<Job>, c: string, first: bool)
    requires |js| == 6 && c != AllJobs
    requires InCategory(js[0], c) == first && InCategory(js[5], c) == first
    requires !InCategory(js[1], c) && !InCategory(js[2], c) && !InCategory(js[3], c) && !InCategory(js[4], c)
    ensures FilterJobs(js, c) == if first then [js[0], js[5]] else []
  {
    var last := js[5..];
    assert last == [js[5]] + [];
    FilterJobsCons(js[5], [], c);
    forall i | 0 <= i < 4 ensures !InCategory(js[1..][i], c) {
      assert js[1..][i] == js[i + 1];
    }
    SkipJobs(js[1..], c, 4);
    assert js[1..][4..] == last;
    assert js == [js[0]] + js[1..];
    FilterJobsCons(js[0], js[1..], c);
  }

  /** Leading jobs outside `c` show nothing. */
  lemma {:induction false} SkipJobs(js: seq<Job>, c: string, k: nat)
    requires k <= |js| && c != AllJobs
    requires forall i :: 0 <= i < k ==> !InCategory(js[i], c)
    ensures FilterJobs(js, c) == FilterJobs(js[k..], c)
  {
    if k > 0 {
      SkipJobs(js, c, k - 1);
      assert js[k - 1..] == [js[k - 1]] + js[k..];
      FilterJobsCons(js[k - 1], js[k..], c);
    }
  }

  /** With the sample jobs, the Marketing tab shows jobs 1 and 6 and the
      Management tab shows none. */
  lemma SampleTabs()
    ensures FilterJobs(SampleJobs, "Marketing") == [SampleJobs[0], SampleJobs[5]]
    ensures FilterJobs(SampleJobs, "Management") == []
  {
    SampleMarketing();
    SampleManagement();
  }

  /** The Marketing tab over the sample jobs. */
  lemma SampleMarketing()
    ensures FilterJobs(SampleJobs, "Marketing") == [SampleJobs[0], SampleJobs[5]]
  {
    SixJobsTab(SampleJobs, "Marketing", true);
  }

  /** The Management tab over the sample jobs. */
  lemma SampleManagement()
    ensures FilterJobs(SampleJobs, "Management") == []
  {
    SixJobsTab(SampleJobs, "Management", false);
  }
}
