/** The state of `MedalAnalysisApp` (main.py) that the handlers read and
    write: the stored frame `medal_data` and the country list box. Each
    handler is a function from the state and its inputs to the new state and
    what the user is told. The HTTP fetch and the HTML parser stay outside:
    `Fetch` receives the `<td>` texts of every `<tr>` of the page, or the
    message of the exception the request raised. */
module MedalApp {

  import opened Results
  import opened Text
  import opened Medals
  import opened Table
  import opened Ranking

  /** `medal_data` (absent until the first successful load) and the entries
      of `country_listbox`. */
  datatype App = App(data: Option<Dataset>, listbox: seq<string>)

  /** The state after `__init__`: no data and an empty list box. */
  function Initial(): App {
    App(None, [])
  }

  /** The `Country` column of a frame, in row order. */
  function Countries(ds: Dataset): seq<string> {
    seq(|ds|, i requires 0 <= i < |ds| => ds[i].country)
  }

  /** The list box shows the stored frame's countries, row for row, and every
      stored record carries the derived total. */
  predicate Valid(app: App) {
    match app.data
    case None => app.listbox == []
    case Some(ds) =>
      && app.listbox == Countries(ds)
      && forall i :: 0 <= i < |ds| ==> WellFormed(ds[i])
  }

  /** The message box a load ends with. */
  datatype Notice = DataLoaded(count: nat) | LoadFailed(error: LoadError)

  datatype Step = Step(app: App, notice: Notice)

  /** `fetch_medal_data`: on success the frame replaces the stored one, the
      list box is refilled from it and the number of countries is reported;
      any exception leaves the state as it was and reports the error. */
  function Fetch(app: App, fetched: Result<seq<Row>, string>): (r: Step)
    ensures r.notice.LoadFailed? ==> r.app == app
    ensures r.notice.DataLoaded? <==> fetched.Ok? && Ingest(fetched.value).Ok?
    ensures fetched.Err? ==> r.notice == LoadFailed(Transport(fetched.error))
    ensures fetched.Ok? && Ingest(fetched.value).Err? ==>
      r.notice == LoadFailed(Ingest(fetched.value).error)
    ensures r.notice.DataLoaded? ==>
      && r.app.data == Some(Ingest(fetched.value).value)
      && r.notice.count == |Body(fetched.value)|
    ensures Valid(app) ==> Valid(r.app)
  {
    match fetched
    case Err(cause) => Step(app, LoadFailed(Transport(cause)))
    case Ok(rows) =>
      match Ingest(rows)
      case Err(e) => Step(app, LoadFailed(e))
      case Ok(ds) =>
        IngestRecords(rows);
        Step(App(Some(ds), Countries(ds)), DataLoaded(|ds|))
  }

  /** A successful load leaves the state valid whatever came before it. */
  lemma FetchRestoresValid(app: App, rows: seq<Row>)
    requires Ingest(rows).Ok?
    ensures Valid(Fetch(app, Ok(rows)).app)
    ensures Fetch(app, Ok(rows)).app.listbox == Countries(Ingest(rows).value)
  {
  }

  /** Loading the same page again changes nothing: the state after the second
      load is the state after the first. */
  lemma FetchIdempotent(app: App, fetched: Result<seq<Row>, string>)
    ensures Fetch(Fetch(app, fetched).app, fetched).app == Fetch(app, fetched).app
  {
  }

  /** A count cell that is neither blank nor a number, in any qualifying row
      after the first, makes the load fail and keeps whatever was stored
      before, including nothing. */
  lemma MalformedCountKeepsStore(app: App, rows: seq<Row>, i: nat, cell: nat)
    requires 1 <= i < |rows| && |rows[i]| >= MinCells
    requires cell in {GoldCell, SilverCell, BronzeCell} && cell < |rows[i]|
    requires Strip(rows[i][cell]) != [] && !AllDigits(Strip(rows[i][cell]))
    ensures Fetch(app, Ok(rows)).app == app
    ensures Fetch(app, Ok(rows)).notice.LoadFailed?
  {
    InvalidCountFailsLoad(rows, i, cell);
  }

  /** Before the first load the list box is empty and both views answer
      "load data first". */
  lemma InitialState()
    ensures Valid(Initial()) && Initial().listbox == []
    ensures CountryChart(Initial(), []) == Err(NotLoaded)
    ensures Analytics(Initial()) == Err(NotLoaded)
  {
  }

  /** The first position of `country` in the frame's `Country` column. */
  function FindCountry(ds: Dataset, country: string): (r: Option<nat>)
    ensures r.None? <==> forall j :: 0 <= j < |ds| ==> ds[j].country != country
    ensures r.Some? ==> r.value < |ds| && ds[r.value].country == country
    ensures r.Some? ==> forall j :: 0 <= j < r.value ==> ds[j].country != country
  {
    if ds == [] then None
    else if ds[0].country == country then Some(0)
    else match FindCountry(ds[1..], country)
      case None => None
      case Some(i) => Some(i + 1)
  }

  /** The bar chart of one country: its gold, silver and bronze counts. */
  datatype MedalChart = MedalChart(country: string, gold: int, silver: int, bronze: int)

  /** Why a view was refused.
      - NotLoaded: no frame is stored yet;
      - NoSelection: no list box entry is selected;
      - NotFound: the selected name has no row (the `IndexError` of
        `values[0]` on an empty match). */
  datatype QueryError = NotLoaded | NoSelection | NotFound

  /** `display_country_medal_chart`: the counts of the first row whose
      country is the selected entry's text. The selection holds list box
      positions, as `curselection()` returns them. */
  function CountryChart(app: App, selection: seq<nat>): (r: Result<MedalChart, QueryError>)
    requires forall a :: 0 <= a < |selection| ==> selection[a] < |app.listbox|
    ensures r == Err(NotLoaded) <==> app.data.None?
    ensures app.data.Some? ==> (r == Err(NoSelection) <==> selection == [])
    ensures app.data.Some? && selection != [] ==>
      var ds, name := app.data.value, app.listbox[selection[0]];
      r == Err(NotFound) <==> forall j :: 0 <= j < |ds| ==> ds[j].country != name
    ensures r.Ok? ==>
      var ds, name := app.data.value, app.listbox[selection[0]];
      exists i :: 0 <= i < |ds| && ds[i].country == name
        && (forall j :: 0 <= j < i ==> ds[j].country != name)
        && r.value == MedalChart(name, ds[i].gold, ds[i].silver, ds[i].bronze)
  {
    match app.data
    case None => Err(NotLoaded)
    case Some(ds) =>
      if selection == [] then Err(NoSelection)
      else
        var country := app.listbox[selection[0]];
        match FindCountry(ds, country)
        case None => Err(NotFound)
        case Some(i) => Ok(MedalChart(country, ds[i].gold, ds[i].silver, ds[i].bronze))
  }

  /** While the list box mirrors the frame, a selected country is always
      found: the chart shows the first row with that name, which is at or
      before the selected row. */
  lemma ChartOfSelection(app: App, selection: seq<nat>)
    requires Valid(app) && app.data.Some? && selection != []
    requires forall a :: 0 <= a < |selection| ==> selection[a] < |app.listbox|
    ensures var ds, p := app.data.value, selection[0];
      exists i :: 0 <= i <= p && ds[i].country == ds[p].country
        && (forall j :: 0 <= j < i ==> ds[j].country != ds[p].country)
        && CountryChart(app, selection) == Ok(MedalChart(ds[p].country, ds[i].gold, ds[i].silver, ds[i].bronze))
  {
    var ds, p := app.data.value, selection[0];
    assert app.listbox[p] == ds[p].country;
    var i := FindCountry(ds, ds[p].country).value;
    assert i <= p;
  }

  /** Two rows with the same country name draw the same chart, whichever of
      them is selected: the counts of a later duplicate are never shown. */
  lemma DuplicateNamesShareChart(app: App, p: nat, q: nat)
    requires Valid(app) && app.data.Some?
    requires p < |app.data.value| && q < |app.data.value|
    requires app.data.value[p].country == app.data.value[q].country
    ensures CountryChart(app, [p]) == CountryChart(app, [q])
  {
    assert app.listbox[p] == app.listbox[q];
  }

  /** How many countries the analytics view shows. */
  const TopCount: nat := 10

  /** `display_analytics`: the `TopCount` records with the most medals in
      total, largest first, ties in table order. */
  function Analytics(app: App): (r: Result<Dataset, QueryError>)
    ensures r.Err? <==> app.data.None?
    ensures r.Err? ==> r.error == NotLoaded
    ensures r.Ok? ==> exists idx :: IsTopK(app.data.value, TopCount, idx) && r.value == Pick(app.data.value, idx)
  {
    match app.data
    case None => Err(NotLoaded)
    case Some(ds) =>
      TopPositionsMeetSpec(ds, TopCount);
      Ok(TopK(ds, TopCount))
  }

  /** The analytics view shows at most ten records, each a stored record, in
      non-increasing order of total; a frame of at most ten countries is shown
      in full. */
  lemma AnalyticsShape(app: App)
    requires app.data.Some?
    ensures var ds, r := app.data.value, Analytics(app).value;
      && |r| == Min(TopCount, |ds|)
      && (forall a :: 0 <= a < |r| ==> r[a] in ds)
      && (forall a, b :: 0 <= a < b < |r| ==> r[a].total >= r[b].total)
      && (|ds| <= TopCount ==> multiset(r) == multiset(ds))
  {
    if |app.data.value| <= TopCount {
      TopKWhole(app.data.value, TopCount);
    }
  }
}
