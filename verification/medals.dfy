/** One row of the medal table: the record it becomes, the errors that
    abort a load, and the conversion of one row of `<td>` texts into a
    record (main.py, the body of the row loop in `fetch_medal_data`). */
module Medals {

  import opened Results
  import opened Text

  datatype Medal = Gold | Silver | Bronze

  /** One country's line of the loaded frame: the `Country`, `Gold`, `Silver`
      and `Bronze` columns plus the derived `Total` column. */
  datatype MedalRecord = MedalRecord(country: string, gold: int, silver: int, bronze: int, total: int)

  /** The derived-column invariant: `Total` is the sum of the three counts. */
  predicate WellFormed(r: MedalRecord) {
    r.total == r.gold + r.silver + r.bronze
  }

  /** Why a load attempt failed. Every one of them is caught by the single
      `except` around the load and leaves the previous dataset in place.
      - Transport: the GET request or `raise_for_status` raised;
      - InvalidCount: `int()` rejected the stripped text of a count cell;
      - MissingCell: a row passed the length guard but lacked the cell read
        (the `IndexError` of `cols[4]`). */
  datatype LoadError =
    | Transport(cause: string)
    | InvalidCount(medal: Medal, text: string)
    | MissingCell(index: nat)

  type Row = seq<string>

  /** The row guard `len(cols) >= 4`. */
  const MinCells: nat := 4

  /** Positional column mapping; cell 0 (the rank) is never read. */
  const CountryCell: nat := 1
  const GoldCell: nat := 2
  const SilverCell: nat := 3
  const BronzeCell: nat := 4

  /** `int(cell.strip() or 0)`: blank text counts as 0, digits are converted,
      anything else raises. */
  function CountCell(cell: string, medal: Medal): (r: Result<int, LoadError>)
    ensures r.Ok? ==> r.value >= 0
    ensures r.Err? <==> Strip(cell) != [] && !AllDigits(Strip(cell))
    ensures r.Err? ==> r.error == InvalidCount(medal, Strip(cell))
  {
    var t := Strip(cell);
    if t == [] then Ok(0)
    else match ParseDecimal(t)
      case Some(n) => Ok(n)
      case None => Err(InvalidCount(medal, t))
  }

  /** A blank or whitespace-only count cell is read as 0. */
  lemma BlankCountIsZero(cell: string, medal: Medal)
    requires AllSpace(cell)
    ensures CountCell(cell, medal) == Ok(0)
  {
    StripEmptyIffAllSpace(cell);
  }

  /** Round trip of a count: its decimal text, with any whitespace around it,
      reads back as the count. */
  lemma CountCellShowNat(p: string, n: nat, q: string, medal: Medal)
    requires AllSpace(p) && AllSpace(q)
    ensures CountCell(p + ShowNat(n) + q, medal) == Ok(n)
  {
    ShowNatTrimmed(n);
    StripPadded(p, ShowNat(n), q);
    ParseShowNat(n);
  }

  /** One qualifying row (the loop body under `len(cols) >= 4`). The country
      is read first, then gold, silver and bronze in that order, so the first
      failing step decides the error; a row of exactly four cells gets past
      gold and silver and then fails on the missing fifth cell. */
  function ParseRow(cells: Row): (r: Result<MedalRecord, LoadError>)
    requires |cells| >= MinCells
    ensures r.Ok? ==> WellFormed(r.value)
    ensures r.Ok? ==> r.value.country == Strip(cells[CountryCell])
    ensures r.Ok? <==>
      && |cells| > BronzeCell
      && CountCell(cells[GoldCell], Gold).Ok?
      && CountCell(cells[SilverCell], Silver).Ok?
      && CountCell(cells[BronzeCell], Bronze).Ok?
  {
    var country := Strip(cells[CountryCell]);
    var gold :- CountCell(cells[GoldCell], Gold);
    var silver :- CountCell(cells[SilverCell], Silver);
    if |cells| <= BronzeCell then Err(MissingCell(BronzeCell))
    else
      var bronze :- CountCell(cells[BronzeCell], Bronze);
      Ok(MedalRecord(country, gold, silver, bronze, gold + silver + bronze))
  }

  /** The positional mapping: a converted row's counts are the values of
      cells 2, 3 and 4, and its total is their sum. */
  lemma ParseRowFields(cells: Row)
    requires |cells| >= MinCells && ParseRow(cells).Ok?
    ensures var rec := ParseRow(cells).value;
      && rec.gold == CountCell(cells[GoldCell], Gold).value
      && rec.silver == CountCell(cells[SilverCell], Silver).value
      && rec.bronze == CountCell(cells[BronzeCell], Bronze).value
      && rec.total == rec.gold + rec.silver + rec.bronze
  {
  }

  /** Which error a failing row reports: the cells are read left to right,
      so a bad gold cell wins over a bad silver cell, and both win over the
      missing bronze cell of a four-cell row. */
  lemma ParseRowErrors(cells: Row)
    requires |cells| >= MinCells
    ensures var gold := CountCell(cells[GoldCell], Gold);
      gold.Err? ==> ParseRow(cells) == Err(gold.error)
    ensures var gold, silver := CountCell(cells[GoldCell], Gold), CountCell(cells[SilverCell], Silver);
      gold.Ok? && silver.Err? ==> ParseRow(cells) == Err(silver.error)
    ensures var gold, silver := CountCell(cells[GoldCell], Gold), CountCell(cells[SilverCell], Silver);
      gold.Ok? && silver.Ok? && |cells| == MinCells ==> ParseRow(cells) == Err(MissingCell(BronzeCell))
    ensures |cells| > BronzeCell ==>
      var gold, silver := CountCell(cells[GoldCell], Gold), CountCell(cells[SilverCell], Silver);
      var bronze := CountCell(cells[BronzeCell], Bronze);
      gold.Ok? && silver.Ok? && bronze.Err? ==> ParseRow(cells) == Err(bronze.error)
  {
  }

  /** Cells after the bronze cell are never read. */
  lemma ExtraCellsIgnored(cells: Row, extra: seq<string>)
    requires |cells| > BronzeCell
    ensures ParseRow(cells + extra) == ParseRow(cells)
  {
    var c := cells + extra;
    assert c[CountryCell] == cells[CountryCell] && c[GoldCell] == cells[GoldCell];
    assert c[SilverCell] == cells[SilverCell] && c[BronzeCell] == cells[BronzeCell];
  }

  /** A row as the medal page renders a record: rank, country, then the three
      counts in decimal. */
  function RenderRow(rank: string, rec: MedalRecord): (cells: Row)
    requires rec.gold >= 0 && rec.silver >= 0 && rec.bronze >= 0
    ensures |cells| == BronzeCell + 1
  {
    [rank, rec.country, ShowNat(rec.gold), ShowNat(rec.silver), ShowNat(rec.bronze)]
  }

  /** Round trip of a row: rendering a well-formed record with non-negative
      counts and an already trimmed country name, then parsing the row, gives
      the record back. */
  lemma ParseRenderRow(rank: string, rec: MedalRecord)
    requires rec.gold >= 0 && rec.silver >= 0 && rec.bronze >= 0
    requires WellFormed(rec) && Trimmed(rec.country)
    ensures ParseRow(RenderRow(rank, rec)) == Ok(rec)
  {
    RenderedCells(rank, rec);
    ParseRowOk(RenderRow(rank, rec), rec.country, rec.gold, rec.silver, rec.bronze);
  }

  lemma RenderedCells(rank: string, rec: MedalRecord)
    requires rec.gold >= 0 && rec.silver >= 0 && rec.bronze >= 0
    requires Trimmed(rec.country)
    ensures var cells := RenderRow(rank, rec);
      && Strip(cells[CountryCell]) == rec.country
      && CountCell(cells[GoldCell], Gold) == Ok(rec.gold)
      && CountCell(cells[SilverCell], Silver) == Ok(rec.silver)
      && CountCell(cells[BronzeCell], Bronze) == Ok(rec.bronze)
  {
    var cells := RenderRow(rank, rec);
    assert cells[CountryCell] == rec.country;
    StripTrimmed(rec.country);
    RenderedCount(cells, GoldCell, rec.gold, Gold);
    RenderedCount(cells, SilverCell, rec.silver, Silver);
    RenderedCount(cells, BronzeCell, rec.bronze, Bronze);
  }

  lemma RenderedCount(cells: Row, i: nat, n: nat, medal: Medal)
    requires i < |cells| && cells[i] == ShowNat(n)
    ensures CountCell(cells[i], medal) == Ok(n)
  {
    ShowNatCell(n, medal);
  }

  /** A row whose three count cells convert yields the record of those
      counts. */
  lemma ParseRowOk(cells: Row, country: string, gold: int, silver: int, bronze: int)
    requires |cells| > BronzeCell
    requires Strip(cells[CountryCell]) == country
    requires CountCell(cells[GoldCell], Gold) == Ok(gold)
    requires CountCell(cells[SilverCell], Silver) == Ok(silver)
    requires CountCell(cells[BronzeCell], Bronze) == Ok(bronze)
    ensures ParseRow(cells) == Ok(MedalRecord(country, gold, silver, bronze, gold + silver + bronze))
  {
  }

  lemma ShowNatCell(n: nat, medal: Medal)
    ensures CountCell(ShowNat(n), medal) == Ok(n)
  {
    assert ShowNat(n) == [] + ShowNat(n) + [];
    CountCellShowNat([], n, [], medal);
  }

  /** An empty silver cell in an otherwise complete row: the record gets 0
      silver medals and the total counts only gold and bronze. */
  lemma EmptySilverExample()
    ensures ParseRow(["1", "France", "5", "", "3"]) == Ok(MedalRecord("France", 5, 0, 3, 8))
  {
    var cells := ["1", "France", "5", "", "3"];
    RenderedCount(cells, GoldCell, 5, Gold);
    RenderedCount(cells, BronzeCell, 3, Bronze);
    BlankCountIsZero(cells[SilverCell], Silver);
    StripTrimmed("France");
    ParseRowOk(cells, "France", 5, 0, 3);
  }
}
