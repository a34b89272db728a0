/** The whole-table step of `fetch_medal_data` (main.py): drop the header
    row, skip rows that fail the length guard, convert the others in table
    order and give up on the first row that raises. */
module Table {

  import opened Results
  import opened Text
  import opened Medals

  /** The loaded frame, one record per qualifying row in table order. */
  type Dataset = seq<MedalRecord>

  /** `soup.find_all('tr')[1:]`: every row but the first; no rows at all
      stay no rows. */
  function DropHeader(rows: seq<Row>): (body: seq<Row>)
    ensures |body| == if rows == [] then 0 else |rows| - 1
    ensures forall i :: 0 <= i < |body| ==> body[i] == rows[i + 1]
  {
    if rows == [] then [] else rows[1..]
  }

  /** The rows that pass `len(cols) >= 4`, in their original order. */
  function Qualifying(body: seq<Row>): (q: seq<Row>)
    ensures |q| <= |body|
    ensures forall i :: 0 <= i < |q| ==> |q[i]| >= MinCells
  {
    if body == [] then []
    else if |body[0]| >= MinCells then [body[0]] + Qualifying(body[1..])
    else Qualifying(body[1..])
  }

  /** The guard filters and nothing else: a row is kept exactly when it is
      in the table body and has at least four cells. */
  lemma {:induction false} QualifyingMembers(body: seq<Row>)
    ensures forall row :: row in Qualifying(body) <==> row in body && |row| >= MinCells
  {
    if body != [] {
      QualifyingMembers(body[1..]);
      assert body == [body[0]] + body[1..];
    }
  }

  lemma {:induction false} QualifyingAppend(a: seq<Row>, b: seq<Row>)
    ensures Qualifying(a + b) == Qualifying(a) + Qualifying(b)
  {
    if a == [] {
      assert a + b == b;
    } else {
      assert (a + b)[0] == a[0];
      assert (a + b)[1..] == a[1..] + b;
      QualifyingAppend(a[1..], b);
    }
  }

  /** Every row of `q` passes the length guard. */
  predicate Guarded(q: seq<Row>) {
    forall i :: 0 <= i < |q| ==> |q[i]| >= MinCells
  }

  /** Each qualifying row converted on its own, in order. */
  function Convert(q: seq<Row>): (rs: seq<Result<MedalRecord, LoadError>>)
    requires Guarded(q)
  {
    seq(|q|, i requires 0 <= i < |q| => ParseRow(q[i]))
  }

  lemma ConvertAppend(a: seq<Row>, b: seq<Row>)
    requires Guarded(a) && Guarded(b)
    ensures Guarded(a + b) && Convert(a + b) == Convert(a) + Convert(b)
  {
    var ab := a + b;
    var l := Convert(ab);
    var r := Convert(a) + Convert(b);
    forall i | 0 <= i < |ab|
      ensures l[i] == r[i]
    {
      if i < |a| {
        assert ab[i] == a[i];
      } else {
        assert ab[i] == b[i - |a|];
      }
    }
  }

  /** The rows of the table that the loop converts: all but the header, and
      of those only the ones passing the length guard. */
  function Body(rows: seq<Row>): (q: seq<Row>)
    ensures Guarded(q)
  {
    Qualifying(DropHeader(rows))
  }

  /** The parsing half of `fetch_medal_data` (the loop and the frame built
      from its lists): the records of the table in order, or the error that
      aborts the load. */
  function Ingest(rows: seq<Row>): (r: Result<Dataset, LoadError>)
    ensures r.Ok? ==> |r.value| <= if rows == [] then 0 else |rows| - 1
    ensures r.Ok? ==> forall i :: 0 <= i < |r.value| ==> WellFormed(r.value[i])
  {
    var rs := Convert(Body(rows));
    CollectSpec(rs);
    Collect(rs)
  }

  /** On success the records are the qualifying rows converted one by one, in
      table order; in particular each country is the stripped text of the
      row's second cell. */
  lemma IngestRecords(rows: seq<Row>)
    requires Ingest(rows).Ok?
    ensures |Ingest(rows).value| == |Body(rows)|
    ensures forall i :: 0 <= i < |Body(rows)| ==>
      && ParseRow(Body(rows)[i]) == Ok(Ingest(rows).value[i])
      && Ingest(rows).value[i].country == Strip(Body(rows)[i][CountryCell])
  {
    var rs := Convert(Body(rows));
    CollectSpec(rs);
    assert forall i :: 0 <= i < |rs| ==> rs[i] == ParseRow(Body(rows)[i]);
  }

  /** On failure the error is that of the first qualifying row that does not
      convert: the rows before it converted, and nothing of them is kept. */
  lemma IngestFirstFailure(rows: seq<Row>)
    requires Ingest(rows).Err?
    ensures exists j: nat :: (j < |Body(rows)|
      && ParseRow(Body(rows)[j]) == Err(Ingest(rows).error)
      && forall i :: 0 <= i < j ==> ParseRow(Body(rows)[i]).Ok?)
  {
    var rs := Convert(Body(rows));
    CollectSpec(rs);
    var j: nat :| FirstErr(rs, j) && Collect(rs).error == rs[j].error;
    assert rs[j] == ParseRow(Body(rows)[j]);
    assert forall i :: 0 <= i < j ==> rs[i] == ParseRow(Body(rows)[i]);
  }

  /** A load succeeds exactly when every row after the first that passes the
      length guard converts. */
  lemma IngestOkIff(rows: seq<Row>)
    ensures Ingest(rows).Ok? <==>
      forall i :: 1 <= i < |rows| && |rows[i]| >= MinCells ==> ParseRow(rows[i]).Ok?
  {
    var body := DropHeader(rows);
    var q := Body(rows);
    var rs := Convert(q);
    CollectSpec(rs);
    QualifyingMembers(body);
    if Ingest(rows).Ok? {
      forall i | 1 <= i < |rows| && |rows[i]| >= MinCells
        ensures ParseRow(rows[i]).Ok?
      {
        assert body[i - 1] == rows[i];
        assert rows[i] in q;
        var j :| 0 <= j < |q| && q[j] == rows[i];
        assert rs[j] == ParseRow(q[j]);
      }
    } else {
      var j: nat :| FirstErr(rs, j) && Collect(rs).error == rs[j].error;
      assert q[j] in body;
      var k :| 0 <= k < |body| && body[k] == q[j];
      assert rows[k + 1] == q[j] && ParseRow(rows[k + 1]).Err?;
    }
  }

  /** The first row is never read: whatever it holds, the load is the same. */
  lemma HeaderIgnored(h1: Row, h2: Row, rest: seq<Row>)
    ensures Ingest([h1] + rest) == Ingest([h2] + rest)
  {
    assert DropHeader([h1] + rest) == rest == DropHeader([h2] + rest);
  }

  /** A row after the first with fewer than four cells is skipped: the load
      goes exactly as if the row were not there, and it cannot make the load
      fail. */
  lemma ShortRowSkipped(rows: seq<Row>, i: nat)
    requires 1 <= i < |rows| && |rows[i]| < MinCells
    ensures Ingest(rows) == Ingest(rows[..i] + rows[i + 1..])
  {
    var without := rows[..i] + rows[i + 1..];
    assert rows[1..] == rows[1..i] + [rows[i]] + rows[i + 1..];
    assert without[1..] == rows[1..i] + rows[i + 1..];
    QualifyingSkipsShortRow(rows[1..i], rows[i], rows[i + 1..]);
    assert Body(rows) == Body(without);
  }

  lemma QualifyingSkipsShortRow(pre: seq<Row>, row: Row, post: seq<Row>)
    requires |row| < MinCells
    ensures Qualifying(pre + [row] + post) == Qualifying(pre + post)
  {
    QualifyingAppend(pre + [row], post);
    QualifyingAppend(pre, [row]);
    QualifyingAppend(pre, post);
    assert Qualifying([row]) == [];
  }

  /** A row after the first with exactly four cells passes the guard but has
      no bronze cell, so the whole load fails. */
  lemma FourCellRowFailsLoad(rows: seq<Row>, i: nat)
    requires 1 <= i < |rows| && |rows[i]| == MinCells
    ensures Ingest(rows).Err?
  {
    IngestOkIff(rows);
  }

  /** A count cell, in any qualifying row after the first, whose stripped
      text is neither empty nor a number makes the whole load fail. */
  lemma InvalidCountFailsLoad(rows: seq<Row>, i: nat, cell: nat)
    requires 1 <= i < |rows| && |rows[i]| >= MinCells
    requires cell in {GoldCell, SilverCell, BronzeCell} && cell < |rows[i]|
    requires Strip(rows[i][cell]) != [] && !AllDigits(Strip(rows[i][cell]))
    ensures Ingest(rows).Err?
  {
    IngestOkIff(rows);
  }

  /** A blank or whitespace-only count cell of a loaded row reads as 0. */
  lemma BlankCountsLoadAsZero(rows: seq<Row>, j: nat)
    requires Ingest(rows).Ok? && j < |Body(rows)|
    ensures var cells, rec := Body(rows)[j], Ingest(rows).value[j];
      && (AllSpace(cells[GoldCell]) ==> rec.gold == 0)
      && (AllSpace(cells[SilverCell]) ==> rec.silver == 0)
      && (|cells| > BronzeCell && AllSpace(cells[BronzeCell]) ==> rec.bronze == 0)
  {
    IngestRecords(rows);
    var cells := Body(rows)[j];
    ParseRowFields(cells);
    if AllSpace(cells[GoldCell]) {
      BlankCountIsZero(cells[GoldCell], Gold);
    }
    if AllSpace(cells[SilverCell]) {
      BlankCountIsZero(cells[SilverCell], Silver);
    }
    if |cells| > BronzeCell && AllSpace(cells[BronzeCell]) {
      BlankCountIsZero(cells[BronzeCell], Bronze);
    }
  }

  /** The frame built from the four column lists, with the `Total` column
      added as the element-wise sum of the three count columns. */
  function Assemble(countries: seq<string>, golds: seq<int>, silvers: seq<int>, bronzes: seq<int>): (ds: Dataset)
    requires |golds| == |countries| && |silvers| == |countries| && |bronzes| == |countries|
    ensures |ds| == |countries|
  {
    seq(|countries|, i requires 0 <= i < |countries| =>
      MedalRecord(countries[i], golds[i], silvers[i], bronzes[i], golds[i] + silvers[i] + bronzes[i]))
  }

  lemma AssembleSnoc(countries: seq<string>, golds: seq<int>, silvers: seq<int>, bronzes: seq<int>,
                     country: string, gold: int, silver: int, bronze: int)
    requires |golds| == |countries| && |silvers| == |countries| && |bronzes| == |countries|
    ensures Assemble(countries + [country], golds + [gold], silvers + [silver], bronzes + [bronze])
      == Assemble(countries, golds, silvers, bronzes) + [MedalRecord(country, gold, silver, bronze, gold + silver + bronze)]
  {
  }

  /** The state of the fail-fast loop after the rows `body[..i]`. */
  function LoopState(body: seq<Row>, i: nat): Result<Dataset, LoadError>
    requires i <= |body|
  {
    Collect(Convert(Qualifying(body[..i])))
  }

  /** One more row, too short for the guard: the loop state stays as it is. */
  lemma LoopSkips(body: seq<Row>, i: nat)
    requires i < |body| && |body[i]| < MinCells
    ensures LoopState(body, i + 1) == LoopState(body, i)
  {
    var row := body[i];
    assert body[..i + 1] == body[..i] + [row];
    QualifyingAppend(body[..i], [row]);
    assert Qualifying([row]) == [];
    assert Qualifying(body[..i]) + [] == Qualifying(body[..i]);
  }

  /** One more qualifying row after a clean prefix: it either adds its record
      or turns the loop state into its error. */
  lemma LoopConverts(body: seq<Row>, i: nat)
    requires i < |body| && |body[i]| >= MinCells && LoopState(body, i).Ok?
    ensures LoopState(body, i + 1) ==
      match ParseRow(body[i])
      case Err(e) => Err(e)
      case Ok(rec) => Ok(LoopState(body, i).value + [rec])
  {
    var row := body[i];
    var q := Qualifying(body[..i]);
    assert body[..i + 1] == body[..i] + [row];
    QualifyingAppend(body[..i], [row]);
    assert Qualifying([row]) == [row];
    ConvertAppend(q, [row]);
    assert Convert([row]) == [ParseRow(row)];
    CollectAppend(Convert(q), [ParseRow(row)]);
    CollectSingle(ParseRow(row));
  }

  /** Once the loop state is an error, the rest of the table does not
      matter. */
  lemma LoopStops(body: seq<Row>, i: nat)
    requires i <= |body| && LoopState(body, i).Err?
    ensures Collect(Convert(Qualifying(body))) == LoopState(body, i)
  {
    assert body == body[..i] + body[i..];
    QualifyingAppend(body[..i], body[i..]);
    ConvertAppend(Qualifying(body[..i]), Qualifying(body[i..]));
    CollectAppend(Convert(Qualifying(body[..i])), Convert(Qualifying(body[i..])));
  }

  /** The body of the row loop for a row that passed the guard: the country,
      then gold, silver and bronze converted in turn, the first exception
      ending the row. */
  method ConvertCells(cells: Row) returns (r: Result<MedalRecord, LoadError>)
    requires |cells| >= MinCells
    ensures r == ParseRow(cells)
  {
    ParseRowErrors(cells);
    var country := Strip(cells[CountryCell]);
    var gold := CountCell(cells[GoldCell], Gold);
    if gold.Err? {
      return Err(gold.error);
    }
    var silver := CountCell(cells[SilverCell], Silver);
    if silver.Err? {
      return Err(silver.error);
    }
    if |cells| <= BronzeCell {
      return Err(MissingCell(BronzeCell));
    }
    var bronze := CountCell(cells[BronzeCell], Bronze);
    if bronze.Err? {
      return Err(bronze.error);
    }
    ParseRowOk(cells, country, gold.value, silver.value, bronze.value);
    r := Ok(MedalRecord(country, gold.value, silver.value, bronze.value, gold.value + silver.value + bronze.value));
  }

  /** The loop of `fetch_medal_data` as written: four parallel column lists
      filled row by row, the first exception ending the load; then the frame
      with its `Total` column. It computes exactly `Ingest`. */
  method LoadTable(rows: seq<Row>) returns (r: Result<Dataset, LoadError>)
    ensures r == Ingest(rows)
  {
    var body := DropHeader(rows);
    assert Ingest(rows) == Collect(Convert(Qualifying(body)));
    var countries: seq<string> := [];
    var golds: seq<int> := [];
    var silvers: seq<int> := [];
    var bronzes: seq<int> := [];
    var i := 0;
    while i < |body|
      invariant i <= |body|
      invariant |golds| == |countries| && |silvers| == |countries| && |bronzes| == |countries|
      invariant LoopState(body, i) == Ok(Assemble(countries, golds, silvers, bronzes))
    {
      var cells := body[i];
      if |cells| < MinCells {
        LoopSkips(body, i);
      } else {
        LoopConverts(body, i);
        var rec := ConvertCells(cells);
        if rec.Err? {
          LoopStops(body, i + 1);
          return Err(rec.error);
        }
        var x := rec.value;
        assert WellFormed(x);
        assert x == MedalRecord(x.country, x.gold, x.silver, x.bronze, x.gold + x.silver + x.bronze);
        AssembleSnoc(countries, golds, silvers, bronzes, x.country, x.gold, x.silver, x.bronze);
        countries := countries + [x.country];
        golds := golds + [x.gold];
        silvers := silvers + [x.silver];
        bronzes := bronzes + [x.bronze];
      }
      i := i + 1;
    }
    assert body[..i] == body;
    r := Ok(Assemble(countries, golds, silvers, bronzes));
  }
}
